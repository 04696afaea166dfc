/** The Proxy-Status field, RFC 9209: what connect.go prints for a refusal and reads back. */
module ProxyStatus {
  import opened Heads
  import opened Text

  function ErrorType(reason: string): string {
    if reason in {"not-on-allowlist", "port-not-allowed", "transport-not-allowed", "udp-disabled",
                  "identity-unknown", "port-not-permitted"} then "http_request_denied"
    else if reason in {"ip-not-on-allowlist", "resolved-address-denied", "scoped-ip"} then "destination_ip_prohibited"
    else if reason == "resolve-failed" then "dns_error"
    else if reason == "dial-failed" then "destination_unavailable"
    else if reason == "busy" then "connection_limit_reached"
    else if reason == "policy-unavailable" then "proxy_configuration_error"
    else if reason == "unsupported-version" then "http_protocol_error"
    else "http_request_error"
  }

  function Print(member: string, reason: string): string {
    member + "; error=" + ErrorType(reason) + "; reason=" + reason
  }

  /** The first parameter named reason, its quotes dropped; "" when there is none. */
  function ReasonIn(params: seq<string>): string {
    if params == [] then ""
    else
      var param := Cut(TrimSpace(params[0]), '=');
      if param.found && param.before == "reason" then Trim(param.after, {'"'}) else ReasonIn(params[1..])
  }

  /** ProxyStatusReason on the field's value. */
  function Reason(field: string): string {
    ReasonIn(Split(Split(field, ',')[0], ';')[1..])
  }

  /** ProxyStatusReason as it scans. */
  method ScanReason(field: string) returns (reason: string)
    ensures reason == Reason(field)
  {
    var params := Split(Split(field, ',')[0], ';');
    var i := 1;
    while i < |params|
      invariant 1 <= i <= |params|
      invariant ReasonIn(params[i..]) == Reason(field)
    {
      var param := Cut(TrimSpace(params[i]), '=');
      if param.found && param.before == "reason" {
        return Trim(param.after, {'"'});
      }
      i := i + 1;
    }
    return "";
  }

  predicate Plain(s: string) {
    ',' !in s && ';' !in s
  }

  predicate Unquoted(s: string) {
    s != "" ==> s[0] != '"' && s[|s| - 1] != '"'
  }

  /** A reason that prints to a parameter of its own: no separators, nothing to trim. */
  predicate Printable(reason: string) {
    Plain(reason) && TrailingSpace("reason=" + reason) == 0 && Unquoted(reason)
  }

  predicate Word(s: string) {
    s != "" && forall i | 0 <= i < |s| :: 'a' <= s[i] <= 'z' || s[i] == '_'
  }

  lemma DenialWords()
    ensures Word("http_request_denied") && Word("destination_ip_prohibited") && Word("dns_error")
  {
  }

  lemma FailureWords()
    ensures Word("destination_unavailable") && Word("connection_limit_reached") && Word("proxy_configuration_error")
  {
  }

  lemma RequestWords()
    ensures Word("http_protocol_error") && Word("http_request_error")
  {
  }

  lemma ErrorTypeIsWord(reason: string)
    ensures Word(ErrorType(reason))
  {
    hide Word;
    DenialWords();
    FailureWords();
    RequestWords();
  }

  lemma WordIsPlain(s: string)
    requires Word(s)
    ensures Plain(s) && Visible(s[|s| - 1])
  {
  }

  lemma ErrorParam(t: string)
    requires t != "" && Visible(t[|t| - 1])
    ensures var param := Cut(TrimSpace(" error=" + t), '='); param == Halves("error", t, true)
  {
    var text := "error=" + t;
    assert " " + text == " error=" + t;
    assert text[|text| - 1] == t[|t| - 1];
    TrimPadding(" ", text, "");
    assert " " + text + "" == " error=" + t;
    IndexOfFirst(text, '=', 5);
    assert text[..5] == "error" && text[6..] == t;
  }

  lemma ReasonParam(s: string)
    ensures var param := Cut("reason=" + s, '='); param == Halves("reason", s, true)
  {
    var text := "reason=" + s;
    IndexOfFirst(text, '=', 6);
    assert text[..6] == "reason" && text[7..] == s;
  }

  /** The reason up to its first separator. */
  function Visibly(reason: string): string {
    Split(Split(reason, ',')[0], ';')[0]
  }

  lemma SplitHead(s: string, c: char)
    ensures Split(s, c)[0] == s[..IndexOf(s, c)]
  {
  }

  lemma VisiblyShorter(reason: string)
    ensures |Visibly(reason)| <= |reason|
    ensures |Visibly(reason)| == |reason| <==> Plain(reason)
    ensures Plain(reason) ==> Visibly(reason) == reason
  {
    hide Split, IndexOf;
    var first := Split(reason, ',')[0];
    SplitHead(reason, ',');
    SplitHead(first, ';');
    assert ',' !in reason ==> first == reason;
  }

  lemma SplitHeadConcat(pre: string, s: string, c: char)
    requires c !in pre
    ensures Split(pre + s, c)[0] == pre + Split(s, c)[0]
  {
    hide Split, IndexOf;
    SplitHead(pre + s, c);
    SplitHead(s, c);
    var i := IndexOf(s, c);
    assert (pre + s)[..|pre| + i] == pre + s[..i];
    if i < |s| {
      IndexOfFirst(pre + s, c, |pre| + i);
    }
  }

  lemma PrintSplits(member: string, reason: string)
    requires Plain(member)
    ensures var params := Split(Split(Print(member, reason), ',')[0], ';')[1..];
      && |params| >= 2
      && params[0] == " error=" + ErrorType(reason)
      && params[1] == " reason=" + Visibly(reason)
  {
    hide Split, ErrorType;
    ErrorTypeIsWord(reason);
    WordIsPlain(ErrorType(reason));
    var first, second := " error=" + ErrorType(reason), " reason=";
    var pre := member + [';'] + (first + [';'] + second);
    assert Print(member, reason) == pre + reason;
    SplitHeadConcat(pre, reason, ',');
    var r := Split(reason, ',')[0];
    assert pre + r == member + [';'] + (first + [';'] + (second + r));
    SplitFirst(member, ';', first + [';'] + (second + r));
    SplitFirst(first, ';', second + r);
    SplitHeadConcat(second, r, ';');
  }

  /** White space after the reason is trimmed, and never reaches into its key. */
  lemma {:induction false} ReasonTrims(a: string) returns (b: string)
    ensures TrimSpaceRight("reason=" + a) == "reason=" + b
    ensures |b| <= |a|
    ensures if TrailingSpace("reason=" + a) == 0 then b == a else |b| < |a|
    decreases |a|
  {
    hide TrimSpaceRight;
    var text := "reason=" + a;
    var n := TrailingSpace(text);
    TrimsTrailing(text);
    if n == 0 {
      b := a;
    } else {
      KeyIsNoSpace(a);
      assert text[..|text| - n] == "reason=" + a[..|a| - n];
      b := ReasonTrims(a[..|a| - n]);
    }
  }

  lemma TrimsTrailing(s: string)
    ensures var n := TrailingSpace(s); TrimSpaceRight(s) == if n > 0 then TrimSpaceRight(s[..|s| - n]) else s
  {
  }

  lemma KeyIsNoSpace(a: string)
    ensures TrailingSpace("reason=" + a) <= |a|
  {
    var text := "reason=" + a;
    if |a| == 0 {
      assert text[|text| - 1] == '=';
    } else if |a| == 1 {
      assert text[|text| - 2] == '=';
    } else if |a| == 2 {
      assert text[|text| - 3] == '=';
    }
  }

  lemma LeadingTrims(text: string)
    requires text != "" && Visible(text[0])
    ensures TrimSpace(" " + text) == TrimSpaceRight(text)
  {
    assert (" " + text)[1..] == text;
    assert TrimSpaceLeft(" " + text) == TrimSpaceLeft(text) == text;
  }

  /** The parameter's value loses trailing space and outer quotes, so it is no longer than what was written. */
  lemma ReasonFound(t: string, a: string, params: seq<string>)
    requires Word(t) && |params| >= 2 && params[0] == " error=" + t && params[1] == " reason=" + a
    ensures |ReasonIn(params)| <= |a|
    ensures ReasonIn(params) == a <==> TrailingSpace("reason=" + a) == 0 && Unquoted(a)
  {
    hide Cut, TrimSpace, Trim, TrailingSpace;
    WordIsPlain(t);
    ErrorParam(t);
    var b := ReasonTrims(a);
    LeadingTrims("reason=" + a);
    assert " " + ("reason=" + a) == params[1];
    ReasonParam(b);
    assert params[1..][0] == params[1];
    assert ReasonIn(params) == ReasonIn(params[1..]) == Trim(b, {'"'});
    TrimShortens(b);
  }

  lemma {:induction false} TrimLeftShortens(s: string)
    ensures |TrimLeft(s, {'"'})| <= |s|
    ensures TrimLeft(s, {'"'}) == s <==> (s != "" ==> s[0] != '"')
  {
    if s != "" && s[0] == '"' {
      TrimLeftShortens(s[1..]);
    }
  }

  lemma {:induction false} TrimRightShortens(s: string)
    ensures |TrimRight(s, {'"'})| <= |s|
    ensures TrimRight(s, {'"'}) == s <==> (s != "" ==> s[|s| - 1] != '"')
  {
    if s != "" && s[|s| - 1] == '"' {
      TrimRightShortens(s[..|s| - 1]);
    }
  }

  lemma TrimShortens(s: string)
    ensures |Trim(s, {'"'})| <= |s|
    ensures Trim(s, {'"'}) == s <==> Unquoted(s)
  {
    hide TrimLeft, TrimRight;
    TrimLeftShortens(s);
    TrimRightShortens(TrimLeft(s, {'"'}));
    TrimLeftStrict(s);
  }

  lemma TrimLeftStrict(s: string)
    ensures TrimLeft(s, {'"'}) != s ==> |TrimLeft(s, {'"'})| < |s|
  {
    if s != "" && s[0] == '"' {
      TrimLeftShortens(s[1..]);
    }
  }

  /** A reason comes back from the field that carries it exactly when it is printable, the empty one included. */
  lemma ReasonRoundTrip(member: string, reason: string)
    requires Plain(member)
    ensures Reason(Print(member, reason)) == reason <==> Printable(reason)
  {
    hide Split, ErrorType, ReasonIn, TrailingSpace, Visibly;
    PrintSplits(member, reason);
    ErrorTypeIsWord(reason);
    VisiblyShorter(reason);
    ReasonFound(ErrorType(reason), Visibly(reason), Split(Split(Print(member, reason), ',')[0], ';')[1..]);
  }

  /** Every registered reason is a token of letters and hyphens, which is printable. */
  lemma TokensArePrintable(reason: string)
    requires reason != "" && forall i | 0 <= i < |reason| :: 'a' <= reason[i] <= 'z' || reason[i] == '-'
    ensures Printable(reason)
  {
    var text := "reason=" + reason;
    assert text[|text| - 1] == reason[|reason| - 1];
  }
}
