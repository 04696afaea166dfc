/**
 * The connect-udp URI template /.well-known/masque/udp/{host}/{port}/: the
 * client's printer in connect.go and the boundary's parser in main.go.
 */
module Template {
  import opened HostPorts
  import opened Text
  import opened Wrappers

  /** Every char is a byte. */
  predicate IsBytes(s: string) {
    forall i | 0 <= i < |s| :: s[i] < '\U{100}'
  }

  // ---- percent-encoding of a path segment ----

  function HexDigit(n: nat): char
    requires n < 0x10
  {
    if n < 10 then '0' + n as char else 'A' + (n - 10) as char
  }

  function HexValue(c: char): (n: Option<nat>)
    ensures n.Some? ==> n.value < 0x10
  {
    if '0' <= c <= '9' then Some((c - '0') as nat)
    else if 'a' <= c <= 'f' then Some((c - 'a') as nat + 10)
    else if 'A' <= c <= 'F' then Some((c - 'A') as nat + 10)
    else None
  }

  predicate Unreserved(c: char) {
    'a' <= c <= 'z' || 'A' <= c <= 'Z' || '0' <= c <= '9' || c in {'-', '_', '.', '~'}
  }

  predicate SegmentChar(c: char) {
    Unreserved(c) || c in {'$', '&', '+', ':', '=', '@'}
  }

  function Percent(c: char): string
    requires c < '\U{100}'
  {
    ['%', HexDigit(c as nat / 0x10), HexDigit(c as nat % 0x10)]
  }

  /** url.PathEscape. */
  function PathEscape(s: string): string
    requires IsBytes(s)
  {
    if s == "" then "" else (if SegmentChar(s[0]) then [s[0]] else Percent(s[0])) + PathEscape(s[1..])
  }

  /** url.PathUnescape; none for a "%" without two hexadecimal digits after it. */
  function PathUnescape(s: string): Option<string> {
    if s == "" then Some("")
    else if s[0] != '%' then Prepend(s[0], PathUnescape(s[1..]))
    else if |s| < 3 || HexValue(s[1]).None? || HexValue(s[2]).None? then None
    else Prepend((HexValue(s[1]).value * 0x10 + HexValue(s[2]).value) as char, PathUnescape(s[3..]))
  }

  function Prepend(c: char, s: Option<string>): Option<string> {
    match s
    case Some(t) => Some([c] + t)
    case None => None
  }

  function ReplaceAll(s: string, c: char, with_: string): string {
    if s == "" then "" else (if s[0] == c then with_ else [s[0]]) + ReplaceAll(s[1..], c, with_)
  }

  lemma PercentUnescapes(c: char, tail: string)
    requires c < '\U{100}'
    ensures PathUnescape(Percent(c) + tail) == Prepend(c, PathUnescape(tail))
  {
    var s := Percent(c) + tail;
    var n := c as nat;
    assert s[3..] == tail;
    assert HexValue(s[1]) == Some(n / 0x10) && HexValue(s[2]) == Some(n % 0x10);
  }

  /** An escape of two hexadecimal digits, in either case, reads as their value. */
  lemma EscapeReads(i: nat, j: nat, x: char, y: char, tail: string)
    requires i < 16 && j < 16
    requires x in {"0123456789abcdef"[i], "0123456789ABCDEF"[i]} && y in {"0123456789abcdef"[j], "0123456789ABCDEF"[j]}
    ensures PathUnescape(['%', x, y] + tail) == Prepend((16 * i + j) as char, PathUnescape(tail))
  {
    DigitReads(i, x);
    DigitReads(j, y);
    assert (['%', x, y] + tail)[3..] == tail;
  }

  lemma DigitReads(i: nat, x: char)
    requires i < 16 && x in {"0123456789abcdef"[i], "0123456789ABCDEF"[i]}
    ensures HexValue(x) == Some(i)
  {
  }

  /** Any other escape does not decode. */
  lemma BadEscapeFails(s: string)
    requires s != "" && s[0] == '%'
    requires |s| < 3 || s[1] !in "0123456789abcdefABCDEF" || s[2] !in "0123456789abcdefABCDEF"
    ensures PathUnescape(s) == None
  {
    if |s| >= 3 {
      NoDigitFails(s[1]);
      NoDigitFails(s[2]);
    }
  }

  lemma NoDigitFails(x: char)
    ensures HexValue(x).Some? ==> x in "0123456789abcdefABCDEF"
  {
    if '0' <= x <= '9' {
      assert x == "0123456789abcdefABCDEF"[x as int - 48];
    } else if 'a' <= x <= 'f' {
      assert x == "0123456789abcdefABCDEF"[x as int - 87];
    } else if 'A' <= x <= 'F' {
      assert x == "0123456789abcdefABCDEF"[x as int - 49];
    }
  }

  function Append(a: string, b: Option<string>): Option<string> {
    match b
    case Some(t) => Some(a + t)
    case None => None
  }

  lemma AppendPrepend(c: char, a: string, b: Option<string>)
    ensures Append([c] + a, b) == Prepend(c, Append(a, b))
  {
    if b.Some? {
      assert [c] + a + b.value == [c] + (a + b.value);
    }
  }

  /** A text that decodes decodes the same in front of any other. */
  lemma {:induction false} UnescapeConcat(a: string, b: string)
    requires PathUnescape(a).Some?
    ensures PathUnescape(a + b) == Append(PathUnescape(a).value, PathUnescape(b))
  {
    if a == "" {
      assert a + b == b;
      assert PathUnescape(b).Some? ==> "" + PathUnescape(b).value == PathUnescape(b).value;
    } else {
      var n := if a[0] == '%' then 3 else 1;
      assert (a + b)[n..] == a[n..] + b;
      assert a[0] == '%' ==> (a + b)[1] == a[1] && (a + b)[2] == a[2];
      UnescapeConcat(a[n..], b);
      var front := PathUnescape(a).value;
      assert front[1..] == PathUnescape(a[n..]).value;
      AppendPrepend(front[0], front[1..], PathUnescape(b));
      assert front == [front[0]] + front[1..];
    }
  }

  /** A text decodes to itself exactly when it holds no "%": any escape makes it shorter. */
  lemma {:induction false} UnescapeIsIdentity(s: string)
    ensures PathUnescape(s) == Some(s) <==> '%' !in s
    ensures PathUnescape(s).Some? ==> |PathUnescape(s).value| <= |s|
    ensures PathUnescape(s).Some? && '%' in s ==> |PathUnescape(s).value| < |s|
  {
    if s != "" {
      var n := if s[0] == '%' then 3 else 1;
      assert s == [s[0]] + s[1..];
      if n <= |s| {
        UnescapeIsIdentity(s[n..]);
      }
    }
  }

  /** The host as udpProxyURL encodes it: a segment with its colons encoded too. */
  function EncodedHost(host: string): string
    requires IsBytes(host)
  {
    ReplaceAll(PathEscape(host), ':', "%3A")
  }

  lemma {:induction false} ReplaceConcat(a: string, b: string, c: char, with_: string)
    ensures ReplaceAll(a + b, c, with_) == ReplaceAll(a, c, with_) + ReplaceAll(b, c, with_)
  {
    if a == "" {
      assert a + b == b;
    } else {
      assert (a + b)[1..] == a[1..] + b;
      ReplaceConcat(a[1..], b, c, with_);
    }
  }

  lemma {:induction false} ReplaceNothing(s: string, c: char, with_: string)
    requires c !in s
    ensures ReplaceAll(s, c, with_) == s
  {
    if s != "" {
      assert s == [s[0]] + s[1..];
      ReplaceNothing(s[1..], c, with_);
    }
  }

  function EncodedChar(c: char): string
    requires c < '\U{100}'
  {
    if SegmentChar(c) && c != ':' then [c] else Percent(c)
  }

  lemma EncodedHostFirst(host: string)
    requires IsBytes(host) && host != ""
    ensures EncodedHost(host) == EncodedChar(host[0]) + EncodedHost(host[1..])
  {
    var c := host[0];
    var first := if SegmentChar(c) then [c] else Percent(c);
    ReplaceConcat(first, PathEscape(host[1..]), ':', "%3A");
    if c == ':' {
      assert ReplaceAll(first, ':', "%3A") == "%3A" + "";
    } else {
      ReplaceNothing(first, ':', "%3A");
    }
  }

  /** Decoding undoes the encoding for every host. */
  lemma {:induction false} EncodedHostDecodes(host: string)
    requires IsBytes(host)
    ensures PathUnescape(EncodedHost(host)) == Some(host)
  {
    hide EncodedHost;
    if host == "" {
      assert EncodedHost("") == "" by { EncodedNothing(); }
    } else {
      var c, rest := host[0], EncodedHost(host[1..]);
      EncodedHostFirst(host);
      EncodedHostDecodes(host[1..]);
      assert host == [c] + host[1..];
      if SegmentChar(c) && c != ':' {
        assert ([c] + rest)[1..] == rest;
      } else {
        PercentUnescapes(c, rest);
      }
    }
  }

  lemma EncodedNothing()
    ensures EncodedHost("") == ""
  {
  }

  /** Byte by byte: letters, digits and -_.~$&+=@ stand for themselves, any other byte is "%" and two upper-case digits. */
  lemma EncodedBytes(host: string, c: char)
    requires IsBytes(host) && c < '\U{100}'
    ensures EncodedHost([c] + host) == EncodedHost([c]) + EncodedHost(host)
    ensures EncodedHost([c]) ==
      if 'a' <= c <= 'z' || 'A' <= c <= 'Z' || '0' <= c <= '9' || c in "-_.~$&+=@" then [c]
      else ['%', "0123456789ABCDEF"[c as nat / 16], "0123456789ABCDEF"[c as nat % 16]]
  {
    hide EncodedHost;
    EncodedHostFirst([c] + host);
    EncodedHostFirst([c]);
    EncodedNothing();
    assert ([c] + host)[1..] == host && [c][1..] == "";
    HexDigits(c as nat / 16);
    HexDigits(c as nat % 16);
  }

  lemma HexDigits(n: nat)
    requires n < 16
    ensures HexDigit(n) == "0123456789ABCDEF"[n]
  {
  }

  // ---- the client's URL ----

  const TEMPLATE := "/.well-known/masque/udp/"

  function TemplatePath(host: string, port: nat): string {
    TEMPLATE + host + "/" + Decimal(port) + "/"
  }

  /** udpProxyURL's Path and RawPath. */
  datatype ProxyUrl = ProxyUrl(path: string, rawPath: string)

  function UdpProxyUrl(host: string, port: nat): ProxyUrl
    requires IsBytes(host)
  {
    ProxyUrl(TemplatePath(host, port), TemplatePath(EncodedHost(host), port))
  }

  /** A char url.URL.EscapedPath accepts in a RawPath: the others make it print Path anew. */
  predicate ValidInPath(c: char) {
    Unreserved(c) || c in {'!', '$', '&', '\'', '(', ')', '*', '+', ',', ';', '=', ':', '@', '[', ']', '%', '/'}
  }

  predicate PrintsRawPath(u: ProxyUrl) {
    (forall c | c in u.rawPath :: ValidInPath(c)) && PathUnescape(u.rawPath) == Some(u.path)
  }

  lemma {:induction false} EncodedHostIsValid(host: string)
    requires IsBytes(host)
    ensures forall c | c in EncodedHost(host) :: ValidInPath(c) && c != '/'
  {
    hide EncodedHost;
    if host == "" {
      EncodedNothing();
    } else {
      EncodedHostFirst(host);
      EncodedHostIsValid(host[1..]);
      EncodedCharIsValid(host[0]);
    }
  }

  lemma EncodedCharIsValid(c: char)
    requires c < '\U{100}'
    ensures forall d | d in EncodedChar(c) :: ValidInPath(d) && d != '/'
  {
  }

  lemma PlainDecodes(s: string)
    requires AllDigits(s) || s == TEMPLATE || s == "/"
    ensures PathUnescape(s) == Some(s)
  {
    if AllDigits(s) {
      assert '%' !in s;
    } else {
      assert '%' !in "/.well-known/masque/udp/" && '%' !in "/";
    }
    UnescapeIsIdentity(s);
  }

  /** For every host the client's RawPath is what goes on the wire, and it decodes to its Path. */
  lemma RawPathIsSent(host: string, port: nat)
    requires IsBytes(host)
    ensures PrintsRawPath(UdpProxyUrl(host, port))
  {
    hide PathUnescape, EncodedHost, Decimal, TEMPLATE;
    var encoded, digits := EncodedHost(host), Decimal(port);
    EncodedHostDecodes(host);
    PlainDecodes(TEMPLATE);
    PlainDecodes("/");
    PlainDecodes(digits);
    UnescapeConcat(TEMPLATE, encoded);
    UnescapeConcat(TEMPLATE + encoded, "/");
    UnescapeConcat(TEMPLATE + encoded + "/", digits);
    UnescapeConcat(TEMPLATE + encoded + "/" + digits, "/");
    EncodedHostIsValid(host);
    TemplateIsValid();
    assert forall c | c in digits :: IsDigit(c);
  }

  lemma TemplateIsValid()
    ensures forall c | c in TEMPLATE :: ValidInPath(c)
  {
  }

  // ---- the boundary's parser ----

  /** masqueTarget. */
  function MasqueTarget(path: string): Option<HostPort> {
    var seg := Split(Trim(path, {'/'}), '/');
    if |seg| != 5 || seg[0] != ".well-known" || seg[1] != "masque" || seg[2] != "udp" then None
    else
      match PathUnescape(seg[3])
      case None => None
      case Some(host) => if host == "" then None else Some(HostPort(host, seg[4]))
  }

  lemma TrimSlashes(mid: string)
    requires mid != "" && mid[0] != '/' && mid[|mid| - 1] != '/'
    ensures Trim("/" + mid + "/", {'/'}) == mid
  {
    assert ("/" + mid + "/")[1..] == mid + "/";
    assert TrimLeft("/" + mid + "/", {'/'}) == TrimLeft(mid + "/", {'/'}) == mid + "/";
    assert (mid + "/")[..|mid + "/"| - 1] == mid;
    assert TrimRight(mid + "/", {'/'}) == TrimRight(mid, {'/'}) == mid;
  }

  lemma TrimmedPath(host: string, port: nat)
    ensures Trim(TemplatePath(host, port), {'/'}) == ".well-known/masque/udp/" + host + "/" + Decimal(port)
  {
    hide Decimal, Trim;
    var digits := Decimal(port);
    assert IsDigit(digits[|digits| - 1]);
    var mid := ".well-known/masque/udp/" + host + "/" + digits;
    assert mid[|mid| - 1] == digits[|digits| - 1];
    assert TemplatePath(host, port) == "/" + mid + "/";
    TrimSlashes(mid);
  }

  lemma SplitPrefix(rest: string)
    ensures Split(".well-known/masque/udp/" + rest, '/') == [".well-known", "masque", "udp"] + Split(rest, '/')
  {
    hide Split;
    assert ".well-known/masque/udp/" + rest == ".well-known" + ['/'] + ("masque" + ['/'] + ("udp" + ['/'] + rest));
    SplitFirst(".well-known", '/', "masque" + ['/'] + ("udp" + ['/'] + rest));
    SplitFirst("masque", '/', "udp" + ['/'] + rest);
    SplitFirst("udp", '/', rest);
  }

  lemma PathSegments(host: string, port: nat)
    ensures Split(Trim(TemplatePath(host, port), {'/'}), '/')
      == [".well-known", "masque", "udp"] + Split(host, '/') + [Decimal(port)]
  {
    hide Split, Trim, Decimal;
    var digits := Decimal(port);
    TrimmedPath(host, port);
    assert ".well-known/masque/udp/" + host + "/" + digits == ".well-known/masque/udp/" + (host + ['/'] + digits);
    SplitPrefix(host + ['/'] + digits);
    SplitAround(host, '/', digits);
    assert '/' !in digits by { assert forall c | c in digits :: IsDigit(c); }
    SplitWhole(digits, '/');
  }

  /**
   * The boundary reads back the client's host and port exactly when the host
   * is not empty and holds neither "%" nor "/": the path it parses is already
   * decoded once, and is decoded again.
   */
  lemma TemplateRoundTrip(host: string, port: nat)
    ensures MasqueTarget(TemplatePath(host, port)) == Some(HostPort(host, Decimal(port)))
      <==> host != "" && '%' !in host && '/' !in host
  {
    hide Split, Trim, Decimal, PathUnescape;
    PathSegments(host, port);
    UnescapeIsIdentity(host);
    OneSegment(host);
  }

  lemma OneSegment(host: string)
    ensures |Split(host, '/')| == 1 <==> '/' !in host
    ensures '/' !in host ==> Split(host, '/') == [host]
  {
  }

  /** From the client's host and port, over the wire, to the boundary's host and port. */
  lemma ClientToBoundary(host: string, port: nat)
    requires IsBytes(host) && host != "" && '%' !in host && '/' !in host && 1 <= port < 0x1_0000
    ensures var received := PathUnescape(UdpProxyUrl(host, port).rawPath);
      && received.Some?
      && MasqueTarget(received.value) == Some(HostPort(host, Decimal(port)))
      && ParsePort(Decimal(port)) == Some(port)
  {
    RawPathIsSent(host, port);
    TemplateRoundTrip(host, port);
    DecimalPort(port);
  }

  // ---- what the boundary's parser accepts ----

  predicate AllSlashes(s: string) {
    forall i | 0 <= i < |s| :: s[i] == '/'
  }

  /** The path is the template with this host segment and port, in any number of slashes. */
  predicate WritesTemplate(path: string, before: string, segment: string, port: string, after: string) {
    && AllSlashes(before)
    && AllSlashes(after)
    && '/' !in segment
    && '/' !in port
    && port != ""
    && path == before + (".well-known/masque/udp/" + segment + "/" + port) + after
  }

  /** The path names the host, percent-encoded once more or not, and the port. */
  ghost predicate NamesPlace(path: string, host: string, port: string) {
    && host != ""
    && exists before, segment, after ::
         WritesTemplate(path, before, segment, port, after) && PathUnescape(segment) == Some(host)
  }

  lemma {:induction false} TrimRightParts(s: string) returns (after: string)
    ensures AllSlashes(after) && s == TrimRight(s, {'/'}) + after
    ensures var mid := TrimRight(s, {'/'}); mid != "" ==> mid[|mid| - 1] != '/'
  {
    if s != "" && s[|s| - 1] == '/' {
      var rest := TrimRightParts(s[..|s| - 1]);
      after := rest + "/";
      assert s == s[..|s| - 1] + "/";
    } else {
      after := "";
    }
  }

  lemma {:induction false} TrimLeftParts(s: string) returns (before: string)
    ensures AllSlashes(before) && s == before + TrimLeft(s, {'/'})
  {
    if s != "" && s[0] == '/' {
      var rest := TrimLeftParts(s[1..]);
      before := "/" + rest;
      assert s == "/" + s[1..];
    } else {
      before := "";
    }
  }

  lemma {:induction false} TrimLeftAll(before: string, mid: string)
    requires AllSlashes(before) && mid != "" && mid[0] != '/'
    ensures TrimLeft(before + mid, {'/'}) == mid
  {
    if before != "" {
      assert (before + mid)[1..] == before[1..] + mid;
      TrimLeftAll(before[1..], mid);
    } else {
      assert before + mid == mid;
    }
  }

  lemma {:induction false} TrimRightAll(mid: string, after: string)
    requires AllSlashes(after) && mid != "" && mid[|mid| - 1] != '/'
    ensures TrimRight(mid + after, {'/'}) == mid
  {
    if after != "" {
      assert (mid + after)[..|mid + after| - 1] == mid + after[..|after| - 1];
      TrimRightAll(mid, after[..|after| - 1]);
    } else {
      assert mid + after == mid;
    }
  }

  lemma SegmentsWithin(segment: string, port: string)
    requires '/' !in segment && '/' !in port
    ensures Split(".well-known/masque/udp/" + segment + "/" + port, '/') == [".well-known", "masque", "udp", segment, port]
  {
    hide Split;
    assert ".well-known/masque/udp/" + segment + "/" + port == ".well-known/masque/udp/" + (segment + ['/'] + port);
    SplitPrefix(segment + ['/'] + port);
    SplitFirst(segment, '/', port);
    SplitWhole(port, '/');
  }

  /** A written template is read as its decoded segment and its port. */
  lemma TemplateReads(path: string, before: string, segment: string, port: string, after: string, host: string)
    requires WritesTemplate(path, before, segment, port, after) && PathUnescape(segment) == Some(host) && host != ""
    ensures MasqueTarget(path) == Some(HostPort(host, port))
  {
    hide Split, TrimLeft, TrimRight, PathUnescape;
    var mid := ".well-known/masque/udp/" + segment + "/" + port;
    assert mid[|mid| - 1] == port[|port| - 1];
    assert path == before + (mid + after);
    TrimLeftAll(before, mid + after);
    TrimRightAll(mid, after);
    SegmentsWithin(segment, port);
  }

  lemma JoinFive(a: string, b: string, c: string, d: string, e: string)
    ensures Join([a, b, c, d, e], '/') == a + "/" + b + "/" + c + "/" + d + "/" + e
  {
    assert Join([d, e], '/') == d + "/" + e;
    assert [c, d, e][1..] == [d, e] && [b, c, d, e][1..] == [c, d, e] && [a, b, c, d, e][1..] == [b, c, d, e];
    assert Join([c, d, e], '/') == c + "/" + (d + "/" + e);
    assert Join([b, c, d, e], '/') == b + "/" + (c + "/" + (d + "/" + e));
  }

  lemma {:induction false} SplitHoldsNoSeparator(s: string, sep: char)
    ensures forall i | 0 <= i < |Split(s, sep)| :: sep !in Split(s, sep)[i]
    decreases |s|
  {
    var i := IndexOf(s, sep);
    if i < |s| {
      SplitHoldsNoSeparator(s[i + 1..], sep);
    }
  }

  lemma TemplateIsWritten(path: string) returns (before: string, segment: string, after: string)
    requires MasqueTarget(path).Some?
    ensures var hp := MasqueTarget(path).value;
      WritesTemplate(path, before, segment, hp.port, after) && PathUnescape(segment) == Some(hp.host) && hp.host != ""
  {
    hide Split, TrimLeft, TrimRight, PathUnescape, Join;
    before := TrimLeftParts(path);
    after := TrimRightParts(TrimLeft(path, {'/'}));
    var mid := Trim(path, {'/'});
    var seg := Split(mid, '/');
    segment := seg[3];
    SplitHoldsNoSeparator(mid, '/');
    JoinSplit(mid, '/');
    JoinFive(seg[0], seg[1], seg[2], seg[3], seg[4]);
    assert seg == [seg[0], seg[1], seg[2], seg[3], seg[4]];
    assert mid == ".well-known/masque/udp/" + segment + "/" + seg[4];
    assert mid[|mid| - 1] != '/';
    assert path == before + mid + after;
  }

  /** The boundary accepts exactly the written templates, and reads them as written. */
  lemma MasqueTargetExactly(path: string, host: string, port: string)
    ensures MasqueTarget(path) == Some(HostPort(host, port)) <==> NamesPlace(path, host, port)
  {
    hide MasqueTarget, PathUnescape, WritesTemplate;
    if MasqueTarget(path).Some? {
      var before, segment, after := TemplateIsWritten(path);
    }
    if NamesPlace(path, host, port) {
      var before, segment, after :| WritesTemplate(path, before, segment, port, after) && PathUnescape(segment) == Some(host);
      TemplateReads(path, before, segment, port, after, host);
    }
  }
}
