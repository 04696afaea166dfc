/**
 * The head the ingress accepts: one CONNECT to a pinned loopback port, parsed
 * as ingressTarget parses it, and exactly which byte strings that is.
 */
module IngressHeads {
  import opened Heads
  import opened HostPorts
  import opened Text
  import opened Wrappers

  datatype Outcome = Accept(target: string) | Refuse(status: nat, reason: string)

  /** An outcome and, on acceptance, the bytes after the head. */
  datatype Parsed = Parsed(outcome: Outcome, rest: string)

  datatype Request = Request(verb: string, target: string, version: string)

  predicate KnownVersion(version: string) {
    version == "HTTP/1.1" || version == "HTTP/1.0"
  }

  function ParseRequestLine(text: string): (r: Result<Request, Outcome>)
    ensures r.Failure? ==> r.error.Refuse?
  {
    var fields := Split(text, ' ');
    if |fields| != 3 || fields[0] == "" || fields[1] == "" then Failure(Refuse(400, "malformed-request-line"))
    else if !KnownVersion(fields[2]) then
      Failure(if HasPrefix(fields[2], "HTTP/") then Refuse(505, "unsupported-version")
              else Refuse(400, "malformed-request-line"))
    else Success(Request(fields[0], fields[1], fields[2]))
  }

  /** The Host fields seen so far: how many, and the last one's value. */
  datatype Hosts = Hosts(count: nat, last: string)

  /** A header line: a name without blanks, a colon, a value. */
  predicate FieldLine(text: string) {
    var field := Cut(text, ':');
    field.found && field.before != "" && ' ' !in field.before && '\t' !in field.before
  }

  function AfterField(hosts: Hosts, text: string): Hosts {
    var field := Cut(text, ':');
    if IsHost(field.before) then Hosts(hosts.count + 1, TrimSpace(field.after)) else hosts
  }

  datatype Headers = Headers(hosts: Hosts, rest: string)

  /** The header lines up to the blank one; none when one is malformed or the head does not end. */
  function ReadHeaders(s: string, hosts: Hosts): Option<Headers>
    decreases |s|
  {
    match NextLine(s)
    case None => None
    case Some(line) =>
      if line.text == "" then Some(Headers(hosts, line.rest))
      else if !FieldLine(line.text) then None
      else ReadHeaders(line.rest, AfterField(hosts, line.text))
  }

  function Decide(q: Request, hosts: Hosts, pinned: set<nat>): Outcome {
    if hosts.count > 1 then Refuse(400, "duplicate-host")
    else if q.verb != "CONNECT" then Refuse(405, "connect-only")
    else if q.version == "HTTP/1.1" && hosts.count == 0 then Refuse(400, "missing-host")
    else
      match SplitHostPort(q.target)
      case None => Refuse(400, "malformed-target")
      case Some(hp) =>
        if hp.host != "127.0.0.1" && hp.host != "::1" then Refuse(400, "malformed-target")
        else
          match ParsePort(hp.port)
          case None => Refuse(400, "malformed-port")
          case Some(number) =>
            if hosts.count == 1 && hosts.last != q.target then Refuse(400, "authority-mismatch")
            else if number !in pinned then Refuse(403, "port-not-permitted")
            else Accept(q.target)
  }

  /** ingressTarget on the bytes its reader can see. */
  function ParseHead(s: string, pinned: set<nat>): (r: Parsed)
    ensures r.outcome.Accept? ==> |r.rest| <= |s|
  {
    match NextLine(s)
    case None => Parsed(Refuse(400, "malformed-request-line"), "")
    case Some(line) =>
      match ParseRequestLine(line.text)
      case Failure(refusal) => Parsed(refusal, "")
      case Success(q) =>
        match ReadHeaders(line.rest, Hosts(0, ""))
        case None => Parsed(Refuse(400, "malformed-header"), "")
        case Some(h) =>
          assert |h.rest| <= |s| by { ReadHeadersShrinks(line.rest, Hosts(0, "")); }
          Parsed(Decide(q, h.hosts, pinned), h.rest)
  }

  lemma {:induction false} ReadHeadersShrinks(s: string, hosts: Hosts)
    ensures ReadHeaders(s, hosts).Some? ==> |ReadHeaders(s, hosts).value.rest| <= |s|
    decreases |s|
  {
    var line := NextLine(s);
    if line.Some? && line.value.text != "" && FieldLine(line.value.text) {
      ReadHeadersShrinks(line.value.rest, AfterField(hosts, line.value.text));
    }
  }

  // ---- the accepted heads, declaratively ----

  function RequestText(verb: string, target: string, version: string): string {
    verb + " " + target + " " + version
  }

  datatype Head = Head(version: string, cr: bool, fields: seq<RawLine>, blank: RawLine)
  {
    function RequestLine(target: string): RawLine {
      RawLine(RequestText("CONNECT", target, version), cr)
    }

    function Bytes(target: string): string {
      RequestLine(target).Bytes() + LinesBytes(fields) + blank.Bytes()
    }
  }

  /** The trimmed values of the Host fields, in order. */
  function HostValues(fields: seq<RawLine>): seq<string> {
    if fields == [] then []
    else
      var field := Cut(fields[0].text, ':');
      (if IsHost(field.before) then [TrimSpace(field.after)] else []) + HostValues(fields[1..])
  }

  /** The ways to write a loopback host with a port. */
  predicate LoopbackText(target: string, port: string) {
    target == "127.0.0.1" + ":" + port || target == "[" + "127.0.0.1" + "]:" + port || target == "[" + "::1" + "]:" + port
  }

  predicate PinnedPort(port: string, pinned: set<nat>) {
    ParsePort(port).Some? && ParsePort(port).value in pinned
  }

  ghost predicate PinnedLoopback(target: string, pinned: set<nat>) {
    exists port :: LoopbackText(target, port) && PinnedPort(port, pinned)
  }

  predicate FieldLines(fields: seq<RawLine>) {
    forall i | 0 <= i < |fields| :: fields[i].Valid() && FieldLine(fields[i].text)
  }

  /** A CONNECT to a pinned loopback port whose Host field, required by HTTP/1.1, says the same. */
  ghost predicate Acceptable(h: Head, target: string, pinned: set<nat>) {
    && h.RequestLine(target).Valid() && FieldLines(h.fields) && h.blank.Valid() && h.blank.text == ""
    && PinnedLoopback(target, pinned)
    && KnownVersion(h.version)
    && (HostValues(h.fields) == [target] || (HostValues(h.fields) == [] && h.version == "HTTP/1.0"))
  }

  // ---- the target ----

  lemma NotADigit(port: string, c: char)
    requires AllDigits(port) && !IsDigit(c)
    ensures c !in port
  {
  }

  lemma PortTextIsPlain(port: string)
    requires ParsePort(port).Some?
    ensures NoBrackets(port) && ':' !in port && ' ' !in port
  {
    NotADigit(port, '[');
    NotADigit(port, ']');
    NotADigit(port, ':');
    NotADigit(port, ' ');
  }

  predicate LoopbackSplit(target: string, pinned: set<nat>) {
    var hp := SplitHostPort(target);
    && hp.Some?
    && (hp.value.host == "127.0.0.1" || hp.value.host == "::1")
    && PinnedPort(hp.value.port, pinned)
  }

  lemma TextSplits(target: string, port: string, pinned: set<nat>)
    requires LoopbackText(target, port) && PinnedPort(port, pinned)
    ensures LoopbackSplit(target, pinned)
  {
    hide SplitHostPort, ParsePort;
    PortTextIsPlain(port);
    if target == "127.0.0.1" + ":" + port {
      SplitOfPlain("127.0.0.1", port);
    } else if target == "[" + "127.0.0.1" + "]:" + port {
      SplitOfBracketed("127.0.0.1", port);
    } else {
      SplitOfBracketed("::1", port);
    }
  }

  lemma LoopbackForms(target: string, pinned: set<nat>)
    ensures LoopbackSplit(target, pinned) <==> PinnedLoopback(target, pinned)
  {
    hide SplitHostPort, PinnedPort;
    if LoopbackSplit(target, pinned) {
      SplitIsJoined(target);
      assert LoopbackText(target, SplitHostPort(target).value.port);
    }
    if PinnedLoopback(target, pinned) {
      var port :| LoopbackText(target, port) && PinnedPort(port, pinned);
      TextSplits(target, port, pinned);
    }
  }

  lemma LoopbackHasNoSpace(target: string, pinned: set<nat>)
    requires PinnedLoopback(target, pinned)
    ensures ' ' !in target && target != ""
  {
    hide ParsePort;
    var port :| LoopbackText(target, port) && PinnedPort(port, pinned);
    PortTextIsPlain(port);
  }

  // ---- the request line ----

  lemma ThreeFields(a: string, b: string, c: string)
    requires ' ' !in a && ' ' !in b && ' ' !in c
    ensures Split(RequestText(a, b, c), ' ') == [a, b, c]
  {
    hide Split;
    assert RequestText(a, b, c) == a + [' '] + (b + [' '] + c);
    SplitFirst(a, ' ', b + [' '] + c);
    SplitFirst(b, ' ', c);
    SplitWhole(c, ' ');
  }

  lemma FieldsJoin(text: string)
    requires |Split(text, ' ')| == 3
    ensures text == RequestText(Split(text, ' ')[0], Split(text, ' ')[1], Split(text, ' ')[2])
  {
    hide Split;
    var fields := Split(text, ' ');
    JoinSplit(text, ' ');
    assert fields[1..][1..] == [fields[2]];
    assert Join(fields, ' ') == fields[0] + [' '] + Join(fields[1..], ' ');
    assert Join(fields[1..], ' ') == fields[1] + [' '] + fields[2];
  }

  // ---- the header lines ----

  function WithValues(hosts: Hosts, values: seq<string>): Hosts {
    if values == [] then hosts else Hosts(hosts.count + |values|, values[|values| - 1])
  }

  lemma {:induction false} HeadersOfBytes(fields: seq<RawLine>, blank: RawLine, rest: string, hosts: Hosts)
    requires FieldLines(fields) && blank.Valid() && blank.text == ""
    ensures ReadHeaders(LinesBytes(fields) + blank.Bytes() + rest, hosts)
      == Some(Headers(WithValues(hosts, HostValues(fields)), rest))
  {
    hide NextLine, FieldLine, IsHost, TrimSpace, Cut;
    var s := LinesBytes(fields) + blank.Bytes() + rest;
    if fields == [] {
      assert s == blank.Bytes() + rest;
      NextLineOfBytes(blank, rest);
    } else {
      var first, tail := fields[0], LinesBytes(fields[1..]) + blank.Bytes() + rest;
      assert s == first.Bytes() + tail;
      NextLineOfBytes(first, tail);
      FieldLineIsText(first.text);
      HeadersOfBytes(fields[1..], blank, rest, AfterField(hosts, first.text));
    }
  }

  lemma FieldLineIsText(text: string)
    requires FieldLine(text)
    ensures text != ""
  {
  }

  lemma {:induction false} BytesOfHeaders(s: string, hosts: Hosts) returns (fields: seq<RawLine>, blank: RawLine)
    requires ReadHeaders(s, hosts).Some?
    ensures FieldLines(fields) && blank.Valid() && blank.text == ""
    ensures s == LinesBytes(fields) + blank.Bytes() + ReadHeaders(s, hosts).value.rest
    decreases |s|
  {
    hide NextLine, FieldLine, IsHost, TrimSpace, Cut;
    var line := NextLine(s).value;
    var raw := BytesOfNextLine(s);
    if line.text == "" {
      fields, blank := [], raw;
    } else {
      var later: seq<RawLine>;
      later, blank := BytesOfHeaders(line.rest, AfterField(hosts, line.text));
      fields := [raw] + later;
      assert fields[1..] == later;
      assert s == raw.Bytes() + (LinesBytes(later) + blank.Bytes() + ReadHeaders(s, hosts).value.rest);
    }
  }

  // ---- both directions ----

  lemma RequestLineParses(target: string, version: string)
    requires ' ' !in target && target != "" && KnownVersion(version)
    ensures ParseRequestLine(RequestText("CONNECT", target, version)) == Success(Request("CONNECT", target, version))
  {
    hide Split, RequestText;
    ThreeFields("CONNECT", target, version);
  }

  /** With the loopback target split out, the decision is about the Host fields. */
  lemma AcceptingDecision(q: Request, hosts: Hosts, pinned: set<nat>)
    ensures Decide(q, hosts, pinned).Accept? <==>
      && LoopbackSplit(q.target, pinned)
      && q.verb == "CONNECT"
      && (hosts.count == 0 ==> q.version != "HTTP/1.1")
      && hosts.count <= 1
      && (hosts.count == 1 ==> hosts.last == q.target)
    ensures Decide(q, hosts, pinned).Accept? ==> Decide(q, hosts, pinned) == Accept(q.target)
  {
    hide SplitHostPort, ParsePort;
  }

  /**
   * The port is refused with 403 exactly when pinning more ports would have it
   * accepted; no other refusal depends on the pinned ports, and 405 is for
   * other methods than CONNECT only.
   */
  lemma RefusalsTellTheFault(q: Request, hosts: Hosts, pinned: set<nat>, more: set<nat>)
    ensures Decide(q, hosts, pinned) == Refuse(403, "port-not-permitted") <==>
      !Decide(q, hosts, pinned).Accept? && exists n: nat :: Decide(q, hosts, pinned + {n}).Accept?
    ensures Decide(q, hosts, pinned).Accept? ==> Decide(q, hosts, pinned + more).Accept?
    ensures Decide(q, hosts, pinned).Refuse? && Decide(q, hosts, pinned).status != 403 ==>
      Decide(q, hosts, pinned + more) == Decide(q, hosts, pinned)
    ensures Decide(q, hosts, pinned) == Refuse(405, "connect-only") <==> q.verb != "CONNECT" && hosts.count <= 1
    ensures Decide(q, hosts, pinned) == Refuse(400, "duplicate-host") <==> hosts.count > 1
  {
    hide SplitHostPort, ParsePort;
    var hp := SplitHostPort(q.target);
    if hp.Some? && ParsePort(hp.value.port).Some? {
      var n := ParsePort(hp.value.port).value;
      assert Decide(q, hosts, pinned) == Refuse(403, "port-not-permitted") ==> Decide(q, hosts, pinned + {n}).Accept?;
    }
  }

  lemma AcceptableIsAccepted(h: Head, target: string, pinned: set<nat>, rest: string)
    requires Acceptable(h, target, pinned)
    ensures ParseHead(h.Bytes(target) + rest, pinned) == Parsed(Accept(target), rest)
  {
    hide NextLine, ReadHeaders, HostValues, LinesBytes, PinnedLoopback, LoopbackSplit, ParseRequestLine, RequestText, Decide;
    var tail := LinesBytes(h.fields) + h.blank.Bytes() + rest;
    assert h.Bytes(target) + rest == h.RequestLine(target).Bytes() + tail;
    NextLineOfBytes(h.RequestLine(target), tail);
    LoopbackForms(target, pinned);
    LoopbackHasNoSpace(target, pinned);
    RequestLineParses(target, h.version);
    HeadersOfBytes(h.fields, h.blank, rest, Hosts(0, ""));
    AcceptingDecision(Request("CONNECT", target, h.version), WithValues(Hosts(0, ""), HostValues(h.fields)), pinned);
  }

  lemma ParsedRequestLine(text: string)
    requires ParseRequestLine(text).Success?
    ensures var q := ParseRequestLine(text).value;
      text == RequestText(q.verb, q.target, q.version) && KnownVersion(q.version)
  {
    hide Split, RequestText;
    FieldsJoin(text);
  }

  lemma OneValue(values: seq<string>, v: string)
    requires WithValues(Hosts(0, ""), values) == Hosts(1, v)
    ensures values == [v]
  {
  }

  lemma AcceptedIsAcceptable(s: string, pinned: set<nat>) returns (h: Head)
    requires ParseHead(s, pinned).outcome.Accept?
    ensures Acceptable(h, ParseHead(s, pinned).outcome.target, pinned)
    ensures s == h.Bytes(ParseHead(s, pinned).outcome.target) + ParseHead(s, pinned).rest
  {
    hide NextLine, ReadHeaders, HostValues, LinesBytes, PinnedLoopback, LoopbackSplit, ParseRequestLine, RequestText, Decide;
    var line := NextLine(s).value;
    var q := ParseRequestLine(line.text).value;
    var request := BytesOfNextLine(s);
    var fields, blank := BytesOfHeaders(line.rest, Hosts(0, ""));
    var rest := ReadHeaders(line.rest, Hosts(0, "")).value.rest;
    h := Head(q.version, request.cr, fields, blank);
    ParsedRequestLine(line.text);
    LoopbackForms(q.target, pinned);
    HeadersOfBytes(fields, blank, rest, Hosts(0, ""));
    AcceptingDecision(q, WithValues(Hosts(0, ""), HostValues(fields)), pinned);
    assert h.RequestLine(q.target) == request;
    assert s == request.Bytes() + (LinesBytes(fields) + blank.Bytes() + rest);
    if HostValues(fields) != [] {
      OneValue(HostValues(fields), q.target);
    }
  }

  /**
   * Exactly the acceptable heads are accepted, whatever follows them, and what
   * is left is exactly the bytes after the head's blank line.
   */
  lemma AcceptedExactly(s: string, pinned: set<nat>, target: string, rest: string)
    ensures ParseHead(s, pinned) == Parsed(Accept(target), rest)
      <==> exists h: Head :: Acceptable(h, target, pinned) && s == h.Bytes(target) + rest
  {
    hide ParseHead, Acceptable;
    if ParseHead(s, pinned) == Parsed(Accept(target), rest) {
      var h := AcceptedIsAcceptable(s, pinned);
    }
    if h: Head :| Acceptable(h, target, pinned) && s == h.Bytes(target) + rest {
      AcceptableIsAccepted(h, target, pinned, rest);
    }
  }

  // ---- the gateway's own head ----

  function HeadFor(target: string): string {
    "CONNECT " + target + " HTTP/1.1\r\nHost: " + target + "\r\n\r\n"
  }

  /** What the gateway sends to reach a port. */
  function GatewayHead(port: nat): string {
    HeadFor("127.0.0.1:" + Decimal(port))
  }

  function GatewayLines(target: string): Head {
    Head("HTTP/1.1", true, [RawLine("Host: " + target, true)], RawLine("", true))
  }

  lemma GatewayLinesBytes(target: string)
    ensures GatewayLines(target).Bytes(target) == HeadFor(target)
  {
    var field := RawLine("Host: " + target, true);
    assert LinesBytes([field]) == field.Bytes() + "";
    calc {
      GatewayLines(target).Bytes(target);
      (RequestText("CONNECT", target, "HTTP/1.1") + "\r\n") + ("Host: " + target + "\r\n") + "\r\n";
      HeadFor(target);
    }
  }

  function Pow10(k: nat): nat {
    if k == 0 then 1 else 10 * Pow10(k - 1)
  }

  lemma {:induction false} DecimalFits(n: nat, k: nat)
    requires n < Pow10(k) && k > 0
    ensures |Decimal(n)| <= k
  {
    if n >= 10 {
      DecimalFits(n / 10, k - 1);
    }
  }

  lemma PlainTarget(target: string)
    requires target != "" && forall i | 0 <= i < |target| :: Visible(target[i])
    ensures TrimSpace(" " + target) == target
  {
    TrimPadding(" ", target, "");
    assert " " + target + "" == " " + target;
  }

  lemma HostFieldValues(target: string)
    requires target != "" && forall i | 0 <= i < |target| :: Visible(target[i])
    ensures FieldLine("Host: " + target)
    ensures HostValues([RawLine("Host: " + target, true)]) == [target]
  {
    hide TrimSpace;
    var text := "Host: " + target;
    IndexOfFirst(text, ':', 4);
    assert text[..4] == "Host" && text[5..] == " " + target;
    assert Cut(text, ':') == Halves("Host", " " + target, true);
    assert ToLower("Host") == "host";
    PlainTarget(target);
    assert HostValues([RawLine(text, true)]) == [target] + [];
  }

  lemma GatewayLinesAcceptable(port: nat, pinned: set<nat>)
    requires 1 <= port < 0x1_0000 && port in pinned
    ensures var target := "127.0.0.1:" + Decimal(port); Acceptable(GatewayLines(target), target, pinned)
  {
    hide Decimal, ParsePort, HostValues, FieldLine;
    DecimalPort(port);
    var target := "127.0.0.1:" + Decimal(port);
    assert LoopbackText(target, Decimal(port)) && PinnedPort(Decimal(port), pinned);
    HostFieldValues(target);
  }

  /** The gateway's head for a pinned port is accepted whatever payload follows, and leaves exactly that payload. */
  lemma GatewayHeadIsAccepted(port: nat, pinned: set<nat>, payload: string)
    requires 1 <= port < 0x1_0000 && port in pinned
    ensures ParseHead(GatewayHead(port) + payload, pinned) == Parsed(Accept("127.0.0.1:" + Decimal(port)), payload)
    ensures |GatewayHead(port)| <= 70
  {
    hide ParseHead, Acceptable, Decimal;
    assert Pow10(5) == 10 * Pow10(4) == 100 * Pow10(3) == 1000 * Pow10(2);
    DecimalFits(port, 5);
    var target := "127.0.0.1:" + Decimal(port);
    GatewayLinesAcceptable(port, pinned);
    GatewayLinesBytes(target);
    AcceptableIsAccepted(GatewayLines(target), target, pinned, payload);
  }

  // ---- every refusal, by its fault ----

  /** Three texts without blanks, the first two not empty, around two single blanks. */
  predicate ThreeParts(text: string, verb: string, target: string, version: string) {
    && verb != "" && target != ""
    && ' ' !in verb && ' ' !in target && ' ' !in version
    && text == verb + " " + target + " " + version
  }

  lemma ThreePartsExactly(text: string, verb: string, target: string, version: string)
    ensures ThreeParts(text, verb, target, version) <==>
      verb != "" && target != "" && Split(text, ' ') == [verb, target, version]
  {
    hide Split;
    if ThreeParts(text, verb, target, version) {
      ThreeFields(verb, target, version);
    }
    if Split(text, ' ') == [verb, target, version] {
      FieldsJoin(text);
      SplitHasNoBlank(text);
      var parts := Split(text, ' ');
      assert parts[0] == verb && parts[1] == target && parts[2] == version;
    }
  }

  lemma {:induction false} SplitHasNoBlank(text: string)
    ensures forall i | 0 <= i < |Split(text, ' ')| :: ' ' !in Split(text, ' ')[i]
    decreases |text|
  {
    var i := IndexOf(text, ' ');
    if i < |text| {
      SplitHasNoBlank(text[i + 1..]);
    }
  }

  /** What a request line is refused for, read off its three parts. */
  predicate LineOutcome(r: Result<Request, Outcome>, verb: string, target: string, version: string) {
    if version == "HTTP/1.1" || version == "HTTP/1.0" then r == Success(Request(verb, target, version))
    else if |version| >= 5 && version[..5] == "HTTP/" then r == Failure(Refuse(505, "unsupported-version"))
    else r == Failure(Refuse(400, "malformed-request-line"))
  }

  lemma RequestLineExactly(text: string)
    ensures forall verb, target, version :: ThreeParts(text, verb, target, version) ==>
      LineOutcome(ParseRequestLine(text), verb, target, version)
    ensures (forall verb, target, version :: !ThreeParts(text, verb, target, version)) ==>
      ParseRequestLine(text) == Failure(Refuse(400, "malformed-request-line"))
  {
    hide Split, ThreeParts;
    forall verb, target, version | ThreeParts(text, verb, target, version)
      ensures LineOutcome(ParseRequestLine(text), verb, target, version)
    {
      ThreePartsExactly(text, verb, target, version);
    }
    var fields := Split(text, ' ');
    if |fields| == 3 {
      assert fields == [fields[0], fields[1], fields[2]];
      ThreePartsExactly(text, fields[0], fields[1], fields[2]);
    }
  }

  /** A colon after a name that is not empty and holds no blank, tab or colon. */
  lemma FieldLineExactly(text: string)
    ensures FieldLine(text) <==> exists k: nat :: NameEndsAt(text, k)
  {
    hide IndexOf;
    var i := IndexOf(text, ':');
    if FieldLine(text) {
      assert NameEndsAt(text, i);
    }
    if k: nat :| NameEndsAt(text, k) {
      IndexOfFirst(text, ':', k);
    }
  }

  predicate NameEndsAt(text: string, k: nat) {
    && 0 < k < |text|
    && text[k] == ':'
    && forall i | 0 <= i < k :: text[i] !in {' ', '\t', ':'}
  }

  /** Field lines, a blank one, and the rest. */
  predicate Heading(s: string, fields: seq<RawLine>, blank: RawLine, rest: string) {
    FieldLines(fields) && blank.Valid() && blank.text == "" && s == LinesBytes(fields) + blank.Bytes() + rest
  }

  /** Headers are read exactly from field lines that a blank one ends, counting the Host fields and keeping the last. */
  lemma HeadersExactly(s: string)
    ensures forall fields, blank, rest :: Heading(s, fields, blank, rest) ==>
      ReadHeaders(s, Hosts(0, "")) == Some(Headers(WithValues(Hosts(0, ""), HostValues(fields)), rest))
    ensures ReadHeaders(s, Hosts(0, "")).Some? ==> exists fields, blank, rest :: Heading(s, fields, blank, rest)
  {
    hide ReadHeaders, LinesBytes, FieldLines, HostValues;
    forall fields, blank, rest | Heading(s, fields, blank, rest)
      ensures ReadHeaders(s, Hosts(0, "")) == Some(Headers(WithValues(Hosts(0, ""), HostValues(fields)), rest))
    {
      HeadersOfBytes(fields, blank, rest, Hosts(0, ""));
    }
    if ReadHeaders(s, Hosts(0, "")).Some? {
      var fields, blank := BytesOfHeaders(s, Hosts(0, ""));
      assert Heading(s, fields, blank, ReadHeaders(s, Hosts(0, "")).value.rest);
    }
  }

  /** The target is a loopback address with this port text. */
  predicate NamesLoopback(target: string, port: string) {
    WritesHostPort(target, "127.0.0.1", port) || WritesHostPort(target, "::1", port)
  }

  /** What a CONNECT to a loopback target is refused for, or that it is accepted. */
  predicate LoopbackOutcome(r: Outcome, target: string, port: string, hosts: Hosts, pinned: set<nat>) {
    if !Text.PortText(port) then r == Refuse(400, "malformed-port")
    else if hosts.count == 1 && hosts.last != target then r == Refuse(400, "authority-mismatch")
    else if DigitValue(port) !in pinned then r == Refuse(403, "port-not-permitted")
    else r == Accept(target)
  }

  /** Every outcome for a CONNECT with at most one Host field. */
  lemma OutcomesExactly(q: Request, hosts: Hosts, pinned: set<nat>)
    requires q.verb == "CONNECT" && hosts.count <= 1
    ensures Decide(q, hosts, pinned) == Refuse(400, "missing-host") <==> q.version == "HTTP/1.1" && hosts.count == 0
    ensures q.version != "HTTP/1.1" || hosts.count == 1 ==>
      forall port :: NamesLoopback(q.target, port) ==> LoopbackOutcome(Decide(q, hosts, pinned), q.target, port, hosts, pinned)
    ensures (q.version != "HTTP/1.1" || hosts.count == 1) && (forall port :: !NamesLoopback(q.target, port)) ==>
      Decide(q, hosts, pinned) == Refuse(400, "malformed-target")
  {
    hide SplitHostPort, WritesHostPort, ParsePort, Text.PortText;
    forall port | NamesLoopback(q.target, port) && (q.version != "HTTP/1.1" || hosts.count == 1)
      ensures LoopbackOutcome(Decide(q, hosts, pinned), q.target, port, hosts, pinned)
    {
      SplitExactly(q.target, "127.0.0.1", port);
      SplitExactly(q.target, "::1", port);
      PortTextsParse(port);
    }
    if SplitHostPort(q.target).Some? {
      var hp := SplitHostPort(q.target).value;
      SplitExactly(q.target, hp.host, hp.port);
      assert hp.host == "127.0.0.1" || hp.host == "::1" ==> NamesLoopback(q.target, hp.port);
    }
  }

  /** The parts of the head in turn: its first fault decides, and its fields count only when every line is sound. */
  lemma HeadOutcome(s: string, pinned: set<nat>)
    ensures '\n' !in s ==> ParseHead(s, pinned).outcome == Refuse(400, "malformed-request-line")
    ensures forall line: RawLine, tail :: line.Valid() && s == line.Bytes() + tail ==>
      ParseHead(s, pinned).outcome == FaultInOrder(ParseRequestLine(line.text), ReadHeaders(tail, Hosts(0, "")), pinned)
  {
    hide ParseRequestLine, ReadHeaders, Decide, NextLine;
    if '\n' !in s {
      NoLine(s);
    }
    forall line: RawLine, tail | line.Valid() && s == line.Bytes() + tail
      ensures NextLine(s) == Some(Line(line.text, tail))
    {
      NextLineOfBytes(line, tail);
    }
  }

  function FaultInOrder(q: Result<Request, Outcome>, h: Option<Headers>, pinned: set<nat>): Outcome {
    if q.Failure? then q.error
    else if h.None? then Refuse(400, "malformed-header")
    else Decide(q.value, h.value.hosts, pinned)
  }

  lemma NoLine(s: string)
    requires '\n' !in s
    ensures NextLine(s) == None
  {
  }
}
