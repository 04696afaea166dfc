/**
 * What the boundary decides about a parsed HTTP/1.1 head before it dials:
 * where the request wants to go, and the ruling on it.
 */
module BoundaryRules {
  import opened Descriptors
  import opened HostPorts
  import opened Netip
  import opened Policies
  import opened PolicyTheorems
  import opened Template
  import opened Text
  import opened Wrappers

  /** The HTTP library functions used on heads, as arbitrary functions. */
  datatype Http = Http(
    validHostHeader: string -> bool,          // httpguts.ValidHostHeader
    requestPath: string -> Option<string>,    // url.ParseRequestURI, none on an error or with userinfo
    equalFold: (string, string) -> bool)      // strings.EqualFold

  /** A parsed head: host is "" without a Host field; upgrade and connectUdp are tokens of Connection and Upgrade. */
  datatype Head = Head(verb: string, target: string, host: string, upgrade: bool, connectUdp: bool)

  // ---- the authority ----

  function SameAuthority(http: Http, lib: Library, a: string, b: string): bool {
    match (SplitHostPort(a), SplitHostPort(b))
    case (Some(x), Some(y)) =>
      && x.port == y.port
      && (match lib.parseAddr(x.host)
          case Some(addr) => lib.parseAddr(y.host) == Some(addr)
          case None => http.equalFold(TrimSuffix(x.host, "."), TrimSuffix(y.host, ".")))
    case _ => false
  }

  predicate SamePort(a: string, b: string) {
    SplitHostPort(a).Some? && SplitHostPort(b).Some? && SplitHostPort(a).value.port == SplitHostPort(b).value.port
  }

  /** One host is an address, the other is not one but equals it up to case and a final dot. */
  predicate MixedHosts(http: Http, lib: Library, a: string, b: string)
    requires SamePort(a, b)
  {
    var x, y := SplitHostPort(a).value.host, SplitHostPort(b).value.host;
    && lib.parseAddr(x).Some? != lib.parseAddr(y).Some?
    && http.equalFold(TrimSuffix(x, "."), TrimSuffix(y, "."))
  }

  /** The comparison depends on the order of its arguments exactly for mixed hosts such as 127.0.0.1. and 127.0.0.1. */
  lemma SameAuthoritySymmetry(http: Http, lib: Library, a: string, b: string)
    requires forall s, t :: http.equalFold(s, t) == http.equalFold(t, s)
    ensures SameAuthority(http, lib, a, b) == SameAuthority(http, lib, b, a)
      <==> !(SamePort(a, b) && MixedHosts(http, lib, a, b))
  {
    hide SplitHostPort;
    if SplitHostPort(a).Some? && SplitHostPort(b).Some? {
      var x, y := TrimSuffix(SplitHostPort(a).value.host, "."), TrimSuffix(SplitHostPort(b).value.host, ".");
      assert http.equalFold(x, y) == http.equalFold(y, x);
    }
  }

  lemma SameAuthorityIsNotSymmetric(http: Http, lib: Library)
    requires lib.parseAddr("127.0.0.1") == Some(V4(0x7f00_0001)) && lib.parseAddr("127.0.0.1.") == None
    requires http.equalFold("127.0.0.1", "127.0.0.1")
    ensures SameAuthority(http, lib, "127.0.0.1." + ":" + "80", "127.0.0.1" + ":" + "80")
    ensures !SameAuthority(http, lib, "127.0.0.1" + ":" + "80", "127.0.0.1." + ":" + "80")
  {
    hide SplitHostPort;
    SplitOfPlain("127.0.0.1.", "80");
    SplitOfPlain("127.0.0.1", "80");
    assert TrimSuffix("127.0.0.1.", ".") == "127.0.0.1";
    assert TrimSuffix("127.0.0.1", ".") == "127.0.0.1";
  }

  function ConnectTarget(http: Http, lib: Library, h: Head): Result<HostPort, string> {
    if !http.validHostHeader(h.target) then Failure("malformed-target")
    else
      match SplitHostPort(h.target)
      case None => Failure("malformed-target")
      case Some(hp) =>
        if hp.host == "" then Failure("malformed-target")
        else if ParsePort(hp.port).None? then Failure("malformed-port")
        else if h.host != "" && !SameAuthority(http, lib, h.host, h.target) then Failure("authority-mismatch")
        else Success(hp)
  }

  // ---- the request ----

  datatype Request =
    | Tunnel(network: string, host: string, port: string)
    | Improper(transport: string, destination: string, status: nat, reason: string)

  /** The branches of serve, handleConnect and handleConnectUDP before connectUpstream. */
  function RequestOf(http: Http, lib: Library, h: Head): Request {
    if h.verb == "CONNECT" then
      match ConnectTarget(http, lib, h)
      case Failure(reason) => Improper("tcp", h.target, 400, reason)
      case Success(hp) => Tunnel("tcp", hp.host, hp.port)
    else if h.verb == "GET" && h.connectUdp then
      var path := if h.upgrade then http.requestPath(h.target) else None;
      if path.None? then Improper("udp", h.target, 400, "malformed-upgrade")
      else
        match MasqueTarget(path.value)
        case None => Improper("udp", h.target, 400, "malformed-template")
        case Some(hp) => Tunnel("udp", hp.host, hp.port)
    else Improper("", "", 405, "connect-only")
  }

  /** The same port, and the same address or, if no address, the same name up to case and a final dot. */
  predicate NamesTheSame(http: Http, lib: Library, hp: HostPort, q: Request)
    requires q.Tunnel?
  {
    && hp.port == q.port
    && if lib.parseAddr(hp.host).Some? then lib.parseAddr(q.host) == lib.parseAddr(hp.host)
       else http.equalFold(TrimSuffix(hp.host, "."), TrimSuffix(q.host, "."))
  }

  /** A CONNECT that goes through names, in its own target and in its Host field, the place it is let through to. */
  lemma ConnectNamesItsTarget(http: Http, lib: Library, h: Head)
    requires h.verb == "CONNECT" && RequestOf(http, lib, h).Tunnel?
    ensures var q := RequestOf(http, lib, h);
      && q.network == "tcp"
      && q.host != ""
      && ParsePort(q.port).Some?
      && h.target in {q.host + ":" + q.port, "[" + q.host + "]:" + q.port}
      && (h.host != "" ==> SplitHostPort(h.host).Some? && NamesTheSame(http, lib, SplitHostPort(h.host).value, q))
  {
    hide SplitHostPort;
    SplitIsJoined(h.target);
  }

  // ---- the ruling ----

  datatype Decision = Allow | Block | Fail

  datatype Record = Record(
    transport: string, destination: string, decision: Decision, reason: string, address: Option<Addr>, rule: string)

  /** Silent is the ruling on a head that could not be read for an I/O error. */
  datatype Ruling =
    | Silent
    | Reject(record: Record, status: nat)
    | Dialing(route: Route, verdict: Verdict)

  datatype Route = Route(network: string, port: string)

  function Rejection(transport: string, destination: string, decision: Decision, reason: string, status: nat): Ruling {
    Reject(Record(transport, destination, decision, reason, None, ""), status)
  }

  /** connectUpstream up to the dial. */
  function RuleOn(q: Request, policy: Option<Policy>, lib: Library, lookup: Resolver): (r: Ruling)
    ensures !r.Silent?
  {
    match q
    case Improper(transport, destination, status, reason) => Rejection(transport, destination, Block, reason, status)
    case Tunnel(network, host, port) =>
      if policy.None? then Rejection(network, JoinHostPort(host, port), Fail, "policy-unavailable", 503)
      else if network == "udp" && !policy.value.udp then
        Rejection(network, JoinHostPort(host, port), Block, "udp-disabled", 403)
      else
        var v := Authorize(policy.value, lib, lookup, host, port, network);
        if v.reason != "" then Rejection(network, v.destination, Block, v.reason, v.status)
        else if v.error.Some? then Rejection(network, v.destination, Fail, "resolve-failed", 502)
        else Dialing(Route(network, port), v)
  }

  /** What reading the head gave: an I/O error, a refusal of the head reader, or a head. */
  datatype HeadRead = Broken | Unreadable(status: nat, reason: string) | Read(head: Head)

  function RulingAfter(read: HeadRead, http: Http, policy: Option<Policy>, lib: Library, lookup: Resolver): Ruling {
    match read
    case Broken => Silent
    case Unreadable(status, reason) => Rejection("", "", Block, reason, status)
    case Read(h) => RuleOn(RequestOf(http, lib, h), policy, lib, lookup)
  }

  lemma RouteOfRuling(q: Request, policy: Option<Policy>, lib: Library, lookup: Resolver)
    requires q.Tunnel?
    ensures var r := RuleOn(q, policy, lib, lookup); r.Dialing? ==> r.route == Route(q.network, q.port)
  {
    hide Authorize;
  }

  /** A rejection of a readable head is never an allow decision and always carries a reason. */
  lemma RejectionsHaveReasons(h: Head, http: Http, policy: Option<Policy>, lib: Library, lookup: Resolver)
    requires RuleOn(RequestOf(http, lib, h), policy, lib, lookup).Reject?
    ensures var r := RuleOn(RequestOf(http, lib, h), policy, lib, lookup);
      && r.record.decision != Allow
      && r.record.reason != ""
      && r.record.address.None?
      && r.status in {400, 403, 405, 502, 503}
  {
    hide SplitHostPort, MasqueTarget, SelectRule, NameCandidates, LiteralCandidates, Admitted, NormalizeName, SameAuthority;
  }

  /**
   * The record tells the cause: fail means there was no policy or no answer
   * from the resolver, block that the request was refused on its merits.
   */
  lemma CausesAreRecorded(q: Request, policy: Option<Policy>, lib: Library, lookup: Resolver)
    requires q.Tunnel? && RuleOn(q, policy, lib, lookup).Reject?
    ensures var r := RuleOn(q, policy, lib, lookup);
      var barred := q.network == "udp" && policy.Some? && !policy.value.udp;
      && (r.status == 503 <==> policy.None?)
      && (r.record.reason == "policy-unavailable" <==> policy.None?)
      && (r.record.reason == "udp-disabled" <==> barred)
      && (r.status == 502 <==> r.record.reason == "resolve-failed")
      && (r.record.decision == Fail <==> r.status in {502, 503})
      && (policy.Some? && !barred ==>
            var v := Authorize(policy.value, lib, lookup, q.host, q.port, q.network);
            && !Allowed(v)
            && (r.status == 502 <==> v.error.Some?)
            && (v.error.None? ==> r.record.reason == v.reason && r.status == v.status))
  {
    hide SelectRule, NameCandidates, LiteralCandidates, Admitted, NormalizeName, JoinHostPort, ParsePort, ToLower;
    if policy.Some? {
      SelectionReasons();
    }
  }

  lemma SelectionReasons()
    ensures forall rules, n, network :: var s := SelectRule(rules, n, network);
      s.Refused? ==> s.reason in {"", "port-not-allowed", "transport-not-allowed"}
  {
  }

  /**
   * What is dialed is a non-empty list of plain addresses, each justified by
   * the policy for the host, port and transport the request names.
   */
  lemma DialedAddressesAreJustified(q: Request, p: Policy, lib: Library, lookup: Resolver)
    requires Well(p) && RuleOn(q, Some(p), lib, lookup).Dialing?
    ensures q.Tunnel? && ParsePort(q.port).Some?
    ensures RuleOn(q, Some(p), lib, lookup).route == Route(q.network, q.port)
    ensures q.network == "udp" ==> p.udp
    ensures var v := RuleOn(q, Some(p), lib, lookup).verdict;
      && v.addresses != []
      && forall a | a in v.addresses ::
          && Unmap(a) == a
          && Zone(a) == ""
          && Justified(p, lib, lookup, q.host, ParsePort(q.port).value, q.network, v.rule, a)
  {
    hide Authorize, Justified, ParsePort;
    AllowedAddressesAreJustified(p, lib, lookup, q.host, q.port, q.network);
  }
}
