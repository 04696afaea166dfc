/**
 * What a connection does, read off its head: which place the policy is asked
 * about, over which transport, and that the trace is what the answer allows.
 */
module BoundaryMeaning {
  import opened Boundary
  import opened BoundaryRules
  import opened BoundaryTraces
  import opened DescriptorMeaning
  import opened Descriptors
  import opened HostPorts
  import opened Netip
  import opened Policies
  import opened PolicyAsWritten
  import opened PolicyTheorems
  import opened Template
  import opened Text
  import opened Wrappers

  // ---- traces ----

  /** One record, the refusal with its reason, and the close. */
  predicate RefusedWith(
    t: seq<Event>, transport: string, destination: string, decision: Decision, reason: string, status: nat)
  {
    t == [Audit(Record(transport, destination, decision, reason, None, "")), Deny(status, reason), CloseClient]
  }

  /** The first k addresses were dialed in turn, without success. */
  predicate DialedInVain(t: seq<Event>, network: string, port: string, addresses: seq<Addr>, k: nat) {
    && k <= |t|
    && k <= |addresses|
    && forall j | 0 <= j < k :: t[j] == Dial(Route(network, port), addresses[j], false)
  }

  predicate NothingReached(t: seq<Event>, network: string, port: string, v: Verdict) {
    && DialedInVain(t, network, port, v.addresses, |v.addresses|)
    && RefusedWith(t[|v.addresses|..], network, v.destination, Fail, "dial-failed", 502)
  }

  predicate Reached(t: seq<Event>, network: string, port: string, v: Verdict, k: nat) {
    && k < |v.addresses|
    && DialedInVain(t, network, port, v.addresses, k)
    && t[k..] == [
         Dial(Route(network, port), v.addresses[k], true),
         Audit(Record(network, v.destination, Allow, "", Some(v.addresses[k]), v.rule)),
         Established(if network == "udp" then 101 else 200),
         Relay, CloseUpstream, CloseClient]
  }

  ghost predicate FollowsVerdict(t: seq<Event>, network: string, port: string, v: Verdict) {
    if v.reason != "" then RefusedWith(t, network, v.destination, Block, v.reason, v.status)
    else if v.error.Some? then RefusedWith(t, network, v.destination, Fail, "resolve-failed", 502)
    else NothingReached(t, network, port, v) || exists k: nat :: Reached(t, network, port, v, k)
  }

  /** The policy is asked about this host, port and transport, and the connection does what it answers. */
  ghost predicate Asks(
    t: seq<Event>, network: string, host: string, port: string, policy: Option<Policy>, lib: Library, lookup: Resolver)
  {
    match policy
    case None => RefusedWith(t, network, JoinHostPort(host, port), Fail, "policy-unavailable", 503)
    case Some(p) =>
      if network == "udp" && !p.udp then RefusedWith(t, network, JoinHostPort(host, port), Block, "udp-disabled", 403)
      else FollowsVerdict(t, network, port, Authorize(p, lib, lookup, host, port, network))
  }

  lemma RejectedTrace(r: Ruling, t: seq<Event>)
    requires r.Reject? && Served(r, t)
    ensures t == [Audit(r.record), Deny(r.status, r.record.reason), CloseClient]
  {
    hide Served;
    var failed, e := ServedShape(r, t);
    assert Failures(RouteOf(r), []) == [];
  }

  lemma DialedTrace(r: Ruling, t: seq<Event>)
    requires r.Dialing? && Served(r, t)
    ensures NothingReached(t, r.route.network, r.route.port, r.verdict)
      || exists k: nat :: Reached(t, r.route.network, r.route.port, r.verdict, k)
  {
    hide Served;
    var failed, e := ServedShape(r, t);
    EventAt(r, failed, e, t);
    assert t[|failed|..] == Tail(e);
    assert DialedInVain(t, r.route.network, r.route.port, r.verdict.addresses, |failed|);
    if e.Carried? {
      assert Reached(t, r.route.network, r.route.port, r.verdict, |failed|);
    }
  }

  lemma TunnelAsks(
    t: seq<Event>, network: string, host: string, port: string, policy: Option<Policy>, lib: Library, lookup: Resolver)
    requires Served(RuleOn(Tunnel(network, host, port), policy, lib, lookup), t)
    ensures Asks(t, network, host, port, policy, lib, lookup)
  {
    hide Served, Authorize, NothingReached, Reached, JoinHostPort;
    var r := RuleOn(Tunnel(network, host, port), policy, lib, lookup);
    if r.Reject? {
      RejectedTrace(r, t);
    } else {
      DialedTrace(r, t);
    }
  }

  // ---- CONNECT ----

  /** The target is a valid authority made of a non-empty host and this port text. */
  predicate NamesTarget(http: Http, h: Head, host: string, port: string) {
    http.validHostHeader(h.target) && host != "" && WritesHostPort(h.target, host, port)
  }

  /** The same address or, for a host that is no address, the same name up to case and a final dot. */
  predicate SameHost(http: Http, lib: Library, x: string, y: string) {
    if lib.parseAddr(x).Some? then lib.parseAddr(y) == lib.parseAddr(x)
    else http.equalFold(StripDot(x), StripDot(y))
  }

  /** Without a Host field, or with one that writes the same host and the same port text. */
  ghost predicate HostFieldAgrees(http: Http, lib: Library, h: Head, host: string, port: string) {
    h.host == "" || exists other :: WritesHostPort(h.host, other, port) && SameHost(http, lib, other, host)
  }

  lemma HostFieldMeans(http: Http, lib: Library, h: Head, host: string, port: string)
    requires WritesHostPort(h.target, host, port)
    ensures HostFieldAgrees(http, lib, h, host, port) <==> h.host == "" || SameAuthority(http, lib, h.host, h.target)
  {
    hide SplitHostPort, WritesHostPort;
    SplitExactly(h.target, host, port);
    if SplitHostPort(h.host).Some? {
      var x := SplitHostPort(h.host).value;
      SplitExactly(h.host, x.host, x.port);
      assert StripDot(x.host) == TrimSuffix(x.host, ".") && StripDot(host) == TrimSuffix(host, ".");
    }
    if other :| WritesHostPort(h.host, other, port) && SameHost(http, lib, other, host) {
      SplitExactly(h.host, other, port);
    }
  }

  /** What becomes of a CONNECT whose target is this host and port. */
  ghost predicate ConnectServed(
    t: seq<Event>, h: Head, host: string, port: string, http: Http, policy: Option<Policy>, lib: Library, lookup: Resolver)
  {
    if !PortText(port) then RefusedWith(t, "tcp", h.target, Block, "malformed-port", 400)
    else if !HostFieldAgrees(http, lib, h, host, port) then RefusedWith(t, "tcp", h.target, Block, "authority-mismatch", 400)
    else Asks(t, "tcp", host, port, policy, lib, lookup)
  }

  /**
   * A CONNECT: without a target it is malformed; with one, a bad port or a Host
   * field that disagrees is refused, and any other reaches the policy, which
   * is asked about exactly the host and port written, over tcp.
   */
  lemma ConnectIsServed(
    h: Head, http: Http, policy: Option<Policy>, lib: Library, lookup: Resolver, t: seq<Event>)
    requires h.verb == "CONNECT" && Served(RulingAfter(Read(h), http, policy, lib, lookup), t)
    ensures forall host, port :: NamesTarget(http, h, host, port) ==> ConnectServed(t, h, host, port, http, policy, lib, lookup)
    ensures (forall host, port :: !NamesTarget(http, h, host, port)) ==>
      RefusedWith(t, "tcp", h.target, Block, "malformed-target", 400)
  {
    hide Served, RuleOn, SplitHostPort, WritesHostPort, SameAuthority, HostFieldAgrees, Asks, ParsePort, PortText;
    var q := RequestOf(http, lib, h);
    if q.Improper? {
      RejectedImproper(q, policy, lib, lookup, t);
    }
    forall host, port | NamesTarget(http, h, host, port) ensures ConnectServed(t, h, host, port, http, policy, lib, lookup) {
      SplitExactly(h.target, host, port);
      PortTextsParse(port);
      HostFieldMeans(http, lib, h, host, port);
      if q.Tunnel? {
        TunnelAsks(t, "tcp", host, port, policy, lib, lookup);
      }
    }
    if forall host, port :: !NamesTarget(http, h, host, port) {
      if SplitHostPort(h.target).Some? {
        var hp := SplitHostPort(h.target).value;
        SplitExactly(h.target, hp.host, hp.port);
        assert !NamesTarget(http, h, hp.host, hp.port);
      }
    }
  }

  lemma RejectedImproper(q: Request, policy: Option<Policy>, lib: Library, lookup: Resolver, t: seq<Event>)
    requires q.Improper? && Served(RuleOn(q, policy, lib, lookup), t)
    ensures RefusedWith(t, q.transport, q.destination, Block, q.reason, q.status)
  {
    hide Served;
    RejectedTrace(RuleOn(q, policy, lib, lookup), t);
  }

  // ---- connect-udp ----

  /** The upgrade's path, when it has both tokens and its target is a URL without userinfo. */
  function UpgradePath(http: Http, h: Head): Option<string> {
    if h.upgrade then http.requestPath(h.target) else None
  }

  /**
   * A connect-udp upgrade: without a path it is malformed, with one that is no
   * template it is too, and any other reaches the policy, which is asked about
   * exactly the host and port the template names, over udp.
   */
  lemma UpgradeIsServed(
    h: Head, http: Http, policy: Option<Policy>, lib: Library, lookup: Resolver, t: seq<Event>)
    requires h.verb == "GET" && h.connectUdp && Served(RulingAfter(Read(h), http, policy, lib, lookup), t)
    ensures var path := UpgradePath(http, h);
      if path.None? then RefusedWith(t, "udp", h.target, Block, "malformed-upgrade", 400)
      else
        && (forall host, port :: NamesPlace(path.value, host, port) ==> Asks(t, "udp", host, port, policy, lib, lookup))
        && ((forall host, port :: !NamesPlace(path.value, host, port)) ==>
              RefusedWith(t, "udp", h.target, Block, "malformed-template", 400))
  {
    hide Served, RuleOn, MasqueTarget, NamesPlace, Asks;
    var q, path := RequestOf(http, lib, h), UpgradePath(http, h);
    if q.Improper? {
      RejectedImproper(q, policy, lib, lookup, t);
    }
    if path.Some? {
      forall host, port | NamesPlace(path.value, host, port) ensures Asks(t, "udp", host, port, policy, lib, lookup) {
        MasqueTargetExactly(path.value, host, port);
        TunnelAsks(t, "udp", host, port, policy, lib, lookup);
      }
      if MasqueTarget(path.value).Some? {
        var hp := MasqueTarget(path.value).value;
        MasqueTargetExactly(path.value, hp.host, hp.port);
      }
    }
  }

  /** A head that carries the client's URL: the policy is asked about the client's own host and port, over udp. */
  lemma ClientIsServed(
    h: Head, host: string, port: nat, http: Http, policy: Option<Policy>, lib: Library, lookup: Resolver, t: seq<Event>)
    requires IsBytes(host) && host != "" && '%' !in host && '/' !in host && 1 <= port < 0x1_0000
    requires h.verb == "GET" && h.connectUdp && h.upgrade
    requires http.requestPath(h.target) == PathUnescape(UdpProxyUrl(host, port).rawPath)
    requires Served(RulingAfter(Read(h), http, policy, lib, lookup), t)
    ensures Asks(t, "udp", host, Decimal(port), policy, lib, lookup)
  {
    hide Served, RulingAfter, NamesPlace, Asks, PathUnescape, UdpProxyUrl, MasqueTarget, Decimal;
    ClientToBoundary(host, port);
    MasqueTargetExactly(http.requestPath(h.target).value, host, Decimal(port));
    UpgradeIsServed(h, http, policy, lib, lookup, t);
  }

  // ---- every other head ----

  predicate IsConnect(h: Head) {
    h.verb == "CONNECT"
  }

  predicate IsUpgrade(h: Head) {
    h.verb == "GET" && h.connectUdp
  }

  lemma OthersAreRefused(h: Head, http: Http, policy: Option<Policy>, lib: Library, lookup: Resolver, t: seq<Event>)
    requires !IsConnect(h) && !IsUpgrade(h) && Served(RulingAfter(Read(h), http, policy, lib, lookup), t)
    ensures RefusedWith(t, "", "", Block, "connect-only", 405)
  {
    hide Served, RuleOn;
    RejectedImproper(RequestOf(http, lib, h), policy, lib, lookup, t);
  }

  /** A head the reader refuses is recorded and refused with the reader's reason; an I/O error leaves only the close. */
  lemma UnreadHeads(read: HeadRead, http: Http, policy: Option<Policy>, lib: Library, lookup: Resolver, t: seq<Event>)
    requires !read.Read? && Served(RulingAfter(read, http, policy, lib, lookup), t)
    ensures if read.Broken? then t == [CloseClient] else RefusedWith(t, "", "", Block, read.reason, read.status)
  {
    hide Served;
    var r := RulingAfter(read, http, policy, lib, lookup);
    if read.Broken? {
      var failed, e := ServedShape(r, t);
      assert Failures(RouteOf(r), []) == [];
    } else {
      RejectedTrace(r, t);
    }
  }

  // ---- the transport ----

  /** Everything dialed, recorded and announced is of one transport. */
  predicate Speaks(e: Event, network: string) {
    match e
    case Audit(record) => record.transport == network
    case Dial(route, _, _) => route.network == network
    case Established(status) => status == if network == "udp" then 101 else 200
    case _ => true
  }

  lemma NothingReachedAt(t: seq<Event>, network: string, port: string, v: Verdict)
    requires NothingReached(t, network, port, v)
    ensures var k := |v.addresses|;
      && |t| == k + 3
      && (forall j | 0 <= j < k :: t[j] == Dial(Route(network, port), v.addresses[j], false))
      && t[k] == Audit(Record(network, v.destination, Fail, "dial-failed", None, ""))
      && t[k + 1] == Deny(502, "dial-failed")
      && t[k + 2] == CloseClient
  {
    assert t == t[..|v.addresses|] + t[|v.addresses|..];
  }

  lemma ReachedAt(t: seq<Event>, network: string, port: string, v: Verdict, k: nat)
    requires Reached(t, network, port, v, k)
    ensures k < |v.addresses| && |t| == k + 6
    ensures
      && (forall j | 0 <= j < k :: t[j] == Dial(Route(network, port), v.addresses[j], false))
      && t[k] == Dial(Route(network, port), v.addresses[k], true)
      && t[k + 1] == Audit(Record(network, v.destination, Allow, "", Some(v.addresses[k]), v.rule))
      && t[k + 2] == Established(if network == "udp" then 101 else 200)
      && t[k + 3] == Relay && t[k + 4] == CloseUpstream && t[k + 5] == CloseClient
  {
    assert t == t[..k] + t[k..];
  }

  lemma FollowingSpeaks(t: seq<Event>, network: string, port: string, v: Verdict)
    requires FollowsVerdict(t, network, port, v)
    ensures forall i | 0 <= i < |t| :: Speaks(t[i], network)
  {
    hide NothingReached, Reached;
    if v.reason == "" && v.error.None? {
      if NothingReached(t, network, port, v) {
        NothingReachedAt(t, network, port, v);
      } else {
        var k: nat :| Reached(t, network, port, v, k);
        ReachedAt(t, network, port, v, k);
      }
    }
  }

  lemma AskingSpeaks(
    t: seq<Event>, network: string, host: string, port: string, policy: Option<Policy>, lib: Library, lookup: Resolver)
    requires Asks(t, network, host, port, policy, lib, lookup)
    ensures forall i | 0 <= i < |t| :: Speaks(t[i], network)
  {
    hide Authorize, FollowsVerdict, JoinHostPort;
    if policy.Some? && (network == "udp" ==> policy.value.udp) {
      FollowingSpeaks(t, network, port, Authorize(policy.value, lib, lookup, host, port, network));
    }
  }

  /** A CONNECT is dialed, recorded and answered as tcp, a connect-udp upgrade as udp. */
  lemma TransportOfTheHead(h: Head, http: Http, policy: Option<Policy>, lib: Library, lookup: Resolver, t: seq<Event>)
    requires IsConnect(h) || IsUpgrade(h)
    requires Served(RulingAfter(Read(h), http, policy, lib, lookup), t)
    ensures forall i | 0 <= i < |t| :: Speaks(t[i], if h.verb == "CONNECT" then "tcp" else "udp")
  {
    hide Served, RulingAfter, NamesPlace, Asks, HostFieldAgrees, PortText, WritesHostPort;
    if h.verb == "CONNECT" {
      ConnectIsServed(h, http, policy, lib, lookup, t);
      if host, port :| NamesTarget(http, h, host, port) {
        if Asks(t, "tcp", host, port, policy, lib, lookup) {
          AskingSpeaks(t, "tcp", host, port, policy, lib, lookup);
        }
      }
    } else {
      UpgradeIsServed(h, http, policy, lib, lookup, t);
      var path := UpgradePath(http, h);
      if path.Some? {
        if host, port :| NamesPlace(path.value, host, port) {
          AskingSpeaks(t, "udp", host, port, policy, lib, lookup);
        }
      }
    }
  }

  /** A policy without udp: an upgrade dials nothing, and a properly written one is refused as udp-disabled. */
  lemma UdpDisabled(h: Head, http: Http, p: Policy, lib: Library, lookup: Resolver, t: seq<Event>)
    requires IsUpgrade(h) && !p.udp && Served(RulingAfter(Read(h), http, Some(p), lib, lookup), t)
    ensures forall i | 0 <= i < |t| :: !t[i].Dial?
    ensures forall host, port :: UpgradePath(http, h).Some? && NamesPlace(UpgradePath(http, h).value, host, port) ==>
      RefusedWith(t, "udp", JoinHostPort(host, port), Block, "udp-disabled", 403)
  {
    hide Served, RulingAfter, NamesPlace, JoinHostPort, Authorize;
    UpgradeIsServed(h, http, Some(p), lib, lookup, t);
    var path := UpgradePath(http, h);
    if path.Some? {
      if host, port :| NamesPlace(path.value, host, port) {
        assert Asks(t, "udp", host, port, Some(p), lib, lookup);
      }
    }
  }

  // ---- up to the descriptor ----

  predicate SomeDial(t: seq<Event>) {
    exists i :: 0 <= i < |t| && t[i].Dial?
  }

  lemma VerdictDials(t: seq<Event>, network: string, port: string, v: Verdict)
    requires FollowsVerdict(t, network, port, v)
    ensures SomeDial(t) <==> Allowed(v) && v.addresses != []
    ensures forall i | 0 <= i < |t| && t[i].Dial? :: t[i].route == Route(network, port) && t[i].address in v.addresses
  {
    hide NothingReached, Reached;
    if Allowed(v) {
      if NothingReached(t, network, port, v) {
        NothingReachedAt(t, network, port, v);
        if v.addresses != [] {
          assert t[0].Dial?;
        }
      } else {
        var k: nat :| Reached(t, network, port, v, k);
        ReachedAt(t, network, port, v, k);
        assert t[k].Dial?;
      }
    }
  }

  /** The addresses the descriptor lets a name be dialed at: those its serving rule offers that may be dialed. */
  ghost predicate MayDial(lib: Library, d: Descriptor, lookup: Resolver, name: string, n: nat, network: string, a: Addr) {
    exists i: nat :: Serves(lib, d, name, n, network, i) && Dialable(lib, d, d.rules[i], lookup, name, a, n)
  }

  lemma OneServes(lib: Library, d: Descriptor, name: string, n: nat, network: string, i: nat, j: nat)
    requires Serves(lib, d, name, n, network, i) && Serves(lib, d, name, n, network, j)
    ensures i == j
  {
    hide Grants;
  }

  /** The verdict on a name, read off the descriptor, as far as dials go. */
  lemma VerdictAddresses(
    lib: Library, d: Descriptor, generation: string, lookup: Resolver,
    host: string, port: string, network: string, name: string, a: Addr)
    requires Loads(lib, d) && PortText(port) && IsKind(lib, host, NameHost(name))
    ensures var v := Authorize(Load(lib, d, generation), lib, lookup, host, port, network);
      Allowed(v) && a in v.addresses <==> MayDial(lib, d, lookup, name, DigitValue(port), network, a)
  {
    hide Load, Loads, IsKind, Grants, Dialable, Authorize, DigitValue, JoinHostPort;
    var n, v := DigitValue(port), Authorize(Load(lib, d, generation), lib, lookup, host, port, network);
    DecisionAsWritten(lib, d, generation, lookup, host, port, network, NameHost(name));
    if SomeGrants(lib, d, NameHost(name), n, network) {
      NamesAreServedAsWritten(lib, d, generation, lookup, host, port, network, name);
      var i: nat :| ServedAsWritten(lib, d, lookup, name, n, network, i, v);
      forall j: nat | Serves(lib, d, name, n, network, j) ensures j == i {
        OneServes(lib, d, name, n, network, i, j);
      }
      if Dialable(lib, d, d.rules[i], lookup, name, a, n) {
        DialableNeedsAnswers(lib, d, i, lookup, name, a, n);
      }
    }
  }

  lemma DialableNeedsAnswers(lib: Library, d: Descriptor, i: nat, lookup: Resolver, name: string, a: Addr, n: nat)
    requires i < |d.rules| && Dialable(lib, d, d.rules[i], lookup, name, a, n)
    ensures d.rules[i].resolve.Some? || lookup(name).Success?
  {
    hide CoveredAsWritten, WritesResolve;
  }

  /**
   * From the head to the descriptor: a CONNECT to a name dials only addresses
   * the descriptor lets that name be dialed at, on the written port over tcp,
   * and it dials unless there are none.
   */
  lemma ConnectFollowsTheDescriptor(
    h: Head, host: string, port: string, name: string, http: Http, d: Descriptor, generation: string,
    lib: Library, lookup: Resolver, t: seq<Event>)
    requires h.verb == "CONNECT" && NamesTarget(http, h, host, port) && PortText(port)
    requires HostFieldAgrees(http, lib, h, host, port) && IsKind(lib, host, NameHost(name)) && Loads(lib, d)
    requires Served(RulingAfter(Read(h), http, Some(Load(lib, d, generation)), lib, lookup), t)
    ensures forall i | 0 <= i < |t| && t[i].Dial? ::
      t[i].route == Route("tcp", port) && MayDial(lib, d, lookup, name, DigitValue(port), "tcp", t[i].address)
    ensures SomeDial(t) <==> exists a :: MayDial(lib, d, lookup, name, DigitValue(port), "tcp", a)
  {
    hide Served, RulingAfter, Load, Loads, IsKind, Authorize, MayDial, FollowsVerdict, HostFieldAgrees, WritesHostPort, DigitValue, JoinHostPort;
    var p := Load(lib, d, generation);
    ConnectIsServed(h, http, Some(p), lib, lookup, t);
    DialsFollowTheDescriptor(host, port, name, "tcp", d, generation, lib, lookup, t);
  }

  lemma DialsFollowTheDescriptor(
    host: string, port: string, name: string, network: string, d: Descriptor, generation: string,
    lib: Library, lookup: Resolver, t: seq<Event>)
    requires PortText(port) && IsKind(lib, host, NameHost(name)) && Loads(lib, d)
    requires FollowsVerdict(t, network, port, Authorize(Load(lib, d, generation), lib, lookup, host, port, network))
    ensures forall i | 0 <= i < |t| && t[i].Dial? ::
      t[i].route == Route(network, port) && MayDial(lib, d, lookup, name, DigitValue(port), network, t[i].address)
    ensures SomeDial(t) <==> exists a :: MayDial(lib, d, lookup, name, DigitValue(port), network, a)
  {
    hide Load, Loads, IsKind, Authorize, MayDial, FollowsVerdict, DigitValue, SomeDial;
    var v := Authorize(Load(lib, d, generation), lib, lookup, host, port, network);
    VerdictDials(t, network, port, v);
    forall a ensures Allowed(v) && a in v.addresses <==> MayDial(lib, d, lookup, name, DigitValue(port), network, a) {
      VerdictAddresses(lib, d, generation, lookup, host, port, network, name, a);
    }
    if v.addresses != [] {
      assert v.addresses[0] in v.addresses;
    }
    DialsNeedAllowance(t);
  }

  lemma DialsNeedAllowance(t: seq<Event>)
    ensures forall i | 0 <= i < |t| && t[i].Dial? :: SomeDial(t)
  {
  }

  /** The same for a connect-udp upgrade, where the descriptor has udp. */
  lemma UpgradeFollowsTheDescriptor(
    h: Head, host: string, port: string, name: string, http: Http, d: Descriptor, generation: string,
    lib: Library, lookup: Resolver, t: seq<Event>)
    requires IsUpgrade(h) && UpgradePath(http, h).Some? && NamesPlace(UpgradePath(http, h).value, host, port) && PortText(port)
    requires IsKind(lib, host, NameHost(name)) && Loads(lib, d)
    requires Served(RulingAfter(Read(h), http, Some(Load(lib, d, generation)), lib, lookup), t)
    ensures forall i | 0 <= i < |t| && t[i].Dial? ::
      && t[i].route == Route("udp", port)
      && d.udp
      && MayDial(lib, d, lookup, name, DigitValue(port), "udp", t[i].address)
    ensures SomeDial(t) <==> d.udp && exists a :: MayDial(lib, d, lookup, name, DigitValue(port), "udp", a)
  {
    hide Served, RulingAfter, Loads, IsKind, Authorize, MayDial, FollowsVerdict, NamesPlace, DigitValue, JoinHostPort;
    UpgradeIsServed(h, http, Some(Load(lib, d, generation)), lib, lookup, t);
    if d.udp {
      DialsFollowTheDescriptor(host, port, name, "udp", d, generation, lib, lookup, t);
    }
  }
}
