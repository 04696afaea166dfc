/**
 * One HTTP/1.1 connection at the boundary, past its TLS handshake: everything
 * it does to the outside, in order, and what every such trace satisfies.
 */
module Boundary {
  import opened BoundaryRules
  import opened Descriptors
  import opened HostPorts
  import opened Netip
  import opened Policies
  import opened PolicyObject
  import opened PolicyTheorems
  import opened Template
  import opened Wrappers

  datatype Event =
    | Audit(record: Record)
    | Deny(status: nat, reason: string)
    | Dial(route: Route, address: Addr, ok: bool)
    | Established(status: nat)
    | Relay
    | CloseUpstream
    | CloseClient

  // ---- the possible traces ----

  function Failures(route: Route, addresses: seq<Addr>): (t: seq<Event>)
    ensures |t| == |addresses|
  {
    seq(|addresses|, i requires 0 <= i < |addresses| => Dial(route, addresses[i], false))
  }

  /** Dialing the addresses in turn first succeeds at a. */
  ghost predicate Reaches(route: Route, addresses: seq<Addr>, t: seq<Event>, a: Addr) {
    exists k :: 0 <= k < |addresses| && addresses[k] == a && t == Failures(route, addresses[..k]) + [Dial(route, a, true)]
  }

  function AllowRecord(r: Ruling, a: Addr): Record
    requires r.Dialing?
  {
    Record(r.route.network, r.verdict.destination, Allow, "", Some(a), r.verdict.rule)
  }

  function DialFailedRecord(r: Ruling): Record
    requires r.Dialing?
  {
    Record(r.route.network, r.verdict.destination, Fail, "dial-failed", None, "")
  }

  /** connectUpstream dialed a and recorded it. */
  ghost predicate Opens(r: Ruling, t: seq<Event>, a: Addr) {
    && r.Dialing?
    && |t| >= 1
    && Reaches(r.route, r.verdict.addresses, t[..|t| - 1], a)
    && t[|t| - 1] == Audit(AllowRecord(r, a))
  }

  /** It refused instead. */
  ghost predicate Refuses(r: Ruling, t: seq<Event>) {
    match r
    case Silent => false
    case Reject(record, status) => t == [Audit(record), Deny(status, record.reason)]
    case Dialing(_, v) => t == Failures(r.route, v.addresses) + [Audit(DialFailedRecord(r)), Deny(502, "dial-failed")]
  }

  /** The status that announces a tunnel: 200 to a CONNECT, 101 to an upgrade. */
  function SuccessStatus(route: Route): nat {
    if route.network == "udp" then 101 else 200
  }

  /** The tunnel to a: opened, announced, carried, closed. */
  ghost predicate Tunnels(r: Ruling, t: seq<Event>, a: Addr) {
    && r.Dialing?
    && |t| >= 3
    && t[|t| - 3..] == [Established(SuccessStatus(r.route)), Relay, CloseUpstream]
    && Opens(r, t[..|t| - 3], a)
  }

  ghost predicate Handled(r: Ruling, t: seq<Event>) {
    Refuses(r, t) || exists a :: Tunnels(r, t, a)
  }

  /** The whole connection; an I/O error in the head leaves no trace but the close. */
  ghost predicate Served(r: Ruling, t: seq<Event>) {
    && |t| >= 1
    && t[|t| - 1] == CloseClient
    && if r.Silent? then |t| == 1 else Handled(r, t[..|t| - 1])
  }

  lemma OpensThenTunnels(r: Ruling, front: seq<Event>, a: Addr, status: nat)
    requires Opens(r, front, a) && (r.Dialing? ==> status == SuccessStatus(r.route))
    ensures Handled(r, front + [Established(status), Relay, CloseUpstream])
  {
    var t := front + [Established(status), Relay, CloseUpstream];
    assert t[..|t| - 3] == front;
    assert Tunnels(r, t, a);
  }

  lemma RefusesIsHandled(r: Ruling, t: seq<Event>)
    requires Refuses(r, t)
    ensures Handled(r, t)
  {
  }

  // ---- the connection ----

  class Connection {
    const lib: Library
    const http: Http
    const lookup: Policies.Resolver
    var current: LoadedPolicy?
    var trace: seq<Event>

    constructor (lib: Library, http: Http, lookup: Policies.Resolver, current: LoadedPolicy?)
      requires current != null ==> current.Valid() && Well(current.View())
      ensures this.lib == lib && this.http == http && this.lookup == lookup && this.current == current && trace == []
    {
      this.lib, this.http, this.lookup, this.current := lib, http, lookup, current;
      trace := [];
    }

    ghost predicate Valid()
      reads this`current, current
    {
      current != null ==> current.Valid() && Well(current.View())
    }

    ghost function Policy(): Option<Policies.Policy>
      reads this`current, current
    {
      if current == null then None else Some(current.View())
    }

    ghost function RulingOn(q: Request): Ruling
      reads this`current, current
    {
      RuleOn(q, Policy(), lib, lookup)
    }

    method Emit(e: Event)
      modifies this`trace
      ensures trace == old(trace) + [e]
    {
      trace := trace + [e];
    }

    /** dialAuthorized: each dial may succeed or fail. */
    method DialAuthorized(route: Route, addresses: seq<Addr>) returns (upstream: Option<Addr>, failed: bool)
      modifies this`trace
      ensures old(trace) <= trace
      ensures match upstream
        case Some(a) => Reaches(route, addresses, trace[|old(trace)|..], a)
        case None => trace == old(trace) + Failures(route, addresses)
      ensures upstream.None? ==> (failed <==> addresses != [])
    {
      failed := false;
      ghost var before := trace;
      for i := 0 to |addresses|
        invariant trace == before + Failures(route, addresses[..i])
        invariant failed <==> i > 0
      {
        var ok: bool := *;
        Emit(Dial(route, addresses[i], ok));
        if ok {
          assert trace[|before|..] == Failures(route, addresses[..i]) + [Dial(route, addresses[i], true)];
          return Some(addresses[i]), false;
        }
        failed := true;
        assert Failures(route, addresses[..i + 1]) == Failures(route, addresses[..i]) + [Dial(route, addresses[i], false)];
      }
      assert addresses[..|addresses|] == addresses;
      return None, failed;
    }

    method Refuse(transport: string, destination: string, decision: Decision, reason: string, status: nat)
      modifies this`trace
      ensures old(trace) <= trace
      ensures Refuses(Rejection(transport, destination, decision, reason, status), trace[|old(trace)|..])
    {
      Emit(Audit(Record(transport, destination, decision, reason, None, "")));
      Emit(Deny(status, reason));
    }

    method ConnectUpstream(network: string, host: string, port: string) returns (upstream: Option<Addr>)
      requires Valid()
      modifies this`trace
      ensures old(trace) <= trace
      ensures var r := RulingOn(Tunnel(network, host, port));
        match upstream
        case Some(a) => Opens(r, trace[|old(trace)|..], a)
        case None => Refuses(r, trace[|old(trace)|..])
    {
      hide Authorize, Well, Reaches;
      if current == null {
        Refuse(network, JoinHostPort(host, port), Fail, "policy-unavailable", 503);
        return None;
      }
      if network == "udp" && !current.udp {
        Refuse(network, JoinHostPort(host, port), Block, "udp-disabled", 403);
        return None;
      }
      var v := current.AuthorizeRequest(lib, lookup, host, port, network);
      if v.reason != "" {
        Refuse(network, v.destination, Block, v.reason, v.status);
        return None;
      }
      if v.error.Some? {
        Refuse(network, v.destination, Fail, "resolve-failed", 502);
        return None;
      }
      DialedAddressesAreJustified(Tunnel(network, host, port), current.View(), lib, lookup);
      upstream := DialVerdict(Route(network, port), v);
    }

    /** The end of connectUpstream, for an allowing verdict. */
    method DialVerdict(route: Route, v: Verdict) returns (upstream: Option<Addr>)
      requires v.addresses != []
      modifies this`trace
      ensures old(trace) <= trace
      ensures match upstream
        case Some(a) => Opens(Dialing(route, v), trace[|old(trace)|..], a)
        case None => Refuses(Dialing(route, v), trace[|old(trace)|..])
    {
      hide Reaches;
      ghost var before := trace;
      var failed: bool;
      upstream, failed := DialAuthorized(route, v.addresses);
      ghost var dialed := trace[|before|..];
      if failed && upstream.None? {
        Emit(Audit(Record(route.network, v.destination, Fail, "dial-failed", None, "")));
        Emit(Deny(502, "dial-failed"));
        assert trace == before + (Failures(route, v.addresses)
          + [Audit(DialFailedRecord(Dialing(route, v))), Deny(502, "dial-failed")]);
        return None;
      }
      // No error means a connection, because the list is not empty.
      Emit(Audit(Record(route.network, v.destination, Allow, "", Some(upstream.value), v.rule)));
      assert trace[|before|..][..|dialed|] == dialed;
    }

    /** handleConnect and handleConnectUDP after their targets: relay or pump, then the deferred close. */
    method Carry(network: string, host: string, port: string, status: nat)
      requires Valid() && status == SuccessStatus(Route(network, port))
      modifies this`trace
      ensures old(trace) <= trace
      ensures Handled(RulingOn(Tunnel(network, host, port)), trace[|old(trace)|..])
    {
      hide Opens, Refuses, RuleOn, SuccessStatus, Tunnels, Handled;
      ghost var before := trace;
      RouteOfRuling(Tunnel(network, host, port), Policy(), lib, lookup);
      var upstream := ConnectUpstream(network, host, port);
      if upstream.None? {
        RefusesIsHandled(RulingOn(Tunnel(network, host, port)), trace[|before|..]);
        return;
      }
      ghost var front := trace[|before|..];
      Emit(Established(status));
      Emit(Relay);
      Emit(CloseUpstream);
      assert trace[|before|..] == front + [Established(status), Relay, CloseUpstream];
      OpensThenTunnels(RulingOn(Tunnel(network, host, port)), front, upstream.value, status);
    }

    method HandleConnect(h: Head)
      requires Valid() && h.verb == "CONNECT"
      modifies this`trace
      ensures old(trace) <= trace
      ensures Handled(RulingOn(RequestOf(http, lib, h)), trace[|old(trace)|..])
    {
      hide Tunnels, Authorize, SplitHostPort;
      var target := ConnectTarget(http, lib, h);
      if target.Failure? {
        Refuse("tcp", h.target, Block, target.error, 400);
        return;
      }
      Carry("tcp", target.value.host, target.value.port, 200);
    }

    method HandleConnectUDP(h: Head)
      requires Valid() && h.verb == "GET" && h.connectUdp
      modifies this`trace
      ensures old(trace) <= trace
      ensures Handled(RulingOn(RequestOf(http, lib, h)), trace[|old(trace)|..])
    {
      hide Tunnels, Authorize, MasqueTarget;
      var path := if h.upgrade && h.connectUdp then http.requestPath(h.target) else None;
      if path.None? {
        Refuse("udp", h.target, Block, "malformed-upgrade", 400);
        return;
      }
      var target := MasqueTarget(path.value);
      if target.None? {
        Refuse("udp", h.target, Block, "malformed-template", 400);
        return;
      }
      Carry("udp", target.value.host, target.value.port, 101);
    }

    /** serve, with the result of reading the head given. */
    method Serve(read: HeadRead)
      requires Valid()
      modifies this`trace
      ensures old(trace) <= trace
      ensures Served(RulingAfter(read, http, Policy(), lib, lookup), trace[|old(trace)|..])
    {
      hide Tunnels, Refuses, RuleOn, ConnectTarget, MasqueTarget;
      ghost var before := trace;
      match read {
        case Broken =>
        case Unreadable(status, reason) => Refuse("", "", Block, reason, status);
        case Read(h) => Dispatch(h);
      }
      ghost var u := trace[|before|..];
      Emit(CloseClient);
      assert trace[|before|..] == u + [CloseClient];
      assert (u + [CloseClient])[..|u|] == u;
    }

    /** The branches of serve. */
    method Dispatch(h: Head)
      requires Valid()
      modifies this`trace
      ensures old(trace) <= trace
      ensures Handled(RulingOn(RequestOf(http, lib, h)), trace[|old(trace)|..])
    {
      hide Tunnels, ConnectTarget, MasqueTarget, Authorize;
      if h.verb == "CONNECT" {
        HandleConnect(h);
      } else if h.verb == "GET" && h.connectUdp {
        HandleConnectUDP(h);
      } else {
        Refuse("", "", Block, "connect-only", 405);
      }
    }
  }
}
