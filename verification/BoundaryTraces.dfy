/** What every trace of a served connection satisfies. */
module BoundaryTraces {
  import opened Boundary
  import opened BoundaryRules
  import opened Counting
  import opened Descriptors
  import opened Netip
  import opened Policies
  import opened PolicyTheorems
  import Text
  import opened Wrappers

  predicate IsAudit(e: Event) {
    e.Audit?
  }

  predicate IsOpen(e: Event) {
    e.Dial? && e.ok
  }

  predicate IsClose(e: Event) {
    e.CloseUpstream?
  }

  // ---- the shape of a trace ----

  function RouteOf(r: Ruling): Route {
    if r.Dialing? then r.route else Route("", "")
  }

  datatype Ending = Nothing | Refusal(refusal: Record, status: nat) | Carried(record: Record, route: Route, a: Addr)

  function Tail(e: Ending): seq<Event> {
    match e
    case Nothing => [CloseClient]
    case Refusal(record, status) => [Audit(record), Deny(status, record.reason), CloseClient]
    case Carried(record, route, a) => [Dial(route, a, true), Audit(record), Established(SuccessStatus(route)), Relay, CloseUpstream, CloseClient]
  }

  /** After some failed dials of the ruling's addresses, in order, one of three endings. */
  ghost predicate Shape(r: Ruling, failed: seq<Addr>, e: Ending) {
    match e
    case Nothing => r.Silent? && failed == []
    case Refusal(record, status) =>
      || (r.Reject? && record == r.record && status == r.status && failed == [])
      || (r.Dialing? && record == DialFailedRecord(r) && status == 502 && failed == r.verdict.addresses)
    case Carried(record, route, a) =>
      && r.Dialing?
      && route == r.route
      && record == AllowRecord(r, a)
      && |failed| < |r.verdict.addresses|
      && failed == r.verdict.addresses[..|failed|]
      && a == r.verdict.addresses[|failed|]
  }

  lemma RefusalShape(r: Ruling, u: seq<Event>) returns (failed: seq<Addr>, e: Ending)
    requires Refuses(r, u)
    ensures Shape(r, failed, e) && u + [CloseClient] == Failures(RouteOf(r), failed) + Tail(e)
  {
    match r
    case Reject(record, status) =>
      failed, e := [], Refusal(record, status);
    case Dialing(_, v) =>
      failed, e := v.addresses, Refusal(DialFailedRecord(r), 502);
  }

  lemma TunnelShape(r: Ruling, u: seq<Event>, a: Addr) returns (failed: seq<Addr>, e: Ending)
    requires Tunnels(r, u, a)
    ensures Shape(r, failed, e) && u + [CloseClient] == Failures(RouteOf(r), failed) + Tail(e)
  {
    var front := u[..|u| - 3];
    var dialed := front[..|front| - 1];
    var addresses := r.verdict.addresses;
    var k :| 0 <= k < |addresses| && addresses[k] == a && dialed == Failures(r.route, addresses[..k]) + [Dial(r.route, a, true)];
    failed, e := addresses[..k], Carried(AllowRecord(r, a), r.route, a);
    assert front == dialed + [Audit(AllowRecord(r, a))];
    assert u == front + [Established(SuccessStatus(r.route)), Relay, CloseUpstream];
  }

  lemma ServedShape(r: Ruling, t: seq<Event>) returns (failed: seq<Addr>, e: Ending)
    requires Served(r, t)
    ensures Shape(r, failed, e) && t == Failures(RouteOf(r), failed) + Tail(e)
  {
    hide Refuses, Tunnels, Shape;
    var u := t[..|t| - 1];
    assert t == u + [CloseClient];
    if r.Silent? {
      failed, e := [], Nothing;
      SilentShape(r);
    } else if Refuses(r, u) {
      failed, e := RefusalShape(r, u);
    } else {
      var a :| Tunnels(r, u, a);
      failed, e := TunnelShape(r, u, a);
    }
  }

  lemma SilentShape(r: Ruling)
    requires r.Silent?
    ensures Shape(r, [], Nothing) && Failures(RouteOf(r), []) == []
  {
  }

  // ---- counting ----

  lemma {:induction false} CountConcat(s: seq<Event>, t: seq<Event>, p: Event -> bool)
    ensures Count(s + t, p) == Count(s, p) + Count(t, p)
  {
    if t == [] {
      assert s + t == s;
    } else {
      assert (s + t)[..|s + t| - 1] == s + t[..|t| - 1];
      CountConcat(s, t[..|t| - 1], p);
    }
  }

  lemma CountTail(route: Route, failed: seq<Addr>, e: Ending, p: Event -> bool)
    requires forall x, a :: !p(Dial(x, a, false))
    ensures Count(Failures(route, failed) + Tail(e), p) == Count(Tail(e), p)
  {
    CountConcat(Failures(route, failed), Tail(e), p);
    CountZero(Failures(route, failed), p);
  }

  lemma CountOne(x: Event, p: Event -> bool)
    ensures Count([x], p) == Bit(p(x))
  {
    assert [x][..0] == [];
  }

  lemma CountThree(x: Event, y: Event, z: Event, p: Event -> bool)
    ensures Count([x, y, z], p) == Bit(p(x)) + Bit(p(y)) + Bit(p(z))
  {
    hide Count;
    CountOne(x, p);
    CountAppend([x], y, p);
    CountAppend([x] + [y], z, p);
    assert [x] + [y] + [z] == [x, y, z];
  }

  lemma CountRefusal(record: Record, status: nat, p: Event -> bool)
    ensures Count(Tail(Refusal(record, status)), p)
      == Bit(p(Audit(record))) + Bit(p(Deny(status, record.reason))) + Bit(p(CloseClient))
  {
    CountThree(Audit(record), Deny(status, record.reason), CloseClient, p);
  }

  lemma CountCarried(record: Record, route: Route, a: Addr, p: Event -> bool)
    ensures Count(Tail(Carried(record, route, a)), p)
      == Bit(p(Dial(route, a, true))) + Bit(p(Audit(record))) + Bit(p(Established(SuccessStatus(route)))) + Bit(p(Relay))
         + Bit(p(CloseUpstream)) + Bit(p(CloseClient))
  {
    hide Count;
    var first := [Dial(route, a, true), Audit(record), Established(SuccessStatus(route))];
    assert Tail(Carried(record, route, a)) == first + [Relay, CloseUpstream, CloseClient];
    CountThree(Dial(route, a, true), Audit(record), Established(SuccessStatus(route)), p);
    CountThree(Relay, CloseUpstream, CloseClient, p);
    CountConcat(first, [Relay, CloseUpstream, CloseClient], p);
  }

  // ---- the theorems ----

  /** The event at a position: a failed dial, or one of the ending. */
  lemma EventAt(r: Ruling, failed: seq<Addr>, e: Ending, t: seq<Event>)
    requires t == Failures(RouteOf(r), failed) + Tail(e)
    ensures |t| == |failed| + |Tail(e)| && |Tail(e)| == if e.Nothing? then 1 else if e.Refusal? then 3 else 6
    ensures forall j | 0 <= j < |failed| :: t[j] == Dial(RouteOf(r), failed[j], false)
    ensures forall j | |failed| <= j < |t| :: t[j] == Tail(e)[j - |failed|]
    ensures e.Carried? ==> t[|failed| + 2..] == [Established(SuccessStatus(e.route)), Relay, CloseUpstream, CloseClient]
  {
  }

  /** Exactly one audit record is written, and none only when the head ends in an I/O error. */
  lemma OneRecord(r: Ruling, t: seq<Event>)
    requires Served(r, t)
    ensures Count(t, IsAudit) == if r.Silent? then 0 else 1
  {
    hide Count, Failures;
    var failed, e := ServedShape(r, t);
    CountTail(RouteOf(r), failed, e, IsAudit);
    match e
    case Nothing => CountOne(CloseClient, IsAudit);
    case Refusal(record, status) => CountRefusal(record, status, IsAudit);
    case Carried(record, route, a) => CountCarried(record, route, a, IsAudit);
  }

  /** The rulings on a head are proper: only a dial can end in an allow decision. */
  ghost predicate Proper(r: Ruling) {
    r.Reject? ==> r.record.decision != Allow
  }

  lemma RulingsAreProper(read: HeadRead, http: Http, policy: Option<Policy>, lib: Library, lookup: Resolver)
    ensures Proper(RulingAfter(read, http, policy, lib, lookup))
  {
    hide RuleOn;
    if read.Read? {
      if RuleOn(RequestOf(http, lib, read.head), policy, lib, lookup).Reject? {
        RejectionsHaveReasons(read.head, http, policy, lib, lookup);
      }
    }
  }

  /** An allow record: its address was dialed, and every earlier dial failed. */
  ghost predicate AllowedAt(r: Ruling, t: seq<Event>, i: nat) {
    && 0 < i < |t| - 4
    && r.Dialing?
    && t[i].Audit?
    && t[i].record.address.Some?
    && t[i] == Audit(AllowRecord(r, t[i].record.address.value))
    && t[i - 1] == Dial(r.route, t[i].record.address.value, true)
    && t[i].record.address.value in r.verdict.addresses
    && t[i + 1..] == [Established(SuccessStatus(r.route)), Relay, CloseUpstream, CloseClient]
    && forall j | 0 <= j < i - 1 :: t[j].Dial? && !t[j].ok
  }

  /** Any other record: the refusal that follows carries its reason, and no dial succeeded. */
  ghost predicate RefusedAt(t: seq<Event>, i: nat) {
    && i == |t| - 3
    && t[i].Audit?
    && t[i + 1].Deny?
    && t[i + 1].reason == t[i].record.reason
    && t[i + 2] == CloseClient
    && forall j | 0 <= j < i :: t[j].Dial? && !t[j].ok
  }

  /**
   * The record tells the whole connection. The decision is allow if and only
   * if an upstream was dialed; then the success response comes after the
   * record and relaying after that. Otherwise the one refusal carries the
   * record's reason and nothing was opened.
   */
  lemma RecordTellsTheTrace(
    read: HeadRead, http: Http, policy: Option<Policy>, lib: Library, lookup: Resolver, t: seq<Event>, i: nat)
    requires Served(RulingAfter(read, http, policy, lib, lookup), t) && i < |t| && t[i].Audit?
    ensures if t[i].record.decision == Allow then AllowedAt(RulingAfter(read, http, policy, lib, lookup), t, i)
      else RefusedAt(t, i)
    ensures t[i].record.decision == Allow <==> exists j :: 0 <= j < |t| && IsOpen(t[j])
  {
    hide Served, RulingAfter;
    RulingsAreProper(read, http, policy, lib, lookup);
    ProperRecord(RulingAfter(read, http, policy, lib, lookup), t, i);
  }

  lemma ProperRecord(r: Ruling, t: seq<Event>, i: nat)
    requires Served(r, t) && Proper(r) && i < |t| && t[i].Audit?
    ensures if t[i].record.decision == Allow then AllowedAt(r, t, i) else RefusedAt(t, i)
    ensures t[i].record.decision == Allow <==> exists j :: 0 <= j < |t| && IsOpen(t[j])
  {
    hide Served, Failures;
    var failed, e := ServedShape(r, t);
    EventAt(r, failed, e, t);
    if e.Carried? {
      assert IsOpen(t[|failed|]);
    }
  }

  lemma OpenAndClose(r: Ruling, t: seq<Event>)
    requires Served(r, t)
    ensures Count(t, IsOpen) == Count(t, IsClose) <= 1
  {
    hide Count, Failures;
    var failed, e := ServedShape(r, t);
    CountTail(RouteOf(r), failed, e, IsOpen);
    CountTail(RouteOf(r), failed, e, IsClose);
    match e
    case Nothing =>
      CountOne(CloseClient, IsOpen);
      CountOne(CloseClient, IsClose);
    case Refusal(record, status) =>
      CountRefusal(record, status, IsOpen);
      CountRefusal(record, status, IsClose);
    case Carried(record, route, a) =>
      CountCarried(record, route, a, IsOpen);
      CountCarried(record, route, a, IsClose);
  }

  /** Bytes flow only through an upstream that is open, recorded as allowed and announced. */
  lemma RelayIsLast(r: Ruling, t: seq<Event>, i: nat)
    requires Served(r, t) && i < |t| && t[i].Relay?
    ensures i >= 3 && t[i - 1].Established? && t[i - 2].Audit? && t[i - 2].record.decision == Allow
    ensures t[i - 2].record.address.Some? && t[i - 3].Dial? && t[i - 3].ok
    ensures t[i - 3].address == t[i - 2].record.address.value
    ensures forall j | 0 <= j < i :: t[j] != CloseUpstream && t[j] != CloseClient
  {
    hide Served, Failures;
    var failed, e := ServedShape(r, t);
    EventAt(r, failed, e, t);
  }

  /**
   * What a connection dials: only addresses the policy justifies for the host,
   * port and transport of its own request, and at least one of them.
   */
  lemma DialsAreAuthorized(h: Head, http: Http, p: Policy, lib: Library, lookup: Resolver, t: seq<Event>, i: nat)
    requires Well(p) && Served(RuleOn(RequestOf(http, lib, h), Some(p), lib, lookup), t)
    requires i < |t| && t[i].Dial?
    ensures var q, v, a := RequestOf(http, lib, h), RuleOn(RequestOf(http, lib, h), Some(p), lib, lookup).verdict, t[i].address;
      && q.Tunnel?
      && Text.ParsePort(q.port).Some?
      && t[i].route == Route(q.network, q.port)
      && Unmap(a) == a
      && Zone(a) == ""
      && Justified(p, lib, lookup, q.host, Text.ParsePort(q.port).value, q.network, v.rule, a)
  {
    hide Served, RuleOn, RequestOf, Justified;
    var q := RequestOf(http, lib, h);
    var r := RuleOn(q, Some(p), lib, lookup);
    var failed, e := ServedShape(r, t);
    EventAt(r, failed, e, t);
    assert r.Dialing?;
    DialedAddressesAreJustified(q, p, lib, lookup);
  }
}
