/**
 * From a guest's destination address to the boundary's decision: the engine
 * turns the address back into a name or a literal, the boundary authorizes it.
 */
module Forwarding {
  import opened Descriptors
  import opened Netip
  import opened Policies
  import opened PolicyTheorems
  import opened Resolver
  import opened ResolverRuns
  import opened ResolverTranscripts
  import opened SyntheticPools
  import opened Text
  import opened Wrappers

  /** A destination as netip.AddrPort: the address may be the invalid zero value. */
  datatype Destination = Destination(addr: Option<Addr>, port: nat)

  datatype TargetError = InvalidDestination

  function TargetHostIn(w: WorldShape, lib: Library, d: Destination): (r: (WorldShape, Result<string, TargetError>))
    requires w.Valid()
    ensures r.0.Valid()
  {
    if d.addr.None? || d.port == 0 then (w, Failure(InvalidDestination))
    else
      var address := Unmap(d.addr.value);
      match Step(w, Reverse(address))
      case (w1, Name(name)) => (w1, Success(name))
      case (w1, _) => (w1, Success(lib.formatAddr(address)))
  }

  method TargetHost(dns: VirtualDNS, lib: Library, d: Destination) returns (r: Result<string, TargetError>)
    requires dns.Valid()
    modifies dns, dns.v4, dns.v6
    ensures dns.Valid()
    ensures (dns.World(), r) == TargetHostIn(old(dns.World()), lib, d)
  {
    hide Step, Holds, Layout, PoolOf, ReverseIndexes;
    if d.addr.None? || d.port == 0 {
      return Failure(InvalidDestination);
    }
    var address := Unmap(d.addr.value);
    var name := dns.Reverse(address);
    if name.Some? {
      return Success(name.value);
    }
    return Success(lib.formatAddr(address));
  }

  /**
   * An invalid destination or port 0 is refused and touches nothing; any other
   * leads to the name its address was last answered for, while that name is
   * among the most recent the resolver's answers mention, and else to the
   * literal. The lookup is a use of the name.
   */
  lemma TargetFromAnswers(w: WorldShape, ops: seq<Op>, lib: Library, d: Destination)
    requires Fresh(w)
    ensures var (w1, answers) := Run(w, ops);
      var (w2, target) := TargetHostIn(w1, lib, d);
      if d.addr.None? || d.port == 0 then w2 == w1 && target == Failure(InvalidDestination)
      else
        var a := Unmap(d.addr.value);
        && w2 == Step(w1, Reverse(a)).0
        && (forall n | LeadsTo(ops, answers, w.bound, a, n) :: target == Success(n))
        && ((forall n :: !LeadsTo(ops, answers, w.bound, a, n)) ==> target == Success(lib.formatAddr(a)))
  {
    hide Run, Step, LeadsTo;
    if d.addr.Some? && d.port != 0 {
      var a := Unmap(d.addr.value);
      UnmapOnce(d.addr.value);
      forall n ensures Step(Run(w, ops).0, Reverse(a)).1 == Name(n) <==> LeadsTo(ops, Run(w, ops).1, w.bound, a, n) {
        ReverseFromAnswers(w, ops, a, n);
      }
      ReverseFromAnswers(w, ops, a, "");
    }
  }

  /**
   * An address the resolver gave out for a name leads, at every later time and
   * whatever happened since, to that name or to the address as a literal.
   */
  lemma NameOrLiteral(w: WorldShape, ops: seq<Op>, i: nat, lib: Library, d: Destination)
    requires w.Valid() && i < |ops| && ops[i].Resolve? && Run(w, ops).1[i].Address?
    requires d.addr.Some? && d.port != 0 && Unmap(d.addr.value) == Run(w, ops).1[i].addr
    ensures TargetHostIn(Run(w, ops).0, lib, d).1
      in {Success(Canonical(ops[i].name)), Success(lib.formatAddr(Unmap(d.addr.value)))}
  {
    hide Run, Step;
    var later := Run(w, ops).0;
    var a := Unmap(d.addr.value);
    RunAgrees(w, ops);
    assert Agrees(later, ops[i], Run(w, ops).1[i]);
    StepAgrees(later, Reverse(a));
    ReverseKeepsOwners(later, a);
  }

  lemma ReverseKeepsOwners(w: WorldShape, a: Addr)
    requires w.Valid() && Unmap(a) == a
    ensures OwnerIn(Step(w, Reverse(a)).0, a) == OwnerIn(w, a)
    ensures Step(w, Reverse(a)).1.Name? || Step(w, Reverse(a)).1.Miss?
  {
  }

  // ---- the boundary's answer to the literal ----

  ghost predicate Disjoint(p: Prefix, q: Prefix) {
    forall a :: !(Contains(p, a) && Contains(q, a))
  }

  /** No literal rule of the policy reaches into the synthetic pools. */
  ghost predicate AvoidsPools(p: Policy) {
    forall e | e in p.entries && e.target.Literal? && e.rule.prefix.Some? ::
      Disjoint(e.rule.prefix.value, V4_POOL) && Disjoint(e.rule.prefix.value, V6_POOL)
  }

  predicate LiteralCovers(p: Policy, a: Addr) {
    exists e :: e in p.entries && e.target.Literal? && RuleCovers(e.rule, a)
  }

  lemma CandidatesAreCovering(p: Policy, a: Addr)
    ensures LiteralCandidates(p, a) != [] <==> LiteralCovers(p, a)
  {
    hide RulesAt, Covering;
    var candidates := LiteralCandidates(p, a);
    forall r ensures r in candidates <==> Entry(Literal, r) in p.entries && RuleCovers(r, a) {
      CoveringMembers(RulesAt(p.entries, Literal), a, r);
      RulesAtMembers(p.entries, Literal, r);
    }
    if candidates != [] {
      assert Entry(Literal, candidates[0]) in p.entries;
    }
    if LiteralCovers(p, a) {
      var e :| e in p.entries && e.target.Literal? && RuleCovers(e.rule, a);
      assert e == Entry(Literal, e.rule);
    }
  }

  /** A literal that reads back as a is off the allowlist exactly when no literal rule covers a. */
  lemma LiteralOffAllowlist(
    p: Policy, lib: Library, lookup: Policies.Resolver, host: string, port: string, network: string, a: Addr)
    requires lib.parseAddr(ToLower(host)) == Some(a) && Unmap(a) == a && Zone(a) == ""
    requires ParsePort(port).Some?
    ensures var v := Authorize(p, lib, lookup, host, port, network);
      (v.status == 403 && v.reason == "ip-not-on-allowlist" && v.addresses == []) <==> !LiteralCovers(p, a)
  {
    hide FirstAllowing, RulesAt, Covering, Permits, ParsePort, LiteralCovers;
    CandidatesAreCovering(p, a);
  }

  lemma PoolAddressUncovered(p: Policy, w: WorldShape, k: nat, six: bool)
    requires AvoidsPools(p) && Standard(w) && k < w.PoolOf(six).capacity
    ensures !LiteralCovers(p, AddressOf(w.PoolOf(six), k))
  {
    V4Layout();
    V6Layout();
    var a := AddressOf(w.PoolOf(six), k);
    var pool := if six then V6_POOL else V4_POOL;
    AddressesFillThePool(pool, if six then V6_RESERVED else V4_RESERVED, a);
    assert Contains(pool, a);
  }

  /**
   * A stale cache fails closed. A guest dials, at any later time, an address
   * the resolver once gave out: the boundary is asked about the original name,
   * or about a literal that it refuses on every port and transport.
   */
  lemma StaleCacheFailsClosed(
    w: WorldShape, ops: seq<Op>, i: nat, lib: Library, d: Destination,
    p: Policy, lookup: Policies.Resolver, network: string)
    requires Fresh(w) && Standard(w)
    requires i < |ops| && ops[i].Resolve? && Run(w, ops).1[i].Address?
    requires d.addr.Some? && 1 <= d.port < 0x1_0000 && Unmap(d.addr.value) == Run(w, ops).1[i].addr
    requires AvoidsPools(p)
    requires forall a: Addr | Zone(a) == "" :: lib.parseAddr(ToLower(lib.formatAddr(a))) == Some(a)
    ensures var target := TargetHostIn(Run(w, ops).0, lib, d).1;
      && target.Success?
      && (target.value == Canonical(ops[i].name)
          || var v := Authorize(p, lib, lookup, target.value, Decimal(d.port), network);
             v.status == 403 && v.reason == "ip-not-on-allowlist" && v.addresses == [])
  {
    hide Run, Step, Authorize, Decimal, ParsePort, LiteralCovers, Standard;
    var a := Unmap(d.addr.value);
    NameOrLiteral(w, ops, i, lib, d);
    RunAgrees(w, ops);
    assert Agrees(Run(w, ops).0, ops[i], Run(w, ops).1[i]);
    var six := ops[i].six;
    var k := IssueOf(w.PoolOf(six), Run(w, ops).0.LogOf(six), a).value;
    assert a == AddressOf(w.PoolOf(six), k);
    PoolAddressUncovered(p, w, k, six);
    DecimalPort(d.port);
    LiteralOffAllowlist(p, lib, lookup, lib.formatAddr(a), Decimal(d.port), network, a);
  }
}
