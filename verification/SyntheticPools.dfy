/** The pools dns.go lays out, what they amount to, and the answers to DNS queries drawn from them. */
module SyntheticPools {
  import opened Netip
  import opened Powers
  import opened Resolver
  import opened ResolverLog
  import opened ResolverRuns
  import opened Sequences
  import opened Wrappers

  const V4_POOL: Prefix := MakePrefix(V4(0x6440_0000), 10)  // 100.64.0.0/10
  const V4_RESERVED: Prefix := MakePrefix(V4(0x647f_ff00), 24)  // 100.127.255.0/24
  const V6_POOL: Prefix := MakePrefix(V6(0x0100_0000_0000_0000_0000_0000_0000_0000, ""), 64)  // 100::/64
  const V6_RESERVED: Prefix :=
    MakePrefix(V6(0x0100_0000_0000_0000_ffff_ffff_ffff_ff00, ""), 120)  // 100::ffff:ffff:ffff:ff00/120
  const MAX_SYNTHETIC_NAMES := 0x1_0000

  lemma V4Layout()
    ensures Layout(V4_POOL, V4_RESERVED)
    ensures PoolOf(V4_POOL, V4_RESERVED) == MakePool(false, 0x6440_0000, 0x40_0000 - 257)
  {
    Pow2Values32();
    assert HostBits(V4_POOL) == 22 && HostBits(V4_RESERVED) == 8;
    QuotientOfProduct(0x191, 0x40_0000);
    QuotientOfProduct(0x64_7fff, 0x100);
  }

  lemma V6Layout()
    ensures Layout(V6_POOL, V6_RESERVED)
    ensures PoolOf(V6_POOL, V6_RESERVED)
      == MakePool(true, 0x0100_0000_0000_0000_0000_0000_0000_0000, 0x1_0000_0000_0000_0000 - 257)
  {
    Pow2Values32();
    Pow2Values96();
    assert HostBits(V6_POOL) == 64 && HostBits(V6_RESERVED) == 8;
    QuotientOfProduct(0x0100_0000_0000_0000, 0x1_0000_0000_0000_0000);
    QuotientOfProduct(0x01_0000_0000_0000_00ff_ffff_ffff_ffff, 0x100);
  }

  method NewVirtualDNS() returns (d: VirtualDNS)
    ensures fresh(d) && fresh(d.v4) && fresh(d.v6)
    ensures d.Valid() && Fresh(d.World()) && Standard(d.World())
  {
    V4Layout();
    V6Layout();
    d := new VirtualDNS(MAX_SYNTHETIC_NAMES, V4_POOL, V4_RESERVED, V6_POOL, V6_RESERVED);
  }

  /** The bound and pools NewVirtualDNS sets up. */
  ghost predicate Standard(w: WorldShape) {
    && w.bound == 65536
    && w.pool4 == MakePool(false, 0x6440_0000, 0x40_0000 - 257)
    && w.pool6 == MakePool(true, 0x0100_0000_0000_0000_0000_0000_0000_0000, 0x1_0000_0000_0000_0000 - 257)
  }

  /** A pool's addresses are exactly the prefix without its own address and without the reserved block. */
  lemma AddressesFillThePool(pool: Prefix, reserved: Prefix, a: Addr)
    requires Layout(pool, reserved)
    ensures var p := PoolOf(pool, reserved);
      (exists k :: 0 <= k < p.capacity && AddressOf(p, k) == a)
      <==> Contains(pool, a) && !Contains(reserved, a) && a.v != pool.addr.v
  {
    var p := PoolOf(pool, reserved);
    ContainsInterval(pool, a);
    ContainsInterval(reserved, a);
    LastOfBlock(reserved);
    if Contains(pool, a) && !Contains(reserved, a) && a.v != pool.addr.v {
      var k := a.v - p.base - 1;
      assert 0 <= k < p.capacity && AddressOf(p, k) == a;
    }
  }

  /** Allocation counts up: an address new to a run is above every address the run gave out before. */
  lemma NewAddressesIncrease(w: WorldShape, ops: seq<Op>, raw: string, six: bool)
    requires Fresh(w)
    requires Step(Run(w, ops).0, Resolve(raw, six)).1.Address?
    ensures var a, given := Step(Run(w, ops).0, Resolve(raw, six)).1.addr, GivenOut(ops, Run(w, ops).1, six);
      a in given || forall b | b in given :: b.v < a.v
  {
    hide Run, GivenOut, Remembered, Recent, LastIndex;
    var w1 := Run(w, ops).0;
    GivenOutIsIssued(w, ops, six);
    var pool, log := w.PoolOf(six), w1.LogOf(six);
    if IsRemembered(w.bound, log, Canonical(raw)) {
      RememberedWasIssued(pool, w.bound, log, Canonical(raw));
    }
  }

  /**
   * The standard resolver gives out exactly 2^22 - 257 IPv4 and 2^64 - 257 IPv6
   * addresses: a name it does not remember fails if and only if they are gone.
   */
  lemma StandardCapacity(w: WorldShape, ops: seq<Op>, raw: string, six: bool)
    requires Fresh(w) && Standard(w) && Canonical(raw) != ""
    requires !IsRemembered(w.bound, Run(w, ops).0.LogOf(six), Canonical(raw))
    ensures var given := GivenOut(ops, Run(w, ops).1, six);
      var capacity := if six then 0x1_0000_0000_0000_0000 - 257 else 0x40_0000 - 257;
      && |given| <= capacity
      && (Step(Run(w, ops).0, Resolve(raw, six)).1 == Exhausted <==> |given| == capacity)
  {
    hide Run, GivenOut, Remembered, Recent, LastIndex;
    GivenOutIsIssued(w, ops, six);
  }

  // ---- queries ----

  const TYPE_A := 1
  const TYPE_AAAA := 28
  const CLASS_INET := 1

  datatype Question = Question(name: string, type_: nat, class_: nat)

  datatype Rcode = NoError | ServerFailure

  datatype Reply = Reply(rcode: Rcode, answer: Option<Addr>)

  /** The operation a question stands for; every other class or type stands for none. */
  function OpOf(q: Question): Option<Op> {
    if q.class_ != CLASS_INET then None
    else if q.type_ == TYPE_A then Some(Resolve(q.name, false))
    else if q.type_ == TYPE_AAAA then Some(Resolve(q.name, true))
    else None
  }

  /** The reply is the resolver's answer to that operation, an error of any kind becoming SERVFAIL. */
  predicate Replies(q: Question, answer: Option<Answer>, reply: Reply) {
    match answer
    case None => reply == Reply(NoError, None)
    case Some(Address(a)) => reply == Reply(NoError, Some(a))
    case Some(_) => reply == Reply(ServerFailure, None)
  }

  /** The decision part of HandleQuery, between parsing the query and packing the reply. */
  method HandleQuery(d: VirtualDNS, q: Question) returns (reply: Reply)
    requires d.Valid()
    modifies d, d.v4, d.v6
    ensures d.Valid()
    ensures match OpOf(q)
      case Some(op) =>
        d.World() == Step(old(d.World()), op).0 && Replies(q, Some(Step(old(d.World()), op).1), reply)
      case None => d.World() == old(d.World()) && Replies(q, None, reply)
  {
    hide Step, Holds, Layout, PoolOf, ReverseIndexes;
    var r: Result<Addr, ResolveError>;
    if q.class_ == CLASS_INET {
      if q.type_ == TYPE_A {
        r := d.Resolve(q.name, false);
      } else if q.type_ == TYPE_AAAA {
        r := d.Resolve(q.name, true);
      } else {
        return Reply(NoError, None);
      }
      if r.Failure? {
        return Reply(ServerFailure, None);
      }
      return Reply(NoError, Some(r.value));
    }
    return Reply(NoError, None);
  }

  /**
   * What a client sees: an A (1) or AAAA (28) question of class IN (1) is one
   * resolution in its family and gets the address, or SERVFAIL when there is
   * none; any other question gets an empty answer and changes nothing.
   */
  lemma RepliesAreOwned(w: WorldShape, q: Question, later: WorldShape, reply: Reply)
    requires w.Valid()
    requires match OpOf(q)
      case Some(op) => later == Step(w, op).0 && Replies(q, Some(Step(w, op).1), reply)
      case None => later == w && Replies(q, None, reply)
    ensures if q.class_ == 1 && q.type_ in {1, 28} then
        var (next, answer) := Step(w, Resolve(q.name, q.type_ == 28));
        && later == next
        && (if answer.Address? then reply == Reply(NoError, Some(answer.addr)) else reply == Reply(ServerFailure, None))
      else later == w && reply == Reply(NoError, None)
    ensures reply.answer.Some? ==>
      && reply.answer.value.V6? == (q.type_ == 28)
      && OwnerIn(later, reply.answer.value) == Some(Canonical(q.name))
    ensures reply.rcode.ServerFailure? ==> later == w
  {
    if OpOf(q).Some? {
      StepAgrees(w, OpOf(q).value);
    }
  }
}
