/** What a valid resolver's fields hold, and how much. */
module ResolverState {
  import opened Netip
  import opened Resolver
  import opened ResolverLog
  import opened ResolverRuns
  import opened Sequences
  import opened Wrappers

  ghost function Elements<T>(s: seq<T>): set<T> {
    set x | x in s
  }

  lemma {:induction false} DistinctCount<T>(s: seq<T>)
    requires forall i, j | 0 <= i < j < |s| :: s[i] != s[j]
    ensures |Elements(s)| == |s|
  {
    if s != [] {
      var front := s[..|s| - 1];
      DistinctCount(front);
      assert Elements(s) == Elements(front) + {s[|s| - 1]};
    }
  }

  function Addresses(order: seq<Binding>): (r: seq<Addr>)
    ensures |r| == |order|
  {
    seq(|order|, i requires 0 <= i < |order| => order[i].addr)
  }

  /** A family's list is its remembered names in recency order, without repetition in names or addresses. */
  lemma FamilyState(
    pool: Pool, bound: nat, log: FamilyLog, last: Addr, names: map<string, Binding>, order: seq<Binding>)
    requires Holds(pool, bound, log, last, names, order)
    ensures |order| == |Remembered(log.uses, bound)| <= bound
    ensures forall i | 0 <= i < |order| :: order[i].name == Remembered(log.uses, bound)[i]
    ensures forall i | 0 <= i < |order| :: order[i].addr.V6? == pool.six
    ensures forall i, j | 0 <= i < j < |order| :: order[i].addr != order[j].addr
    ensures |names| == |order|
  {
    hide LastIndex, Recent, Remembered, AddressOf;
    var remembered := Remembered(log.uses, bound);
    RememberedAreMostRecent(log.uses, bound);
    DistinctCount(remembered);
    forall name ensures name in names.Keys <==> name in Elements(remembered) {
      IndexHit(pool, bound, log, last, names, order, name);
    }
    assert names.Keys == Elements(remembered);
    forall b | b in order ensures IssueOf(pool, log, b.addr) == Some(LastIndex(log.issued, b.name)) && b.addr.V6? == pool.six {
      OrderAddresses(pool, log, remembered, order, b);
    }
  }

  lemma AddressCount(order: seq<Binding>)
    requires forall i, j | 0 <= i < j < |order| :: order[i].addr != order[j].addr
    ensures |Elements(Addresses(order))| == |order|
  {
    DistinctCount(Addresses(order));
  }

  lemma ReverseKeys(reverse: map<Addr, Binding>, order4: seq<Binding>, order6: seq<Binding>)
    requires ReverseIndexes(reverse, order4, false) && ReverseIndexes(reverse, order6, true)
    ensures reverse.Keys == Elements(Addresses(order4)) + Elements(Addresses(order6))
    ensures Elements(Addresses(order4)) !! Elements(Addresses(order6))
  {
    var four, six := Addresses(order4), Addresses(order6);
    forall a ensures a in four <==> a in reverse && !a.V6? {
      KeyOf(reverse, order4, false, a);
    }
    forall a ensures a in six <==> a in reverse && a.V6? {
      KeyOf(reverse, order6, true, a);
    }
  }

  lemma KeyOf(reverse: map<Addr, Binding>, order: seq<Binding>, six: bool, a: Addr)
    requires ReverseIndexes(reverse, order, six)
    ensures a in Addresses(order) <==> a in reverse && a.V6? == six
  {
    if a in Addresses(order) {
      var i :| 0 <= i < |order| && Addresses(order)[i] == a;
      assert order[i] in order;
    }
    if a in reverse && a.V6? == six {
      var i :| 0 <= i < |order| && order[i] == reverse[a];
      assert Addresses(order)[i] == a;
    }
  }

  /**
   * At every moment each family's list is its most recently used names in
   * order, its index holds those names and no more, and the shared reverse map
   * is the disjoint union of both families' bindings, so that memory is bounded
   * whatever the guest asks.
   */
  lemma MemoryIsBounded(d: VirtualDNS)
    requires d.Valid()
    ensures forall i | 0 <= i < |d.v4.order| :: d.v4.order[i].name == Remembered(d.v4.log.uses, d.bound)[i]
    ensures forall i | 0 <= i < |d.v6.order| :: d.v6.order[i].name == Remembered(d.v6.log.uses, d.bound)[i]
    ensures |d.v4.names| == |d.v4.order| == |Remembered(d.v4.log.uses, d.bound)| <= d.bound
    ensures |d.v6.names| == |d.v6.order| == |Remembered(d.v6.log.uses, d.bound)| <= d.bound
    ensures |d.reverse| == |d.v4.order| + |d.v6.order|
  {
    hide Holds, Layout, PoolOf, Remembered, Recent, LastIndex, ReverseIndexes, Addresses, Elements;
    FamilyState(PoolOf(d.v4.pool, d.v4.reserved), d.bound, d.v4.log, d.v4.last, d.v4.names, d.v4.order);
    FamilyState(PoolOf(d.v6.pool, d.v6.reserved), d.bound, d.v6.log, d.v6.last, d.v6.names, d.v6.order);
    AddressCount(d.v4.order);
    AddressCount(d.v6.order);
    ReverseKeys(d.reverse, d.v4.order, d.v6.order);
    assert |d.reverse| == |d.reverse.Keys|;
  }
}
