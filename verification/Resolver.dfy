/**
 * The synthetic resolver as dns.go keeps it: per family an allocator, an index
 * by name and a recency list, and one reverse index over both families.
 */
module Resolver {
  import opened Netip
  import opened Powers
  import opened ResolverLog
  import opened ResolverRuns
  import opened Sequences
  import opened Wrappers

  datatype Binding = Binding(name: string, addr: Addr)

  function Remove(order: seq<Binding>, b: Binding): seq<Binding> {
    if order == [] then []
    else if order[0] == b then Remove(order[1..], b)
    else [order[0]] + Remove(order[1..], b)
  }

  // ---- what a family's fields hold, in terms of its history ----

  function BindingOf(pool: Pool, log: FamilyLog, name: string): Binding
    requires LogValid(pool, log) && name in log.issued
  {
    assert LastIndex(log.issued, name) >= 0;
    Binding(name, AddressOf(pool, LastIndex(log.issued, name)))
  }

  /** order lists the bindings of the given names. */
  ghost predicate Lists(pool: Pool, log: FamilyLog, names: seq<string>, order: seq<Binding>) {
    && LogValid(pool, log)
    && |order| == |names|
    && forall i | 0 <= i < |names| ::
        names[i] in log.issued && order[i] == BindingOf(pool, log, names[i])
  }

  /** names indexes exactly the bindings of order. */
  ghost predicate Indexes(names: map<string, Binding>, order: seq<Binding>) {
    && (forall b | b in order :: b.name in names && names[b.name] == b)
    && (forall n | n in names :: names[n].name == n && names[n] in order)
  }

  /** Within one family, reverse indexes exactly the bindings of order. */
  ghost predicate ReverseIndexes(reverse: map<Addr, Binding>, order: seq<Binding>, six: bool) {
    && (forall b | b in order :: b.addr.V6? == six && b.addr in reverse && reverse[b.addr] == b)
    && (forall a | a in reverse && a.V6? == six :: reverse[a].addr == a && reverse[a] in order)
  }

  ghost predicate Holds(
    pool: Pool, bound: nat, log: FamilyLog, last: Addr, names: map<string, Binding>, order: seq<Binding>)
  {
    && LogValid(pool, log)
    && last.V6? == pool.six
    && Zone(last) == ""
    && last.v == pool.base + |log.issued|
    && Lists(pool, log, Remembered(log.uses, bound), order)
    && Indexes(names, order)
  }

  lemma {:induction false} RemoveLists(pool: Pool, log: FamilyLog, names: seq<string>, order: seq<Binding>, name: string)
    requires Lists(pool, log, names, order) && name in log.issued
    ensures Lists(pool, log, Without(names, name), Remove(order, BindingOf(pool, log, name)))
  {
    hide LastIndex, AddressOf;
    if names != [] {
      RemoveLists(pool, log, names[1..], order[1..], name);
    }
  }

  lemma {:induction false} RemoveMembers(order: seq<Binding>, b: Binding, c: Binding)
    ensures c in Remove(order, b) <==> c in order && c != b
  {
    if order != [] {
      RemoveMembers(order[1..], b, c);
      assert c in order <==> c == order[0] || c in order[1..];
    }
  }

  lemma IndexHit(
    pool: Pool, bound: nat, log: FamilyLog, last: Addr, names: map<string, Binding>, order: seq<Binding>, name: string)
    requires Holds(pool, bound, log, last, names, order)
    ensures name in names <==> IsRemembered(bound, log, name)
    ensures name in names ==> name in log.issued && names[name] == BindingOf(pool, log, name) && names[name] in order
  {
    var remembered := Remembered(log.uses, bound);
    if name in names {
      var i :| 0 <= i < |order| && order[i] == names[name];
      assert remembered[i] == name;
    }
    if name in remembered {
      var i :| 0 <= i < |remembered| && remembered[i] == name;
      assert order[i] in order;
    }
  }

  /** Moving a remembered name to the front is one more use of it. */
  lemma MovedToFront(
    pool: Pool, bound: nat, log: FamilyLog, last: Addr, names: map<string, Binding>, order: seq<Binding>, name: string)
    requires bound > 0 && Holds(pool, bound, log, last, names, order)
    requires IsRemembered(bound, log, name) && name in log.issued
    ensures var b := BindingOf(pool, log, name);
      && b in order
      && Holds(pool, bound, log.(uses := log.uses + [name]), last, names, [b] + Remove(order, b))
  {
    hide Recent, Remembered, LastIndex, Indexes, BindingOf;
    var b := BindingOf(pool, log, name);
    RememberedAfterUse(log.uses, bound, name);
    MovedLists(pool, log, Remembered(log.uses, bound), order, name);
    MovedIndexes(names, order, b);
  }

  lemma MovedLists(pool: Pool, log: FamilyLog, before: seq<string>, order: seq<Binding>, name: string)
    requires Lists(pool, log, before, order) && name in log.issued && name in before
    ensures var b := BindingOf(pool, log, name);
      && b in order
      && Lists(pool, log.(uses := log.uses + [name]), [name] + Without(before, name), [b] + Remove(order, b))
  {
    hide LastIndex, AddressOf;
    RemoveLists(pool, log, before, order, name);
    var i :| 0 <= i < |before| && before[i] == name;
    assert order[i] == BindingOf(pool, log, name);
  }

  lemma MovedIndexes(names: map<string, Binding>, order: seq<Binding>, b: Binding)
    requires Indexes(names, order) && b in order
    ensures Indexes(names, [b] + Remove(order, b))
  {
    forall c ensures c in [b] + Remove(order, b) <==> c in order {
      RemoveMembers(order, b, c);
    }
  }

  lemma OrderAddresses(pool: Pool, log: FamilyLog, names: seq<string>, order: seq<Binding>, b: Binding)
    requires Lists(pool, log, names, order) && b in order
    ensures b.name in names && b.name in log.issued && b == BindingOf(pool, log, b.name)
    ensures b.addr.V6? == pool.six && b.addr.v <= pool.base + |log.issued|
    ensures IssueOf(pool, log, b.addr) == Some(LastIndex(log.issued, b.name))
  {
    var i :| 0 <= i < |order| && order[i] == b;
    assert names[i] == b.name;
    OwnerOfAddress(pool, log, LastIndex(log.issued, b.name));
  }

  /** The reverse index answers exactly for the live addresses, with the name they were given out for. */
  lemma ReverseHit(
    pool: Pool, bound: nat, log: FamilyLog, last: Addr, names: map<string, Binding>, order: seq<Binding>,
    reverse: map<Addr, Binding>, a: Addr)
    requires Holds(pool, bound, log, last, names, order) && a.V6? == pool.six
    requires ReverseIndexes(reverse, order, pool.six)
    ensures a in reverse <==> Live(pool, bound, log, a)
    ensures a in reverse ==>
      && reverse[a] in order
      && Owner(pool, log, a) == Some(reverse[a].name)
      && reverse[a].name in log.issued
      && reverse[a] == BindingOf(pool, log, reverse[a].name)
  {
    var remembered := Remembered(log.uses, bound);
    if a in reverse {
      OrderAddresses(pool, log, remembered, order, reverse[a]);
    }
    if Live(pool, bound, log, a) {
      var name := Owner(pool, log, a).value;
      var i :| 0 <= i < |remembered| && remembered[i] == name;
      assert order[i] == BindingOf(pool, log, name) && order[i] in order;
      assert order[i].addr == a;
    }
  }

  // ---- the reverse index: what matters is which bindings each family lists ----

  ghost predicate SameElements(a: seq<Binding>, b: seq<Binding>) {
    forall c {:trigger c in a} {:trigger c in b} :: c in a <==> c in b
  }

  lemma MoveKeepsElements(order: seq<Binding>, b: Binding)
    requires b in order
    ensures SameElements([b] + Remove(order, b), order)
  {
    forall c ensures c in Remove(order, b) <==> c in order && c != b {
      RemoveMembers(order, b, c);
    }
  }

  lemma ReverseDropped(reverse: map<Addr, Binding>, order: seq<Binding>, six: bool, kept: seq<Binding>, evicted: Binding)
    requires ReverseIndexes(reverse, order, six) && order == kept + [evicted] && evicted !in kept
    ensures evicted.addr.V6? == six && ReverseIndexes(reverse - {evicted.addr}, kept, six)
  {
    assert evicted in order;
    assert forall b :: b in order <==> b in kept || b == evicted;
  }

  lemma ReverseAdded(reverse: map<Addr, Binding>, order: seq<Binding>, six: bool, element: Binding)
    requires ReverseIndexes(reverse, order, six) && element.addr !in reverse && element.addr.V6? == six
    ensures ReverseIndexes(reverse[element.addr := element], [element] + order, six)
  {
    assert forall b :: b in [element] + order <==> b in order || b == element;
  }

  lemma ReverseSameElements(reverse: map<Addr, Binding>, order: seq<Binding>, moved: seq<Binding>, six: bool)
    requires ReverseIndexes(reverse, order, six) && SameElements(moved, order)
    ensures ReverseIndexes(reverse, moved, six)
  {
  }

  lemma ReverseOtherFamily(reverse: map<Addr, Binding>, later: map<Addr, Binding>, order: seq<Binding>, six: bool)
    requires ReverseIndexes(reverse, order, six)
    requires forall a: Addr | a.V6? == six :: a in later <==> a in reverse
    requires forall a: Addr | a.V6? == six && a in reverse :: later[a] == reverse[a]
    ensures ReverseIndexes(later, order, six)
  {
  }

  /** The next address of a family is not in the index. */
  lemma AddressIsNew(
    pool: Pool, bound: nat, log: FamilyLog, last: Addr, names: map<string, Binding>, order: seq<Binding>,
    reverse: map<Addr, Binding>)
    requires Holds(pool, bound, log, last, names, order) && |log.issued| < pool.capacity
    requires ReverseIndexes(reverse, order, pool.six)
    ensures AddressOf(pool, |log.issued|) !in reverse
  {
    var a := AddressOf(pool, |log.issued|);
    if a in reverse {
      OrderAddresses(pool, log, Remembered(log.uses, bound), order, reverse[a]);
      assert false;
    }
  }

  // ---- eviction and allocation ----

  lemma Evicted(pool: Pool, log: FamilyLog, remembered: seq<string>, names: map<string, Binding>, order: seq<Binding>)
    requires Distinct(remembered) && Lists(pool, log, remembered, order) && Indexes(names, order) && |order| > 0
    ensures var kept, evicted := order[..|order| - 1], order[|order| - 1];
      && evicted !in kept
      && Lists(pool, log, remembered[..|order| - 1], kept)
      && Indexes(names - {evicted.name}, kept)
  {
    hide LastIndex, AddressOf;
    var kept, evicted := order[..|order| - 1], order[|order| - 1];
    forall b | b in kept ensures b in order && b.name != evicted.name {
      var i :| 0 <= i < |kept| && kept[i] == b;
      assert order[i] == b && b.name == remembered[i];
      assert evicted.name == remembered[|order| - 1];
    }
    forall b | b in order && b != evicted ensures b in kept {
      var i :| 0 <= i < |order| && order[i] == b;
      assert kept[i] == b;
    }
  }

  lemma Allocated(pool: Pool, log: FamilyLog, kept: seq<string>, order: seq<Binding>, name: string)
    requires |log.issued| < pool.capacity && name !in kept
    requires Lists(pool, log, kept, order)
    ensures var log1 := FamilyLog(log.issued + [name], log.uses + [name]);
      Lists(pool, log1, [name] + kept, [Binding(name, AddressOf(pool, |log.issued|))] + order)
  {
    LastIndexAppend(log.issued, name, name);
    forall i | 0 <= i < |kept|
      ensures LastIndex(log.issued + [name], kept[i]) == LastIndex(log.issued, kept[i])
    {
      LastIndexAppend(log.issued, kept[i], name);
    }
  }

  function Kept(order: seq<Binding>, bound: nat): seq<Binding>
    requires bound > 0
  {
    if |order| >= bound then order[..|order| - 1] else order
  }

  function KeptNames(names: map<string, Binding>, order: seq<Binding>, bound: nat): map<string, Binding>
    requires bound > 0
  {
    if |order| >= bound then names - {order[|order| - 1].name} else names
  }

  lemma KeptHold(
    pool: Pool, bound: nat, log: FamilyLog, last: Addr, names: map<string, Binding>, order: seq<Binding>, name: string)
    returns (kept: seq<string>)
    requires bound > 0 && Holds(pool, bound, log, last, names, order) && !IsRemembered(bound, log, name)
    ensures name !in kept && Remembered(log.uses + [name], bound) == [name] + kept
    ensures Lists(pool, log, kept, Kept(order, bound)) && Indexes(KeptNames(names, order, bound), Kept(order, bound))
    ensures |order| >= bound ==> order[|order| - 1] !in Kept(order, bound)
  {
    hide Recent, Remembered;
    kept := Remembered(log.uses, bound);
    RememberedAreMostRecent(log.uses, bound);
    RememberedAfterUse(log.uses, bound, name);
    if |order| >= bound {
      Evicted(pool, log, kept, names, order);
      kept := kept[..bound - 1];
    }
  }

  lemma IndexAdded(
    pool: Pool, log: FamilyLog, kept: seq<string>, names: map<string, Binding>, order: seq<Binding>, b: Binding)
    requires Lists(pool, log, kept, order) && Indexes(names, order) && b.name !in kept
    ensures Indexes(names[b.name := b], [b] + order)
  {
    hide LastIndex, AddressOf;
    forall c | c in order ensures c.name != b.name {
      var i :| 0 <= i < |order| && order[i] == c;
      assert kept[i] == c.name;
    }
  }

  /** Allocating to a new name is its first use; at the bound the least recent name goes. */
  lemma InsertHolds(
    pool: Pool, bound: nat, log: FamilyLog, last: Addr, names: map<string, Binding>, order: seq<Binding>, name: string)
    requires bound > 0 && Holds(pool, bound, log, last, names, order) && !IsRemembered(bound, log, name)
    requires |log.issued| < pool.capacity
    ensures var b := Binding(name, AddressOf(pool, |log.issued|));
      Holds(pool, bound, FamilyLog(log.issued + [name], log.uses + [name]), b.addr,
            KeptNames(names, order, bound)[name := b], [b] + Kept(order, bound))
    ensures |order| >= bound ==> order[|order| - 1] !in Kept(order, bound)
  {
    hide Recent, Remembered, LastIndex, Indexes, BindingOf, Kept, KeptNames;
    var kept := KeptHold(pool, bound, log, last, names, order, name);
    Allocated(pool, log, kept, Kept(order, bound), name);
    IndexAdded(pool, log, kept, KeptNames(names, order, bound), Kept(order, bound),
               Binding(name, AddressOf(pool, |log.issued|)));
  }

  // ---- the allocator's arithmetic ----

  /** The reserved block is the top of the pool, as dns.go lays both pools out. */
  ghost predicate Layout(pool: Prefix, reserved: Prefix) {
    && SameFamily(pool.addr, reserved.addr)
    && pool.bits < reserved.bits
    && Masked(pool) == pool
    && Masked(reserved) == reserved
    && reserved.addr.v + Pow2(HostBits(reserved)) == pool.addr.v + Pow2(HostBits(pool))
    && (pool.addr.V6? ==>
          reserved.addr.v <= 0xffff_0000_0000 || pool.addr.v >= 0xffff_ffff_ffff)
  }

  /** The pool's own address and the reserved block are never handed out. */
  function PoolOf(pool: Prefix, reserved: Prefix): Pool
    requires Layout(pool, reserved)
  {
    assert reserved.addr.v > pool.addr.v by {
      assert Pow2(HostBits(pool)) == 2 * Pow2(HostBits(pool) - 1);
      Pow2Monotone(HostBits(reserved), HostBits(pool) - 1);
    }
    MakePool(pool.addr.V6?, pool.addr.v, reserved.addr.v - pool.addr.v - 1)
  }

  /** Stepping past last stays in the pool and out of the reserved block exactly while capacity lasts. */
  lemma NextAdmitted(pool: Prefix, reserved: Prefix, last: Addr, issued: nat)
    requires Layout(pool, reserved) && issued <= PoolOf(pool, reserved).capacity
    requires SameFamily(last, pool.addr) && Zone(last) == "" && last.v == pool.addr.v + issued
    ensures var next := Next(last);
      && next.Some?
      && (issued < PoolOf(pool, reserved).capacity <==>
            Contains(pool, next.value) && !Contains(reserved, next.value))
      && (issued < PoolOf(pool, reserved).capacity ==> next.value == AddressOf(PoolOf(pool, reserved), issued))
  {
    LastOfBlock(reserved);
    var next := Next(last).value;
    ContainsInterval(pool, next);
    ContainsInterval(reserved, next);
  }

  lemma NextOf(
    pool: Prefix, reserved: Prefix, bound: nat, log: FamilyLog, last: Addr, names: map<string, Binding>, order: seq<Binding>)
    requires Layout(pool, reserved) && Holds(PoolOf(pool, reserved), bound, log, last, names, order)
    ensures LogValid(PoolOf(pool, reserved), log) && PoolOf(pool, reserved).six == pool.addr.V6?
    ensures var next := Next(last);
      if |log.issued| < PoolOf(pool, reserved).capacity
        then && next == Some(AddressOf(PoolOf(pool, reserved), |log.issued|))
             && next.value.V6? == pool.addr.V6?
             && Contains(pool, next.value)
             && !Contains(reserved, next.value)
        else next.None? || !Contains(pool, next.value) || Contains(reserved, next.value)
  {
    NextAdmitted(pool, reserved, last, |log.issued|);
  }

  // ---- the resolver ----

  class Family {
    const pool: Prefix
    const reserved: Prefix
    var last: Addr
    var names: map<string, Binding>
    var order: seq<Binding>  // front is most recently used
    ghost var log: FamilyLog

    ghost predicate Valid(bound: nat)
      reads this
    {
      Layout(pool, reserved) && Holds(PoolOf(pool, reserved), bound, log, last, names, order)
    }

    constructor (pool: Prefix, reserved: Prefix, ghost bound: nat)
      requires Layout(pool, reserved)
      ensures Valid(bound) && log == FamilyLog([], []) && order == []
      ensures this.pool == pool && this.reserved == reserved
    {
      this.pool := pool;
      this.reserved := reserved;
      last := pool.addr;
      names := map[];
      order := [];
      log := FamilyLog([], []);
    }

    method MoveToFront(element: Binding, ghost bound: nat)
      requires bound > 0 && Valid(bound) && element in order
      modifies this`order, this`log
      ensures Valid(bound)
      ensures log == old(log).(uses := old(log).uses + [element.name])
      ensures SameElements(order, old(order))
    {
      OrderAddresses(PoolOf(pool, reserved), log, Remembered(log.uses, bound), order, element);
      MovedToFront(PoolOf(pool, reserved), bound, log, last, names, order, element.name);
      MoveKeepsElements(order, element);
      order := [element] + Remove(order, element);
      log := log.(uses := log.uses + [element.name]);
    }

    /** Allocates addr to a name the family does not remember, forgetting the least recent one at the bound. */
    method Insert(name: string, addr: Addr, bound: nat) returns (evicted: Option<Binding>)
      requires bound > 0 && Valid(bound) && !IsRemembered(bound, log, name)
      requires |log.issued| < PoolOf(pool, reserved).capacity
      requires addr == AddressOf(PoolOf(pool, reserved), |log.issued|)
      modifies this
      ensures Valid(bound)
      ensures log == FamilyLog(old(log).issued + [name], old(log).uses + [name])
      ensures if |old(order)| >= bound
        then evicted.Some? && old(order) == order[1..] + [evicted.value] && evicted.value !in order[1..]
        else evicted.None? && order[1..] == old(order)
      ensures |order| > 0 && order[0] == Binding(name, addr)
    {
      hide Recent, Remembered, Holds, Layout, PoolOf, AddressOf, LogValid;
      InsertHolds(PoolOf(pool, reserved), bound, log, last, names, order, name);
      evicted := None;
      if |order| >= bound {
        var oldest := order[|order| - 1];
        names := names - {oldest.name};
        order := order[..|order| - 1];
        evicted := Some(oldest);
      }
      last := addr;
      var element := Binding(name, addr);
      ghost var kept := order;
      order := [element] + order;
      assert order[1..] == kept;
      names := names[name := element];
      log := FamilyLog(log.issued + [name], log.uses + [name]);
    }
  }

  datatype ResolveError = NoName | PoolExhausted

  function AnswerOf(r: Result<Addr, ResolveError>): Answer {
    match r
    case Success(a) => Address(a)
    case Failure(NoName) => EmptyName
    case Failure(PoolExhausted) => Exhausted
  }

  class VirtualDNS {
    const bound: nat
    const v4: Family
    const v6: Family
    var reverse: map<Addr, Binding>

    ghost predicate Valid()
      reads this, v4, v6
    {
      && bound > 0
      && v4 != v6
      && v4.pool.addr.V4?
      && v6.pool.addr.V6?
      && v4.Valid(bound)
      && v6.Valid(bound)
      && ReverseIndexes(reverse, v4.order, false)
      && ReverseIndexes(reverse, v6.order, true)
    }

    /** The history so far. */
    ghost function World(): (w: WorldShape)
      requires Valid()
      reads this, v4, v6
      ensures w.Valid()
    {
      MakeWorld(bound, PoolOf(v4.pool, v4.reserved), PoolOf(v6.pool, v6.reserved), v4.log, v6.log)
    }

    constructor (bound: nat, pool4: Prefix, reserved4: Prefix, pool6: Prefix, reserved6: Prefix)
      requires bound > 0
      requires pool4.addr.V4? && Layout(pool4, reserved4)
      requires pool6.addr.V6? && Layout(pool6, reserved6)
      ensures Valid() && Fresh(World()) && fresh(v4) && fresh(v6)
      ensures World().bound == bound
      ensures World().pool4 == PoolOf(pool4, reserved4) && World().pool6 == PoolOf(pool6, reserved6)
    {
      this.bound := bound;
      v4 := new Family(pool4, reserved4, bound);
      v6 := new Family(pool6, reserved6, bound);
      reverse := map[];
    }

    method Resolve(raw: string, six: bool) returns (r: Result<Addr, ResolveError>)
      requires Valid()
      modifies this, v4, v6
      ensures Valid()
      ensures (World(), AnswerOf(r)) == Step(old(World()), Op.Resolve(raw, six))
      ensures unchanged(if six then v4 else v6)
    {
      hide Holds, Layout, PoolOf, ReverseIndexes, Canonical;
      var name := Canonical(raw);
      if name == "" {
        return Failure(NoName);
      }
      r := ResolveName(if six then v6 else v4, six, name);
    }

    /** The part of resolve under the lock, on the family the caller chose. */
    method ResolveName(f: Family, six: bool, name: string) returns (r: Result<Addr, ResolveError>)
      requires Valid() && f == (if six then v6 else v4)
      modifies this`reverse, f
      ensures Valid()
      ensures (f.log, AnswerOf(r)) == ResolveIn(PoolOf(f.pool, f.reserved), bound, old(f.log), name)
    {
      hide Holds, Layout, PoolOf, ReverseIndexes, Recent, Remembered, LastIndex, Contains, Next, AddressOf;
      ghost var pool, log := PoolOf(f.pool, f.reserved), f.log;
      NextOf(f.pool, f.reserved, bound, log, f.last, f.names, f.order);
      IndexHit(pool, bound, log, f.last, f.names, f.order, name);
      if name in f.names {
        var element := f.names[name];
        ghost var before := f.order;
        f.MoveToFront(element, bound);
        ReverseSameElements(reverse, before, f.order, six);
        return Success(element.addr);
      }
      var addr := Next(f.last);
      if addr.None? || !Contains(f.pool, addr.value) || Contains(f.reserved, addr.value) {
        return Failure(PoolExhausted);
      }
      Bind(f, six, name, addr.value);
      return Success(addr.value);
    }

    /** The end of resolve: forget the oldest name at the bound, then enter the new pairing in every index. */
    method Bind(f: Family, six: bool, name: string, addr: Addr)
      requires Valid() && f == (if six then v6 else v4)
      requires !IsRemembered(bound, f.log, name)
      requires |f.log.issued| < PoolOf(f.pool, f.reserved).capacity
      requires addr == AddressOf(PoolOf(f.pool, f.reserved), |f.log.issued|) && addr.V6? == six
      modifies this`reverse, f
      ensures Valid()
      ensures f.log == FamilyLog(old(f.log).issued + [name], old(f.log).uses + [name])
    {
      hide Holds, Layout, PoolOf, ReverseIndexes, Recent, Remembered, LastIndex, AddressOf;
      NextOf(f.pool, f.reserved, bound, f.log, f.last, f.names, f.order);
      AddressIsNew(PoolOf(f.pool, f.reserved), bound, f.log, f.last, f.names, f.order, reverse);
      ghost var mine, before := f.order, reverse;
      var element := Binding(name, addr);
      var evicted := f.Insert(name, addr, bound);
      ghost var kept := f.order[1..];
      assert f.order == [element] + kept;
      if evicted.Some? {
        ReverseDropped(reverse, mine, six, kept, evicted.value);
        reverse := reverse - {evicted.value.addr};
      }
      ReverseAdded(reverse, kept, six, element);
      reverse := reverse[addr := element];
      ReverseOtherFamily(before, reverse, if six then v4.order else v6.order, !six);
    }

    method Reverse(addr: Addr) returns (r: Option<string>)
      requires Valid()
      modifies this, v4, v6
      ensures Valid()
      ensures (World(), if r.Some? then Name(r.value) else Miss) == Step(old(World()), Op.Reverse(addr))
      ensures unchanged(if Unmap(addr).V6? then v4 else v6)
    {
      hide Recent, Remembered, LastIndex, Layout, PoolOf, Holds, ReverseIndexes, AddressOf, Next, Contains;
      var key := Unmap(addr);
      var f := if key.V6? then v6 else v4;
      NextOf(f.pool, f.reserved, bound, f.log, f.last, f.names, f.order);
      ReverseHit(PoolOf(f.pool, f.reserved), bound, f.log, f.last, f.names, f.order, reverse, key);
      if key !in reverse {
        return None;
      }
      var b := reverse[key];
      ghost var before := f.order;
      f.MoveToFront(b, bound);
      ReverseSameElements(reverse, before, f.order, key.V6?);
      return Some(b.name);
    }
  }
}
