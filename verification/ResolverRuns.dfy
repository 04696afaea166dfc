/**
 * The resolver as a machine over its history, and what holds of every run of
 * Resolve4, Resolve6 and Reverse calls.
 */
module ResolverRuns {
  import opened Netip
  import opened ResolverLog
  import opened Sequences
  import opened Text
  import opened Wrappers

  /** The addresses base + 1, ..., base + capacity of one family, handed out in order. */
  datatype PoolShape = MakePool(six: bool, base: nat, capacity: nat)
  {
    ghost predicate Valid() {
      && base + capacity < (if six then 0x1_0000_0000_0000_0000_0000_0000_0000_0000 else 0x1_0000_0000)
      && (six ==> base + capacity < 0xffff_0000_0000 || base >= 0xffff_ffff_ffff)  // never IPv4-mapped
    }
  }

  type Pool = p: PoolShape | p.Valid() witness MakePool(false, 0, 0)

  function AddressOf(pool: Pool, k: nat): (a: Addr)
    requires k < pool.capacity
    ensures Unmap(a) == a && Zone(a) == ""
  {
    if pool.six then V6(pool.base + 1 + k, "") else V4(pool.base + 1 + k)
  }

  /** Every name ever given an address, and every use of a name, oldest first. */
  datatype FamilyLog = FamilyLog(issued: seq<string>, uses: seq<string>)

  ghost predicate LogValid(pool: Pool, log: FamilyLog) {
    |log.issued| <= pool.capacity && forall x | x in log.uses :: x in log.issued
  }

  /** Which issue gave out a, if any. */
  function IssueOf(pool: Pool, log: FamilyLog, a: Addr): (k: Option<nat>)
    ensures k.Some? ==> k.value < |log.issued|
  {
    var k := a.v - pool.base - 1;
    if a.V6? == pool.six && Zone(a) == "" && 0 <= k < |log.issued| then Some(k) else None
  }

  /** The one name a was ever given out for. */
  function Owner(pool: Pool, log: FamilyLog, a: Addr): Option<string> {
    match IssueOf(pool, log, a)
    case Some(k) => Some(log.issued[k])
    case None => None
  }

  lemma OwnerOfAddress(pool: Pool, log: FamilyLog, k: nat)
    requires LogValid(pool, log) && k < |log.issued|
    ensures IssueOf(pool, log, AddressOf(pool, k)) == Some(k)
    ensures Owner(pool, log, AddressOf(pool, k)) == Some(log.issued[k])
  {
  }

  datatype Answer = Address(addr: Addr) | EmptyName | Exhausted | Name(name: string) | Miss

  predicate IsRemembered(bound: nat, log: FamilyLog, name: string) {
    name in Remembered(log.uses, bound)
  }

  lemma RememberedWasIssued(pool: Pool, bound: nat, log: FamilyLog, name: string)
    requires LogValid(pool, log) && IsRemembered(bound, log, name)
    ensures name in log.uses && LastIndex(log.issued, name) >= 0
  {
    RememberedAreMostRecent(log.uses, bound);
  }

  function ResolveIn(pool: Pool, bound: nat, log: FamilyLog, name: string): (r: (FamilyLog, Answer))
    requires LogValid(pool, log)
    ensures LogValid(pool, r.0)
  {
    if IsRemembered(bound, log, name) then
      RememberedWasIssued(pool, bound, log, name);
      (log.(uses := log.uses + [name]), Address(AddressOf(pool, LastIndex(log.issued, name))))
    else if |log.issued| == pool.capacity then
      (log, Exhausted)
    else
      (FamilyLog(log.issued + [name], log.uses + [name]), Address(AddressOf(pool, |log.issued|)))
  }

  /** An address answers while its name is remembered and was given no newer address. */
  predicate Live(pool: Pool, bound: nat, log: FamilyLog, a: Addr) {
    var k := IssueOf(pool, log, a);
    && k.Some?
    && IsRemembered(bound, log, log.issued[k.value])
    && LastIndex(log.issued, log.issued[k.value]) == k.value
  }

  function ReverseIn(pool: Pool, bound: nat, log: FamilyLog, a: Addr): (r: (FamilyLog, Answer))
    requires LogValid(pool, log)
    ensures LogValid(pool, r.0)
  {
    if Live(pool, bound, log, a) then
      var name := Owner(pool, log, a).value;
      (log.(uses := log.uses + [name]), Name(name))
    else (log, Miss)
  }

  datatype WorldShape =
    MakeWorld(bound: nat, pool4: Pool, pool6: Pool, log4: FamilyLog, log6: FamilyLog)
  {
    ghost predicate Valid() {
      && bound > 0
      && !pool4.six
      && pool6.six
      && LogValid(pool4, log4)
      && LogValid(pool6, log6)
    }

    function PoolOf(six: bool): Pool {
      if six then pool6 else pool4
    }

    function LogOf(six: bool): FamilyLog {
      if six then log6 else log4
    }

    function WithLog(six: bool, log: FamilyLog): WorldShape {
      if six then this.(log6 := log) else this.(log4 := log)
    }
  }

  ghost predicate Fresh(w: WorldShape) {
    w.Valid() && w.log4 == w.log6 == FamilyLog([], [])
  }

  /** dns.go's canonical: one trailing dot dropped, then lower case. */
  function Canonical(name: string): string {
    ToLower(TrimSuffix(name, "."))
  }

  datatype Op = Resolve(name: string, six: bool) | Reverse(addr: Addr)

  function Step(w: WorldShape, op: Op): (r: (WorldShape, Answer))
    requires w.Valid()
    ensures r.0.Valid() && r.0.bound == w.bound && r.0.pool4 == w.pool4 && r.0.pool6 == w.pool6
  {
    match op
    case Resolve(raw, six) =>
      var name := Canonical(raw);
      if name == "" then (w, EmptyName)
      else
        var (log, answer) := ResolveIn(w.PoolOf(six), w.bound, w.LogOf(six), name);
        (w.WithLog(six, log), answer)
    case Reverse(raw) =>
      var a := Unmap(raw);
      var (log, answer) := ReverseIn(w.PoolOf(a.V6?), w.bound, w.LogOf(a.V6?), a);
      (w.WithLog(a.V6?, log), answer)
  }

  function Run(w: WorldShape, ops: seq<Op>): (r: (WorldShape, seq<Answer>))
    requires w.Valid()
    ensures r.0.Valid() && r.0.bound == w.bound && r.0.pool4 == w.pool4 && r.0.pool6 == w.pool6
    ensures |r.1| == |ops|
    decreases ops
  {
    if ops == [] then (w, [])
    else
      var (w1, answer) := Step(w, ops[0]);
      var (w2, answers) := Run(w1, ops[1..]);
      (w2, [answer] + answers)
  }

  // ---- what every step keeps ----

  function OwnerIn(w: WorldShape, a: Addr): Option<string> {
    Owner(w.PoolOf(a.V6?), w.LogOf(a.V6?), a)
  }

  ghost predicate Extends(w: WorldShape, later: WorldShape) {
    && w.bound == later.bound
    && w.pool4 == later.pool4
    && w.pool6 == later.pool6
    && w.log4.issued <= later.log4.issued
    && w.log6.issued <= later.log6.issued
  }

  /** What an answer says about the names behind addresses. */
  ghost predicate Agrees(w: WorldShape, op: Op, answer: Answer) {
    match op
    case Resolve(raw, six) =>
      && !answer.Name?
      && !answer.Miss?
      && (answer.Address? ==>
            answer.addr.V6? == six && OwnerIn(w, answer.addr) == Some(Canonical(raw)))
    case Reverse(raw) =>
      || answer.Miss?
      || (answer.Name? && OwnerIn(w, Unmap(raw)) == Some(answer.name))
  }

  lemma StepAgrees(w: WorldShape, op: Op)
    requires w.Valid()
    ensures Extends(w, Step(w, op).0)
    ensures Agrees(Step(w, op).0, op, Step(w, op).1)
  {
    var (w1, answer) := Step(w, op);
    if op.Resolve? && answer.Address? {
      var log, log1, name := w.LogOf(op.six), w1.LogOf(op.six), Canonical(op.name);
      if IsRemembered(w.bound, log, name) {
        RememberedWasIssued(w.PoolOf(op.six), w.bound, log, name);
        OwnerOfAddress(w.PoolOf(op.six), log1, LastIndex(log.issued, name));
      } else {
        OwnerOfAddress(w.PoolOf(op.six), log1, |log.issued|);
      }
    }
  }

  lemma AgreesLater(w: WorldShape, later: WorldShape, op: Op, answer: Answer)
    requires Extends(w, later) && Agrees(w, op, answer)
    ensures Agrees(later, op, answer)
  {
  }

  lemma {:induction false} RunAgrees(w: WorldShape, ops: seq<Op>)
    requires w.Valid()
    ensures Extends(w, Run(w, ops).0)
    ensures forall i | 0 <= i < |ops| :: Agrees(Run(w, ops).0, ops[i], Run(w, ops).1[i])
    decreases ops
  {
    if ops != [] {
      var (w1, answer) := Step(w, ops[0]);
      StepAgrees(w, ops[0]);
      RunAgrees(w1, ops[1..]);
      AgreesLater(w1, Run(w, ops).0, ops[0], answer);
    }
  }

  /**
   * In every run an address is handed out for at most one name, for all time,
   * and looking it up ever after gives that name or a miss.
   */
  lemma AddressMeansOneName(w: WorldShape, ops: seq<Op>, i: nat, j: nat)
    requires w.Valid() && i < |ops| && j < |ops|
    requires ops[i].Resolve? && Run(w, ops).1[i].Address?
    ensures var a, name := Run(w, ops).1[i].addr, Canonical(ops[i].name);
      && (ops[j].Resolve? && Run(w, ops).1[j] == Address(a) ==> Canonical(ops[j].name) == name)
      && (ops[j].Reverse? && Unmap(ops[j].addr) == a ==> Run(w, ops).1[j] in {Name(name), Miss})
  {
    RunAgrees(w, ops);
    assert Agrees(Run(w, ops).0, ops[i], Run(w, ops).1[i]);
    assert Agrees(Run(w, ops).0, ops[j], Run(w, ops).1[j]);
  }

  // ---- forgetting ----

  lemma UseKeepsOthersForgotten(bound: nat, uses: seq<string>, used: string, x: string)
    requires bound > 0 && x != used && x !in Remembered(uses, bound)
    ensures x !in Remembered(uses + [used], bound)
  {
    RememberedAfterUse(uses, bound, used);
    WithoutMembers(Remembered(uses, bound), used, x);
  }

  lemma UseKeepsForgotten(pool: Pool, bound: nat, log: FamilyLog, issued: seq<string>, used: string, a: Addr)
    requires bound > 0
    requires Owner(pool, log, a).Some? && !Live(pool, bound, log, a)
    requires issued == if IsRemembered(bound, log, used) then log.issued else log.issued + [used]
    ensures var log1 := FamilyLog(issued, log.uses + [used]);
      Owner(pool, log1, a) == Owner(pool, log, a) && !Live(pool, bound, log1, a)
  {
    var owner := Owner(pool, log, a).value;
    LastIndexAppend(log.issued, owner, used);
    if used != owner && !IsRemembered(bound, log, owner) {
      UseKeepsOthersForgotten(bound, log.uses, used, owner);
    }
  }

  /** Once an issued address stops answering, no later operation revives it. */
  lemma StepKeepsForgotten(w: WorldShape, op: Op, a: Addr)
    requires w.Valid() && OwnerIn(w, a).Some?
    requires !Live(w.PoolOf(a.V6?), w.bound, w.LogOf(a.V6?), a)
    ensures var w1 := Step(w, op).0;
      OwnerIn(w1, a).Some? && !Live(w1.PoolOf(a.V6?), w1.bound, w1.LogOf(a.V6?), a)
  {
    var pool, log := w.PoolOf(a.V6?), w.LogOf(a.V6?);
    match op
    case Resolve(raw, six) =>
      if six == a.V6? && Step(w, op).1.Address? {
        UseKeepsForgotten(pool, w.bound, log, Step(w, op).0.LogOf(six).issued, Canonical(raw), a);
      }
    case Reverse(raw) =>
      if Unmap(raw).V6? == a.V6? && Live(pool, w.bound, log, Unmap(raw)) {
        UseKeepsForgotten(pool, w.bound, log, log.issued, Owner(pool, log, Unmap(raw)).value, a);
      }
  }

  lemma {:induction false} ForgottenForGood(w: WorldShape, ops: seq<Op>, a: Addr)
    requires w.Valid() && Unmap(a) == a && OwnerIn(w, a).Some?
    requires Step(w, Reverse(a)).1 == Miss
    ensures Step(Run(w, ops).0, Reverse(a)).1 == Miss
    decreases ops
  {
    if ops != [] {
      StepKeepsForgotten(w, ops[0], a);
      ForgottenForGood(Step(w, ops[0]).0, ops[1..], a);
    }
  }

  // ---- the two families do not interfere ----

  predicate Touches(op: Op, six: bool) {
    match op
    case Resolve(_, s) => s == six
    case Reverse(a) => Unmap(a).V6? == six
  }

  function OnlyOps(ops: seq<Op>, six: bool): seq<Op> {
    if ops == [] then []
    else (if Touches(ops[0], six) then [ops[0]] else []) + OnlyOps(ops[1..], six)
  }

  function OnlyAnswers(ops: seq<Op>, answers: seq<Answer>, six: bool): seq<Answer>
    requires |ops| == |answers|
  {
    if ops == [] then []
    else (if Touches(ops[0], six) then [answers[0]] else []) + OnlyAnswers(ops[1..], answers[1..], six)
  }

  ghost predicate SameFamilyState(w: WorldShape, v: WorldShape, six: bool) {
    w.bound == v.bound && w.PoolOf(six) == v.PoolOf(six) && w.LogOf(six) == v.LogOf(six)
  }

  lemma StepWithin(w: WorldShape, v: WorldShape, op: Op, six: bool)
    requires w.Valid() && v.Valid() && SameFamilyState(w, v, six) && Touches(op, six)
    ensures SameFamilyState(Step(w, op).0, Step(v, op).0, six)
    ensures Step(w, op).1 == Step(v, op).1
  {
  }

  lemma StepOutside(w: WorldShape, op: Op, six: bool)
    requires w.Valid() && !Touches(op, six)
    ensures SameFamilyState(Step(w, op).0, w, six)
  {
  }

  /** One family's answers and state are those of its own operations run alone. */
  lemma {:induction false} FamiliesAreIndependent(w: WorldShape, v: WorldShape, ops: seq<Op>, six: bool)
    requires w.Valid() && v.Valid() && SameFamilyState(w, v, six)
    ensures SameFamilyState(Run(w, ops).0, Run(v, OnlyOps(ops, six)).0, six)
    ensures OnlyAnswers(ops, Run(w, ops).1, six) == Run(v, OnlyOps(ops, six)).1
    decreases ops
  {
    if ops != [] {
      var op, rest := ops[0], ops[1..];
      var w1 := Step(w, op).0;
      if Touches(op, six) {
        StepWithin(w, v, op, six);
        FamiliesAreIndependent(w1, Step(v, op).0, rest, six);
        assert OnlyOps(ops, six) == [op] + OnlyOps(rest, six);
        assert OnlyOps(ops, six)[1..] == OnlyOps(rest, six);
      } else {
        StepOutside(w, op, six);
        FamiliesAreIndependent(w1, v, rest, six);
        assert OnlyOps(ops, six) == OnlyOps(rest, six);
      }
      assert Run(w, ops).1[1..] == Run(w1, rest).1;
    }
  }

  // ---- exhaustion ----

  function GivenOut(ops: seq<Op>, answers: seq<Answer>, six: bool): set<Addr>
    requires |ops| == |answers|
  {
    set i | 0 <= i < |ops| && ops[i].Resolve? && ops[i].six == six && answers[i].Address?
      :: answers[i].addr
  }

  function FirstAddresses(pool: Pool, n: nat): (s: set<Addr>)
    requires n <= pool.capacity
    ensures |s| == n
    ensures forall k | 0 <= k < n :: AddressOf(pool, k) in s
    ensures forall a | a in s :: exists k :: 0 <= k < n && a == AddressOf(pool, k)
  {
    if n == 0 then {}
    else
      var s := FirstAddresses(pool, n - 1);
      assert AddressOf(pool, n - 1) !in s;
      s + {AddressOf(pool, n - 1)}
  }

  /** A step that allocates answers with the allocated address. */
  lemma StepIssues(w: WorldShape, op: Op, six: bool, k: nat)
    requires w.Valid() && |w.LogOf(six).issued| <= k < |Step(w, op).0.LogOf(six).issued|
    ensures op.Resolve? && op.six == six && Step(w, op).1 == Address(AddressOf(w.PoolOf(six), k))
  {
    hide IsRemembered, LastIndex, Live, Owner, Canonical, AddressOf;
  }

  lemma {:induction false} NewIssuesAreGivenOut(w: WorldShape, ops: seq<Op>, six: bool, k: nat)
    requires w.Valid()
    requires |w.LogOf(six).issued| <= k < |Run(w, ops).0.LogOf(six).issued|
    ensures AddressOf(w.PoolOf(six), k) in GivenOut(ops, Run(w, ops).1, six)
    decreases ops
  {
    hide Step, AddressOf;
    if ops != [] {
      var (w1, answer) := Step(w, ops[0]);
      var answers := Run(w, ops).1;
      assert answers == [answer] + Run(w1, ops[1..]).1;
      if |w1.LogOf(six).issued| <= k {
        NewIssuesAreGivenOut(w1, ops[1..], six, k);
        var i :| 0 <= i < |ops[1..]| && ops[1..][i].Resolve? && ops[1..][i].six == six
          && Run(w1, ops[1..]).1[i] == Address(AddressOf(w.PoolOf(six), k));
        assert ops[i + 1] == ops[1..][i] && answers[i + 1] == Run(w1, ops[1..]).1[i];
      } else {
        StepIssues(w, ops[0], six, k);
      }
    }
  }

  /** A fresh family has handed out as many addresses as it has made allocations. */
  lemma GivenOutIsIssued(w: WorldShape, ops: seq<Op>, six: bool)
    requires Fresh(w)
    ensures GivenOut(ops, Run(w, ops).1, six) ==
      FirstAddresses(w.PoolOf(six), |Run(w, ops).0.LogOf(six).issued|)
  {
    hide Run, Step, Recent, Remembered, LastIndex;
    var (final, answers) := Run(w, ops);
    var pool, n := w.PoolOf(six), |final.LogOf(six).issued|;
    RunAgrees(w, ops);
    forall a | a in GivenOut(ops, answers, six) ensures a in FirstAddresses(pool, n) {
      var i :| 0 <= i < |ops| && ops[i].Resolve? && ops[i].six == six && answers[i] == Address(a);
      assert Agrees(final, ops[i], answers[i]);
      var k := IssueOf(pool, final.LogOf(six), a).value;
      assert a == AddressOf(pool, k);
    }
    forall a | a in FirstAddresses(pool, n) ensures a in GivenOut(ops, answers, six) {
      var k :| 0 <= k < n && a == AddressOf(pool, k);
      NewIssuesAreGivenOut(w, ops, six, k);
    }
  }

  lemma {:induction false} ExhaustedIsFull(w: WorldShape, ops: seq<Op>, i: nat)
    requires w.Valid() && i < |ops| && ops[i].Resolve? && Run(w, ops).1[i] == Exhausted
    ensures var final, six := Run(w, ops).0, ops[i].six;
      |final.LogOf(six).issued| == w.PoolOf(six).capacity
    decreases ops
  {
    var w1 := Step(w, ops[0]).0;
    StepAgrees(w, ops[0]);
    RunAgrees(w1, ops[1..]);
    if i > 0 {
      ExhaustedIsFull(w1, ops[1..], i - 1);
    }
  }

  /**
   * A run of a fresh resolver that reports an exhausted pool has handed out
   * exactly the pool's capacity of distinct addresses.
   */
  lemma ExhaustionIsExact(w: WorldShape, ops: seq<Op>, i: nat)
    requires Fresh(w) && i < |ops| && ops[i].Resolve? && Run(w, ops).1[i] == Exhausted
    ensures var six := ops[i].six;
      |GivenOut(ops, Run(w, ops).1, six)| == w.PoolOf(six).capacity
  {
    ExhaustedIsFull(w, ops, i);
    GivenOutIsIssued(w, ops, ops[i].six);
  }

  /** Before that, no name with a label is refused. */
  lemma NoEarlyExhaustion(w: WorldShape, ops: seq<Op>, raw: string, six: bool)
    requires Fresh(w) && Canonical(raw) != ""
    requires |GivenOut(ops, Run(w, ops).1, six)| < w.PoolOf(six).capacity
    ensures Step(Run(w, ops).0, Resolve(raw, six)).1.Address?
  {
    GivenOutIsIssued(w, ops, six);
    RunAgrees(w, ops);
  }

  lemma StepKeepsFrozen(w: WorldShape, op: Op, six: bool)
    requires w.Valid() && |w.LogOf(six).issued| == w.PoolOf(six).capacity
    ensures var w1 := Step(w, op).0;
      && w1.LogOf(six).issued == w.LogOf(six).issued
      && forall x :: IsRemembered(w.bound, w1.LogOf(six), x) <==> IsRemembered(w.bound, w.LogOf(six), x)
  {
    var log, log1 := w.LogOf(six), Step(w, op).0.LogOf(six);
    if log1 != log {
      var used := log1.uses[|log.uses|];
      var before := Remembered(log.uses, w.bound);
      RememberedAfterUse(log.uses, w.bound, used);
      forall x ensures x in Without(before, used) <==> x in before && x != used {
        WithoutMembers(before, used, x);
      }
    }
  }

  /**
   * From exhaustion on the remembered names are frozen: every name resolves to
   * what it resolved to then, and every new name fails.
   */
  lemma {:induction false} ExhaustionFreezes(w: WorldShape, ops: seq<Op>, six: bool, raw: string)
    requires w.Valid() && |w.LogOf(six).issued| == w.PoolOf(six).capacity
    ensures Step(Run(w, ops).0, Resolve(raw, six)).1 == Step(w, Resolve(raw, six)).1
    ensures Run(w, ops).0.LogOf(six).issued == w.LogOf(six).issued
    decreases ops
  {
    if ops != [] {
      var w1 := Step(w, ops[0]).0;
      StepAgrees(w, ops[0]);
      StepKeepsFrozen(w, ops[0], six);
      ExhaustionFreezes(w1, ops[1..], six, raw);
    }
  }
}
