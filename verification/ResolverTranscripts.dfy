/**
 * The resolver from outside: every answer worked out from the operations and
 * the answers before it, with no look at the resolver's own records.
 */
module ResolverTranscripts {
  import opened Netip
  import opened ResolverLog
  import opened ResolverRuns
  import opened Sequences
  import opened Text
  import opened Wrappers

  // ---- names ----

  /** A canonical name is the name without its final dot, each letter in lower case. */
  lemma CanonicalIsFolded(x: string)
    ensures IsFolded(Canonical(x), x)
  {
    assert TrimSuffix(x, ".") == StripDot(x) by {
      if x != "" {
        assert x[|x| - 1..] == [x[|x| - 1]];
      }
    }
  }

  /** Two spellings share a canonical name exactly when they are the same up to case and a final dot. */
  lemma SpellingsShareNames(x: string, y: string)
    ensures Canonical(x) == Canonical(y) <==> SameName(x, y)
  {
    hide Canonical;
    CanonicalIsFolded(x);
    CanonicalIsFolded(y);
    var c, d := Canonical(x), Canonical(y);
    if SameName(x, y) {
      assert |c| == |d| && forall i | 0 <= i < |c| :: c[i] == d[i] by { FoldedLetters(x, y); }
    }
    if c == d {
      assert forall i | 0 <= i < |c| :: SameLetter(c[i], StripDot(x)[i]) && SameLetter(c[i], StripDot(y)[i]);
    }
  }

  lemma FoldedLetters(x: string, y: string)
    requires SameName(x, y)
    ensures |Canonical(x)| == |Canonical(y)|
    ensures forall i | 0 <= i < |Canonical(x)| :: Canonical(x)[i] == Canonical(y)[i]
  {
    hide Canonical;
    CanonicalIsFolded(x);
    CanonicalIsFolded(y);
    assert forall i | 0 <= i < |StripDot(x)| :: SameLetter(StripDot(x)[i], StripDot(y)[i]);
  }

  // ---- what the answers mention ----

  /** The name an answer uses: one an address was given for, or one an address was traced back to. */
  function Mention(op: Op, answer: Answer, six: bool): seq<string> {
    match op
    case Resolve(raw, s) => if s == six && answer.Address? then [Canonical(raw)] else []
    case Reverse(a) => if Unmap(a).V6? == six && answer.Name? then [answer.name] else []
  }

  /** The names of a family the answers mention, oldest first. */
  function Mentions(ops: seq<Op>, answers: seq<Answer>, six: bool): seq<string>
    requires |ops| == |answers|
  {
    if ops == [] then [] else Mention(ops[0], answers[0], six) + Mentions(ops[1..], answers[1..], six)
  }

  /** The address last answered for a name, or start if none was. */
  function Latest(ops: seq<Op>, answers: seq<Answer>, six: bool, name: string, start: Option<Addr>): Option<Addr>
    requires |ops| == |answers|
  {
    if ops == [] then start
    else Latest(ops[1..], answers[1..], six, name, LatestAfter(ops[0], answers[0], six, name, start))
  }

  function LatestAfter(op: Op, answer: Answer, six: bool, name: string, start: Option<Addr>): Option<Addr> {
    if op.Resolve? && op.six == six && Canonical(op.name) == name && answer.Address? then Some(answer.addr) else start
  }

  // ---- the records are what the answers say ----

  lemma StepMentions(w: WorldShape, op: Op, six: bool)
    requires w.Valid()
    ensures Step(w, op).0.LogOf(six).uses == w.LogOf(six).uses + Mention(op, Step(w, op).1, six)
  {
    hide IsRemembered, Live, Owner, LastIndex, Canonical, AddressOf, Unmap;
  }

  /** The log of uses is what the answers of the run mention: a reverse hit counts, a miss does not. */
  lemma {:induction false} UsesAreMentions(w: WorldShape, ops: seq<Op>, six: bool)
    requires w.Valid()
    ensures Run(w, ops).0.LogOf(six).uses == w.LogOf(six).uses + Mentions(ops, Run(w, ops).1, six)
    decreases ops
  {
    hide Step, Mention;
    if ops == [] {
    } else {
      var (w1, answer) := Step(w, ops[0]);
      StepMentions(w, ops[0], six);
      UsesAreMentions(w1, ops[1..], six);
      assert Run(w, ops).1[1..] == Run(w1, ops[1..]).1;
    }
  }

  function NewestAddress(pool: Pool, log: FamilyLog, name: string): Option<Addr>
    requires |log.issued| <= pool.capacity
  {
    if LastIndex(log.issued, name) >= 0 then Some(AddressOf(pool, LastIndex(log.issued, name))) else None
  }

  lemma StepNewest(w: WorldShape, op: Op, six: bool, name: string)
    requires w.Valid()
    ensures var (w1, answer) := Step(w, op);
      NewestAddress(w.PoolOf(six), w1.LogOf(six), name)
        == LatestAfter(op, answer, six, name, NewestAddress(w.PoolOf(six), w.LogOf(six), name))
  {
    hide Remembered, LastIndex, Canonical;
    if op.Resolve? && op.six == six {
      var log, n := w.LogOf(six), Canonical(op.name);
      LastIndexAppend(log.issued, name, n);
      if IsRemembered(w.bound, log, n) {
        RememberedWasIssued(w.PoolOf(six), w.bound, log, n);
      }
    }
  }

  lemma {:induction false} NewestIsLatest(w: WorldShape, ops: seq<Op>, six: bool, name: string)
    requires w.Valid()
    ensures NewestAddress(w.PoolOf(six), Run(w, ops).0.LogOf(six), name)
      == Latest(ops, Run(w, ops).1, six, name, NewestAddress(w.PoolOf(six), w.LogOf(six), name))
    decreases ops
  {
    hide Step, NewestAddress, LatestAfter;
    if ops != [] {
      var (w1, answer) := Step(w, ops[0]);
      StepNewest(w, ops[0], six, name);
      NewestIsLatest(w1, ops[1..], six, name);
      assert Run(w, ops).1[1..] == Run(w1, ops[1..]).1;
    }
  }

  // ---- every answer, from the answers before it ----

  /** a is the last address answered for n, and n is among the bound's most recent distinct names mentioned. */
  predicate LeadsTo(ops: seq<Op>, answers: seq<Answer>, bound: nat, a: Addr, n: string)
    requires |ops| == |answers|
  {
    Latest(ops, answers, a.V6?, n, None) == Some(a) && n in Remembered(Mentions(ops, answers, a.V6?), bound)
  }

  /**
   * A reverse lookup answers n exactly when the address is the last one that
   * was answered for n and n is among the bound's most recent distinct names
   * the answers mention; otherwise it misses.
   */
  lemma ReverseFromAnswers(w: WorldShape, ops: seq<Op>, a: Addr, n: string)
    requires Fresh(w)
    ensures var (w1, answers) := Run(w, ops);
      && (Step(w1, Reverse(a)).1 == Name(n) <==> LeadsTo(ops, answers, w.bound, Unmap(a), n))
      && (Step(w1, Reverse(a)).1.Name? || Step(w1, Reverse(a)).1.Miss?)
  {
    hide Run, Remembered, LastIndex, Latest, Mentions;
    var (w1, answers) := Run(w, ops);
    var six, b := Unmap(a).V6?, Unmap(a);
    UsesAreMentions(w, ops, six);
    NewestIsLatest(w, ops, six, n);
    assert [] + Mentions(ops, answers, six) == Mentions(ops, answers, six);
    LastOfNone(n);
    LiveMeansNewest(w1.PoolOf(six), w.bound, w1.LogOf(six), b, n);
  }

  lemma LastOfNone(n: string)
    ensures LastIndex([], n) == -1
  {
  }

  lemma UnmapOnce(a: Addr)
    ensures Unmap(Unmap(a)) == Unmap(a)
  {
  }

  lemma LiveMeansNewest(pool: Pool, bound: nat, log: FamilyLog, a: Addr, n: string)
    requires LogValid(pool, log) && a.V6? == pool.six
    ensures Live(pool, bound, log, a) && Owner(pool, log, a) == Some(n) <==>
      NewestAddress(pool, log, n) == Some(a) && IsRemembered(bound, log, n)
  {
    hide LastIndex, Remembered;
    var k := LastIndex(log.issued, n);
    if k >= 0 {
      OwnerOfAddress(pool, log, k);
    }
  }

  /**
   * A resolution fails for the empty name; gives a name among the most recent
   * ones its last address again; otherwise gives the next address of the pool,
   * or fails when all are given out.
   */
  lemma ResolveFromAnswers(w: WorldShape, ops: seq<Op>, raw: string, six: bool)
    requires Fresh(w)
    ensures var (w1, answers) := Run(w, ops);
      var n := Canonical(raw);
      var answer, given := Step(w1, Resolve(raw, six)).1, GivenOut(ops, answers, six);
      if n == "" then answer == EmptyName
      else if n in Remembered(Mentions(ops, answers, six), w.bound) then
        var last := Latest(ops, answers, six, n, None);
        last.Some? && answer == Address(last.value)
      else if |given| < w.PoolOf(six).capacity then
        answer == Address(AddressOf(w.PoolOf(six), |given|)) && answer.addr !in given
      else answer == Exhausted
  {
    hide Run, Step, Remembered, LastIndex, Latest, Mentions, GivenOut, Canonical, FirstAddresses;
    var (w1, answers) := Run(w, ops);
    var n := Canonical(raw);
    UsesAreMentions(w, ops, six);
    NewestIsLatest(w, ops, six, n);
    GivenOutIsIssued(w, ops, six);
    assert [] + Mentions(ops, answers, six) == Mentions(ops, answers, six);
    LastOfNone(n);
    ResolveInCases(w1, raw, six);
  }

  lemma ResolveInCases(w: WorldShape, raw: string, six: bool)
    requires w.Valid()
    ensures var answer, n, log, pool := Step(w, Resolve(raw, six)).1, Canonical(raw), w.LogOf(six), w.PoolOf(six);
      if n == "" then answer == EmptyName
      else if IsRemembered(w.bound, log, n) then
        NewestAddress(pool, log, n).Some? && answer == Address(NewestAddress(pool, log, n).value)
      else if |log.issued| < pool.capacity then
        answer == Address(AddressOf(pool, |log.issued|)) && answer.addr !in FirstAddresses(pool, |log.issued|)
      else answer == Exhausted
  {
    hide Remembered, LastIndex, Canonical;
    var log, n := w.LogOf(six), Canonical(raw);
    if IsRemembered(w.bound, log, n) {
      RememberedWasIssued(w.PoolOf(six), w.bound, log, n);
    }
  }
}
