/**
 * The netstack engine's admission and shutdown: every packet handler may call
 * acquire and must release, while Close bars new sessions, waits for the rest
 * and then closes the stack. Every action is one atomic step of one goroutine.
 */
module EngineShutdown {
  import opened Counting
  import opened Runs

  // ---- the code of the handlers ----

  /** Where a handler stands in handleTCP or handleUDP after its call of acquire, one place per branch. */
  datatype Place =
    | TcpStart         // the goroutine, before its defer
    | TcpDial
    | TcpEndpoint
    | TcpRelay
    | UdpPort
    | DnsEndpoint
    | DnsNoEndpoint    // CreateEndpoint failed
    | DnsStart         // the goroutine, before its defer
    | DnsServe
    | UdpEnabledCheck
    | UdpDisabled
    | UdpAddress
    | UdpNoAddress     // toNetip failed
    | UdpEndpoint
    | UdpNoEndpoint    // CreateEndpoint failed
    | UdpStart         // the goroutine, before its defer
    | UdpDial
    | UdpRelay
    | Leaving          // before a plain return, or running deferred calls

  /** What the code does at a place; the guest and the configuration choose among the branches. */
  datatype Instruction =
    | Goto(to: Place)
    | DeferRelease(to: Place)  // defer e.release()
    | CallRelease(to: Place)   // e.release()
    | Return                   // runs what was deferred

  predicate Code(place: Place, i: Instruction) {
    match place
    case TcpStart => i == DeferRelease(TcpDial)
    case TcpDial => i == Goto(TcpEndpoint) || i == Return
    case TcpEndpoint => i == Goto(TcpRelay) || i == Return
    case TcpRelay => i == Return
    case UdpPort => i == Goto(DnsEndpoint) || i == Goto(UdpEnabledCheck)
    case DnsEndpoint => i == Goto(DnsStart) || i == Goto(DnsNoEndpoint)
    case DnsNoEndpoint => i == CallRelease(Leaving)
    case DnsStart => i == DeferRelease(DnsServe)
    case DnsServe => i == Return
    case UdpEnabledCheck => i == Goto(UdpAddress) || i == Goto(UdpDisabled)
    case UdpDisabled => i == CallRelease(Leaving)
    case UdpAddress => i == Goto(UdpEndpoint) || i == Goto(UdpNoAddress)
    case UdpNoAddress => i == CallRelease(Leaving)
    case UdpEndpoint => i == Goto(UdpStart) || i == Goto(UdpNoEndpoint)
    case UdpNoEndpoint => i == CallRelease(Leaving)
    case UdpStart => i == DeferRelease(UdpDial)
    case UdpDial => i == Goto(UdpRelay) || i == Return
    case UdpRelay => i == Return
    case Leaving => i == Return
  }

  datatype Pc =
    | Entered                     // handler called; a bad address may end it here
    | Acquiring                   // before mu.Lock in acquire
    | Checking                    // holds mu, before closed is read
    | Adding                      // holds mu, token sent, before workers.Add
    | Granting                    // holds mu, about to return true
    | Refusing                    // holds mu, about to return false
    | At(place: Place)            // in the handler's code
    | FreeingToken(back: Place)   // in release, before the token is received
    | FreeingWorker(back: Place)  // in release, before workers.Done
    | Exited

  /**
   * One handler and the goroutine it may start, as one thread of control. udp
   * tells the two handlers apart; pending counts the deferred releases not yet
   * run; acquired and released count the calls that returned true and returned.
   */
  datatype Handler = Handler(udp: bool, pc: Pc, pending: nat, acquired: nat, released: nat)

  /** Close, run once. */
  datatype Closer = NotCalled | CloseLocking | CloseSetting | CloseUnlocking | Cancelling | Waiting | ClosingStack | Closed

  datatype Owner = Nobody | OfHandler(h: nat) | OfCloser

  datatype State = State(
    capacity: nat, sessions: nat, workers: nat, closed: bool, owner: Owner, closer: Closer, handlers: seq<Handler>)

  datatype HandlerStep =
    | Refuse | Acquire | LockEngine | Check | Add | UnlockEngine
    | Execute(instruction: Instruction)
    | FreeToken | FreeWorker

  datatype Action = Arrive(udp: bool) | Step(h: nat, step: HandlerStep) | CloseStep

  predicate HandlerEnabled(s: State, h: nat, step: HandlerStep) {
    && h < |s.handlers|
    && var x := s.handlers[h];
       match step
       case Refuse => x.pc.Entered? && !x.udp  // handleTCP reads the address first
       case Acquire => x.pc.Entered?
       case LockEngine => x.pc.Acquiring? && s.owner == Nobody
       case Check => x.pc.Checking?
       case Add => x.pc.Adding?
       case UnlockEngine => x.pc.Granting? || x.pc.Refusing?
       case Execute(i) => x.pc.At? && Code(x.pc.place, i)
       case FreeToken => x.pc.FreeingToken? && s.sessions > 0
       case FreeWorker => x.pc.FreeingWorker? && s.workers > 0
  }

  /** Executing an instruction; a return with deferred releases runs the last of them first. */
  function Executed(x: Handler, i: Instruction): Handler {
    match i
    case Goto(to) => x.(pc := At(to))
    case DeferRelease(to) => x.(pc := At(to), pending := x.pending + 1)
    case CallRelease(to) => x.(pc := FreeingToken(to))
    case Return => if x.pending == 0 then x.(pc := Exited) else x.(pc := FreeingToken(Leaving), pending := x.pending - 1)
  }

  function HandlerAfter(s: State, x: Handler, step: HandlerStep): Handler {
    match step
    case Refuse => x.(pc := Exited)
    case Acquire => x.(pc := Acquiring)
    case LockEngine => x.(pc := Checking)
    case Check => x.(pc := if !s.closed && s.sessions < s.capacity then Adding else Refusing)
    case Add => x.(pc := Granting)
    case UnlockEngine =>
      if x.pc.Granting? then x.(pc := At(if x.udp then UdpPort else TcpStart), acquired := x.acquired + 1)
      else x.(pc := At(Leaving))
    case Execute(i) => Executed(x, i)
    case FreeToken => if x.pc.FreeingToken? then x.(pc := FreeingWorker(x.pc.back)) else x
    case FreeWorker => if x.pc.FreeingWorker? then x.(pc := At(x.pc.back), released := x.released + 1) else x
  }

  function ApplyHandler(s: State, h: nat, step: HandlerStep): State
    requires HandlerEnabled(s, h, step)
  {
    var after := HandlerAfter(s, s.handlers[h], step);
    var r := s.(handlers := s.handlers[h := after]);
    match step
    case LockEngine => r.(owner := OfHandler(h))
    case Check => if after.pc.Adding? then r.(sessions := s.sessions + 1) else r
    case Add => r.(workers := s.workers + 1)
    case UnlockEngine => r.(owner := Nobody)
    case FreeToken => r.(sessions := s.sessions - 1)
    case FreeWorker => r.(workers := s.workers - 1)
    case _ => r
  }

  predicate CloseEnabled(s: State) {
    match s.closer
    case CloseLocking => s.owner == Nobody
    case Waiting => s.workers == 0
    case Closed => false
    case _ => true
  }

  function ApplyClose(s: State): State
    requires CloseEnabled(s)
  {
    match s.closer
    case NotCalled => s.(closer := CloseLocking)
    case CloseLocking => s.(closer := CloseSetting, owner := OfCloser)
    case CloseSetting => s.(closer := CloseUnlocking, closed := true)
    case CloseUnlocking => s.(closer := Cancelling, owner := Nobody)
    case Cancelling => s.(closer := Waiting)
    case Waiting => s.(closer := ClosingStack)
    case ClosingStack => s.(closer := Closed)
  }

  predicate Enabled(s: State, a: Action) {
    match a
    case Arrive(_) => true
    case Step(h, step) => HandlerEnabled(s, h, step)
    case CloseStep => CloseEnabled(s)
  }

  function Apply(s: State, a: Action): State
    requires Enabled(s, a)
  {
    match a
    case Arrive(udp) => s.(handlers := s.handlers + [Handler(udp, Entered, 0, 0, 0)])
    case Step(h, step) => ApplyHandler(s, h, step)
    case CloseStep => ApplyClose(s)
  }

  // ---- the invariant ----

  /** The handler has acquired more often than it has released. */
  predicate InSession(x: Handler) {
    x.acquired > x.released
  }

  /** A token of the channel is the handler's: sent in acquire, not yet received in release. */
  predicate HasToken(x: Handler) {
    x.pc.Adding? || x.pc.Granting? || (InSession(x) && !x.pc.FreeingWorker?)
  }

  predicate IsWorker(x: Handler) {
    x.pc.Granting? || InSession(x)
  }

  predicate HoldsLock(x: Handler) {
    x.pc.Checking? || x.pc.Adding? || x.pc.Granting? || x.pc.Refusing?
  }

  /** The goroutine has been started and its release deferred. */
  predicate AfterDefer(place: Place) {
    place.TcpDial? || place.TcpEndpoint? || place.TcpRelay? || place.DnsServe? || place.UdpDial? || place.UdpRelay?
  }

  /**
   * What a handler owes. In its code it has one session to give up, and has
   * deferred that release exactly where the goroutine runs; when it leaves it
   * owes nothing and has nothing deferred.
   */
  ghost predicate Balanced(x: Handler) {
    && x.acquired <= 1
    && match x.pc
       case At(place) =>
         if place.Leaving? then x.released == x.acquired && x.pending == 0
         else x.acquired == 1 && x.released == 0 && x.pending == if AfterDefer(place) then 1 else 0
       case FreeingToken(back) => x.acquired == 1 && x.released == 0 && x.pending == 0 && back.Leaving?
       case FreeingWorker(back) => x.acquired == 1 && x.released == 0 && x.pending == 0 && back.Leaving?
       case Exited => x.released == x.acquired && x.pending == 0
       case _ => x.acquired == 0 && x.released == 0 && x.pending == 0
  }

  ghost predicate AllBalanced(s: State) {
    forall h | 0 <= h < |s.handlers| :: Balanced(s.handlers[h])
  }

  ghost predicate Counted(s: State) {
    && s.sessions == Count(s.handlers, HasToken)
    && s.sessions <= s.capacity
    && s.workers == Count(s.handlers, IsWorker)
  }

  ghost predicate Locked(s: State) {
    && (forall h | 0 <= h < |s.handlers| :: HoldsLock(s.handlers[h]) <==> s.owner == OfHandler(h))
    && (s.owner.OfHandler? ==> s.owner.h < |s.handlers|)
    && (s.closer.CloseSetting? || s.closer.CloseUnlocking? <==> s.owner == OfCloser)
  }

  predicate PastClosed(c: Closer) {
    c.CloseUnlocking? || c.Cancelling? || c.Waiting? || c.ClosingStack? || c.Closed?
  }

  ghost predicate Barred(s: State) {
    && (s.closed <==> PastClosed(s.closer))
    && (s.closed ==> forall h | 0 <= h < |s.handlers| :: !s.handlers[h].pc.Adding?)
    && (s.closed ==> forall h | 0 <= h < |s.handlers| :: !s.handlers[h].pc.Granting?)
    && (s.closer.ClosingStack? || s.closer.Closed? ==> s.workers == 0)
  }

  ghost predicate Inv(s: State) {
    Counted(s) && Locked(s) && Barred(s) && AllBalanced(s)
  }

  ghost predicate Init(s: State) {
    s.sessions == 0 && s.workers == 0 && !s.closed && s.owner == Nobody && s.closer == NotCalled && s.handlers == []
  }

  /** Every instruction of the code keeps what the handler owes. */
  lemma StepKeepsBalance(s: State, h: nat, step: HandlerStep)
    requires HandlerEnabled(s, h, step) && Balanced(s.handlers[h])
    ensures Balanced(HandlerAfter(s, s.handlers[h], step))
  {
  }

  /** Tokens and wait group move with the handlers that stay balanced. */
  lemma HandlerKeepsCounts(s: State, h: nat, step: HandlerStep)
    requires Counted(s) && HandlerEnabled(s, h, step) && Balanced(s.handlers[h])
    ensures Counted(ApplyHandler(s, h, step))
  {
    hide Counting.Count, Code;
    var x := HandlerAfter(s, s.handlers[h], step);
    CountUpdate(s.handlers, h, x, HasToken);
    CountUpdate(s.handlers, h, x, IsWorker);
  }

  lemma HandlerKeepsLock(s: State, h: nat, step: HandlerStep)
    requires Locked(s) && HandlerEnabled(s, h, step)
    ensures Locked(ApplyHandler(s, h, step))
  {
    hide Code;
  }

  /** Once closed is set nobody is between the check and the unlock, so nobody adds. */
  lemma HandlerKeepsBar(s: State, h: nat, step: HandlerStep)
    requires Locked(s) && Barred(s) && HandlerEnabled(s, h, step)
    ensures Barred(ApplyHandler(s, h, step))
  {
    hide Code;
  }

  lemma HandlerKeepsBalance(s: State, h: nat, step: HandlerStep)
    requires AllBalanced(s) && HandlerEnabled(s, h, step)
    ensures AllBalanced(ApplyHandler(s, h, step))
  {
    hide Balanced, HandlerAfter;
    StepKeepsBalance(s, h, step);
  }

  lemma CloseKeeps(s: State)
    requires Inv(s) && CloseEnabled(s)
    ensures Inv(ApplyClose(s))
  {
    hide Counting.Count, Balanced;
  }

  lemma ArriveKeeps(s: State, udp: bool)
    requires Inv(s)
    ensures Inv(Apply(s, Arrive(udp)))
  {
    hide Counting.Count;
    var x := Handler(udp, Entered, 0, 0, 0);
    CountAppend(s.handlers, x, HasToken);
    CountAppend(s.handlers, x, IsWorker);
  }

  lemma StepKeeps(s: State, a: Action)
    requires Inv(s) && Enabled(s, a)
    ensures Inv(Apply(s, a))
  {
    hide Counted, Locked, Barred, Balanced, HandlerAfter, Code;
    match a
    case Arrive(udp) => ArriveKeeps(s, udp);
    case Step(h, step) =>
      HandlerKeepsCounts(s, h, step);
      HandlerKeepsLock(s, h, step);
      HandlerKeepsBar(s, h, step);
      HandlerKeepsBalance(s, h, step);
    case CloseStep => CloseKeeps(s);
  }

  // ---- every run ----

  ghost predicate Run(s: State, actions: seq<Action>) {
    IsRun(Apply, s, actions)
  }

  ghost function After(s: State, actions: seq<Action>): State
    requires Run(s, actions)
  {
    EndOf(Apply, s, actions)
  }

  lemma RunKeeps(s: State, actions: seq<Action>)
    requires Inv(s) && Run(s, actions)
    ensures Inv(After(s, actions))
  {
    hide Inv, Apply, Enabled;
    forall t: State, a: Action | Inv(t) && Apply.requires(t, a) ensures Inv(Apply(t, a)) {
      StepKeeps(t, a);
    }
    InvariantHolds(Apply, Inv, s, actions);
  }

  lemma Reachable(s: State, actions: seq<Action>)
    requires Init(s) && Run(s, actions)
    ensures Inv(After(s, actions))
  {
    RunKeeps(s, actions);
  }

  /** Tokens in the channel and the wait group are the handlers holding them, never more than the capacity. */
  lemma TokensAreHandlers(s: State, actions: seq<Action>)
    requires Init(s) && Run(s, actions)
    ensures var r := After(s, actions);
      && r.sessions == Count(r.handlers, HasToken) <= r.capacity
      && r.workers == Count(r.handlers, IsWorker)
  {
    hide Run, After, Init;
    Reachable(s, actions);
  }

  /**
   * On every path of both handlers, refusals and failures included, a handler
   * that has ended has released exactly as often as it acquired, and until then
   * it is never ahead.
   */
  lemma AcquireMatchesRelease(s: State, actions: seq<Action>, h: nat)
    requires Init(s) && Run(s, actions)
    requires h < |After(s, actions).handlers|
    ensures var x := After(s, actions).handlers[h];
      && x.released <= x.acquired <= 1
      && (x.pc.Exited? ==> x.released == x.acquired && x.pending == 0)
  {
    hide Run, After, Init;
    Reachable(s, actions);
    assert Balanced(After(s, actions).handlers[h]);
  }

  /** The steps a handler has left at most; every step of its own takes one. */
  function StepsLeft(x: Handler): nat {
    4 * x.pending + match x.pc
      case Entered => 30
      case Acquiring => 29
      case Checking => 28
      case Adding => 27
      case Granting => 26
      case Refusing => 26
      case At(place) => PlaceRank(place)
      case FreeingToken(back) => 3 + PlaceRank(back)
      case FreeingWorker(back) => 2 + PlaceRank(back)
      case Exited => 0
  }

  function PlaceRank(place: Place): nat {
    match place
    case UdpPort => 17
    case UdpEnabledCheck => 16
    case UdpAddress => 15
    case UdpEndpoint => 14
    case DnsEndpoint => 14
    case UdpStart => 13
    case DnsStart => 13
    case TcpStart => 13
    case TcpDial => 6
    case UdpDial => 6
    case TcpEndpoint => 5
    case DnsNoEndpoint => 5
    case UdpDisabled => 5
    case UdpNoAddress => 5
    case UdpNoEndpoint => 5
    case TcpRelay => 4
    case UdpRelay => 4
    case DnsServe => 4
    case Leaving => 1
  }

  lemma StepsRunOut(s: State, h: nat, step: HandlerStep)
    requires HandlerEnabled(s, h, step)
    ensures StepsLeft(HandlerAfter(s, s.handlers[h], step)) < StepsLeft(s.handlers[h])
  {
  }

  /**
   * No path gets stuck before its release: a handler that has not ended can
   * step, unless it waits for the lock another holds. Its steps run out, so
   * every session that keeps stepping is given up.
   */
  lemma EveryHandlerCanEnd(s: State, actions: seq<Action>, h: nat)
    requires Init(s) && Run(s, actions)
    requires h < |After(s, actions).handlers|
    ensures var r := After(s, actions);
      r.handlers[h].pc.Exited? || (r.handlers[h].pc.Acquiring? && r.owner != Nobody) || exists step :: HandlerEnabled(r, h, step)
    ensures forall step | HandlerEnabled(After(s, actions), h, step) ::
      StepsLeft(Apply(After(s, actions), Step(h, step)).handlers[h]) < StepsLeft(After(s, actions).handlers[h])
  {
    hide Run, After, Init;
    var r := After(s, actions);
    Reachable(s, actions);
    CanStep(r, h);
    forall step | HandlerEnabled(r, h, step)
      ensures StepsLeft(Apply(r, Step(h, step)).handlers[h]) < StepsLeft(r.handlers[h])
    {
      StepsRunOut(r, h, step);
    }
  }

  lemma CanStep(s: State, h: nat)
    requires Inv(s) && h < |s.handlers|
    ensures s.handlers[h].pc.Exited? || (s.handlers[h].pc.Acquiring? && s.owner != Nobody) || exists step :: HandlerEnabled(s, h, step)
  {
    var x := s.handlers[h];
    assert Balanced(x);
    match x.pc
    case Entered => assert HandlerEnabled(s, h, Acquire);
    case Acquiring => assert s.owner == Nobody ==> HandlerEnabled(s, h, LockEngine);
    case Checking => assert HandlerEnabled(s, h, Check);
    case Adding => assert HandlerEnabled(s, h, Add);
    case Granting => assert HandlerEnabled(s, h, UnlockEngine);
    case Refusing => assert HandlerEnabled(s, h, UnlockEngine);
    case At(place) =>
      var i := SomeInstruction(place);
      assert HandlerEnabled(s, h, Execute(i));
    case FreeingToken(_) =>
      CountSome(s.handlers, h, HasToken);
      assert HandlerEnabled(s, h, FreeToken);
    case FreeingWorker(_) =>
      CountSome(s.handlers, h, IsWorker);
      assert HandlerEnabled(s, h, FreeWorker);
    case Exited =>
  }

  lemma SomeInstruction(place: Place) returns (i: Instruction)
    ensures Code(place, i)
  {
    match place
    case TcpStart => i := DeferRelease(TcpDial);
    case DnsStart => i := DeferRelease(DnsServe);
    case UdpStart => i := DeferRelease(UdpDial);
    case UdpPort => i := Goto(DnsEndpoint);
    case DnsEndpoint => i := Goto(DnsStart);
    case UdpEnabledCheck => i := Goto(UdpAddress);
    case UdpAddress => i := Goto(UdpEndpoint);
    case UdpEndpoint => i := Goto(UdpStart);
    case DnsNoEndpoint => i := CallRelease(Leaving);
    case UdpDisabled => i := CallRelease(Leaving);
    case UdpNoAddress => i := CallRelease(Leaving);
    case UdpNoEndpoint => i := CallRelease(Leaving);
    case _ => i := Return;
  }

  /** A release never finds the channel empty or the wait group at zero. */
  lemma ReleaseNeverBlocks(s: State, actions: seq<Action>, h: nat)
    requires Init(s) && Run(s, actions)
    requires h < |After(s, actions).handlers|
    ensures var r := After(s, actions);
      && (r.handlers[h].pc.FreeingToken? ==> HandlerEnabled(r, h, FreeToken))
      && (r.handlers[h].pc.FreeingWorker? ==> HandlerEnabled(r, h, FreeWorker))
  {
    hide Run, After, Init, Locked, Barred;
    var r := After(s, actions);
    Reachable(s, actions);
    if r.handlers[h].pc.FreeingToken? {
      CountSome(r.handlers, h, HasToken);
    } else if r.handlers[h].pc.FreeingWorker? {
      CountSome(r.handlers, h, IsWorker);
    }
  }

  /** Once closed is set it stays set, no step adds to the wait group, and no session begins. */
  lemma {:induction false} NothingStartsAfterClosed(s: State, actions: seq<Action>)
    requires Inv(s) && s.closed && Run(s, actions)
    ensures var r := After(s, actions);
      && r.closed
      && r.workers <= s.workers
      && |s.handlers| <= |r.handlers|
      && forall h | 0 <= h < |r.handlers| && InSession(r.handlers[h]) :: h < |s.handlers| && InSession(s.handlers[h])
    decreases |actions|
  {
    if actions != [] {
      var a := actions[0];
      StepKeeps(s, a);
      NothingStartsAfterClosed(Apply(s, a), actions[1..]);
    }
  }

  /** The stack is closed with no session left, and none can begin in any continuation. */
  lemma StackClosesQuiet(s: State, actions: seq<Action>, more: seq<Action>)
    requires Init(s) && Run(s, actions)
    requires After(s, actions).closer.ClosingStack? || After(s, actions).closer.Closed?
    requires Run(After(s, actions), more)
    ensures var r := After(After(s, actions), more);
      && r.sessions == 0
      && r.workers == 0
      && forall h | 0 <= h < |r.handlers| :: !InSession(r.handlers[h])
  {
    hide Run, After, Init;
    var m := After(s, actions);
    var r := After(m, more);
    Reachable(s, actions);
    RunKeeps(m, more);
    NothingStartsAfterClosed(m, more);
    CountZero(r.handlers, IsWorker);
    CountZero(r.handlers, HasToken);
  }

  // ---- what acquire answers ----

  /** Close has not set its flag and some slot is held by no handler. */
  predicate HasRoom(s: State) {
    !PastClosed(s.closer) && Count(s.handlers, HasToken) < s.capacity
  }

  /** A handler past its check: one that was granted has its session or is about to, one that was refused never does. */
  predicate Decided(x: Handler, granted: bool) {
    if granted then x.pc.Adding? || x.pc.Granting? || x.acquired == 1
    else x.acquired == 0 && (x.pc.Refusing? || (x.pc.At? && x.pc.place.Leaving?) || x.pc.Exited?)
  }

  ghost predicate DecidedAt(s: State, h: nat, granted: bool) {
    Inv(s) && h < |s.handlers| && Decided(s.handlers[h], granted)
  }

  lemma StepKeepsDecision(s: State, a: Action, h: nat, granted: bool)
    requires DecidedAt(s, h, granted) && Enabled(s, a)
    ensures DecidedAt(Apply(s, a), h, granted)
  {
    hide Inv, Balanced, Decided, HandlerAfter;
    StepKeeps(s, a);
    BalancedAt(s, h);
    if a.Step? && a.h == h {
      OwnStepKeepsDecision(s, h, a.step, granted);
    }
  }

  lemma OwnStepKeepsDecision(s: State, h: nat, step: HandlerStep, granted: bool)
    requires HandlerEnabled(s, h, step) && Balanced(s.handlers[h]) && Decided(s.handlers[h], granted)
    ensures Decided(HandlerAfter(s, s.handlers[h], step), granted)
  {
  }

  lemma BalancedAt(s: State, h: nat)
    requires Inv(s) && h < |s.handlers|
    ensures Balanced(s.handlers[h])
  {
  }

  /**
   * A call of acquire that holds the lock is decided by the closing flag and the
   * slots the handlers hold: with room it returns true in every continuation
   * in which it returns, and without it false.
   */
  lemma AcquireAnswersExactly(s: State, actions: seq<Action>, h: nat, more: seq<Action>)
    requires Init(s) && Run(s, actions)
    requires h < |After(s, actions).handlers| && After(s, actions).handlers[h].pc.Checking?
    requires Run(Apply(After(s, actions), Step(h, Check)), more)
    ensures var end := After(Apply(After(s, actions), Step(h, Check)), more);
      h < |end.handlers| && Decided(end.handlers[h], HasRoom(After(s, actions)))
  {
    hide Run, After, Init, Inv, Decided, HasRoom;
    var r := After(s, actions);
    var granted := HasRoom(r);
    Reachable(s, actions);
    CheckDecides(r, h);
    hide Apply, Enabled;
    forall t: State, a: Action | DecidedAt(t, h, granted) && Apply.requires(t, a) ensures DecidedAt(Apply(t, a), h, granted) {
      StepKeepsDecision(t, a, h, granted);
    }
    DecisionHolds(Apply(r, Step(h, Check)), h, granted, more);
  }

  lemma DecisionHolds(s: State, h: nat, granted: bool, more: seq<Action>)
    requires DecidedAt(s, h, granted) && Run(s, more)
    ensures DecidedAt(After(s, more), h, granted)
  {
    hide DecidedAt, Apply, Enabled;
    var kept := t => DecidedAt(t, h, granted);
    forall t: State, a: Action | kept(t) && Apply.requires(t, a) ensures kept(Apply(t, a)) {
      StepKeepsDecision(t, a, h, granted);
    }
    InvariantHolds(Apply, kept, s, more);
  }

  lemma CheckDecides(s: State, h: nat)
    requires Inv(s) && h < |s.handlers| && s.handlers[h].pc.Checking?
    ensures DecidedAt(Apply(s, Step(h, Check)), h, HasRoom(s))
  {
    hide Counting.Count;
    StepKeeps(s, Step(h, Check));
  }

  /** The call from its start, nobody holding the lock: who calls acquire gets a session when there is room. */
  lemma AcquireAlone(s: State, actions: seq<Action>, h: nat)
    requires Init(s) && Run(s, actions)
    requires h < |After(s, actions).handlers| && After(s, actions).handlers[h].pc.Entered?
    requires After(s, actions).owner == Nobody
    ensures var r := After(s, actions);
      var granted := HasRoom(r);
      var adds := if granted then [Step(h, Add)] else [];
      var call := [Step(h, Acquire), Step(h, LockEngine), Step(h, Check)] + adds + [Step(h, UnlockEngine)];
      Run(r, call) && Returned(r, After(r, call), h, granted)
  {
    hide Run, After, Init, Inv;
    var r := After(s, actions);
    Reachable(s, actions);
    AloneFrom(r, h);
  }

  /** What the call leaves: the lock free, and with a grant the handler in its own code with one session, one slot and one worker more. */
  predicate Returned(before: State, after: State, h: nat, granted: bool) {
    var one := if granted then 1 else 0;
    && |after.handlers| == |before.handlers|
    && h < |after.handlers|
    && h < |before.handlers|
    && after.handlers[h].pc == At(if !granted then Leaving else if before.handlers[h].udp then UdpPort else TcpStart)
    && after.handlers[h].acquired == one
    && after.sessions == before.sessions + one
    && after.workers == before.workers + one
    && after.owner == Nobody
    && after.closer == before.closer
  }

  lemma RunFirst(s: State, a: Action, rest: seq<Action>)
    requires Enabled(s, a) && Run(Apply(s, a), rest)
    ensures Run(s, [a] + rest) && After(s, [a] + rest) == After(Apply(s, a), rest)
  {
    hide Enabled, Apply;
    assert ([a] + rest)[1..] == rest;
  }

  lemma RunNothing(s: State)
    ensures Run(s, []) && After(s, []) == s
  {
  }

  /** The call up to its check. */
  lemma AloneToCheck(s: State, h: nat) returns (a: State, b: State, c: State)
    requires h < |s.handlers| && s.handlers[h].pc.Entered? && s.owner == Nobody && s.handlers[h].acquired == 0
    ensures Enabled(s, Step(h, Acquire)) && a == Apply(s, Step(h, Acquire))
    ensures Enabled(a, Step(h, LockEngine)) && b == Apply(a, Step(h, LockEngine))
    ensures Enabled(b, Step(h, Check)) && c == Apply(b, Step(h, Check))
    ensures var granted := !s.closed && s.sessions < s.capacity;
      c == s.(owner := OfHandler(h), sessions := s.sessions + if granted then 1 else 0,
        handlers := s.handlers[h := s.handlers[h].(pc := if granted then Adding else Refusing)])
  {
    hide Code;
    a := Apply(s, Step(h, Acquire));
    b := Apply(a, Step(h, LockEngine));
    c := Apply(b, Step(h, Check));
  }

  /** The call after its check. */
  lemma AloneFromCheck(s: State, h: nat, c: State) returns (d: State, e: State)
    requires Inv(s) && h < |s.handlers| && s.handlers[h].pc.Entered? && s.owner == Nobody && s.handlers[h].acquired == 0
    requires c == s.(owner := OfHandler(h), sessions := s.sessions + if HasRoom(s) then 1 else 0,
      handlers := s.handlers[h := s.handlers[h].(pc := if HasRoom(s) then Adding else Refusing)])
    ensures if HasRoom(s) then Enabled(c, Step(h, Add)) && d == Apply(c, Step(h, Add)) else d == c
    ensures Enabled(d, Step(h, UnlockEngine)) && e == Apply(d, Step(h, UnlockEngine))
    ensures Returned(s, e, h, HasRoom(s))
  {
    hide Code, HasRoom, Inv;
    d := if HasRoom(s) then Apply(c, Step(h, Add)) else c;
    e := Apply(d, Step(h, UnlockEngine));
  }

  lemma RoomMeans(s: State)
    requires Inv(s)
    ensures HasRoom(s) <==> !s.closed && s.sessions < s.capacity
  {
    hide AllBalanced, Locked, Counting.Count;
  }

  lemma AloneFrom(s: State, h: nat)
    requires Inv(s) && h < |s.handlers| && s.handlers[h].pc.Entered? && s.owner == Nobody
    ensures var granted := HasRoom(s);
      var adds := if granted then [Step(h, Add)] else [];
      var call := [Step(h, Acquire), Step(h, LockEngine), Step(h, Check)] + adds + [Step(h, UnlockEngine)];
      Run(s, call) && Returned(s, After(s, call), h, granted)
  {
    hide Apply, Enabled, Inv, Run, After, HasRoom, Returned;
    BalancedAt(s, h);
    RoomMeans(s);
    var granted := HasRoom(s);
    var adds := if granted then [Step(h, Add)] else [];
    var a, b, c := AloneToCheck(s, h);
    var d, e := AloneFromCheck(s, h, c);
    RunNothing(e);
    RunFirst(d, Step(h, UnlockEngine), []);
    assert [Step(h, UnlockEngine)] + [] == [Step(h, UnlockEngine)];
    var tail := adds + [Step(h, UnlockEngine)];
    if granted {
      RunFirst(c, Step(h, Add), [Step(h, UnlockEngine)]);
    } else {
      assert tail == [Step(h, UnlockEngine)];
    }
    RunFirst(b, Step(h, Check), tail);
    RunFirst(a, Step(h, LockEngine), [Step(h, Check)] + tail);
    RunFirst(s, Step(h, Acquire), [Step(h, LockEngine)] + ([Step(h, Check)] + tail));
    assert [Step(h, Acquire), Step(h, LockEngine), Step(h, Check)] + adds + [Step(h, UnlockEngine)]
      == [Step(h, Acquire)] + ([Step(h, LockEngine)] + ([Step(h, Check)] + tail));
  }
}
