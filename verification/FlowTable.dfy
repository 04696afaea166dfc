/**
 * The namespace proxy's admission protocol: TCP and UDP sessions draw on one
 * channel of slots, and each UDP listener keeps a table of flows that its
 * receive loop fills and each flow's own session goroutine empties. Every
 * action below is one atomic step of one goroutine; a run is any interleaving.
 */
module FlowTable {
  import opened Counting
  import opened Netip
  import opened Runs

  datatype Endpoint = Endpoint(addr: Addr, port: nat)

  datatype FlowKey = FlowKey(peer: Endpoint, destination: Endpoint)

  datatype Packet = Packet(key: FlowKey, payload: seq<nat>)

  const QUEUE_SIZE := 16

  // ---- where each goroutine stands ----

  /** A session goroutine; from Closing on it runs its deferred calls. */
  datatype SessionPc =
    | Serving
    | Closing    // flow closed, before mu.Lock
    | Deleting   // holds mu, before the delete
    | Unlocking  // holds mu, after the delete
    | Freeing    // before the slot is returned
    | Leaving    // before workers.Done
    | Ended

  /** The goroutine that reads the flow's reply socket. */
  datatype ReaderPc = Forwarding | Stopping | Stopped

  datatype Flow = Flow(
    listener: nat, key: FlowKey, session: SessionPc, reader: ReaderPc, closed: bool, queue: seq<Packet>)

  /** The receive loop of one UDP listener. */
  datatype UdpPc =
    | Receiving
    | Locking(p: Packet)             // before mu.Lock
    | Looking(p: Packet)             // holds mu, before the lookup
    | Opening(p: Packet)             // holds mu and a slot, before replySocket
    | Skipping                       // holds mu, nothing to queue
    | Found(p: Packet, flow: nat)    // holds mu, flow found or entered
    | Sending(p: Packet, flow: nat)  // before the packet is queued
    | Draining                       // receive failed, waiting for workers
    | Returned

  datatype Owner = Nobody | Loop | Session(flow: nat)

  datatype UdpLoop = UdpLoop(pc: UdpPc, owner: Owner, table: map<FlowKey, nat>, workers: nat)

  /** The accept loop of one TCP listener, and the goroutine of one admitted connection. */
  datatype TcpPc = Accepting | Admitting | Spawning | TcpDraining | TcpReturned

  datatype TcpLoop = TcpLoop(pc: TcpPc, workers: nat)

  datatype ConnPc = Relaying | ConnLeaving | ConnEnded

  datatype Conn = Conn(listener: nat, pc: ConnPc)

  /** Sessions and connections stay in flows and conns after they end, so an index names one for ever. */
  datatype State = State(
    max: nat, slots: nat, tcp: seq<TcpLoop>, conns: seq<Conn>, udp: seq<UdpLoop>, flows: seq<Flow>)

  // ---- steps ----

  datatype TcpStep = Accept | Admit | Spawn | FailAccept | ReturnTcp

  datatype ConnStep = FreeConn | DoneConn

  datatype UdpStep =
    | Receive(p: Packet) | FailReceive | Lock | Look | Open(ok: bool) | Unlock | Send(queued: bool) | ReturnUdp

  /** Steps of a flow's two goroutines; the last three are the socket reader's. */
  datatype FlowStep =
    | Take | Close | Quit | LockTable | Delete | UnlockTable | FreeSlot | Done
    | Forward(payload: seq<nat>, queued: bool) | StopReading | ReaderDone

  datatype Action =
    | Tcp(l: nat, tcp: TcpStep)
    | OfConn(c: nat, conn: ConnStep)
    | Udp(t: nat, udp: UdpStep)
    | OfFlow(f: nat, flow: FlowStep)

  /** A packet may be queued when the channel has room, and dropped when it has none or the flow is done. */
  predicate CanQueue(flow: Flow, queued: bool) {
    if queued then |flow.queue| < QUEUE_SIZE else |flow.queue| >= QUEUE_SIZE || flow.closed
  }

  function Enqueue(flow: Flow, p: Packet, queued: bool): Flow {
    if queued then flow.(queue := flow.queue + [p]) else flow
  }

  // TCP loops and connections

  predicate TcpEnabled(loop: TcpLoop, step: TcpStep) {
    match step
    case Accept => loop.pc.Accepting?
    case Admit => loop.pc.Admitting?
    case Spawn => loop.pc.Spawning?
    case FailAccept => loop.pc.Accepting?
    case ReturnTcp => loop.pc.TcpDraining? && loop.workers == 0
  }

  function ApplyTcp(s: State, l: nat, step: TcpStep): State
    requires l < |s.tcp|
  {
    var loop := s.tcp[l];
    match step
    case Accept => s.(tcp := s.tcp[l := loop.(pc := Admitting)])
    case Admit =>
      if s.slots < s.max then s.(tcp := s.tcp[l := loop.(pc := Spawning)], slots := s.slots + 1)
      else s.(tcp := s.tcp[l := loop.(pc := Accepting)])
    case Spawn => s.(tcp := s.tcp[l := TcpLoop(Accepting, loop.workers + 1)], conns := s.conns + [Conn(l, Relaying)])
    case FailAccept => s.(tcp := s.tcp[l := loop.(pc := TcpDraining)])
    case ReturnTcp => s.(tcp := s.tcp[l := loop.(pc := TcpReturned)])
  }

  predicate ConnEnabled(s: State, c: nat, step: ConnStep) {
    && c < |s.conns|
    && s.conns[c].listener < |s.tcp|
    && match step
       case FreeConn => s.conns[c].pc.Relaying? && s.slots > 0
       case DoneConn => s.conns[c].pc.ConnLeaving? && s.tcp[s.conns[c].listener].workers > 0
  }

  function ApplyConn(s: State, c: nat, step: ConnStep): State
    requires ConnEnabled(s, c, step)
  {
    var l := s.conns[c].listener;
    match step
    case FreeConn => s.(conns := s.conns[c := s.conns[c].(pc := ConnLeaving)], slots := s.slots - 1)
    case DoneConn =>
      s.(conns := s.conns[c := s.conns[c].(pc := ConnEnded)],
         tcp := s.tcp[l := s.tcp[l].(workers := s.tcp[l].workers - 1)])
  }

  // UDP loops

  predicate UdpEnabled(s: State, t: nat, step: UdpStep) {
    && t < |s.udp|
    && var loop := s.udp[t];
       match step
       case Receive(_) => loop.pc.Receiving?
       case FailReceive => loop.pc.Receiving?
       case Lock => loop.pc.Locking? && loop.owner == Nobody
       case Look => loop.pc.Looking?
       case Open(ok) => loop.pc.Opening? && (!ok ==> s.slots > 0)
       case Unlock => loop.pc.Skipping? || loop.pc.Found?
       case Send(queued) =>
         loop.pc.Sending? && loop.pc.flow < |s.flows| && CanQueue(s.flows[loop.pc.flow], queued)
       case ReturnUdp => loop.pc.Draining? && loop.workers == 0
  }

  /** The loop after its step; next is the index a new flow would get. */
  function LoopAfter(loop: UdpLoop, step: UdpStep, room: bool, next: nat): UdpLoop
    requires step.Lock? ==> loop.pc.Locking?
    requires step.Look? ==> loop.pc.Looking?
    requires step.Open? ==> loop.pc.Opening?
    requires step.Unlock? ==> loop.pc.Skipping? || loop.pc.Found?
  {
    match step
    case Receive(p) => loop.(pc := Locking(p))
    case FailReceive => loop.(pc := Draining)
    case Lock => loop.(pc := Looking(loop.pc.p), owner := Loop)
    case Look =>
      var p := loop.pc.p;
      if p.key in loop.table then loop.(pc := Found(p, loop.table[p.key]))
      else if room then loop.(pc := Opening(p))
      else loop.(pc := Skipping)
    case Open(ok) =>
      var p := loop.pc.p;
      if ok then UdpLoop(Found(p, next), loop.owner, loop.table[p.key := next], loop.workers + 2)
      else loop.(pc := Skipping)
    case Unlock =>
      loop.(pc := if loop.pc.Skipping? then Receiving else Sending(loop.pc.p, loop.pc.flow), owner := Nobody)
    case Send(_) => loop.(pc := Receiving)
    case ReturnUdp => loop.(pc := Returned)
  }

  /** The flows after the step: a new one enters, or a packet is queued. */
  function FlowsAfter(s: State, t: nat, step: UdpStep): seq<Flow>
    requires UdpEnabled(s, t, step)
  {
    var pc := s.udp[t].pc;
    match step
    case Open(true) => s.flows + [Flow(t, pc.p.key, Serving, Forwarding, false, [])]
    case Send(queued) => s.flows[pc.flow := Enqueue(s.flows[pc.flow], pc.p, queued)]
    case _ => s.flows
  }

  /** Looking up a new key takes a slot when there is one; a failed reply socket gives it back. */
  function SlotsAfter(s: State, t: nat, step: UdpStep): nat
    requires UdpEnabled(s, t, step)
  {
    match step
    case Look => if s.udp[t].pc.p.key !in s.udp[t].table && s.slots < s.max then s.slots + 1 else s.slots
    case Open(false) => s.slots - 1
    case _ => s.slots
  }

  function ApplyUdp(s: State, t: nat, step: UdpStep): State
    requires UdpEnabled(s, t, step)
  {
    s.(udp := s.udp[t := LoopAfter(s.udp[t], step, s.slots < s.max, |s.flows|)],
       flows := FlowsAfter(s, t, step),
       slots := SlotsAfter(s, t, step))
  }

  // flows

  predicate FlowEnabled(s: State, f: nat, step: FlowStep) {
    && f < |s.flows|
    && s.flows[f].listener < |s.udp|
    && var flow, loop := s.flows[f], s.udp[s.flows[f].listener];
       match step
       case Take => flow.session.Serving? && flow.queue != []
       case Close => flow.session.Serving?
       case Quit => flow.session.Serving?
       case LockTable => flow.session.Closing? && loop.owner == Nobody
       case Delete => flow.session.Deleting?
       case UnlockTable => flow.session.Unlocking?
       case FreeSlot => flow.session.Freeing? && s.slots > 0
       case Done => flow.session.Leaving? && loop.workers > 0
       case Forward(_, queued) => flow.reader.Forwarding? && CanQueue(flow, queued)
       case StopReading => flow.reader.Forwarding?
       case ReaderDone => flow.reader.Stopping? && loop.workers > 0
  }

  function FlowAfter(flow: Flow, step: FlowStep): Flow
    requires step.Take? ==> flow.queue != []
  {
    match step
    case Take => flow.(queue := flow.queue[1..])
    case Close => flow.(closed := true)
    case Quit => flow.(session := Closing, closed := true)
    case LockTable => flow.(session := Deleting)
    case Delete => flow.(session := Unlocking)
    case UnlockTable => flow.(session := Freeing)
    case FreeSlot => flow.(session := Leaving)
    case Done => flow.(session := Ended)
    case Forward(payload, queued) => Enqueue(flow, Packet(flow.key, payload), queued)
    case StopReading => flow.(reader := Stopping, closed := true)
    case ReaderDone => flow.(reader := Stopped)
  }

  /** What a flow's step does to its listener: lock, table and wait group. */
  function ListenerAfter(loop: UdpLoop, f: nat, key: FlowKey, step: FlowStep): UdpLoop
    requires step.Done? || step.ReaderDone? ==> loop.workers > 0
  {
    match step
    case LockTable => loop.(owner := Session(f))
    case Delete => loop.(table := loop.table - {key})
    case UnlockTable => loop.(owner := Nobody)
    case Done => loop.(workers := loop.workers - 1)
    case ReaderDone => loop.(workers := loop.workers - 1)
    case _ => loop
  }

  function ApplyFlow(s: State, f: nat, step: FlowStep): State
    requires FlowEnabled(s, f, step)
  {
    var flow := s.flows[f];
    s.(flows := s.flows[f := FlowAfter(flow, step)],
       udp := s.udp[flow.listener := ListenerAfter(s.udp[flow.listener], f, flow.key, step)],
       slots := if step.FreeSlot? then s.slots - 1 else s.slots)
  }

  predicate Enabled(s: State, a: Action) {
    match a
    case Tcp(l, step) => l < |s.tcp| && TcpEnabled(s.tcp[l], step)
    case OfConn(c, step) => ConnEnabled(s, c, step)
    case Udp(t, step) => UdpEnabled(s, t, step)
    case OfFlow(f, step) => FlowEnabled(s, f, step)
  }

  function Apply(s: State, a: Action): State
    requires Enabled(s, a)
  {
    match a
    case Tcp(l, step) => ApplyTcp(s, l, step)
    case OfConn(c, step) => ApplyConn(s, c, step)
    case Udp(t, step) => ApplyUdp(s, t, step)
    case OfFlow(f, step) => ApplyFlow(s, f, step)
  }

  // ---- the invariant ----

  predicate SpawningTcp(l: TcpLoop) { l.pc.Spawning? }

  predicate HoldingConn(c: Conn) { c.pc.Relaying? }

  predicate OpeningUdp(l: UdpLoop) { l.pc.Opening? }

  /** A flow's session holds its slot until it frees it. */
  predicate HoldingFlow(f: Flow) { !f.session.Leaving? && !f.session.Ended? }

  /** A flow is in its listener's table until its session deletes it. */
  predicate InTable(f: Flow) { f.session.Serving? || f.session.Closing? || f.session.Deleting? }

  predicate SessionHoldsLock(f: Flow) { f.session.Deleting? || f.session.Unlocking? }

  predicate LoopHoldsLock(l: UdpLoop) { l.pc.Looking? || l.pc.Opening? || l.pc.Skipping? || l.pc.Found? }

  function LiveSession(t: nat): Flow -> bool { (f: Flow) => f.listener == t && !f.session.Ended? }

  function LiveReader(t: nat): Flow -> bool { (f: Flow) => f.listener == t && !f.reader.Stopped? }

  function LiveConn(l: nat): Conn -> bool { (c: Conn) => c.listener == l && !c.pc.ConnEnded? }

  ghost predicate Indices(s: State) {
    && (forall c | 0 <= c < |s.conns| :: s.conns[c].listener < |s.tcp|)
    && (forall f | 0 <= f < |s.flows| :: s.flows[f].listener < |s.udp|)
  }

  function Holders(s: State): nat {
    Count(s.tcp, SpawningTcp) + Count(s.conns, HoldingConn) + Count(s.udp, OpeningUdp) + Count(s.flows, HoldingFlow)
  }

  ghost predicate SlotsCounted(s: State) {
    s.slots == Holders(s) && s.slots <= s.max
  }

  predicate IsEntry(flows: seq<Flow>, t: nat, key: FlowKey, f: nat) {
    f < |flows| && flows[f].listener == t && flows[f].key == key && InTable(flows[f])
  }

  /** Every table entry is a flow of that listener and key that its session has not deleted. */
  ghost predicate TableSound(s: State) {
    forall t, k | 0 <= t < |s.udp| && k in s.udp[t].table :: IsEntry(s.flows, t, k, s.udp[t].table[k])
  }

  /** Every flow its session has not deleted is its listener's entry for its key. */
  ghost predicate TableComplete(s: State) {
    forall f | 0 <= f < |s.flows| && InTable(s.flows[f]) ::
      && s.flows[f].listener < |s.udp|
      && s.flows[f].key in s.udp[s.flows[f].listener].table
      && s.udp[s.flows[f].listener].table[s.flows[f].key] == f
  }

  /** A key the loop is opening a socket for is not in the table. */
  ghost predicate OpeningIsNew(s: State) {
    forall t | 0 <= t < |s.udp| && s.udp[t].pc.Opening? :: s.udp[t].pc.p.key !in s.udp[t].table
  }

  ghost predicate Locked(s: State) {
    && (forall t | 0 <= t < |s.udp| :: s.udp[t].owner == Loop <==> LoopHoldsLock(s.udp[t]))
    && (forall t | 0 <= t < |s.udp| && s.udp[t].owner.Session? ::
          && s.udp[t].owner.flow < |s.flows|
          && s.flows[s.udp[t].owner.flow].listener == t
          && SessionHoldsLock(s.flows[s.udp[t].owner.flow]))
    && (forall f | 0 <= f < |s.flows| && SessionHoldsLock(s.flows[f]) ::
          s.flows[f].listener < |s.udp| && s.udp[s.flows[f].listener].owner == Session(f))
  }

  ghost predicate WorkersCounted(s: State) {
    && (forall t | 0 <= t < |s.udp| ::
          s.udp[t].workers == Count(s.flows, LiveSession(t)) + Count(s.flows, LiveReader(t)))
    && (forall l | 0 <= l < |s.tcp| :: s.tcp[l].workers == Count(s.conns, LiveConn(l)))
    && (forall t | 0 <= t < |s.udp| && s.udp[t].pc.Returned? :: s.udp[t].workers == 0)
    && (forall l | 0 <= l < |s.tcp| && s.tcp[l].pc.TcpReturned? :: s.tcp[l].workers == 0)
  }

  ghost predicate PacketsFiled(s: State) {
    && (forall f, p | 0 <= f < |s.flows| && p in s.flows[f].queue :: p.key == s.flows[f].key)
    && (forall f | 0 <= f < |s.flows| :: |s.flows[f].queue| <= QUEUE_SIZE)
    && (forall t | 0 <= t < |s.udp| && (s.udp[t].pc.Found? || s.udp[t].pc.Sending?) ::
          && s.udp[t].pc.flow < |s.flows|
          && s.flows[s.udp[t].pc.flow].listener == t
          && s.flows[s.udp[t].pc.flow].key == s.udp[t].pc.p.key)
  }

  ghost predicate Inv(s: State) {
    Indices(s) && SlotsCounted(s) && TableSound(s) && TableComplete(s) && OpeningIsNew(s) && Locked(s) && WorkersCounted(s) && PacketsFiled(s)
  }

  ghost predicate Init(s: State) {
    && s.slots == 0
    && s.conns == []
    && s.flows == []
    && (forall l | 0 <= l < |s.tcp| :: s.tcp[l] == TcpLoop(Accepting, 0))
    && (forall t | 0 <= t < |s.udp| :: s.udp[t] == UdpLoop(Receiving, Nobody, map[], 0))
  }

  lemma InitHolds(s: State)
    requires Init(s)
    ensures Inv(s)
  {
    CountZero(s.tcp, SpawningTcp);
    CountZero(s.udp, OpeningUdp);
  }

  // ---- steps of a UDP loop ----

  lemma UdpKeepsTableSound(s: State, t: nat, step: UdpStep)
    requires TableSound(s) && UdpEnabled(s, t, step)
    ensures TableSound(ApplyUdp(s, t, step))
  {
    var r := ApplyUdp(s, t, step);
    forall u, k | 0 <= u < |r.udp| && k in r.udp[u].table ensures IsEntry(r.flows, u, k, r.udp[u].table[k]) {
      if k in s.udp[u].table && r.udp[u].table[k] == s.udp[u].table[k] {
        assert IsEntry(s.flows, u, k, s.udp[u].table[k]);
      }
    }
  }

  lemma UdpKeepsTableComplete(s: State, t: nat, step: UdpStep)
    requires TableComplete(s) && TableSound(s) && OpeningIsNew(s) && UdpEnabled(s, t, step)
    ensures TableComplete(ApplyUdp(s, t, step))
  {
  }

  lemma UdpKeepsLock(s: State, t: nat, step: UdpStep)
    requires Locked(s) && UdpEnabled(s, t, step)
    ensures Locked(ApplyUdp(s, t, step)) && (OpeningIsNew(s) ==> OpeningIsNew(ApplyUdp(s, t, step)))
  {
  }

  lemma UdpKeepsPackets(s: State, t: nat, step: UdpStep)
    requires PacketsFiled(s) && TableSound(s) && UdpEnabled(s, t, step)
    ensures PacketsFiled(ApplyUdp(s, t, step))
  {
  }

  lemma UdpKeepsSlots(s: State, t: nat, step: UdpStep)
    requires SlotsCounted(s) && UdpEnabled(s, t, step)
    ensures SlotsCounted(ApplyUdp(s, t, step))
  {
    var r := ApplyUdp(s, t, step);
    CountUpdate(s.udp, t, r.udp[t], OpeningUdp);
    match step
    case Open(true) => CountAppend(s.flows, r.flows[|s.flows|], HoldingFlow);
    case Send(_) => CountUpdate(s.flows, s.udp[t].pc.flow, r.flows[s.udp[t].pc.flow], HoldingFlow);
    case _ =>
  }

  lemma UdpKeepsWorkers(s: State, t: nat, step: UdpStep)
    requires Indices(s) && WorkersCounted(s) && UdpEnabled(s, t, step)
    ensures WorkersCounted(ApplyUdp(s, t, step))
  {
    var r := ApplyUdp(s, t, step);
    forall u | 0 <= u < |s.udp|
      ensures r.udp[u].workers == Count(r.flows, LiveSession(u)) + Count(r.flows, LiveReader(u))
    {
      match step
      case Open(true) =>
        CountAppend(s.flows, r.flows[|s.flows|], LiveSession(u));
        CountAppend(s.flows, r.flows[|s.flows|], LiveReader(u));
      case Send(_) =>
        CountUpdate(s.flows, s.udp[t].pc.flow, r.flows[s.udp[t].pc.flow], LiveSession(u));
        CountUpdate(s.flows, s.udp[t].pc.flow, r.flows[s.udp[t].pc.flow], LiveReader(u));
      case _ =>
    }
  }

  // ---- steps of a flow ----

  lemma FlowKeepsTableSound(s: State, f: nat, step: FlowStep)
    requires TableSound(s) && TableComplete(s) && FlowEnabled(s, f, step)
    ensures TableSound(ApplyFlow(s, f, step))
  {
    var r := ApplyFlow(s, f, step);
    forall u, k | 0 <= u < |r.udp| && k in r.udp[u].table ensures IsEntry(r.flows, u, k, r.udp[u].table[k]) {
      assert r.udp[u].table[k] == s.udp[u].table[k];
      assert IsEntry(s.flows, u, k, s.udp[u].table[k]);
    }
  }

  lemma FlowKeepsTableComplete(s: State, f: nat, step: FlowStep)
    requires TableComplete(s) && FlowEnabled(s, f, step)
    ensures TableComplete(ApplyFlow(s, f, step)) && (OpeningIsNew(s) ==> OpeningIsNew(ApplyFlow(s, f, step)))
  {
  }

  lemma FlowKeepsLock(s: State, f: nat, step: FlowStep)
    requires Locked(s) && FlowEnabled(s, f, step)
    ensures Locked(ApplyFlow(s, f, step))
  {
  }

  lemma FlowKeepsPackets(s: State, f: nat, step: FlowStep)
    requires PacketsFiled(s) && FlowEnabled(s, f, step)
    ensures PacketsFiled(ApplyFlow(s, f, step))
  {
  }

  lemma FlowKeepsSlots(s: State, f: nat, step: FlowStep)
    requires SlotsCounted(s) && FlowEnabled(s, f, step)
    ensures SlotsCounted(ApplyFlow(s, f, step))
  {
    var r, t := ApplyFlow(s, f, step), s.flows[f].listener;
    CountUpdate(s.flows, f, r.flows[f], HoldingFlow);
    CountUpdate(s.udp, t, r.udp[t], OpeningUdp);
  }

  lemma FlowKeepsWorkers(s: State, f: nat, step: FlowStep)
    requires WorkersCounted(s) && FlowEnabled(s, f, step)
    ensures WorkersCounted(ApplyFlow(s, f, step))
  {
    hide Count, CanQueue;
    var r := ApplyFlow(s, f, step);
    forall u | 0 <= u < |s.udp|
      ensures r.udp[u].workers == Count(r.flows, LiveSession(u)) + Count(r.flows, LiveReader(u))
    {
      CountUpdate(s.flows, f, r.flows[f], LiveSession(u));
      CountUpdate(s.flows, f, r.flows[f], LiveReader(u));
    }
  }

  // ---- steps of the TCP side ----

  lemma TcpKeepsSlots(s: State, l: nat, step: TcpStep)
    requires SlotsCounted(s) && l < |s.tcp| && TcpEnabled(s.tcp[l], step)
    ensures SlotsCounted(ApplyTcp(s, l, step))
  {
    CountUpdate(s.tcp, l, ApplyTcp(s, l, step).tcp[l], SpawningTcp);
    CountAppend(s.conns, Conn(l, Relaying), HoldingConn);
  }

  lemma TcpKeepsWorkers(s: State, l: nat, step: TcpStep)
    requires WorkersCounted(s) && l < |s.tcp| && TcpEnabled(s.tcp[l], step)
    ensures WorkersCounted(ApplyTcp(s, l, step))
  {
    var r := ApplyTcp(s, l, step);
    forall m | 0 <= m < |s.tcp| ensures r.tcp[m].workers == Count(r.conns, LiveConn(m)) {
      CountAppend(s.conns, Conn(l, Relaying), LiveConn(m));
    }
  }

  lemma ConnKeepsCounts(s: State, c: nat, step: ConnStep)
    requires SlotsCounted(s) && WorkersCounted(s) && ConnEnabled(s, c, step)
    ensures SlotsCounted(ApplyConn(s, c, step)) && WorkersCounted(ApplyConn(s, c, step))
  {
    var r, l := ApplyConn(s, c, step), s.conns[c].listener;
    CountUpdate(s.conns, c, r.conns[c], HoldingConn);
    CountUpdate(s.tcp, l, r.tcp[l], SpawningTcp);
    forall m | 0 <= m < |s.tcp| ensures r.tcp[m].workers == Count(r.conns, LiveConn(m)) {
      CountUpdate(s.conns, c, r.conns[c], LiveConn(m));
    }
  }

  /** The table, the locks and the queues are the UDP side's alone. */
  lemma UdpSideAlone(s: State, r: State)
    requires s.udp == r.udp && s.flows == r.flows
    ensures TableSound(s) ==> TableSound(r)
    ensures TableComplete(s) ==> TableComplete(r)
    ensures OpeningIsNew(s) ==> OpeningIsNew(r)
    ensures Locked(s) ==> Locked(r)
    ensures PacketsFiled(s) ==> PacketsFiled(r)
  {
  }

  // ---- every run ----

  lemma StepKeeps(s: State, a: Action)
    requires Inv(s) && Enabled(s, a)
    ensures Inv(Apply(s, a))
  {
    hide SlotsCounted, TableSound, TableComplete, OpeningIsNew, Locked, WorkersCounted, PacketsFiled;
    match a
    case Tcp(l, step) =>
      TcpKeepsSlots(s, l, step);
      TcpKeepsWorkers(s, l, step);
      UdpSideAlone(s, ApplyTcp(s, l, step));
    case OfConn(c, step) =>
      ConnKeepsCounts(s, c, step);
      UdpSideAlone(s, ApplyConn(s, c, step));
    case Udp(t, step) =>
      UdpKeepsTableSound(s, t, step);
      UdpKeepsTableComplete(s, t, step);
      UdpKeepsLock(s, t, step);
      UdpKeepsPackets(s, t, step);
      UdpKeepsSlots(s, t, step);
      UdpKeepsWorkers(s, t, step);
    case OfFlow(f, step) =>
      FlowKeepsTableSound(s, f, step);
      FlowKeepsTableComplete(s, f, step);
      FlowKeepsLock(s, f, step);
      FlowKeepsPackets(s, f, step);
      FlowKeepsSlots(s, f, step);
      FlowKeepsWorkers(s, f, step);
  }

  ghost predicate Run(s: State, actions: seq<Action>) {
    IsRun(Apply, s, actions)
  }

  ghost function After(s: State, actions: seq<Action>): State
    requires Run(s, actions)
  {
    EndOf(Apply, s, actions)
  }

  lemma Reachable(s: State, actions: seq<Action>)
    requires Init(s) && Run(s, actions)
    ensures Inv(After(s, actions))
  {
    hide Inv, Init, Apply, Enabled;
    InitHolds(s);
    forall t: State, a: Action | Inv(t) && Apply.requires(t, a) ensures Inv(Apply(t, a)) {
      StepKeeps(t, a);
    }
    InvariantHolds(Apply, Inv, s, actions);
  }

  /** Under every interleaving the slots in use are the sessions holding them, and never more than the limit. */
  lemma SlotsAreSessions(s: State, actions: seq<Action>)
    requires Init(s) && Run(s, actions)
    ensures var r := After(s, actions); r.slots == Holders(r) && r.slots <= r.max
  {
    hide Run, After, Init;
    Reachable(s, actions);
  }

  /** A listener's table is exactly its flows whose session has not yet deleted them, each under its own key. */
  lemma TableIsUndeletedFlows(s: State, actions: seq<Action>, t: nat, k: FlowKey, f: nat)
    requires Init(s) && Run(s, actions)
    requires t < |After(s, actions).udp|
    ensures var r := After(s, actions);
      (k in r.udp[t].table && r.udp[t].table[k] == f) <==> IsEntry(r.flows, t, k, f)
  {
    hide Run, After, Init;
    Reachable(s, actions);
  }

  /** An entry of a table survives every step but its own flow's delete. */
  lemma OnlyOwnSessionDeletes(s: State, actions: seq<Action>, a: Action, t: nat, k: FlowKey)
    requires Init(s) && Run(s, actions) && Enabled(After(s, actions), a)
    requires t < |After(s, actions).udp| && k in After(s, actions).udp[t].table
    ensures var r := After(s, actions);
      var f, later := r.udp[t].table[k], Apply(r, a);
      && |later.udp| == |r.udp|
      && ((k in later.udp[t].table && later.udp[t].table[k] == f) <==> a != OfFlow(f, Delete))
  {
    hide Run, After, Init, SlotsCounted, Locked, WorkersCounted, PacketsFiled;
    Reachable(s, actions);
    var r := After(s, actions);
    assert IsEntry(r.flows, t, k, r.udp[t].table[k]);
  }

  /** Where the loop reads or writes the table, and where a session does. */
  predicate LoopAtTable(l: UdpLoop) { l.pc.Looking? || l.pc.Opening? }

  predicate SessionAtTable(f: Flow) { f.session.Deleting? }

  /**
   * What the mutex is for: of a listener's loop and all its flows' sessions at
   * most one stands where it reads or writes the table, and it holds the lock.
   */
  lemma TableIsGuarded(s: State, actions: seq<Action>, t: nat, f: nat, g: nat)
    requires Init(s) && Run(s, actions) && t < |After(s, actions).udp|
    requires f < |After(s, actions).flows| && g < |After(s, actions).flows|
    requires After(s, actions).flows[f].listener == t && After(s, actions).flows[g].listener == t
    ensures var r := After(s, actions);
      && (LoopAtTable(r.udp[t]) ==> r.udp[t].owner == Loop)
      && (SessionAtTable(r.flows[f]) ==> r.udp[t].owner == Session(f))
      && !(LoopAtTable(r.udp[t]) && SessionAtTable(r.flows[f]))
      && (SessionAtTable(r.flows[f]) && SessionAtTable(r.flows[g]) ==> f == g)
  {
    hide Run, After, Init, Indices, SlotsCounted, TableSound, TableComplete, OpeningIsNew, WorkersCounted, PacketsFiled;
    Reachable(s, actions);
  }

  /** So whatever step changes a table is one of the goroutine holding its lock. */
  lemma OnlyOwnerChangesTable(s: State, actions: seq<Action>, a: Action, t: nat)
    requires Init(s) && Run(s, actions) && Enabled(After(s, actions), a) && t < |After(s, actions).udp|
    requires |Apply(After(s, actions), a).udp| > t
    requires Apply(After(s, actions), a).udp[t].table != After(s, actions).udp[t].table
    ensures var r := After(s, actions);
      match r.udp[t].owner
      case Nobody => false
      case Loop => a.Udp? && a.t == t && a.udp.Open?
      case Session(f) => a == OfFlow(f, Delete)
  {
    hide Run, After, Init, Indices, SlotsCounted, TableSound, TableComplete, OpeningIsNew, WorkersCounted, PacketsFiled;
    Reachable(s, actions);
  }

  /** The unconditional delete removes the goroutine's own entry, and nothing else. */
  lemma DeleteRemovesOwnEntry(s: State, actions: seq<Action>, f: nat)
    requires Init(s) && Run(s, actions) && Enabled(After(s, actions), OfFlow(f, Delete))
    ensures var r := After(s, actions);
      var t, key := r.flows[f].listener, r.flows[f].key;
      && key in r.udp[t].table
      && r.udp[t].table[key] == f
      && Apply(r, OfFlow(f, Delete)).udp == r.udp[t := r.udp[t].(table := r.udp[t].table - {key})]
  {
    hide Run, After, Init, Indices, SlotsCounted, TableSound, OpeningIsNew, Locked, WorkersCounted, PacketsFiled;
    Reachable(s, actions);
  }

  /** Every queued packet is of the flow's own peer and destination. */
  lemma PacketsReachTheirFlow(s: State, actions: seq<Action>, f: nat, p: Packet)
    requires Init(s) && Run(s, actions)
    requires f < |After(s, actions).flows| && p in After(s, actions).flows[f].queue
    ensures p.key == After(s, actions).flows[f].key
    ensures |After(s, actions).flows[f].queue| <= 16
  {
    hide Run, After, Init;
    Reachable(s, actions);
  }

  lemma NoFlowsNoTable(s: State, t: nat)
    requires TableSound(s) && t < |s.udp|
    requires forall f | 0 <= f < |s.flows| && s.flows[f].listener == t :: !InTable(s.flows[f])
    ensures s.udp[t].table == map[]
  {
    forall k ensures k !in s.udp[t].table {
    }
    assert s.udp[t].table.Keys == {};
  }

  /** When a UDP listener has returned, its table is empty and none of its flows holds a slot or runs. */
  lemma ReturnedListenerIsClean(s: State, actions: seq<Action>, t: nat)
    requires Init(s) && Run(s, actions)
    requires t < |After(s, actions).udp| && After(s, actions).udp[t].pc.Returned?
    ensures var r := After(s, actions);
      && r.udp[t].table == map[]
      && r.udp[t].owner == Nobody
      && forall f | 0 <= f < |r.flows| && r.flows[f].listener == t ::
          !HoldingFlow(r.flows[f]) && r.flows[f].session.Ended? && r.flows[f].reader.Stopped?
  {
    hide Run, After, Init;
    var r := After(s, actions);
    Reachable(s, actions);
    CountZero(r.flows, LiveSession(t));
    CountZero(r.flows, LiveReader(t));
    forall f | 0 <= f < |r.flows| && r.flows[f].listener == t
      ensures r.flows[f].session.Ended? && r.flows[f].reader.Stopped?
    {
      assert !LiveSession(t)(r.flows[f]) && !LiveReader(t)(r.flows[f]);
    }
    NoFlowsNoTable(r, t);
  }

  /**
   * A goroutine that is to give back its slot or its place in a wait group
   * never finds the channel empty or the counter at zero.
   */
  lemma FlowCleanupNeverBlocks(s: State, actions: seq<Action>, f: nat)
    requires Init(s) && Run(s, actions) && f < |After(s, actions).flows|
    ensures var r := After(s, actions);
      && (r.flows[f].session.Freeing? ==> FlowEnabled(r, f, FreeSlot))
      && (r.flows[f].session.Leaving? ==> FlowEnabled(r, f, Done))
      && (r.flows[f].reader.Stopping? ==> FlowEnabled(r, f, ReaderDone))
  {
    hide Run, After, Init, TableSound, TableComplete, OpeningIsNew, Locked, PacketsFiled;
    var r := After(s, actions);
    Reachable(s, actions);
    if r.flows[f].session.Freeing? {
      CountSome(r.flows, f, HoldingFlow);
    } else if r.flows[f].session.Leaving? {
      CountSome(r.flows, f, LiveSession(r.flows[f].listener));
    }
    if r.flows[f].reader.Stopping? {
      CountSome(r.flows, f, LiveReader(r.flows[f].listener));
    }
  }

  lemma ConnCleanupNeverBlocks(s: State, actions: seq<Action>, c: nat)
    requires Init(s) && Run(s, actions) && c < |After(s, actions).conns|
    ensures var r := After(s, actions);
      && (r.conns[c].pc.Relaying? ==> ConnEnabled(r, c, FreeConn))
      && (r.conns[c].pc.ConnLeaving? ==> ConnEnabled(r, c, DoneConn))
  {
    hide Run, After, Init, TableSound, TableComplete, OpeningIsNew, Locked, PacketsFiled;
    var r := After(s, actions);
    Reachable(s, actions);
    if r.conns[c].pc.Relaying? {
      CountSome(r.conns, c, HoldingConn);
    } else if r.conns[c].pc.ConnLeaving? {
      CountSome(r.conns, c, LiveConn(r.conns[c].listener));
    }
  }

  /** When every listener has returned, every slot is back. */
  lemma AllReturnedFreesEverySlot(s: State, actions: seq<Action>)
    requires Init(s) && Run(s, actions)
    requires forall l | 0 <= l < |After(s, actions).tcp| :: After(s, actions).tcp[l].pc.TcpReturned?
    requires forall t | 0 <= t < |After(s, actions).udp| :: After(s, actions).udp[t].pc.Returned?
    ensures After(s, actions).slots == 0
  {
    hide Run, After, Init;
    var r := After(s, actions);
    Reachable(s, actions);
    forall f | 0 <= f < |r.flows| ensures !HoldingFlow(r.flows[f]) {
      ReturnedListenerIsClean(s, actions, r.flows[f].listener);
    }
    forall c | 0 <= c < |r.conns| ensures !HoldingConn(r.conns[c]) {
      CountZero(r.conns, LiveConn(r.conns[c].listener));
      assert !LiveConn(r.conns[c].listener)(r.conns[c]);
    }
    CountZero(r.tcp, SpawningTcp);
    CountZero(r.conns, HoldingConn);
    CountZero(r.udp, OpeningUdp);
    CountZero(r.flows, HoldingFlow);
  }
}
