/**
 * Where the packets go: over every run each received packet is settled in
 * order, by queueing it on its own flow or for a reason that forbids it, and
 * each flow's session takes exactly what was queued, in order.
 */
module FlowDelivery {
  import opened Counting
  import opened FlowTable
  import opened Runs

  datatype Fate = Queued(flow: nat) | Refused(flow: nat) | NoSlot | NoSocket

  datatype Settlement = Settlement(p: Packet, fate: Fate)

  function PacketsOf(settlements: seq<Settlement>): (packets: seq<Packet>)
    ensures |packets| == |settlements|
  {
    seq(|settlements|, i requires 0 <= i < |settlements| => settlements[i].p)
  }

  // ---- what one step receives and settles ----

  function ReceivedBy(a: Action, t: nat): seq<Packet> {
    if a.Udp? && a.t == t && a.udp.Receive? then [a.udp.p] else []
  }

  /** The packet a listener's loop has in hand. */
  function InHand(s: State, t: nat): seq<Packet> {
    if t >= |s.udp| then []
    else
      match s.udp[t].pc
      case Locking(p) => [p]
      case Looking(p) => [p]
      case Opening(p) => [p]
      case Found(p, _) => [p]
      case Sending(p, _) => [p]
      case _ => []
  }

  function SettledBy(s: State, a: Action, t: nat): seq<Settlement> {
    if !(a.Udp? && a.t == t && t < |s.udp|) then []
    else
      match (a.udp, s.udp[t].pc)
      case (Look, Looking(p)) =>
        if p.key !in s.udp[t].table && s.slots >= s.max then [Settlement(p, NoSlot)] else []
      case (Open(false), Opening(p)) => [Settlement(p, NoSocket)]
      case (Send(true), Sending(p, f)) => [Settlement(p, Queued(f))]
      case (Send(false), Sending(p, f)) => [Settlement(p, Refused(f))]
      case _ => []
  }

  /** One step of the loop: it receives a packet, settles the one in hand, or keeps it. */
  lemma LoopSettles(s: State, t: nat, step: UdpStep)
    requires UdpEnabled(s, t, step)
    ensures InHand(s, t) + ReceivedBy(Udp(t, step), t)
      == PacketsOf(SettledBy(s, Udp(t, step), t)) + InHand(ApplyUdp(s, t, step), t)
  {
    hide FlowsAfter, SlotsAfter, CanQueue;
    var after := s.udp[t := LoopAfter(s.udp[t], step, s.slots < s.max, |s.flows|)];
    assert ApplyUdp(s, t, step).udp == after;
    if step.Send? {
      assert PacketsOf([Settlement(s.udp[t].pc.p, Queued(s.udp[t].pc.flow))]) == [s.udp[t].pc.p];
    }
  }

  lemma OthersHandNothing(s: State, a: Action, t: nat)
    requires Enabled(s, a) && !(a.Udp? && a.t == t)
    ensures InHand(Apply(s, a), t) == InHand(s, t) && ReceivedBy(a, t) == [] && SettledBy(s, a, t) == []
  {
    hide FlowsAfter, SlotsAfter, FlowAfter, CanQueue, LoopAfter;
  }

  lemma StepSettles(s: State, a: Action, t: nat)
    requires Enabled(s, a)
    ensures InHand(s, t) + ReceivedBy(a, t) == PacketsOf(SettledBy(s, a, t)) + InHand(Apply(s, a), t)
  {
    hide InHand, ReceivedBy, SettledBy, PacketsOf, ApplyUdp, UdpEnabled;
    if a.Udp? && a.t == t {
      LoopSettles(s, t, a.udp);
    } else {
      OthersHandNothing(s, a, t);
      assert PacketsOf([]) == [] by { PacketsConcat([], []); }
    }
  }

  /** A settled packet is queued on the flow of its own peer and destination, behind what that flow holds. */
  lemma QueuedMeans(s: State, a: Action, t: nat, p: Packet, f: nat)
    requires Inv(s) && Enabled(s, a) && SettledBy(s, a, t) == [Settlement(p, Queued(f))]
    ensures f < |s.flows| && s.flows[f].listener == t && s.flows[f].key == p.key && |s.flows[f].queue| < 16
    ensures Apply(s, a).flows == s.flows[f := s.flows[f].(queue := s.flows[f].queue + [p])]
  {
    hide Indices, SlotsCounted, TableSound, TableComplete, OpeningIsNew, Locked, WorkersCounted;
  }

  /** It is dropped only when that flow's queue is full or the flow is done, when no slot is free, or when no socket opens. */
  lemma DroppedMeans(s: State, a: Action, t: nat, p: Packet, fate: Fate)
    requires Inv(s) && Enabled(s, a) && SettledBy(s, a, t) == [Settlement(p, fate)] && !fate.Queued?
    ensures fate.Refused? ==>
      && fate.flow < |s.flows|
      && s.flows[fate.flow].listener == t
      && s.flows[fate.flow].key == p.key
      && (|s.flows[fate.flow].queue| == 16 || s.flows[fate.flow].closed)
    ensures fate.NoSlot? ==> s.slots == s.max && p.key !in s.udp[t].table
    ensures fate.NoSocket? ==> a == Udp(t, Open(false)) && p.key !in s.udp[t].table
    ensures Apply(s, a).flows == s.flows
  {
    hide Indices, TableSound, TableComplete, Locked, WorkersCounted;
  }

  // ---- over runs ----

  function Received(actions: seq<Action>, t: nat): seq<Packet> {
    if actions == [] then [] else ReceivedBy(actions[0], t) + Received(actions[1..], t)
  }

  ghost function Settled(s: State, actions: seq<Action>, t: nat): seq<Settlement>
    requires Run(s, actions)
    decreases |actions|
  {
    if actions == [] then [] else SettledBy(s, actions[0], t) + Settled(Apply(s, actions[0]), actions[1..], t)
  }

  lemma PacketsConcat(a: seq<Settlement>, b: seq<Settlement>)
    ensures PacketsOf(a + b) == PacketsOf(a) + PacketsOf(b)
  {
  }

  /** What a listener has received is what it has settled, in order, and the one packet it may have in hand. */
  lemma {:induction false} ReceivedIsSettled(s: State, actions: seq<Action>, t: nat)
    requires Run(s, actions)
    ensures InHand(s, t) + Received(actions, t) == PacketsOf(Settled(s, actions, t)) + InHand(After(s, actions), t)
    decreases |actions|
  {
    hide InHand, SettledBy, ReceivedBy, Apply, PacketsOf;
    if actions == [] {
      assert PacketsOf([]) == [] by { PacketsConcat([], []); }
    } else {
      var a, s1 := actions[0], Apply(s, actions[0]);
      StepSettles(s, a, t);
      ReceivedIsSettled(s1, actions[1..], t);
      PacketsConcat(SettledBy(s, a, t), Settled(s1, actions[1..], t));
      calc {
        InHand(s, t) + (ReceivedBy(a, t) + Received(actions[1..], t));
        (InHand(s, t) + ReceivedBy(a, t)) + Received(actions[1..], t);
        PacketsOf(SettledBy(s, a, t)) + (InHand(s1, t) + Received(actions[1..], t));
      }
    }
  }

  // ---- a flow's queue ----

  function QueueOf(s: State, f: nat): seq<Packet> {
    if f < |s.flows| then s.flows[f].queue else []
  }

  /** What a step puts in flow f's queue: from its listener's loop, or from its reply socket. */
  function PutBy(s: State, a: Action, f: nat): seq<Packet> {
    if a.Udp? && SettledBy(s, a, a.t) != [] && SettledBy(s, a, a.t)[0].fate == Queued(f) then [SettledBy(s, a, a.t)[0].p]
    else if a.OfFlow? && a.f == f && a.flow.Forward? && a.flow.queued && f < |s.flows| then
      [Packet(s.flows[f].key, a.flow.payload)]
    else []
  }

  /** What flow f's session takes from it. */
  function TakenBy(s: State, a: Action, f: nat): seq<Packet> {
    if a == OfFlow(f, Take) && QueueOf(s, f) != [] then [QueueOf(s, f)[0]] else []
  }

  lemma LoopMovesQueue(s: State, t: nat, step: UdpStep, f: nat)
    requires UdpEnabled(s, t, step) && (f >= |s.flows| ==> PutBy(s, Udp(t, step), f) == [])
    ensures QueueOf(s, f) + PutBy(s, Udp(t, step), f) == QueueOf(ApplyUdp(s, t, step), f)
  {
    hide LoopAfter, SlotsAfter;
    assert ApplyUdp(s, t, step).flows == FlowsAfter(s, t, step);
  }

  lemma FlowMovesQueue(s: State, g: nat, step: FlowStep, f: nat)
    requires FlowEnabled(s, g, step)
    ensures QueueOf(s, f) + PutBy(s, OfFlow(g, step), f) == TakenBy(s, OfFlow(g, step), f) + QueueOf(ApplyFlow(s, g, step), f)
  {
    hide ListenerAfter, SettledBy;
    assert ApplyFlow(s, g, step).flows == s.flows[g := FlowAfter(s.flows[g], step)];
  }

  lemma StepMovesQueue(s: State, a: Action, f: nat)
    requires Enabled(s, a) && (f >= |s.flows| ==> PutBy(s, a, f) == [])
    ensures QueueOf(s, f) + PutBy(s, a, f) == TakenBy(s, a, f) + QueueOf(Apply(s, a), f)
  {
    hide QueueOf, SettledBy, ApplyUdp, ApplyFlow, UdpEnabled, FlowEnabled;
    match a
    case Udp(t, step) => LoopMovesQueue(s, t, step, f);
    case OfFlow(g, step) => FlowMovesQueue(s, g, step, f);
    case _ =>
      assert QueueOf(Apply(s, a), f) == QueueOf(s, f) by { QueueOfSameFlows(s, Apply(s, a), f); }
  }

  lemma QueueOfSameFlows(s: State, r: State, f: nat)
    requires r.flows == s.flows
    ensures QueueOf(r, f) == QueueOf(s, f)
  {
  }

  lemma OnlyFlowsAreFed(s: State, a: Action, f: nat)
    requires Inv(s) && Enabled(s, a) && f >= |s.flows|
    ensures PutBy(s, a, f) == []
  {
    hide Indices, SlotsCounted, TableSound, TableComplete, OpeningIsNew, Locked, WorkersCounted;
  }

  ghost function Put(s: State, actions: seq<Action>, f: nat): seq<Packet>
    requires Run(s, actions)
    decreases |actions|
  {
    if actions == [] then [] else PutBy(s, actions[0], f) + Put(Apply(s, actions[0]), actions[1..], f)
  }

  ghost function Taken(s: State, actions: seq<Action>, f: nat): seq<Packet>
    requires Run(s, actions)
    decreases |actions|
  {
    if actions == [] then [] else TakenBy(s, actions[0], f) + Taken(Apply(s, actions[0]), actions[1..], f)
  }

  /** A flow's session has taken what was put in its queue, in order, but for what the queue still holds. */
  lemma {:induction false} PutIsTaken(s: State, actions: seq<Action>, f: nat)
    requires Inv(s) && Run(s, actions)
    ensures QueueOf(s, f) + Put(s, actions, f) == Taken(s, actions, f) + QueueOf(After(s, actions), f)
    decreases |actions|
  {
    hide QueueOf, PutBy, TakenBy, Apply, Inv;
    if actions != [] {
      var a, s1 := actions[0], Apply(s, actions[0]);
      if f >= |s.flows| {
        OnlyFlowsAreFed(s, a, f);
      }
      StepMovesQueue(s, a, f);
      StepKeeps(s, a);
      PutIsTaken(s1, actions[1..], f);
      calc {
        QueueOf(s, f) + (PutBy(s, a, f) + Put(s1, actions[1..], f));
        (QueueOf(s, f) + PutBy(s, a, f)) + Put(s1, actions[1..], f);
        TakenBy(s, a, f) + (QueueOf(s1, f) + Put(s1, actions[1..], f));
      }
    }
  }

  /**
   * The delivery law from the start: every packet a listener received has been
   * settled, in order, or is the one in hand, and every flow's session has
   * taken, in order, what was put in its queue or still finds it there.
   */
  lemma PacketsAreDelivered(s: State, actions: seq<Action>, t: nat, f: nat)
    requires Init(s) && Run(s, actions)
    ensures Received(actions, t) == PacketsOf(Settled(s, actions, t)) + InHand(After(s, actions), t)
    ensures |InHand(After(s, actions), t)| <= 1
    ensures Put(s, actions, f) == Taken(s, actions, f) + QueueOf(After(s, actions), f)
  {
    hide Run, After;
    InitHolds(s);
    ReceivedIsSettled(s, actions, t);
    PutIsTaken(s, actions, f);
    assert InHand(s, t) == [] && QueueOf(s, f) == [];
  }

  // ---- accepted connections ----

  function OfListener(l: nat): Conn -> bool {
    (c: Conn) => c.listener == l
  }

  /** The accepted connection a TCP loop is deciding about or about to start. */
  function Pending(s: State, l: nat): nat {
    if l < |s.tcp| && (s.tcp[l].pc.Admitting? || s.tcp[l].pc.Spawning?) then 1 else 0
  }

  function AcceptedBy(a: Action, l: nat): nat {
    if a == Tcp(l, Accept) then 1 else 0
  }

  /** A connection is turned away only when no slot is free. */
  function TurnedAwayBy(s: State, a: Action, l: nat): nat {
    if a == Tcp(l, Admit) && s.slots >= s.max then 1 else 0
  }

  lemma StepAdmits(s: State, a: Action, l: nat)
    requires Enabled(s, a)
    ensures Count(s.conns, OfListener(l)) + Pending(s, l) + AcceptedBy(a, l)
      == TurnedAwayBy(s, a, l) + Count(Apply(s, a).conns, OfListener(l)) + Pending(Apply(s, a), l)
  {
    hide Count;
    match a
    case Tcp(m, Spawn) => CountAppend(s.conns, Conn(m, Relaying), OfListener(l));
    case OfConn(c, step) => CountUpdate(s.conns, c, Apply(s, a).conns[c], OfListener(l));
    case _ =>
  }

  function Accepted(actions: seq<Action>, l: nat): nat {
    if actions == [] then 0 else AcceptedBy(actions[0], l) + Accepted(actions[1..], l)
  }

  ghost function TurnedAway(s: State, actions: seq<Action>, l: nat): nat
    requires Run(s, actions)
    decreases |actions|
  {
    if actions == [] then 0 else TurnedAwayBy(s, actions[0], l) + TurnedAway(Apply(s, actions[0]), actions[1..], l)
  }

  /** Every accepted connection got a session, was turned away with no slot free, or is being decided. */
  lemma {:induction false} AcceptedIsServed(s: State, actions: seq<Action>, l: nat)
    requires Run(s, actions)
    ensures Count(s.conns, OfListener(l)) + Pending(s, l) + Accepted(actions, l)
      == TurnedAway(s, actions, l) + Count(After(s, actions).conns, OfListener(l)) + Pending(After(s, actions), l)
    decreases |actions|
  {
    hide Count, Pending, AcceptedBy, TurnedAwayBy, Apply;
    if actions != [] {
      StepAdmits(s, actions[0], l);
      AcceptedIsServed(Apply(s, actions[0]), actions[1..], l);
    }
  }
}
