/**
 * The waiting loops of PASSIVE and RECEIVE against what the environment does in them: when they end, and which packets
 * they move.
 */
module WaitingLoops {
  import opened Wrappers
  import opened DataPackets
  import opened PacketQueues
  import opened PowerModes
  import opened MediumAccess
  import opened RunShapes
  import opened QueueHistories

  // --- PASSIVE ------------------------------------------------------------------------------------

  /** Both send queues together are as full as they are meant to get. */
  predicate Full(n: Node) {
    n.messages.count + n.controls.count == 2 * n.cfg.maxPackets
  }

  /** A message is taken exactly when there is one of a type from 2 to 9 and the queues are not full. */
  lemma TakenIff(n: Node, upper: Option<DataFields>, p: DataFields)
    ensures Taken(n, upper) == [p] <==> upper == Some(p) && !Full(n) && 2 <= p.tag <= 9
    ensures Taken(n, upper) == [] <==> upper == None || Full(n) || upper.value.tag < 2 || upper.value.tag > 9
  {
  }

  /** A packet is handed up exactly when there is one and the routing layer takes it: the one at the read index. */
  lemma GivenIff(n: Node, routable: bool)
    requires GoodNode(n)
    ensures |Given(n, routable)| == if n.received.count > 0 && routable then 1 else 0
    ensures Given(n, routable) != [] ==> Given(n, routable) == [n.received.slots[n.received.first]]
  {
  }

  /** A turn takes and hands up, whether or not it is the last, and whether or not there is anything to take. */
  lemma TurnMoves(n: Node, e: PassiveEvent)
    requires GoodNode(n)
    ensures PassiveTurnLog(n, e).accepted == Taken(n, e.upper)
    ensures PassiveTurnLog(n, e).delivered == Given(n, e.routable)
  {
  }

  /** The slot timer is in use and passes in some turn. */
  ghost predicate SlotEnds(n: Node, events: seq<PassiveEvent>) {
    n.frame.slotTimer in n.timers && exists i :: 0 <= i < |events| && events[i].expired
  }

  /** The loop ends exactly when the slot timer passes. */
  lemma {:induction false} PassiveEndsExactly(n: Node, events: seq<PassiveEvent>)
    requires GoodNode(n)
    ensures PassiveLoop(n, events).1 <==> SlotEnds(n, events)
    decreases |events|
  {
    if events != [] {
      var t, rest := PassiveTurn(n, events[0]), events[1..];
      if !HasPassed(n.timers, n.frame.slotTimer, events[0].expired) {
        PassiveEndsExactly(t, rest);
        if i :| 0 <= i < |events| && events[i].expired {
          assert i > 0 && n.frame.slotTimer in n.timers ==> rest[i - 1].expired;
        }
        assert forall i :: 0 <= i < |rest| ==> rest[i] == events[i + 1];
      }
    }
  }

  /** It takes as many turns as that needs, moving packets in each of them: what comes later does not matter. */
  lemma {:induction false} PassiveUses(n: Node, events: seq<PassiveEvent>, k: nat)
    requires GoodNode(n) && k < |events| && n.frame.slotTimer in n.timers && events[k].expired
    requires forall i :: 0 <= i < k ==> !events[i].expired
    ensures PassiveLog(n, events) == TurnsLog(n, events, k + 1)
    decreases k
  {
    var t := PassiveTurn(n, events[0]);
    if k > 0 {
      PassiveUses(t, events[1..], k - 1);
    }
  }

  /** What the first k turns move, one after the other. */
  function TurnsLog(n: Node, events: seq<PassiveEvent>, k: nat): Log
    requires GoodNode(n) && k <= |events|
    decreases k
  {
    if k == 0 then NOTHING
    else if k == 1 then PassiveTurnLog(n, events[0])
    else Plus(PassiveTurnLog(n, events[0]), TurnsLog(PassiveTurn(n, events[0]), events[1..], k - 1))
  }

  /** STARTP and PASSIVE leave the count of CF slots at zero. */
  lemma CfSlotReset(n: Node, events: seq<PassiveEvent>)
    requires GoodNode(n)
    ensures ExecStart(n).frame.currentCfSlot == 0 && ExecPassive(n, events).node.frame.currentCfSlot == 0
  {
    PassiveLoopCf(n.(frame := n.frame.(currentCfSlot := 0)), events);
  }

  lemma {:induction false} PassiveLoopCf(n: Node, events: seq<PassiveEvent>)
    requires GoodNode(n)
    ensures PassiveLoop(n, events).0.frame == n.frame
    decreases |events|
  {
    if events != [] && !HasPassed(n.timers, n.frame.slotTimer, events[0].expired) {
      PassiveLoopCf(PassiveTurn(n, events[0]), events[1..]);
    }
  }

  // --- The total queued, over runs ----------------------------------------------------------------

  /** Both send queues together never hold more than they are meant to, though one of them may. */
  predicate Bounded(n: Node) {
    n.messages.count + n.controls.count <= 2 * n.cfg.maxPackets
  }

  lemma {:induction false} PassiveLoopBounded(n: Node, events: seq<PassiveEvent>)
    requires GoodNode(n) && Bounded(n)
    ensures Bounded(PassiveLoop(n, events).0)
    decreases |events|
  {
    if events != [] {
      var t := PassiveTurn(n, events[0]);
      if !HasPassed(n.timers, n.frame.slotTimer, events[0].expired) {
        PassiveLoopBounded(t, events[1..]);
      }
    }
  }

  lemma {:induction false} DrainBounded(controls: SendQueue, messages: SendQueue, passes: seq<bool>)
    requires Indexed(controls) && Indexed(messages)
    ensures var d := Drain(controls, messages, passes);
      d.controls.count + d.messages.count <= controls.count + messages.count
    decreases controls.count + messages.count
  {
    if !(passes != [] && passes[0]) {
      var (c, m, s) := SendOne(controls, messages);
      if c.count + m.count > 0 {
        DrainBounded(c, m, if passes == [] then [] else passes[1..]);
      }
    }
  }

  lemma {:induction false} ReceiveLoopSends(n: Node, events: seq<ReceiveEvent>)
    requires GoodNode(n)
    ensures var t := ReceiveLoop(n, events).0; t.messages == n.messages && t.controls == n.controls && t.cfg == n.cfg
    decreases |events|
  {
    if n.received.count < 2 * n.cfg.maxPackets && events != [] &&
       !HasPassed(n.timers, n.frame.slotTimer, events[0].expired) {
      ReceiveLoopSends(Received(n, events[0].packet), events[1..]);
    }
  }

  lemma ExecuteBounded(n: Node, s: Script)
    requires GoodNode(n) && InCycle(n.power) && Bounded(n)
    ensures Bounded(Execute(n, s).node)
  {
    match n.power
    case PASSIVE => PassiveLoopBounded(n.(frame := n.frame.(currentCfSlot := 0)), s.passive);
    case ACTIVE =>
      CfLoopQueues(CfEnter(n), CfStart(n), s.active);
    case TRANSMIT => DrainBounded(n.controls, n.messages, Passes(n, s.expiries));
    case RECEIVE =>
      if s.attempt1.Some? {
        ReceiveLoopSends(HeardControl(n, s.attempt1.value), s.data);
      }
    case _ =>
  }

  lemma ConcludeBounded(r: Run, step: Step, s: Script)
    requires GoodNode(step.node) && step.node.power == r.node.power && InCycle(r.node.power)
    requires Bounded(step.node) && (step.done ==> Proposes(r.node.power, step.ret, step.node.next))
    ensures Bounded(Conclude(r, step, s).node)
  {
    HandledQueues(step.node, step.ret);
    if step.done && Leaves(step.ret) {
      LeaveFinishes(Handled(step.node, step.ret), s);
    }
  }

  /** At every point of every run the total queued stays within twice the size of a queue. */
  lemma {:induction false} TotalBounded(n: Node, scripts: seq<Script>)
    requires GoodNode(n)
    ensures Bounded(RunMedium(n, scripts).node)
  {
    if scripts != [] {
      var before, s := scripts[..|scripts| - 1], scripts[|scripts| - 1];
      TotalBounded(n, before);
      var r := RunMedium(n, before);
      if r.status == Running {
        var cs, k := RunSpelled(n, before);
        ExecuteProposes(r.node, s);
        ExecuteBounded(r.node, s);
        ConcludeBounded(r, Execute(r.node, s), s);
      }
    }
  }

  // --- RECEIVE ------------------------------------------------------------------------------------

  /** The packets the radio receives until the slot timer, if it is armed, passes. */
  function Offered(events: seq<ReceiveEvent>, armed: bool): seq<DataFields> {
    if events == [] || (armed && events[0].expired) then []
    else (if events[0].packet.Some? then [events[0].packet.value] else []) + Offered(events[1..], armed)
  }

  /** How many packets the ring still has room for. */
  function Room(n: Node): nat {
    if n.received.count < 2 * n.cfg.maxPackets then 2 * n.cfg.maxPackets - n.received.count else 0
  }

  function Upto<T>(ps: seq<T>, k: nat): seq<T> {
    if k <= |ps| then ps[..k] else ps
  }

  lemma UptoCons<T>(p: T, ps: seq<T>, k: nat)
    requires k > 0
    ensures Upto([p] + ps, k) == [p] + Upto(ps, k - 1)
  {
  }

  /** Every packet offered is taken until the ring is full, and the loop ends then or when the slot timer passes. */
  lemma {:induction false} ReceiveExactly(n: Node, events: seq<ReceiveEvent>)
    requires GoodNode(n)
    ensures var offered := Offered(events, n.frame.slotTimer in n.timers);
      && ReceiveLog(n, events) == Upto(offered, Room(n))
      && (ReceiveLoop(n, events).1 <==> |offered| >= Room(n) || TimerPasses(n, events))
    decreases |events|
  {
    var armed := n.frame.slotTimer in n.timers;
    if Room(n) > 0 && events != [] && !(armed && events[0].expired) {
      var t, rest := Received(n, events[0].packet), events[1..];
      ReceiveExactly(t, rest);
      PassesRest(n, events);
      if events[0].packet.Some? {
        UptoCons(events[0].packet.value, Offered(rest, armed), Room(n));
      }
    }
  }

  ghost predicate TimerPasses(n: Node, events: seq<ReceiveEvent>) {
    n.frame.slotTimer in n.timers && exists i :: 0 <= i < |events| && events[i].expired
  }

  lemma PassesRest(n: Node, events: seq<ReceiveEvent>)
    requires events != [] && !(n.frame.slotTimer in n.timers && events[0].expired)
    ensures TimerPasses(n, events) <==> TimerPasses(n, events[1..])
  {
    var rest := events[1..];
    if TimerPasses(n, events) {
      var i :| 0 <= i < |events| && events[i].expired;
      assert rest[i - 1].expired;
    }
    if TimerPasses(n, rest) {
      var i :| 0 <= i < |rest| && rest[i].expired;
      assert events[i + 1].expired;
    }
  }

  /** A control packet only heard at the second attempt is not acted upon, whatever it says, and no data is taken. */
  lemma SecondAttemptIgnored(n: Node, attempt2: Option<Air>, events: seq<ReceiveEvent>)
    requires GoodNode(n)
    ensures var s := ExecReceive(n, None, attempt2, events);
      && s.ret == ExecutionSuccess && s.done && s.node.next == PASSIVE && s.log == NOTHING
      && s.node == n.(next := PASSIVE, controlReceived := s.node.controlReceived)
      && (attempt2 == None ==> s.node.controlReceived == n.controlReceived)
  {
  }
}
