/** What all runs of MEDIUM_ACCESS have in common: their shape, and how they end. */
module RunShapes {
  import opened Wrappers
  import opened DataPackets
  import opened PacketQueues
  import opened PowerModes
  import opened MediumAccess

  /** A run, one turn of the supervisor loop further. */
  lemma RunMore(n: Node, scripts: seq<Script>, s: Script, more: seq<Script>, r: Run)
    requires GoodNode(n) && r == RunMedium(n, scripts) && r.status == Running && more == scripts + [s]
    ensures RunMedium(n, more) == Supervise(r, s)
  {
    assert more[..|scripts|] == scripts;
  }

  // --- What the waiting loops leave alone ------------------------------------------------------

  /** The parts of a node that only the executors themselves, not their loops, change. */
  ghost predicate SameControl(m: Node, n: Node) {
    && m.cfg == n.cfg && m.power == n.power && m.next == n.next && m.mac == n.mac && m.macNext == n.macNext
    && m.networkTime == n.networkTime && m.collision == n.collision
    && m.frame.currentFrame == n.frame.currentFrame && m.frame.currentSlot == n.frame.currentSlot
    && m.frame.slotsNumber == n.frame.slotsNumber && m.frame.slotTimer == n.frame.slotTimer
  }

  lemma {:induction false} PassiveLoopKeeps(n: Node, events: seq<PassiveEvent>)
    requires GoodNode(n)
    ensures var (t, woken) := PassiveLoop(n, events);
      && SameControl(t, n)
      && (woken ==> n.frame.slotTimer in n.timers && t.timers == n.timers - {n.frame.slotTimer})
      && (!woken ==> t.timers == n.timers)
    decreases |events|
  {
    if events != [] {
      var t := PassiveTurn(n, events[0]);
      if !HasPassed(n.timers, n.frame.slotTimer, events[0].expired) {
        PassiveLoopKeeps(t, events[1..]);
      }
    }
  }

  lemma {:induction false} CfLoopKeeps(n: Node, c: CfState, events: seq<ActiveEvent>)
    requires GoodNode(n) && n.frame.currentCfSlot < |n.cfg.frequencies|
    ensures SameControl(CfLoop(n, c, events).node, n)
    decreases |events|
  {
    if events != [] {
      var (t, d, what) := CfTurnOf(n, c, events[0]);
      assert SameControl(t, n);
      if what != Over {
        CfLoopKeeps(t, d, events[1..]);
      }
    }
  }

  lemma {:induction false} ReceiveLoopKeeps(n: Node, events: seq<ReceiveEvent>)
    requires GoodNode(n)
    ensures var t := ReceiveLoop(n, events).0; SameControl(t, n) && t.timers == n.timers
    decreases |events|
  {
    if n.received.count < 2 * n.cfg.maxPackets && events != [] &&
       !HasPassed(n.timers, n.frame.slotTimer, events[0].expired) {
      ReceiveLoopKeeps(Received(n, events[0].packet), events[1..]);
    }
  }

  // --- The shape of a run ------------------------------------------------------------------------

  predicate InCycle(p: PowerMode) {
    p == PASSIVE || p == ACTIVE || p == TRANSMIT || p == RECEIVE
  }

  /** What each state returns and proposes when it runs to its end. */
  ghost predicate Proposes(power: PowerMode, ret: Execution, next: PowerMode) {
    match power
    case PASSIVE => ret == ExecutionSuccess && next == ACTIVE
    case ACTIVE =>
      || (ret == ExecutionSuccess && (next == TRANSMIT || next == RECEIVE || next == PASSIVE))
      || (ret == CollisionDetected && next == PASSIVE)
    case TRANSMIT => (ret == ExecutionSuccess && next == PASSIVE) || (ret == CollisionError && next == FINISHP)
    case RECEIVE => (ret == ExecutionSuccess && next == PASSIVE) || (Leaves(ret) && next == FINISHP)
    case _ => false
  }

  lemma ExecuteProposes(n: Node, s: Script)
    requires GoodNode(n) && InCycle(n.power)
    ensures var step := Execute(n, s);
      && step.node.cfg == n.cfg && step.node.power == n.power && step.node.mac == n.mac
      && (step.done ==> Proposes(n.power, step.ret, step.node.next))
  {
    match n.power
    case PASSIVE => PassiveLoopKeeps(n.(frame := n.frame.(currentCfSlot := 0)), s.passive);
    case ACTIVE => CfLoopKeeps(CfEnter(n), CfStart(n), s.active);
    case TRANSMIT =>
    case RECEIVE =>
      if s.attempt1.Some? {
        ReceiveLoopKeeps(HeardControl(n, s.attempt1.value), s.data);
      }
    case _ =>
  }

  /** A slot: PASSIVE, then ACTIVE once or, after collisions, several times, then perhaps TRANSMIT or RECEIVE. */
  datatype Cycle = Cycle(actives: nat, tail: Option<PowerMode>)

  ghost predicate CycleOk(c: Cycle) {
    c.actives >= 1 && (c.tail.Some? ==> c.tail.value == TRANSMIT || c.tail.value == RECEIVE)
  }

  ghost predicate CyclesOk(cs: seq<Cycle>) {
    forall i :: 0 <= i < |cs| ==> CycleOk(cs[i])
  }

  function Actives(k: nat): (r: seq<PowerMode>)
    ensures |r| == k
  {
    seq(k, _ => ACTIVE)
  }

  function Spell(c: Cycle): seq<PowerMode> {
    [PASSIVE] + Actives(c.actives) + if c.tail.Some? then [c.tail.value] else []
  }

  function SpellAll(cs: seq<Cycle>): seq<PowerMode> {
    if cs == [] then [] else SpellAll(cs[..|cs| - 1]) + Spell(cs[|cs| - 1])
  }

  function States(trace: seq<Visit>): (r: seq<PowerMode>)
    ensures |r| == |trace|
  {
    seq(|trace|, i requires 0 <= i < |trace| => trace[i].state)
  }

  /** Some whole cycles, and the part of the current one that leads to power. */
  ghost predicate Spelled(states: seq<PowerMode>, power: PowerMode, cs: seq<Cycle>, k: nat) {
    && CyclesOk(cs)
    && match power
       case PASSIVE => states == SpellAll(cs)
       case ACTIVE => states == SpellAll(cs) + ([PASSIVE] + Actives(k))
       case TRANSMIT => k >= 1 && states == SpellAll(cs) + ([PASSIVE] + Actives(k))
       case RECEIVE => k >= 1 && states == SpellAll(cs) + ([PASSIVE] + Actives(k))
       case FINISHP => cs != [] && cs[|cs| - 1].tail.Some? && states == SpellAll(cs)
       case _ => false
  }

  /** An update follows every successful execution and is accepted; collisions are detected only in ACTIVE. */
  ghost predicate AllAccepted(trace: seq<Visit>) {
    forall i :: 0 <= i < |trace| ==> VisitOk(trace[i])
  }

  ghost predicate VisitOk(v: Visit) {
    && InCycle(v.state)
    && (v.ret == ExecutionSuccess <==> v.verdict == Some(TransitionSuccess))
    && (v.ret == CollisionDetected ==> v.state == ACTIVE && v.proposed == PASSIVE && v.verdict == None)
    && v.ret != ExecutionFailed
  }

  lemma AcceptedMore(trace: seq<Visit>, v: Visit)
    requires AllAccepted(trace) && VisitOk(v)
    ensures AllAccepted(trace + [v])
  {
  }

  /** The state that has to follow an execution, given what it returned and proposed. */
  function Successor(v: Visit): PowerMode {
    if v.ret == CollisionDetected then ACTIVE else if Leaves(v.ret) then FINISHP else v.proposed
  }

  /** The state after execution i; power is the one after the last. */
  function StateAfter(trace: seq<Visit>, power: PowerMode, i: nat): PowerMode {
    if i + 1 < |trace| then trace[i + 1].state else power
  }

  /** After every execution comes the state that has to follow it. */
  ghost predicate Follows(trace: seq<Visit>, power: PowerMode) {
    forall i :: 0 <= i < |trace| ==> StateAfter(trace, power, i) == Successor(trace[i])
  }

  lemma FollowsMore(trace: seq<Visit>, v: Visit)
    requires Follows(trace, v.state)
    ensures Follows(trace + [v], Successor(v))
  {
    var t := trace + [v];
    forall i | 0 <= i < |t|
      ensures StateAfter(t, Successor(v), i) == Successor(t[i])
    {
      if i < |trace| {
        assert StateAfter(trace, v.state, i) == Successor(trace[i]);
      }
    }
  }

  lemma SpellMore(cs: seq<Cycle>, c: Cycle)
    ensures SpellAll(cs + [c]) == SpellAll(cs) + Spell(c)
  {
    assert (cs + [c])[..|cs|] == cs;
  }

  lemma ActivesMore(k: nat)
    ensures Actives(k + 1) == Actives(k) + [ACTIVE]
  {
  }

  lemma StatesMore(trace: seq<Visit>, v: Visit)
    ensures States(trace + [v]) == States(trace) + [v.state]
  {
  }

  /** One completed execution continues the spelling. */
  lemma SpellStep(states: seq<PowerMode>, power: PowerMode, cs: seq<Cycle>, k: nat, ret: Execution, next: PowerMode)
    returns (cs': seq<Cycle>, k': nat)
    requires Spelled(states, power, cs, k) && InCycle(power) && Proposes(power, ret, next)
    ensures var power' := if ret == CollisionDetected then power else if Leaves(ret) then FINISHP else next;
      Spelled(states + [power], power', cs', k')
  {
    cs', k' := cs, k;
    if power == PASSIVE {
      k' := 0;
      assert states + [PASSIVE] == SpellAll(cs) + ([PASSIVE] + Actives(0));
    } else if power == ACTIVE {
      k' := k + 1;
      ActivesMore(k);
      assert states + [ACTIVE] == SpellAll(cs) + ([PASSIVE] + Actives(k + 1));
      if ret == ExecutionSuccess && next == PASSIVE {
        var c := Cycle(k + 1, None);
        SpellMore(cs, c);
        assert Spell(c) == [PASSIVE] + Actives(k + 1);
        cs' := cs + [c];
      }
    } else {
      var c := Cycle(k, Some(power));
      SpellMore(cs, c);
      assert states + [power] == SpellAll(cs) + ([PASSIVE] + Actives(k) + [power]);
      cs' := cs + [c];
    }
  }

  /** What is true of a run and of the part of the slot it is in. */
  ghost predicate RunOk(r: Run, cs: seq<Cycle>, k: nat) {
    && Spelled(States(r.trace), r.node.power, cs, k) && AllAccepted(r.trace) && Follows(r.trace, r.node.power)
    && (r.status == Exited <==> r.node.power == FINISHP)
    && (r.status == Exited <==> r.trace != [] && Leaves(r.trace[|r.trace| - 1].ret))
    && (r.status == Exited ==> r.trace[|r.trace| - 1].state == TRANSMIT || r.trace[|r.trace| - 1].state == RECEIVE)
  }

  lemma LeaveFinishes(n: Node, s: Script)
    requires GoodNode(n) && n.next == FINISHP && (n.power == TRANSMIT || n.power == RECEIVE)
    ensures Leave(n, s) == ExecFinish(n.(power := FINISHP))
  {
  }

  lemma ConcludeOk(r: Run, step: Step, s: Script, cs: seq<Cycle>, k: nat) returns (cs': seq<Cycle>, k': nat)
    requires GoodNode(step.node) && r.status == Running && RunOk(r, cs, k)
    requires step.node.power == r.node.power && (step.done ==> Proposes(r.node.power, step.ret, step.node.next))
    ensures var t := Conclude(r, step, s);
      t.node.cfg == step.node.cfg && t.node.mac == step.node.mac && RunOk(t, cs', k')
  {
    cs', k' := cs, k;
    if step.done {
      StatesMore(r.trace, VisitOf(r.node, step));
      FollowsMore(r.trace, VisitOf(r.node, step));
      AcceptedMore(r.trace, VisitOf(r.node, step));
      cs', k' := SpellStep(States(r.trace), r.node.power, cs, k, step.ret, step.node.next);
      if Leaves(step.ret) {
        LeaveFinishes(Handled(step.node, step.ret), s);
      }
    }
  }

  lemma {:induction false} RunSpelled(n: Node, scripts: seq<Script>) returns (cs: seq<Cycle>, k: nat)
    requires GoodNode(n)
    ensures var r := RunMedium(n, scripts);
      r.node.cfg == n.cfg && r.node.mac == n.mac && RunOk(r, cs, k)
  {
    if scripts == [] {
      cs, k := [], 0;
    } else {
      cs, k := RunSpelled(n, scripts[..|scripts| - 1]);
      var r := RunMedium(n, scripts[..|scripts| - 1]);
      if r.status == Running {
        var s := scripts[|scripts| - 1];
        ExecuteProposes(r.node, s);
        cs, k := ConcludeOk(r, Execute(r.node, s), s, cs, k);
      }
    }
  }

  /** A spelling is a prefix of one with whole cycles only. */
  lemma SpelledIsPrefix(states: seq<PowerMode>, power: PowerMode, cs: seq<Cycle>, k: nat)
    requires Spelled(states, power, cs, k)
    ensures exists cs' :: CyclesOk(cs') && states <= SpellAll(cs')
  {
    if states != SpellAll(cs) {
      var j := if k == 0 then 1 else k;
      var c := Cycle(j, None);
      SpellMore(cs, c);
      assert k == 0 ==> Actives(k) == [];
      assert Spell(c) == [PASSIVE] + Actives(j);
      assert [PASSIVE] + Actives(k) <= [PASSIVE] + Actives(j);
      assert CyclesOk(cs + [c]) && states <= SpellAll(cs + [c]);
    } else {
      assert CyclesOk(cs) && states <= SpellAll(cs);
    }
  }

  /** What every run looks like. */
  ghost predicate WellShaped(r: Run) {
    && (exists cs :: CyclesOk(cs) && States(r.trace) <= SpellAll(cs))
    && AllAccepted(r.trace) && Follows(r.trace, r.node.power)
    && (InCycle(r.node.power) || r.node.power == FINISHP)
    && (r.status == Exited <==> r.node.power == FINISHP)
    && (r.status == Exited <==> r.trace != [] && Leaves(r.trace[|r.trace| - 1].ret))
    && (r.status == Exited ==>
          var last := r.trace[|r.trace| - 1].state; last == TRANSMIT || last == RECEIVE)
  }

  /**
   * The shape of every run, in every environment: the states executed after STARTP are a prefix of whole cycles
   * PASSIVE, ACTIVE+, [TRANSMIT | RECEIVE]; after a success the update is accepted and the state proposed comes next,
   * after a detected collision there is no update and ACTIVE comes again, whatever was proposed; the run is over
   * exactly when a TRANSMIT or RECEIVE has reported an error, and then the machine is in FINISHP and the last cycle is
   * complete.
   */
  lemma RunShape(n: Node, scripts: seq<Script>, r: Run)
    requires GoodNode(n) && r == RunMedium(n, scripts)
    ensures WellShaped(r)
  {
    var cs, k := RunSpelled(n, scripts);
    SpelledIsPrefix(States(r.trace), r.node.power, cs, k);
  }

  // --- Leaving ------------------------------------------------------------------------------------

  /** A send queue with nothing in it, and no packet left behind in a slot. */
  ghost predicate Bare(q: SendQueue) {
    q.first == q.last == q.count == 0 && forall k :: 0 <= k < |q.slots| ==> q.slots[k] == CLEARED
  }

  ghost predicate RingBare(r: ReceiveRing) {
    r.first == r.last == r.count == 0 && forall k :: 0 <= k < |r.slots| ==> r.slots[k] == CLEARED
  }

  /** How a run ends. */
  ghost predicate Left(r: Run) {
    && r.node.power == FINISHP
    && Bare(r.node.controls) && Bare(r.node.messages) && RingBare(r.node.received)
    && r.node.peers.destination == BROADCAST
    && r.trace != []
    && (r.trace[|r.trace| - 1].ret == CollisionError <==> r.node.macNext == SYNCHRONIZATION)
    && (r.trace[|r.trace| - 1].ret == SynchronizationError <==> r.node.macNext == INITIALIZATION)
  }

  lemma ConcludeLeaves(r: Run, step: Step, s: Script)
    requires GoodNode(step.node) && r.status == Running && Conclude(r, step, s).status == Exited
    requires step.node.power == r.node.power && InCycle(r.node.power)
    requires Proposes(r.node.power, step.ret, step.node.next)
    ensures Left(Conclude(r, step, s))
  {
    LeaveFinishes(Handled(step.node, step.ret), s);
  }

  lemma {:induction false} ExitLeft(n: Node, scripts: seq<Script>)
    requires GoodNode(n) && RunMedium(n, scripts).status == Exited
    ensures Left(RunMedium(n, scripts))
  {
    if scripts != [] {
      var before := scripts[..|scripts| - 1];
      var r := RunMedium(n, before);
      if r.status == Exited {
        ExitLeft(n, before);
      } else if r.status == Running {
        var cs, k := RunSpelled(n, before);
        var s := scripts[|scripts| - 1];
        ExecuteProposes(r.node, s);
        ConcludeLeaves(r, Execute(r.node, s), s);
      }
    }
  }

  /**
   * The exit contract: when the supervisor loop ends the machine is in FINISHP, every packet queue and the
   * destination are cleared, the MAC machine is to go to SYNCHRONIZATION after a collision error and to
   * INITIALIZATION after a synchronization error, and from MEDIUM_ACCESS its update accepts that.
   */
  lemma ExitContract(n: Node, scripts: seq<Script>, r: Run)
    requires GoodNode(n) && r == RunMedium(n, scripts)
    ensures r.status == Exited ==> Left(r)
    ensures r.status == Exited && n.mac == MacState.MEDIUM_ACCESS ==>
              UpdateMac(r.node.mac, r.node.macNext) == (r.node.macNext, TransitionSuccess)
  {
    if r.status == Exited {
      ExitLeft(n, scripts);
      var cs, k := RunSpelled(n, scripts);
    }
  }
}
