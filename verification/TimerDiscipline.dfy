/** Which timeouts a node holds over whole runs of MEDIUM_ACCESS, and what happens when it lets go of the slot timer. */
module TimerDiscipline {
  import opened Wrappers
  import opened DataPackets
  import opened PowerModes
  import opened PacketQueues
  import opened MediumAccess
  import opened RunShapes

  /** The slot timer is in use. */
  predicate Armed(n: Node) {
    n.frame.slotTimer in n.timers
  }

  /** timeout_set finds an unused timeout. */
  ghost predicate HasRoom(n: Node) {
    exists h :: 0 <= h < n.cfg.timeouts && h !in n.timers
  }

  /** A slot timer is armed afresh whenever there is room, and then it is one that was not in use. */
  lemma ArmSlotTimerArms(n: Node)
    requires HasRoom(n)
    ensures var r := ArmSlotTimer(n);
      Armed(r) && r.frame.slotTimer !in n.timers && r.timers == n.timers + {r.frame.slotTimer}
  {
    var h :| 0 <= h < n.cfg.timeouts && h !in n.timers;
    assert LeastFree(n.timers, 0, n.cfg.timeouts) != n.cfg.timeouts + 1;
  }

  /**
   * PASSIVE gives back one timeout and takes one: it runs to its end only with an armed slot timer, and then ends
   * with an armed slot timer and as many timeouts in use as before.
   */
  lemma PassiveTimers(n: Node, events: seq<PassiveEvent>)
    requires GoodNode(n) && ExecPassive(n, events).done
    ensures var t := ExecPassive(n, events).node;
      && Armed(n) && Armed(t) && |t.timers| == |n.timers|
      && t.timers - {t.frame.slotTimer} == n.timers - {n.frame.slotTimer}
  {
    var m := n.(frame := n.frame.(currentCfSlot := 0));
    PassiveLoopKeeps(m, events);
    var t := PassiveLoop(m, events).0;
    assert n.frame.slotTimer !in t.timers;
    var u := t.(frame := NextSlot(t.frame), networkTime := Inc64(t.networkTime), next := ACTIVE);
    assert HasRoom(u) by { assert 0 <= n.frame.slotTimer < u.cfg.timeouts && n.frame.slotTimer !in u.timers; }
    ArmSlotTimerArms(u);
    var h := ArmSlotTimer(u).frame.slotTimer;
    assert n.timers - {n.frame.slotTimer} + {h} - {h} == n.timers - {n.frame.slotTimer};
  }

  /** Without an armed slot timer PASSIVE waits for ever: no behaviour of the environment ends its loop. */
  lemma {:induction false} DisarmedPassiveWaits(n: Node, events: seq<PassiveEvent>)
    requires GoodNode(n) && !Armed(n)
    ensures !PassiveLoop(n, events).1
    decreases |events|
  {
    if events != [] {
      DisarmedPassiveWaits(PassiveTurn(n, events[0]), events[1..]);
    }
  }

  /** PASSIVE can run to its end exactly when the slot timer is armed. */
  lemma PassiveEndsIff(n: Node)
    requires GoodNode(n)
    ensures (exists events :: ExecPassive(n, events).done) <==> Armed(n)
  {
    var m := n.(frame := n.frame.(currentCfSlot := 0));
    if Armed(n) {
      var e := PassiveEvent(true, None, false);
      assert PassiveLoop(m, [e]).1;
      assert ExecPassive(n, [e]).done;
    } else {
      forall events ensures !ExecPassive(n, events).done {
        DisarmedPassiveWaits(m, events);
      }
    }
  }

  /** Inside the CF loop the node holds one timeout more than `base`, unless there was none to be had. */
  ghost predicate HoldsCf(n: Node, base: set<int>) {
    n.frame.cfTimer in n.timers ==> n.frame.cfTimer !in base && n.timers == base + {n.frame.cfTimer}
  }

  lemma ArmCfHolds(n: Node)
    requires GoodNode(n)
    ensures HoldsCf(ArmCfTimer(n), n.timers)
  {
  }

  lemma {:induction false} CfLoopTimers(n: Node, c: CfState, events: seq<ActiveEvent>, base: set<int>)
    requires GoodNode(n) && n.frame.currentCfSlot < |n.cfg.frequencies| && HoldsCf(n, base)
    ensures var r := CfLoop(n, c, events); r.ended ==> r.node.timers == base
    decreases |events|
  {
    if events != [] {
      var (t, d, what) := CfTurnOf(n, c, events[0]);
      TickHolds(n, events[0].expired, base);
      assert t.timers == CfTick(n, events[0].expired).timers && t.frame == CfTick(n, events[0].expired).frame;
      if what != Over {
        CfLoopTimers(t, d, events[1..], base);
      }
    }
  }

  lemma TickHolds(n: Node, expired: bool, base: set<int>)
    requires GoodNode(n) && n.frame.currentCfSlot < |n.cfg.frequencies| && HoldsCf(n, base)
    ensures var t := CfTick(n, expired);
      if t.frame.currentCfSlot == |n.cfg.frequencies| then t.timers == base else HoldsCf(t, base)
  {
    if HasPassed(n.timers, n.frame.cfTimer, expired) {
      assert n.timers - {n.frame.cfTimer} == base;
    }
  }

  /** ACTIVE gives back every timeout it takes. */
  lemma ActiveTimers(n: Node, events: seq<ActiveEvent>)
    requires GoodNode(n) && ExecActive(n, events).done
    ensures var t := ExecActive(n, events).node;
      t.timers == n.timers && t.frame.slotTimer == n.frame.slotTimer
  {
    var m := n.(frame := n.frame.(currentCfSlot := 0));
    ArmCfHolds(m);
    CfLoopTimers(CfEnter(n), CfStart(n), events, n.timers);
    CfLoopKeeps(CfEnter(n), CfStart(n), events);
  }

  /** The last state executed was a TRANSMIT. */
  predicate AfterTransmit(r: Run) {
    r.trace != [] && r.trace[|r.trace| - 1].state == TRANSMIT
  }

  /** How a node that entered MEDIUM_ACCESS with the timeouts `base` in use stands between two executions. */
  ghost predicate Disciplined(r: Run, base: set<int>) {
    var n := r.node;
    || (Armed(n) && n.timers - {n.frame.slotTimer} == base && n.frame.slotTimer !in base)
    || (!Armed(n) && n.timers == base && n.power == PASSIVE && AfterTransmit(r))
  }

  lemma ConcludeDisciplined(r: Run, s: Script, base: set<int>)
    requires GoodNode(r.node) && r.status == Running && InCycle(r.node.power) && Disciplined(r, base)
    requires Supervise(r, s).status == Running
    ensures Disciplined(Supervise(r, s), base)
  {
    var n := r.node;
    var step := Execute(n, s);
    ExecuteProposes(n, s);
    assert Supervise(r, s).trace[|r.trace|].state == n.power;
    assert Supervise(r, s).node.timers == step.node.timers && Supervise(r, s).node.frame == step.node.frame;
    match n.power
    case PASSIVE =>
      PassiveTimers(n, s.passive);
    case ACTIVE => ActiveTimers(n, s.active);
    case TRANSMIT =>
    case RECEIVE =>
      if s.attempt1.Some? {
        ReceiveLoopKeeps(HeardControl(n, s.attempt1.value), s.data);
      }
    case _ =>
  }

  /**
   * The discipline of the slot timer, for every run that can set it at all: between any two executions the node holds
   * exactly one timeout beyond those in use at the start, the slot timer, and every PASSIVE finds it armed,
   * except in a PASSIVE that follows a TRANSMIT which released it.
   */
  lemma {:induction false} SlotTimerDiscipline(n: Node, scripts: seq<Script>)
    requires GoodNode(n) && HasRoom(n) && RunMedium(n, scripts).status == Running
    ensures Disciplined(RunMedium(n, scripts), n.timers)
  {
    if scripts == [] {
      ArmSlotTimerArms(n);
      var h := LeastFree(n.timers, 0, n.cfg.timeouts);
      assert n.timers + {h} - {h} == n.timers;
    } else {
      var before := scripts[..|scripts| - 1];
      var r := RunMedium(n, before);
      SlotTimerDiscipline(n, before);
      var cs, k := RunSpelled(n, before);
      ConcludeDisciplined(r, scripts[|scripts| - 1], n.timers);
    }
  }

  /**
   * TRANSMIT releases the slot timer exactly when it has no collision to announce and the timer passes too early: at
   * the first look, or before as many packets have gone out as were queued.
   */
  lemma TransmitReleasesIff(n: Node, expiries: seq<bool>)
    requires GoodNode(n) && Armed(n)
    ensures Armed(ExecTransmit(n, expiries).node) <==>
            n.collision.detected || !PassesInTime(expiries, n.controls.count + n.messages.count)
  {
    assert Passes(n, expiries) == expiries;
    DrainExpiresIff(n.controls, n.messages, expiries);
  }

  /**
   * And that is the end of the run: after a TRANSMIT that released the slot timer the node waits in PASSIVE in every
   * continuation, so the supervisor loop never goes round again.
   */
  lemma {:induction false} ReleasedTimerStops(n: Node, scripts: seq<Script>, more: seq<Script>)
    requires GoodNode(n)
    ensures var r, t := RunMedium(n, scripts), RunMedium(n, scripts + more);
      r.status == Running && r.node.power == PASSIVE && !Armed(r.node) ==>
        t.trace == r.trace && t.status != Exited && (more != [] ==> t.status == Waiting)
  {
    var r := RunMedium(n, scripts);
    if more == [] {
      assert scripts + more == scripts;
    } else if r.status == Running && r.node.power == PASSIVE && !Armed(r.node) {
      var i := |more| - 1;
      ReleasedTimerStops(n, scripts, more[..i]);
      assert (scripts + more)[..|scripts + more| - 1] == scripts + more[..i];
      if i == 0 {
        assert scripts + more[..i] == scripts;
        DisarmedPassiveWaits(r.node.(frame := r.node.frame.(currentCfSlot := 0)), more[0].passive);
      }
    }
  }

  // --- That it does happen ------------------------------------------------------------------------------

  /** The slot timer passes as a message arrives from the upper layers. */
  function MessageScript(p: DataFields): Script {
    QUIET.(passive := [PassiveEvent(true, Some(p), false)])
  }

  lemma PassiveTakesMessage(r: Run, p: DataFields)
    requires GoodNode(r.node) && r.status == Running && r.node.power == PASSIVE && p.tag == 7
    requires Armed(r.node) && HasRoom(r.node) && r.node.controls.count == r.node.messages.count == 0
    ensures var t := Supervise(r, MessageScript(p));
      && t.status == Running && t.node.power == ACTIVE && t.node.cfg == r.node.cfg
      && t.node.messages.count > 0 && t.node.collision == r.node.collision
      && t.node.frame.currentSlot == NextSlot(r.node.frame).currentSlot
      && Armed(t.node) && HasRoom(t.node)
  {
    var n := r.node;
    var events := MessageScript(p).passive;
    var m := n.(frame := n.frame.(currentCfSlot := 0));
    assert PassiveLoop(m, events) == (PassiveTurn(m, events[0]), true);
    PassiveTimers(n, events);
    var t := ExecPassive(n, events).node;
    var free :| 0 <= free < n.cfg.timeouts && free !in n.timers;
    assert free in t.timers ==> n.frame.slotTimer !in t.timers;
  }

  /** k turns of the CF loop in which the CF timer passes and nothing is heard. */
  function Expiring(k: nat): (r: seq<ActiveEvent>)
    ensures |r| == k
  {
    seq(k, _ => ActiveEvent(true, None))
  }

  lemma {:induction false} CfLoopExpires(n: Node, c: CfState, k: nat)
    requires GoodNode(n) && n.frame.currentCfSlot + k == |n.cfg.frequencies| && k > 0
    requires n.frame.cfTimer in n.timers && !c.isCurrent
    ensures var r := CfLoop(n, c, Expiring(k)); r.ended && r.c == c
    decreases k
  {
    var (t, d, what) := CfTurnOf(n, c, Expiring(k)[0]);
    if k > 1 {
      var u := n.(timers := n.timers - {n.frame.cfTimer},
                  frame := n.frame.(currentCfSlot := n.frame.currentCfSlot + 1));
      ArmCfTimerArms(u, n.frame.cfTimer);
      assert Expiring(k)[1..] == Expiring(k - 1);
      CfLoopExpires(t, d, k - 1);
    }
  }

  lemma ArmCfTimerArms(n: Node, free: int)
    requires 0 <= free < n.cfg.timeouts && free !in n.timers
    ensures ArmCfTimer(n).frame.cfTimer in ArmCfTimer(n).timers
  {
    assert LeastFree(n.timers, 0, n.cfg.timeouts) != n.cfg.timeouts + 1;
  }

  /** One turn on the node's own channel, then one expiry of the CF timer for every frequency. */
  function SendScript(n: Node): Script {
    QUIET.(active := [ActiveEvent(false, None)] + Expiring(|n.cfg.frequencies|))
  }

  lemma ActiveSends(r: Run)
    requires GoodNode(r.node) && r.status == Running && r.node.power == ACTIVE && HasRoom(r.node)
    requires r.node.frame.currentSlot == r.node.cfg.selectedSlot
    requires r.node.cfg.frequencies[0] == r.node.cfg.transmitChannel
    requires r.node.messages.count > 0
    ensures var t := Supervise(r, SendScript(r.node));
      (t.status, t.node.power, t.node.collision, t.node.timers, t.node.frame.slotTimer) ==
      (Running, TRANSMIT, r.node.collision, r.node.timers, r.node.frame.slotTimer)
  {
    var n := r.node;
    var events := SendScript(n).active;
    var free :| 0 <= free < n.cfg.timeouts && free !in n.timers;
    ArmCfTimerArms(n.(frame := n.frame.(currentCfSlot := 0)), free);
    var c := CfStart(n).(send := true, isCurrent := false);
    assert CfTurnOf(CfEnter(n), CfStart(n), events[0]) == (CfEnter(n), c, SentCf);
    assert events[1..] == Expiring(|n.cfg.frequencies|);
    CfLoopExpires(CfEnter(n), c, |n.cfg.frequencies|);
    ActiveTimers(n, events);
    CfLoopKeeps(CfEnter(n), CfStart(n), events);
  }

  /** The slot timer has passed before TRANSMIT has sent anything. */
  const LATE: Script := QUIET.(expiries := [true])

  lemma TransmitTooLate(r: Run)
    requires GoodNode(r.node) && r.status == Running && r.node.power == TRANSMIT
    requires Armed(r.node) && !r.node.collision.detected
    ensures var t := Supervise(r, LATE); t.status == Running && t.node.power == PASSIVE && !Armed(t.node)
  {
    assert LATE.expiries[0];
    TransmitReleasesIff(r.node, LATE.expiries);
  }

  /** A node that has just entered holds the slot timer, and has another timeout to spare if it had two. */
  lemma EnterArms(n: Node, h: int, i: int)
    requires GoodNode(n) && 0 <= h < i < n.cfg.timeouts && h !in n.timers && i !in n.timers
    ensures Armed(Enter(n)) && HasRoom(Enter(n))
  {
    ArmSlotTimerArms(n);
    assert h !in Enter(n).timers || i !in Enter(n).timers;
  }

  /**
   * The state of ReleasedTimerStops is reached within one slot: by any node whose own slot is the first one after it
   * enters, whose own channel is its first frequency, and which has two timeouts to spare.
   */
  lemma ReleasedTimerIsReachable(n: Node, p: DataFields, h: int, i: int) returns (scripts: seq<Script>)
    requires GoodNode(n) && !n.collision.detected && p.tag == 7
    requires n.cfg.selectedSlot == (if n.cfg.slots == 1 then 0 else 1) && n.cfg.frequencies[0] == n.cfg.transmitChannel
    requires 0 <= h < i < n.cfg.timeouts && h !in n.timers && i !in n.timers
    ensures var r := RunMedium(n, scripts); r.status == Running && r.node.power == PASSIVE && !Armed(r.node)
  {
    scripts := [MessageScript(p), SendScript(n), LATE];
    var r := RunMedium(n, []);
    EnterArms(n, h, i);
    PassiveTakesMessage(r, p);
    RunMore(n, [], scripts[0], scripts[..1], r);
    r := RunMedium(n, scripts[..1]);
    ActiveSends(r);
    RunMore(n, scripts[..1], scripts[1], scripts[..2], r);
    r := RunMedium(n, scripts[..2]);
    TransmitTooLate(r);
    RunMore(n, scripts[..2], scripts[2], scripts, r);
  }
}
