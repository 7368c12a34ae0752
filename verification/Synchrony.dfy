/**
 * The checks RECEIVE makes on a control packet, and why two nodes that run in step pass them
 * (MAC/MAC_PowerMode_StateMachine.c, state RECEIVE; mclmac_create_control_packet; MAC/ControlPacket.c).
 */
module Synchrony {
  import opened Wrappers
  import opened PowerModes
  import opened MediumAccess
  import opened RunShapes
  import opened SlotClock
  import ControlPackets

  const TIME_END: int := 0x1_0000_0000_0000_0000

  // --- The window of network times ------------------------------------------------------------

  ghost predicate Near(own: int, epsilon: nat, time: int) {
    own - epsilon <= time <= own + epsilon
  }

  /** Despite the truncation to int, the lower end of the window is never above own - epsilon. */
  lemma WindowLowBelow(own: uint64, epsilon: nat)
    requires epsilon <= 0x8000_0000
    ensures WindowLow(own, epsilon) <= if own >= epsilon then own - epsilon else 0
    ensures WindowLow(own, epsilon) == (if own >= epsilon then own - epsilon else 0) <==> own - epsilon < 0x8000_0000
  {
    var d := (own - epsilon) % 0x1_0000_0000;
    var q := (own - epsilon) / 0x1_0000_0000;
    assert own - epsilon == q * 0x1_0000_0000 + d;
  }

  /** A packet whose network time lies within epsilon is never rejected for its time. */
  lemma NearIsOnTime(own: uint64, epsilon: nat, time: uint64)
    requires epsilon <= 0x8000_0000 && own + epsilon < TIME_END && Near(own, epsilon, time)
    ensures OnTime(own, epsilon, time)
  {
    WindowLowBelow(own, epsilon);
  }

  /** The window is exactly that, as long as the node's own time is below 2^31 + epsilon, and no longer. */
  lemma WindowExactIff(own: uint64, epsilon: nat)
    requires epsilon <= 0x8000_0000 && own + epsilon < TIME_END
    ensures (forall time: uint64 :: OnTime(own, epsilon, time) <==> Near(own, epsilon, time))
            <==> own < 0x8000_0000 + epsilon
  {
    WindowLowBelow(own, epsilon);
    var low := WindowLow(own, epsilon);
    if own >= 0x8000_0000 + epsilon {
      assert OnTime(own, epsilon, low) && !Near(own, epsilon, low);
    } else {
      forall time: uint64
        ensures OnTime(own, epsilon, time) <==> Near(own, epsilon, time)
      {
      }
    }
  }

  // --- Two nodes ----------------------------------------------------------------------------------

  /** The nodes agree on what a packet and a frame look like. */
  ghost predicate SameNetwork(a: Config, b: Config) {
    && a.slots == b.slots && |a.frequencies| == |b.frequencies| && a.bytes == b.bytes
    && a.epsilon == b.epsilon <= 0x8000_0000
  }

  /** Slot, frame and network time agree, the last within epsilon. */
  ghost predicate InSync(a: Node, b: Node) {
    && a.frame.currentSlot == b.frame.currentSlot && a.frame.currentFrame == b.frame.currentFrame
    && Near(b.networkTime, b.cfg.epsilon, a.networkTime)
  }

  /** RECEIVE at b, when the first attempt hears the control packet that a sends, whatever the filler and the rest. */
  function Reception(a: Node, b: Node, filler: uint8, second: Option<Air>, data: seq<ReceiveEvent>): Step
    requires GoodNode(a) && GoodNode(b)
  {
    ExecReceive(b, Some(ControlPackets.Encode(ControlOf(a), |a.cfg.frequencies|, a.cfg.bytes, filler)), second, data)
  }

  /**
   * The network time that a packet carries may come back wrong, from 2^56 on, but never so that it matters: by then
   * the truncated window is open far enough below.
   */
  lemma DecodedTimeOnTime(own: uint64, epsilon: nat, time: uint64)
    requires epsilon <= 0x8000_0000 && own + epsilon < TIME_END && Near(own, epsilon, time)
    ensures OnTime(own, epsilon, ControlPackets.ShiftedTime(time))
  {
    ControlPackets.ShiftedTimeExactIff(time);
    if time < 0x100_0000_0000_0000 {
      NearIsOnTime(own, epsilon, time);
    } else {
      ShiftedBetween(time);
      LowSmall(own, epsilon);
    }
  }

  /** A time that the decoder damages becomes smaller, but not small. */
  lemma ShiftedBetween(time: uint64)
    requires time >= 0x100_0000_0000_0000
    ensures 0x10_0000_0000_0000 <= ControlPackets.ShiftedTime(time) <= time
  {
    var hi, lo := time / 0x100_0000_0000_0000, time % 0x100_0000_0000_0000;
    assert time == hi * 0x100_0000_0000_0000 + lo && hi >= 1;
    assert hi * 0x10_0000_0000_0000 <= ControlPackets.ShiftedTime(time) <= hi * 0x10_0000_0000_0000 + lo;
  }

  lemma LowSmall(own: uint64, epsilon: nat)
    ensures WindowLow(own, epsilon) < 0x8000_0000
  {
  }

  /** Whatever the filler, and whatever else RECEIVE then meets, it does not report a synchronization error. */
  ghost predicate NoSynchronizationError(a: Node, b: Node)
    requires GoodNode(a) && GoodNode(b)
  {
    forall filler: uint8, second: Option<Air>, data: seq<ReceiveEvent> ::
      Reception(a, b, filler, second, data).ret != SynchronizationError
  }

  ghost predicate NoError(a: Node, b: Node)
    requires GoodNode(a) && GoodNode(b)
  {
    forall filler: uint8, second: Option<Air>, data: seq<ReceiveEvent> ::
      Reception(a, b, filler, second, data).ret == ExecutionSuccess
  }

  /** The sender's packet names the receiver's own slot and channel as the place of a collision. */
  predicate Accuses(a: Node, b: Node) {
    a.collision.frequency == b.cfg.transmitChannel && a.collision.slot == b.cfg.selectedSlot
  }

  /**
   * One packet, from its creation through encoding and decoding to the check: when the nodes are in sync the receiver
   * reports no synchronization error, whatever the network time; it reports a collision error exactly when
   * the sender has recorded a collision on the receiver's own slot and channel.
   */
  lemma PacketChecked(a: Node, b: Node, filler: uint8, second: Option<Air>, data: seq<ReceiveEvent>)
    requires GoodNode(a) && GoodNode(b) && SameNetwork(a.cfg, b.cfg) && InSync(a, b)
    requires b.networkTime + b.cfg.epsilon < TIME_END
    ensures Reception(a, b, filler, second, data).ret == if Accuses(a, b) then CollisionError else ExecutionSuccess
  {
    ControlPackets.RoundTrip(b.controlReceived, ControlOf(a), |a.cfg.frequencies|, a.cfg.bytes, filler);
    DecodedTimeOnTime(b.networkTime, b.cfg.epsilon, a.networkTime);
  }

  lemma PacketAccepted(a: Node, b: Node)
    requires GoodNode(a) && GoodNode(b) && SameNetwork(a.cfg, b.cfg) && InSync(a, b)
    requires b.networkTime + b.cfg.epsilon < TIME_END
    ensures NoSynchronizationError(a, b)
    ensures NoError(a, b) <==> !Accuses(a, b)
  {
    forall filler: uint8, second: Option<Air>, data: seq<ReceiveEvent>
      ensures Reception(a, b, filler, second, data).ret == if Accuses(a, b) then CollisionError else ExecutionSuccess
    {
      PacketChecked(a, b, filler, second, data);
    }
    if Accuses(a, b) {
      assert Reception(a, b, 0, None, []).ret == CollisionError;
    }
  }

  // --- What is rejected, exactly --------------------------------------------------------------------

  /** The times that pass, with the truncation written out: d is what is left of own - epsilon in 32 bits. */
  predicate Passes64(own: int, epsilon: nat, time: int) {
    var d := (own - epsilon) % 0x1_0000_0000;
    (d <= time || d >= 0x8000_0000) && time <= (own + epsilon) % 0x1_0000_0000_0000_0000
  }

  lemma OnTimeIff(own: uint64, epsilon: nat, time: uint64)
    ensures OnTime(own, epsilon, time) <==> Passes64(own, epsilon, time)
  {
  }

  /** The packet names the node's own slot and channel as the place of a collision. */
  predicate AccusesNode(p: ControlPackets.ControlFields, n: Node) {
    p.collisionFrequency == n.cfg.transmitChannel && p.collisionSlot == n.cfg.selectedSlot
  }

  /** The verdict on any control packet whatever: an accusation first, then slot, frame and time. */
  lemma CheckIff(n: Node, p: ControlPackets.ControlFields)
    ensures CheckControl(n, p) == Some(CollisionError) <==> AccusesNode(p, n)
    ensures CheckControl(n, p) == Some(SynchronizationError) <==>
            && !AccusesNode(p, n)
            && (p.currentSlot != n.frame.currentSlot || p.currentFrame != n.frame.currentFrame ||
                !Passes64(n.networkTime, n.cfg.epsilon, p.networkTime))
    ensures CheckControl(n, p).Some? ==> CheckControl(n, p).value in {CollisionError, SynchronizationError}
  {
    OnTimeIff(n.networkTime, n.cfg.epsilon, p.networkTime);
  }

  /**
   * Between two nodes, whatever their clocks show: the packet counts as out of step iff it does not accuse the
   * receiver and slot or frame differ or the time, as it is decoded, does not pass the truncated window.
   */
  lemma ReceptionIff(a: Node, b: Node, filler: uint8, second: Option<Air>, data: seq<ReceiveEvent>)
    requires GoodNode(a) && GoodNode(b) && SameNetwork(a.cfg, b.cfg)
    ensures var ret := Reception(a, b, filler, second, data).ret;
      && (ret == CollisionError <==> Accuses(a, b))
      && (ret == SynchronizationError <==>
            && !Accuses(a, b)
            && (a.frame.currentSlot != b.frame.currentSlot || a.frame.currentFrame != b.frame.currentFrame ||
                !Passes64(b.networkTime, b.cfg.epsilon, ControlPackets.ShiftedTime(a.networkTime))))
      && (ret == ExecutionSuccess || ret == CollisionError || ret == SynchronizationError)
  {
    var p := ControlOf(a);
    ControlPackets.RoundTrip(b.controlReceived, p, |a.cfg.frequencies|, a.cfg.bytes, filler);
    CheckIff(HeardControl(b, ControlPackets.Encode(p, |a.cfg.frequencies|, a.cfg.bytes, filler)),
             p.(networkTime := ControlPackets.ShiftedTime(p.networkTime)));
  }

  /** For times that survive the coding and the truncation: out of step exactly when not in sync. */
  lemma OutOfSyncIff(a: Node, b: Node, filler: uint8, second: Option<Air>, data: seq<ReceiveEvent>)
    requires GoodNode(a) && GoodNode(b) && SameNetwork(a.cfg, b.cfg)
    requires a.networkTime < 0x100_0000_0000_0000 && b.networkTime < 0x8000_0000 + b.cfg.epsilon
    ensures Reception(a, b, filler, second, data).ret == SynchronizationError <==> !Accuses(a, b) && !InSync(a, b)
  {
    ReceptionIff(a, b, filler, second, data);
    ControlPackets.ShiftedTimeExactIff(a.networkTime);
    OnTimeIff(b.networkTime, b.cfg.epsilon, a.networkTime);
    WindowExactIff(b.networkTime, b.cfg.epsilon);
  }

  /** And out of sync is noticed: a packet with another slot or another frame is never accepted. */
  lemma PacketRejected(a: Node, b: Node, filler: uint8, second: Option<Air>, data: seq<ReceiveEvent>)
    requires GoodNode(a) && GoodNode(b) && SameNetwork(a.cfg, b.cfg)
    requires a.frame.currentSlot != b.frame.currentSlot || a.frame.currentFrame != b.frame.currentFrame
    ensures Leaves(Reception(a, b, filler, second, data).ret)
  {
    ControlPackets.RoundTrip(b.controlReceived, ControlOf(a), |a.cfg.frequencies|, a.cfg.bytes, filler);
  }

  /** Between two executions a collision that is not to be announced is not recorded either. */
  ghost predicate CollisionClean(n: Node) {
    !n.collision.detected ==> n.collision == Collision(false, false, 0, 0)
  }

  lemma SuperviseClean(r: Run, s: Script)
    requires GoodNode(r.node) && r.status == Running && InCycle(r.node.power) && CollisionClean(r.node)
    requires Supervise(r, s).status == Running
    ensures CollisionClean(Supervise(r, s).node)
  {
    var n := r.node;
    ExecuteProposes(n, s);
    match n.power
    case PASSIVE => PassiveLoopKeeps(n.(frame := n.frame.(currentCfSlot := 0)), s.passive);
    case ACTIVE => CfLoopKeeps(CfEnter(n), CfStart(n), s.active);
    case RECEIVE =>
      if s.attempt1.Some? {
        ReceiveLoopKeeps(HeardControl(n, s.attempt1.value), s.data);
      }
    case _ =>
  }

  lemma {:induction false} RunClean(n: Node, scripts: seq<Script>)
    requires GoodNode(n) && CollisionClean(n) && RunMedium(n, scripts).status == Running
    ensures CollisionClean(RunMedium(n, scripts).node)
  {
    if scripts != [] {
      var before := scripts[..|scripts| - 1];
      RunClean(n, before);
      var cs, k := RunSpelled(n, before);
      SuperviseClean(RunMedium(n, before), scripts[|scripts| - 1]);
    }
  }

  lemma LaterNear(a: uint64, b: uint64, epsilon: nat, k: nat)
    requires Near(b, epsilon, a) && a + k < TIME_END && b + k < TIME_END
    ensures Near(Later64(b, k), epsilon, Later64(a, k))
  {
    Later64Closed(a, k);
    Later64Closed(b, k);
  }

  /** j more slots do not take the network times of the two nodes to the end of their range. */
  ghost predicate TimeLasts(a: Node, b: Node, j: nat) {
    a.networkTime + j < TIME_END && b.networkTime + j + b.cfg.epsilon < TIME_END
  }

  /**
   * Once in sync, in sync for ever: whenever two nodes, each somewhere in a run of its own, agree on slot, frame and
   * network time, they agree again after equally many further slots, each in its own environment. They need not have
   * entered for the same frame.
   */
  lemma StayInSync(a: Node, scriptsA: seq<Script>, moreA: seq<Script>, p: Run, m: Run,
                   b: Node, scriptsB: seq<Script>, moreB: seq<Script>, q: Run, n: Run, j: nat)
    requires GoodNode(a) && GoodNode(b) && SameNetwork(a.cfg, b.cfg)
    requires SlotsLater(a, scriptsA, moreA, p, m, j) && SlotsLater(b, scriptsB, moreB, q, n, j)
    requires InSync(p.node, q.node) && TimeLasts(p.node, q.node, j)
    ensures InSync(m.node, n.node)
  {
    RunClock(a, scriptsA);
    RunClock(b, scriptsB);
    RunClock(b, scriptsB + moreB);
    ClockTicks(a, scriptsA, moreA, p, m, j);
    ClockTicks(b, scriptsB, moreB, q, n, j);
    TickAlike(ClockOf(p.node), ClockOf(q.node), a.cfg.slots, j);
    LaterNear(p.node.networkTime, q.node.networkTime, b.cfg.epsilon, j);
  }

  /** Neither node can take the other's control packet for one that is out of step, or accuses it without cause. */
  ghost predicate Understands(m: Run, n: Run)
    requires GoodNode(m.node) && GoodNode(n.node)
  {
    && NoSynchronizationError(m.node, n.node)
    && (NoError(m.node, n.node) <==> !Accuses(m.node, n.node))
  }

  /**
   * End to end: when the two nodes of StayInSync then exchange a control packet, the receiver reports no
   * synchronization error, and a collision error exactly when the sender has recorded one on the receiver's own slot
   * and channel.
   */
  lemma InStepNeverLoseSync(a: Node, scriptsA: seq<Script>, moreA: seq<Script>, p: Run, m: Run,
                            b: Node, scriptsB: seq<Script>, moreB: seq<Script>, q: Run, n: Run, j: nat)
    requires GoodNode(a) && GoodNode(b) && SameNetwork(a.cfg, b.cfg)
    requires SlotsLater(a, scriptsA, moreA, p, m, j) && SlotsLater(b, scriptsB, moreB, q, n, j)
    requires InSync(p.node, q.node) && TimeLasts(p.node, q.node, j)
    ensures Understands(m, n)
  {
    StayInSync(a, scriptsA, moreA, p, m, b, scriptsB, moreB, q, n, j);
    RunClock(a, scriptsA + moreA);
    RunClock(b, scriptsB);
    RunClock(b, scriptsB + moreB);
    ClockTicks(b, scriptsB, moreB, q, n, j);
    TickAlike(ClockOf(q.node), ClockOf(q.node), b.cfg.slots, j);
    Later64Closed(q.node.networkTime, j);
    PacketAccepted(m.node, n.node);
  }

  /** A sender with nothing to announce accuses nobody whose channel is not zero. */
  lemma QuietAccusesNobody(a: Node, scripts: seq<Script>, m: Run, b: Node)
    requires GoodNode(a) && CollisionClean(a) && m == RunMedium(a, scripts)
    ensures m.status == Running && !m.node.collision.detected && b.cfg.transmitChannel != 0 ==> !Accuses(m.node, b)
  {
    if m.status == Running {
      RunClean(a, scripts);
    }
  }

  /** Nodes that enter for the same frame with near times are in sync from the start. */
  lemma EnterTogether(a: Node, b: Node)
    requires GoodNode(a) && GoodNode(b)
    requires a.cfg.wakeupFrame == b.cfg.wakeupFrame && Near(b.networkTime, b.cfg.epsilon, a.networkTime)
    ensures InSync(RunMedium(a, []).node, RunMedium(b, []).node)
  {
  }

  /** So such nodes stay in sync over whole runs, as long as they have gone through equally many slots. */
  lemma SameFrameInSync(a: Node, scriptsA: seq<Script>, m: Run, b: Node, scriptsB: seq<Script>, n: Run)
    requires GoodNode(a) && GoodNode(b) && SameNetwork(a.cfg, b.cfg)
    requires a.cfg.wakeupFrame == b.cfg.wakeupFrame && Near(b.networkTime, b.cfg.epsilon, a.networkTime)
    requires m == RunMedium(a, scriptsA) && n == RunMedium(b, scriptsB) && Slots(m.trace) == Slots(n.trace)
    requires TimeLasts(a, b, Slots(m.trace))
    ensures InSync(m.node, n.node)
  {
    EnterTogether(a, b);
    assert [] + scriptsA == scriptsA && [] + scriptsB == scriptsB;
    StayInSync(a, [], scriptsA, RunMedium(a, []), m, b, [], scriptsB, RunMedium(b, []), n, Slots(m.trace));
  }
}
