/** The packet queues over whole runs of MEDIUM_ACCESS. */
module QueueRuns {
  import opened Wrappers
  import opened DataPackets
  import opened PacketQueues
  import opened PowerModes
  import opened MediumAccess
  import opened RunShapes
  import opened QueueHistories

  /** The two send queues of r against what it took from the upper layers and what it put on the air. */
  ghost predicate SendsInOrder(r: Run) {
    var n := r.node.cfg.maxPackets;
    var controls, messages := OnlyControls(r.log.accepted), OnlyMessages(r.log.accepted);
    && (r.node.controls.overrun <==> |controls| > n)
    && (r.node.messages.overrun <==> |messages| > n)
    && (|controls| <= n && |messages| <= n ==>
          && OnlyControls(r.log.sent) <= controls && Fifo(r.node.controls, controls, |OnlyControls(r.log.sent)|)
          && OnlyMessages(r.log.sent) <= messages && Fifo(r.node.messages, messages, |OnlyMessages(r.log.sent)|))
  }

  /**
   * The send queues over every run that has not left MEDIUM_ACCESS. As long as no more control packets, and no more
   * messages, have been taken from the upper layers than a queue has slots, the packets of each class have gone on
   * the air in the order in which they were taken, and the others are still queued, in order. Otherwise, and only
   * then, a packet has been stored past the end of a queue.
   */
  lemma SentInOrder(n: Node, scripts: seq<Script>, r: Run)
    requires GoodNode(n) && r == RunMedium(n, scripts)
    ensures r.status != Exited ==> SendsInOrder(r)
  {
    if r.status != Exited {
      var h := RunHistory(n, scripts, r);
      SendQueueIsFifo(n.controls, h.controls);
      SendQueueIsFifo(n.messages, h.messages);
    }
  }

  /** What r has taken from the upper layers and not yet sent: control packets, then messages, each in order. */
  ghost function Unsent(r: Run): seq<DataFields>
    requires |OnlyControls(r.log.sent)| <= |OnlyControls(r.log.accepted)|
    requires |OnlyMessages(r.log.sent)| <= |OnlyMessages(r.log.accepted)|
  {
    OnlyControls(r.log.accepted)[|OnlyControls(r.log.sent)|..] +
    OnlyMessages(r.log.accepted)[|OnlyMessages(r.log.sent)|..]
  }

  /** From r to t a TRANSMIT sent what was unsent, or the first part of it if the slot timer passed too early. */
  ghost predicate TransmitsInOrder(r: Run, t: Run, passes: seq<bool>) {
    && |OnlyControls(r.log.sent)| <= |OnlyControls(r.log.accepted)|
    && |OnlyMessages(r.log.sent)| <= |OnlyMessages(r.log.accepted)|
    && r.log.sent <= t.log.sent
    && t.log.sent[|r.log.sent|..] <= Unsent(r)
    && (!PassesInTime(passes, |Unsent(r)|) ==> t.log.sent == r.log.sent + Unsent(r))
  }

  /** Neither class has been taken more often than its queue has slots. */
  ghost predicate WithinQueues(r: Run) {
    |OnlyControls(r.log.accepted)| <= r.node.cfg.maxPackets && |OnlyMessages(r.log.accepted)| <= r.node.cfg.maxPackets
  }

  /**
   * Control packets before messages, in every TRANSMIT of every run: as long as the queues have not overrun, a TRANSMIT
   * with no collision to announce puts on the air all unsent control packets in the order in which they were taken
   * and then all unsent messages in that order, or only the first of these if the slot timer passes too early.
   */
  lemma ControlsFirst(n: Node, scripts: seq<Script>, s: Script, r: Run)
    requires GoodNode(n) && r == RunMedium(n, scripts)
    ensures r.status == Running && r.node.power == TRANSMIT && !r.node.collision.detected && WithinQueues(r) ==>
              TransmitsInOrder(r, RunMedium(n, scripts + [s]), Passes(r.node, s.expiries))
  {
    if r.status == Running && r.node.power == TRANSMIT && !r.node.collision.detected && WithinQueues(r) {
      var t := RunMedium(n, scripts + [s]);
      RunMore(n, scripts, s, scripts + [s], r);
      SentInOrder(n, scripts, r);
      TransmitLog(r, t, s);
      DrainsUnsent(r, t, Passes(r.node, s.expiries));
    }
  }

  /** The packets of a drain, against what is unsent. */
  lemma DrainsUnsent(r: Run, t: Run, passes: seq<bool>)
    requires GoodNode(r.node)
    ensures SendsInOrder(r) && WithinQueues(r) &&
            t.log.sent == r.log.sent + Drain(r.node.controls, r.node.messages, passes).sent ==>
              TransmitsInOrder(r, t, passes)
  {
    var q, m := r.node.controls, r.node.messages;
    var d := Drain(q, m, passes);
    if SendsInOrder(r) && WithinQueues(r) && t.log.sent == r.log.sent + d.sent {
      FifoIsStraight(q, OnlyControls(r.log.accepted), |OnlyControls(r.log.sent)|);
      FifoIsStraight(m, OnlyMessages(r.log.accepted), |OnlyMessages(r.log.sent)|);
      DrainSendsInOrder(q, m, passes);
      DrainExpiresIff(q, m, passes);
      assert Pending(q, m) == Unsent(r);
      if !d.expired {
        assert Pending(d.controls, d.messages) == [];
      }
      assert t.log.sent[|r.log.sent|..] == d.sent;
    }
  }

  /** What one TRANSMIT adds to the log. */
  lemma TransmitLog(r: Run, t: Run, s: Script)
    requires GoodNode(r.node) && r.status == Running && r.node.power == TRANSMIT && !r.node.collision.detected
    requires t == Supervise(r, s)
    ensures t.log.sent == r.log.sent + Drain(r.node.controls, r.node.messages, Passes(r.node, s.expiries)).sent
  {
  }

  /** The receive ring of r against what arrived and what it handed up. */
  ghost predicate ReceivesInOrder(r: Run) {
    var n := r.node.cfg.maxPackets;
    var s := Relayed(r.node.received, r.log.arrived, r.log.delivered);
    && r.node.received.count == |r.log.arrived| - |r.log.delivered| <= 2 * n
    && (|r.log.delivered| <= n ==> r.log.delivered <= r.log.arrived && Kept(s))
    && (ToldApart(r.log.arrived) ==>
          && (r.log.delivered <= r.log.arrived <==> |r.log.delivered| <= n)
          && forall j :: 0 <= j < |r.log.arrived| && SecondHalf(j, n) ==> r.log.arrived[j] !in r.log.delivered)
  }

  /** Packet j since the reset is stored in the second half of a ring of twice n slots. */
  predicate SecondHalf(j: nat, n: nat) {
    n > 0 && j % (2 * n) >= n
  }

  /**
   * The receive ring over every run that has not left MEDIUM_ACCESS: the count is what arrived less what was handed
   * up and never exceeds the ring; up to the first maxPackets handed up, packets are handed up in the order in which
   * they arrived and none that is still to be handed up has been overwritten. With packets that can be told apart the
   * order is kept exactly so long, and those stored in the second half of the ring are never handed up.
   */
  lemma ReceivedInOrder(n: Node, scripts: seq<Script>, r: Run)
    requires GoodNode(n) && r == RunMedium(n, scripts)
    ensures r.status != Exited ==> ReceivesInOrder(r)
  {
    if r.status != Exited {
      var h := RunHistory(n, scripts, r);
      RingOfHistory(n.received, n.cfg.maxPackets, h.received);
    }
  }

  /** The same of a history of ring operations. */
  lemma RingOfHistory(r: ReceiveRing, n: nat, ops: seq<RingOp>)
    requires RingIndexed(r) && |r.slots| == 2 * n > 0
    ensures var s := Relay(r, n, ops);
      && s.ring.count == |s.arrived| - |s.delivered| <= 2 * n
      && (|s.delivered| <= n ==> s.delivered <= s.arrived && Kept(s))
      && (ToldApart(s.arrived) ==>
            && (s.delivered <= s.arrived <==> |s.delivered| <= n)
            && forall j :: 0 <= j < |s.arrived| && SecondHalf(j, n) ==> s.arrived[j] !in s.delivered)
  {
    var s := Relay(r, n, ops);
    RingCounts(r, n, ops);
    RingIsFifo(r, n, ops);
    InOrderIff(r, n, ops);
    forall j | 0 <= j < |s.arrived| && SecondHalf(j, n) && ToldApart(s.arrived)
      ensures s.arrived[j] !in s.delivered
    {
      SecondHalfIsLost(r, n, ops, j);
    }
  }

  // --- Overrun does happen --------------------------------------------------------------------------

  /** k messages from the upper layers, one a turn, while the slot timer runs. */
  function Messages(p: DataFields, k: nat): (r: seq<PassiveEvent>)
    ensures |r| == k
  {
    seq(k, _ => PassiveEvent(false, Some(p), false))
  }

  lemma {:induction false} PassiveLoopAccepts(n: Node, p: DataFields, k: nat)
    requires GoodNode(n) && p.tag == 7 && n.controls.count == 0
    requires n.messages.count == n.messages.last && n.messages.last + k <= n.cfg.maxPackets + 1
    ensures var (t, woken) := PassiveLoop(n, Messages(p, k));
      && !woken && t.messages.last == n.messages.last + k
      && (n.messages.last <= n.cfg.maxPackets < n.messages.last + k ==> t.messages.overrun)
    decreases k
  {
    if k > 0 {
      assert Messages(p, k)[1..] == Messages(p, k - 1);
      PassiveLoopAccepts(PassiveTurn(n, Messages(p, k)[0]), p, k - 1);
    }
  }

  lemma FirstPassiveOverruns(n: Node, p: DataFields)
    requires GoodNode(n) && p.tag == 7
    ensures var s := QUIET.(passive := Messages(p, n.cfg.maxPackets + 1));
      var r := Supervise(Run(Enter(n), [], NOTHING, Running), s);
      r.status == Waiting && r.node.messages.overrun
  {
    PassiveLoopAccepts(Enter(n).(frame := Enter(n).frame.(currentCfSlot := 0)), p, n.cfg.maxPackets + 1);
  }

  /** By any node, in its first PASSIVE: one message more than a queue has slots. */
  lemma OverrunIsReachable(n: Node, p: DataFields)
    requires GoodNode(n) && p.tag == 7
    ensures var r := RunMedium(n, [QUIET.(passive := Messages(p, n.cfg.maxPackets + 1))]);
      r.status == Waiting && r.node.messages.overrun
  {
    var s := QUIET.(passive := Messages(p, n.cfg.maxPackets + 1));
    FirstPassiveOverruns(n, p);
    assert [s][..0] == [];
    assert RunMedium(n, []) == Run(Enter(n), [], NOTHING, Running);
  }
}
