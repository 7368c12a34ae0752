/**
 * Collisions over whole runs of MEDIUM_ACCESS: when one is recorded, what is announced about it, and when it makes the
 * node leave.
 */
module CollisionRuns {
  import opened Wrappers
  import opened ControlPackets
  import opened PowerModes
  import opened MediumAccess
  import opened RunShapes
  import opened CfTurns
  import opened Synchrony

  const NO_COLLISION: Collision := Collision(false, false, 0, 0)

  // --- TRANSMIT -----------------------------------------------------------------------------------

  /**
   * TRANSMIT reports a collision error, and proposes FINISHP, exactly when there is a collision to announce in which
   * the node itself took part. A collision that was announced is forgotten, and no data is sent.
   */
  lemma TransmitErrorIff(n: Node, expiries: seq<bool>)
    requires GoodNode(n)
    ensures var s := ExecTransmit(n, expiries);
      && (s.ret == CollisionError <==> n.collision.detected && n.collision.internal)
      && (s.ret == ExecutionSuccess <==> !n.collision.detected || !n.collision.internal)
      && s.node.next == (if n.collision.detected && n.collision.internal then FINISHP else PASSIVE)
      && s.node.collision == (if n.collision.detected then NO_COLLISION else n.collision)
      && (n.collision.detected ==> s.log.sent == [] && s.node.controls == n.controls && s.node.messages == n.messages)
  {
  }

  /** Every TRANSMIT begins with one control packet, which says what the node knows before anything is cleared. */
  lemma TransmitAnnounces(n: Node, expiries: seq<bool>)
    requires GoodNode(n)
    ensures var announced := ExecTransmit(n, expiries).log.announced;
      && |announced| == 1
      && var p := announced[0];
      && p.nodeId0 == n.cfg.nodeId.hi && p.nodeId1 == n.cfg.nodeId.lo
      && p.currentFrame == n.frame.currentFrame && p.currentSlot == n.frame.currentSlot
      && p.collisionSlot == n.collision.slot && p.collisionFrequency == n.collision.frequency
      && p.hopCount == n.cfg.hopCount && p.networkTime == n.networkTime && p.initTime == n.cfg.initTime
      && p.occupied == n.cfg.occupied
  {
  }

  // --- One turn of the supervisor loop --------------------------------------------------------------

  /** In this turn the node both sent a CF message and heard one of its own. */
  ghost predicate Clashes(r: Run, s: Script)
    requires GoodNode(r.node)
  {
    && r.status == Running && r.node.power == ACTIVE && ExecActive(r.node, s.active).done
    && SomeSends(r.node, s.active) && SomeOwn(r.node, s.active)
  }

  /** In this turn a collision is detected. */
  ghost predicate Detects(r: Run, s: Script)
    requires GoodNode(r.node)
  {
    && r.status == Running && r.node.power == ACTIVE
    && ExecActive(r.node, s.active).done && ExecActive(r.node, s.active).ret == CollisionDetected
  }

  predicate Transmits(r: Run) {
    r.status == Running && r.node.power == TRANSMIT
  }

  /** What a collision leaves on record: the slot, and the channel of the last message for the node. */
  function Recorded(r: Run, s: Script): Collision
    requires GoodNode(r.node)
  {
    var n := r.node;
    Collision(true, n.collision.internal, n.frame.currentSlot, ExecActive(n, s.active).node.peers.receiveChannel)
  }

  /** The record of collisions after one turn. */
  ghost function RecordAfter(r: Run, s: Script): Collision
    requires GoodNode(r.node)
  {
    if Transmits(r) then NO_COLLISION
    else if Detects(r, s) then Recorded(r, s).(internal := r.node.collision.internal || Clashes(r, s))
    else r.node.collision
  }

  /** How one turn changes the record. */
  lemma StepCollision(r: Run, s: Script)
    requires GoodNode(r.node) && r.status == Running && InCycle(r.node.power) && CollisionClean(r.node)
    ensures Supervise(r, s).node.collision == RecordAfter(r, s)
    ensures Clashes(r, s) ==> Detects(r, s)
  {
    var n := r.node;
    match n.power
    case PASSIVE =>
      ExecuteProposes(n, s);
      PassiveLoopKeeps(n.(frame := n.frame.(currentCfSlot := 0)), s.passive);
    case ACTIVE => ActiveCollision(r, s);
    case TRANSMIT =>
      TransmitErrorIff(n, s.expiries);
      if Leaves(ExecTransmit(n, s.expiries).ret) {
        LeaveFinishes(Handled(ExecTransmit(n, s.expiries).node, CollisionError), s);
      }
    case RECEIVE => ReceiveCollision(r, s);
    case _ =>
  }

  lemma ActiveCollision(r: Run, s: Script)
    requires GoodNode(r.node) && r.status == Running && r.node.power == ACTIVE && CollisionClean(r.node)
    ensures Supervise(r, s).node.collision == RecordAfter(r, s)
    ensures Clashes(r, s) ==> Detects(r, s)
  {
    CfLoopKeeps(CfEnter(r.node), CfStart(r.node), s.active);
    if ExecActive(r.node, s.active).done {
      PhaseVerdict(r.node, s.active);
    }
  }

  lemma ReceiveCollision(r: Run, s: Script)
    requires GoodNode(r.node) && r.status == Running && r.node.power == RECEIVE
    ensures Supervise(r, s).node.collision == r.node.collision
  {
    ExecuteProposes(r.node, s);
    if s.attempt1.Some? {
      ReceiveLoopKeeps(HeardControl(r.node, s.attempt1.value), s.data);
    }
    var step := Execute(r.node, s);
    if step.done && Leaves(step.ret) {
      LeaveFinishes(Handled(step.node, step.ret), s);
    }
  }

  /** Where the channel on record comes from: it is that of the CF slot in which the last message for the node began. */
  lemma RecordedChannel(r: Run, s: Script, i: nat)
    requires GoodNode(r.node) && Detects(r, s)
    ensures LastOwn(r.node, s.active, i) ==>
              Recorded(r, s).frequency == r.node.cfg.frequencies[InTurn(r.node, s.active, i).0.frame.currentCfSlot]
    ensures SomeOwn(r.node, s.active)
  {
    PhasePeers(r.node, s.active, i);
    PhaseVerdict(r.node, s.active);
  }

  /** A detected collision leaves the node in ACTIVE, sending to everyone. */
  lemma DetectionStays(r: Run, s: Script)
    requires GoodNode(r.node) && Detects(r, s)
    ensures var t := Supervise(r, s);
      t.status == Running && t.node.power == ACTIVE && t.node.peers.destination == Id(0, 0)
  {
    ExecuteProposes(r.node, s);
  }

  // --- Runs --------------------------------------------------------------------------------------

  /** The run after its first k turns. */
  function Before(n: Node, scripts: seq<Script>, k: nat): (r: Run)
    requires GoodNode(n) && k <= |scripts|
    ensures GoodNode(r.node)
  {
    RunMedium(n, scripts[..k])
  }

  ghost predicate ClashAt(n: Node, scripts: seq<Script>, k: nat)
    requires GoodNode(n)
  {
    k < |scripts| && Clashes(Before(n, scripts, k), scripts[k])
  }

  ghost predicate DetectAt(n: Node, scripts: seq<Script>, k: nat)
    requires GoodNode(n)
  {
    k < |scripts| && Detects(Before(n, scripts, k), scripts[k])
  }

  ghost predicate TransmitAt(n: Node, scripts: seq<Script>, k: nat)
    requires GoodNode(n)
  {
    k < |scripts| && Transmits(Before(n, scripts, k))
  }

  /** No TRANSMIT from turn k on. */
  ghost predicate NoTransmit(n: Node, scripts: seq<Script>, k: nat)
    requires GoodNode(n)
  {
    forall j: nat :: k <= j ==> !TransmitAt(n, scripts, j)
  }

  /** Since the last TRANSMIT the node has clashed: in some turn, or before it entered if there was no TRANSMIT. */
  ghost predicate ClashPending(n: Node, scripts: seq<Script>)
    requires GoodNode(n)
  {
    || (exists k: nat :: ClashAt(n, scripts, k) && NoTransmit(n, scripts, k))
    || (n.collision.internal && NoTransmit(n, scripts, 0))
  }

  /** Since the last TRANSMIT a collision has been detected. */
  ghost predicate DetectionPending(n: Node, scripts: seq<Script>)
    requires GoodNode(n)
  {
    || (exists k: nat :: DetectAt(n, scripts, k) && NoTransmit(n, scripts, k))
    || (n.collision.detected && NoTransmit(n, scripts, 0))
  }

  /** What happened in the turns of a shorter run happened in those of a longer one. */
  lemma EarlierTurns(n: Node, before: seq<Script>, s: Script, k: nat)
    requires GoodNode(n)
    ensures k < |before| ==>
              && (ClashAt(n, before + [s], k) <==> ClashAt(n, before, k))
              && (DetectAt(n, before + [s], k) <==> DetectAt(n, before, k))
              && (TransmitAt(n, before + [s], k) <==> TransmitAt(n, before, k))
    ensures k == |before| ==>
              && (ClashAt(n, before + [s], k) <==> Clashes(RunMedium(n, before), s))
              && (DetectAt(n, before + [s], k) <==> Detects(RunMedium(n, before), s))
              && (TransmitAt(n, before + [s], k) <==> Transmits(RunMedium(n, before)))
  {
    if k <= |before| {
      assert (before + [s])[..k] == before[..k];
      assert before[..|before|] == before;
    }
  }

  lemma EarlierNoTransmit(n: Node, before: seq<Script>, s: Script, k: nat)
    requires GoodNode(n) && k <= |before|
    ensures NoTransmit(n, before + [s], k) <==> NoTransmit(n, before, k) && !Transmits(RunMedium(n, before))
  {
    EarlierTurns(n, before, s, |before|);
    if NoTransmit(n, before + [s], k) {
      assert !TransmitAt(n, before + [s], |before|);
      forall j: nat | k <= j ensures !TransmitAt(n, before, j) {
        EarlierTurns(n, before, s, j);
        assert !TransmitAt(n, before + [s], j);
      }
    }
    if NoTransmit(n, before, k) && !Transmits(RunMedium(n, before)) {
      forall j: nat | k <= j ensures !TransmitAt(n, before + [s], j) {
        EarlierTurns(n, before, s, j);
        assert !TransmitAt(n, before, j);
      }
    }
  }

  /** One more turn: what is pending afterwards. */
  lemma PendingStep(n: Node, before: seq<Script>, s: Script)
    requires GoodNode(n)
    ensures var r := RunMedium(n, before);
      && (ClashPending(n, before + [s]) <==> !Transmits(r) && (ClashPending(n, before) || Clashes(r, s)))
      && (DetectionPending(n, before + [s]) <==> !Transmits(r) && (DetectionPending(n, before) || Detects(r, s)))
  {
    var r, scripts := RunMedium(n, before), before + [s];
    forall k: nat
      ensures k < |before| ==> (ClashAt(n, scripts, k) <==> ClashAt(n, before, k))
      ensures k < |before| ==> (DetectAt(n, scripts, k) <==> DetectAt(n, before, k))
      ensures k <= |before| ==> (NoTransmit(n, scripts, k) <==> NoTransmit(n, before, k) && !Transmits(r))
    {
      EarlierTurns(n, before, s, k);
      if k <= |before| {
        EarlierNoTransmit(n, before, s, k);
      }
    }
    EarlierTurns(n, before, s, |before|);
    assert NoTransmit(n, before, |before|);
    if Clashes(r, s) && !Transmits(r) {
      assert ClashAt(n, scripts, |before|) && NoTransmit(n, scripts, |before|);
    }
    if Detects(r, s) && !Transmits(r) {
      assert DetectAt(n, scripts, |before|) && NoTransmit(n, scripts, |before|);
    }
  }

  /** How one more turn changes the record of a run. */
  lemma RunRecord(n: Node, before: seq<Script>, s: Script)
    requires GoodNode(n) && CollisionClean(n)
    ensures var r := RunMedium(n, before);
      && RunMedium(n, before + [s]).node.collision == RecordAfter(r, s)
      && (Clashes(r, s) ==> Detects(r, s))
  {
    var r := RunMedium(n, before);
    if r.status == Running {
      RunMore(n, before, s, before + [s], r);
      var cs, k := RunSpelled(n, before);
      RunClean(n, before);
      StepCollision(r, s);
    } else {
      assert (before + [s])[..|before|] == before;
    }
  }

  /** The record says exactly what is pending, at every point of every run. */
  lemma {:induction false} RecordTracks(n: Node, scripts: seq<Script>)
    requires GoodNode(n) && CollisionClean(n)
    ensures var c := RunMedium(n, scripts).node.collision;
      (c.internal <==> ClashPending(n, scripts)) && (c.detected <==> DetectionPending(n, scripts))
  {
    if scripts == [] {
      assert NoTransmit(n, scripts, 0);
    } else {
      var before, s := scripts[..|scripts| - 1], scripts[|scripts| - 1];
      assert scripts == before + [s];
      RecordTracks(n, before);
      PendingStep(n, before, s);
      RunRecord(n, before, s);
    }
  }

  /**
   * Over every run: a TRANSMIT makes the node leave for SYNCHRONIZATION exactly when, since the last TRANSMIT, the node
   * has in some ACTIVE both sent a CF message and heard one of its own.
   */
  lemma CollisionErrorIff(n: Node, scripts: seq<Script>, s: Script, r: Run)
    requires GoodNode(n) && CollisionClean(n) && r == RunMedium(n, scripts)
    ensures Transmits(r) ==> (Execute(r.node, s).ret == CollisionError <==> ClashPending(n, scripts))
  {
    if Transmits(r) {
      RecordTracks(n, scripts);
      RunClean(n, scripts);
      TransmitErrorIff(r.node, s.expiries);
    }
  }

  /** Nothing is detected in the turns after k. */
  ghost predicate NoDetection(n: Node, scripts: seq<Script>, k: nat)
    requires GoodNode(n)
  {
    forall j: nat :: k < j ==> !DetectAt(n, scripts, j)
  }

  /** Turn k is the latest in which a collision was detected, and there has been no TRANSMIT since. */
  ghost predicate LatestDetection(n: Node, scripts: seq<Script>, k: nat)
    requires GoodNode(n)
  {
    DetectAt(n, scripts, k) && NoTransmit(n, scripts, k) && NoDetection(n, scripts, k)
  }

  lemma EarlierNoDetection(n: Node, before: seq<Script>, s: Script, k: nat)
    requires GoodNode(n) && k < |before|
    ensures NoDetection(n, before + [s], k) ==> NoDetection(n, before, k) && !Detects(RunMedium(n, before), s)
  {
    if NoDetection(n, before + [s], k) {
      EarlierTurns(n, before, s, |before|);
      assert !DetectAt(n, before + [s], |before|);
      forall j: nat | k < j ensures !DetectAt(n, before, j) {
        EarlierTurns(n, before, s, j);
        assert !DetectAt(n, before + [s], j);
      }
    }
  }

  lemma LatestEarlier(n: Node, before: seq<Script>, s: Script, k: nat)
    requires GoodNode(n)
    ensures LatestDetection(n, before + [s], k) ==>
              && k <= |before| && !Transmits(RunMedium(n, before))
              && (k < |before| ==> LatestDetection(n, before, k) && !Detects(RunMedium(n, before), s))
              && (k == |before| ==> Detects(RunMedium(n, before), s))
  {
    EarlierTurns(n, before, s, k);
    if k <= |before| {
      EarlierNoTransmit(n, before, s, k);
    }
    if k < |before| {
      EarlierNoDetection(n, before, s, k);
    }
  }

  /** The record names the slot and the channel of the collision detected in turn k. */
  ghost predicate RecordFrom(n: Node, scripts: seq<Script>, k: nat)
    requires GoodNode(n)
  {
    && k < |scripts|
    && var c, d := RunMedium(n, scripts).node.collision, Recorded(Before(n, scripts, k), scripts[k]);
    c.detected && c.slot == d.slot && c.frequency == d.frequency
  }

  lemma LastApart(scripts: seq<Script>)
    requires scripts != []
    ensures scripts == scripts[..|scripts| - 1] + [scripts[|scripts| - 1]]
  {
  }

  lemma LatestStep(n: Node, before: seq<Script>, s: Script, k: nat)
    requires GoodNode(n) && CollisionClean(n)
    ensures LatestDetection(n, before + [s], k) && (k < |before| ==> RecordFrom(n, before, k)) ==>
              RecordFrom(n, before + [s], k)
  {
    LatestEarlier(n, before, s, k);
    RunRecord(n, before, s);
    if k <= |before| {
      assert (before + [s])[..k] == before[..k];
      assert before[..|before|] == before;
    }
  }

  /** The slot and the channel on record, and so in the next control packet, are those of the latest detection. */
  lemma {:induction false} RecordIsLatest(n: Node, scripts: seq<Script>, k: nat)
    requires GoodNode(n) && CollisionClean(n)
    ensures LatestDetection(n, scripts, k) ==> RecordFrom(n, scripts, k)
  {
    if LatestDetection(n, scripts, k) {
      var before, s := scripts[..|scripts| - 1], scripts[|scripts| - 1];
      LastApart(scripts);
      LatestEarlier(n, before, s, k);
      if k < |before| {
        RecordIsLatest(n, before, k);
      }
      LatestStep(n, before, s, k);
    }
  }
}
