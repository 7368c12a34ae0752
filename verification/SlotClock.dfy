/** The slot, frame and network clock over whole runs of MEDIUM_ACCESS. */
module SlotClock {
  import opened Wrappers
  import opened PowerModes
  import opened PacketQueues
  import opened MediumAccess
  import opened RunShapes
  import Division

  /** How many times PASSIVE has run to its end. */
  function Slots(trace: seq<Visit>): nat {
    if trace == [] then 0
    else Slots(trace[..|trace| - 1]) + if trace[|trace| - 1].state == PASSIVE then 1 else 0
  }

  lemma SlotsMore(trace: seq<Visit>, v: Visit)
    ensures Slots(trace + [v]) == Slots(trace) + if v.state == PASSIVE then 1 else 0
  {
    assert (trace + [v])[..|trace|] == trace;
  }

  /** What the slot clock shows. */
  datatype Clock = Clock(frame: uint32, slot: nat, time: uint64)

  function ClockOf(n: Node): Clock {
    Clock(n.frame.currentFrame, n.frame.currentSlot, n.networkTime)
  }

  /** Two nodes show the same time on the slot clock. */
  ghost predicate SameClock(m: Node, n: Node) {
    (ClockOf(m), m.frame.slotsNumber, m.cfg) == (ClockOf(n), n.frame.slotsNumber, n.cfg)
  }

  /** m shows the time one slot after n. */
  ghost predicate NextClock(m: Node, n: Node) {
    var f := NextSlot(n.frame);
    (ClockOf(m), m.frame.slotsNumber, m.cfg) ==
    (Clock(f.currentFrame, f.currentSlot, Inc64(n.networkTime)), n.frame.slotsNumber, n.cfg)
  }

  /** Only a PASSIVE that runs to its end moves the clock, by one slot. */
  lemma ExecuteClock(n: Node, s: Script)
    requires GoodNode(n) && InCycle(n.power)
    ensures var step := Execute(n, s);
      if n.power == PASSIVE && step.done then NextClock(step.node, n) else SameClock(step.node, n)
  {
    match n.power
    case PASSIVE => PassiveLoopKeeps(n.(frame := n.frame.(currentCfSlot := 0)), s.passive);
    case ACTIVE => CfLoopKeeps(CfEnter(n), CfStart(n), s.active);
    case TRANSMIT =>
    case RECEIVE =>
      if s.attempt1.Some? {
        ReceiveLoopKeeps(HeardControl(n, s.attempt1.value), s.data);
      }
    case _ =>
  }

  lemma HandledClock(n: Node, ret: Execution)
    ensures SameClock(Handled(n, ret), n)
  {
  }

  lemma LeaveClock(n: Node, s: Script)
    requires GoodNode(n) && n.next == FINISHP && (n.power == TRANSMIT || n.power == RECEIVE)
    ensures SameClock(Leave(n, s), n)
  {
    LeaveFinishes(n, s);
  }

  lemma ConcludeClock(r: Run, step: Step, s: Script)
    requires GoodNode(step.node) && step.node.power == r.node.power && InCycle(r.node.power)
    requires step.done ==> Proposes(r.node.power, step.ret, step.node.next)
    ensures var t := Conclude(r, step, s);
      && SameClock(t.node, step.node)
      && Slots(t.trace) == Slots(r.trace) + if r.node.power == PASSIVE && step.done then 1 else 0
  {
    if step.done {
      SlotsMore(r.trace, VisitOf(r.node, step));
      HandledClock(step.node, step.ret);
      if Leaves(step.ret) {
        LeaveClock(Handled(step.node, step.ret), s);
      }
    }
  }

  /** The number of the slot after k slots. */
  function SlotNumber(k: nat, m: nat): (r: nat)
    requires m > 0
    ensures r < m
  {
    if k == 0 then 0
    else if SlotNumber(k - 1, m) + 1 == m then 0
    else SlotNumber(k - 1, m) + 1
  }

  /** How many frames have ended after k slots. */
  function FramesEnded(k: nat, m: nat): nat
    requires m > 0
  {
    if k == 0 then 0
    else FramesEnded(k - 1, m) + if SlotNumber(k - 1, m) + 1 == m then 1 else 0
  }

  /** A uint32_t counted up k times. */
  function Later32(x: uint32, k: nat): uint32 {
    if k == 0 then x else Inc32(Later32(x, k - 1))
  }

  function Later64(x: uint64, k: nat): uint64 {
    if k == 0 then x else Inc64(Later64(x, k - 1))
  }

  /** What the clock shows after k slots; frame and network time count on and wrap. */
  ghost predicate ClockAt(m: Node, firstFrame: uint32, firstTime: uint64, k: nat) {
    && m.frame.slotsNumber == m.cfg.slots && m.cfg.slots > 0
    && m.frame.currentSlot == SlotNumber(k, m.cfg.slots)
    && m.frame.currentFrame == Later32(firstFrame, FramesEnded(k, m.cfg.slots))
    && m.networkTime == Later64(firstTime, k)
  }

  lemma ClockStep(m: Node, n: Node, firstFrame: uint32, firstTime: uint64, k: nat)
    requires ClockAt(n, firstFrame, firstTime, k) && NextClock(m, n)
    ensures ClockAt(m, firstFrame, firstTime, k + 1)
  {
  }

  /** The clock after an execution that went as far as step says. */
  lemma StepClock(n: Node, step: Step, firstFrame: uint32, firstTime: uint64, k: nat)
    requires ClockAt(n, firstFrame, firstTime, k)
    requires if n.power == PASSIVE && step.done then NextClock(step.node, n) else SameClock(step.node, n)
    ensures ClockAt(step.node, firstFrame, firstTime, k + if n.power == PASSIVE && step.done then 1 else 0)
  {
    if n.power == PASSIVE && step.done {
      ClockStep(step.node, n, firstFrame, firstTime, k);
    }
  }

  lemma SuperviseClock(r: Run, s: Script, firstFrame: uint32, firstTime: uint64)
    requires GoodNode(r.node) && r.status == Running && InCycle(r.node.power)
    requires ClockAt(r.node, firstFrame, firstTime, Slots(r.trace))
    ensures var t := Supervise(r, s);
      t.node.cfg == r.node.cfg && ClockAt(t.node, firstFrame, firstTime, Slots(t.trace))
  {
    var step := Execute(r.node, s);
    ExecuteProposes(r.node, s);
    ExecuteClock(r.node, s);
    ConcludeClock(r, step, s);
    StepClock(r.node, step, firstFrame, firstTime, Slots(r.trace));
  }

  /**
   * The clock over every run: it depends only on how many slots have gone by, however many ACTIVE, TRANSMIT and
   * RECEIVE executions intervene.
   */
  lemma {:induction false} RunClock(n: Node, scripts: seq<Script>)
    requires GoodNode(n)
    ensures var r := RunMedium(n, scripts);
      r.node.cfg == n.cfg && ClockAt(r.node, Inc32(n.cfg.wakeupFrame), n.networkTime, Slots(r.trace))
  {
    if scripts != [] {
      var before, s := scripts[..|scripts| - 1], scripts[|scripts| - 1];
      RunClock(n, before);
      var r := RunMedium(n, before);
      if r.status == Running {
        var cs, k := RunSpelled(n, before);
        SuperviseClock(r, s, Inc32(n.cfg.wakeupFrame), n.networkTime);
      }
    }
  }

  // --- The clock in closed form -------------------------------------------------------------------

  /** Slots are counted without loss: whole frames and the current slot make up all the slots gone by. */
  lemma {:induction false} SlotsAddUp(k: nat, m: nat)
    requires m > 0
    ensures FramesEnded(k, m) * m + SlotNumber(k, m) == k
  {
    if k > 0 {
      SlotsAddUp(k - 1, m);
      assert (FramesEnded(k - 1, m) + 1) * m == FramesEnded(k - 1, m) * m + m;
    }
  }

  lemma SlotsClosed(k: nat, m: nat)
    requires m > 0
    ensures SlotNumber(k, m) == k % m && FramesEnded(k, m) == k / m
  {
    SlotsAddUp(k, m);
    Division.DivModUnique(k, m, FramesEnded(k, m), SlotNumber(k, m));
  }

  lemma {:induction false} Later32Closed(x: uint32, k: nat)
    ensures Later32(x, k) == (x + k) % 0x1_0000_0000
    ensures x + k < 0x1_0000_0000 ==> Later32(x, k) == x + k
  {
    if k > 0 {
      Later32Closed(x, k - 1);
    }
  }

  lemma {:induction false} Later64Closed(x: uint64, k: nat)
    ensures Later64(x, k) == (x + k) % 0x1_0000_0000_0000_0000
    ensures x + k < 0x1_0000_0000_0000_0000 ==> Later64(x, k) == x + k
  {
    if k > 0 {
      Later64Closed(x, k - 1);
    }
  }

  /** The conserved quantity, in numbers. */
  lemma ClockAddsUp(first: uint32, time: uint64, k: nat, m: nat)
    requires m > 0 && first + FramesEnded(k, m) < 0x1_0000_0000 && time + k < 0x1_0000_0000_0000_0000
    ensures Later32(first, FramesEnded(k, m)) * m + SlotNumber(k, m) - Later64(time, k) == first * m - time
  {
    Later32Closed(first, FramesEnded(k, m));
    Later64Closed(time, k);
    SlotsAddUp(k, m);
    Distribute(first, FramesEnded(k, m), m);
  }

  /**
   * Conservation: at every point of every run the current slot is below the number of slots, and as long as the
   * counters have not wrapped frame * slots + slot - networkTime is what it was at the start.
   */
  lemma SlotClockConserved(n: Node, scripts: seq<Script>, r: Run)
    requires GoodNode(n) && r == RunMedium(n, scripts)
    ensures var first, k, m := Inc32(n.cfg.wakeupFrame), Slots(r.trace), n.cfg.slots;
      && r.node.frame.currentSlot < r.node.frame.slotsNumber == m
      && (first + FramesEnded(k, m) < 0x1_0000_0000 && n.networkTime + k < 0x1_0000_0000_0000_0000 ==>
            r.node.frame.currentFrame * m + r.node.frame.currentSlot - r.node.networkTime == first * m - n.networkTime)
  {
    RunClock(n, scripts);
    var first, k, m := Inc32(n.cfg.wakeupFrame), Slots(r.trace), n.cfg.slots;
    if first + FramesEnded(k, m) < 0x1_0000_0000 && n.networkTime + k < 0x1_0000_0000_0000_0000 {
      ClockAddsUp(first, n.networkTime, k, m);
    }
  }

  lemma Distribute(x: int, y: int, m: int)
    ensures (x + y) * m == x * m + y * m
  {
  }

  // --- The clock from any point of a run on -----------------------------------------------------------

  /** A clock after j more slots, with m slots to a frame. */
  function Ticked(c: Clock, m: nat, j: nat): Clock {
    if j == 0 then c
    else
      var d := Ticked(c, m, j - 1);
      if d.slot + 1 == m then Clock(Inc32(d.frame), 0, Inc64(d.time)) else Clock(d.frame, d.slot + 1, Inc64(d.time))
  }

  lemma {:induction false} TickedOn(firstFrame: uint32, firstTime: uint64, k: nat, m: nat, j: nat)
    requires m > 0
    ensures Ticked(Clock(Later32(firstFrame, FramesEnded(k, m)), SlotNumber(k, m), Later64(firstTime, k)), m, j)
         == Clock(Later32(firstFrame, FramesEnded(k + j, m)), SlotNumber(k + j, m), Later64(firstTime, k + j))
  {
    if j > 0 {
      TickedOn(firstFrame, firstTime, k, m, j - 1);
    }
  }

  /** p is a run of n, and m is the same run j slots later. */
  ghost predicate SlotsLater(n: Node, scripts: seq<Script>, more: seq<Script>, p: Run, m: Run, j: nat)
    requires GoodNode(n)
  {
    p == RunMedium(n, scripts) && m == RunMedium(n, scripts + more) && Slots(m.trace) == Slots(p.trace) + j
  }

  lemma ClockAtOn(p: Node, m: Node, firstFrame: uint32, firstTime: uint64, k: nat, j: nat)
    requires p.cfg == m.cfg && ClockAt(p, firstFrame, firstTime, k) && ClockAt(m, firstFrame, firstTime, k + j)
    ensures ClockOf(m) == Ticked(ClockOf(p), p.cfg.slots, j)
  {
    TickedOn(firstFrame, firstTime, k, p.cfg.slots, j);
  }

  /** Wherever a run stands, its clock j slots later is j ticks of its clock now. */
  lemma ClockTicks(n: Node, scripts: seq<Script>, more: seq<Script>, p: Run, m: Run, j: nat)
    requires GoodNode(n) && SlotsLater(n, scripts, more, p, m, j)
    ensures ClockOf(m.node) == Ticked(ClockOf(p.node), n.cfg.slots, j)
  {
    RunClock(n, scripts);
    RunClock(n, scripts + more);
    ClockAtOn(p.node, m.node, Inc32(n.cfg.wakeupFrame), n.networkTime, Slots(p.trace), j);
  }

  /** Two clocks that agree on frame and slot go on agreeing; their times go on, each from where it was. */
  lemma {:induction false} TickAlike(c: Clock, d: Clock, m: nat, j: nat)
    requires c.frame == d.frame && c.slot == d.slot
    ensures Ticked(c, m, j).frame == Ticked(d, m, j).frame && Ticked(c, m, j).slot == Ticked(d, m, j).slot
    ensures Ticked(c, m, j).time == Later64(c.time, j) && Ticked(d, m, j).time == Later64(d.time, j)
  {
    if j > 0 {
      TickAlike(c, d, m, j - 1);
    }
  }
}
