/**
 * Every run of MEDIUM_ACCESS as a history of queue operations.
 *
 * A history is three sequences of operations: on the queue of control packets, on the queue of messages, and on the
 * receive ring. Tracks says that the queues of a node are what a history makes of the queues it entered with, and
 * Extends that a longer history has moved exactly the packets of a log. Both are carried through every turn of every
 * waiting loop, through every execution, and so through every run.
 */
module QueueHistories {
  import opened Wrappers
  import opened DataPackets
  import opened PacketQueues
  import opened PowerModes
  import opened MediumAccess
  import opened RunShapes

  /** The operations a run has performed on each queue. */
  datatype History = History(controls: seq<QueueOp>, messages: seq<QueueOp>, received: seq<RingOp>)

  predicate IsControl(p: DataFields) {
    2 <= p.tag < 7
  }

  predicate IsMessage(p: DataFields) {
    7 <= p.tag < 10
  }

  ghost predicate AllControls(ps: seq<DataFields>) {
    forall k :: 0 <= k < |ps| ==> IsControl(ps[k])
  }

  ghost predicate AllMessages(ps: seq<DataFields>) {
    forall k :: 0 <= k < |ps| ==> IsMessage(ps[k])
  }

  function ServedControls(n0: Node, h: History): Served
    requires GoodNode(n0)
  {
    Serve(n0.controls, h.controls)
  }

  function ServedMessages(n0: Node, h: History): Served
    requires GoodNode(n0)
  {
    Serve(n0.messages, h.messages)
  }

  function RelayedPackets(n0: Node, h: History): Relayed
    requires GoodNode(n0)
  {
    Relay(n0.received, n0.cfg.maxPackets, h.received)
  }

  function OnlyControls(ps: seq<DataFields>): seq<DataFields> {
    if ps == [] then [] else (if IsControl(ps[0]) then [ps[0]] else []) + OnlyControls(ps[1..])
  }

  function OnlyMessages(ps: seq<DataFields>): seq<DataFields> {
    if ps == [] then [] else (if IsMessage(ps[0]) then [ps[0]] else []) + OnlyMessages(ps[1..])
  }

  lemma {:induction false} OnlyControlsConcat(a: seq<DataFields>, b: seq<DataFields>)
    ensures OnlyControls(a + b) == OnlyControls(a) + OnlyControls(b)
  {
    if a == [] {
      assert a + b == b;
    } else {
      assert (a + b)[1..] == a[1..] + b && (a + b)[0] == a[0];
      OnlyControlsConcat(a[1..], b);
      Concat(if IsControl(a[0]) then [a[0]] else [], OnlyControls(a[1..]), OnlyControls(b));
    }
  }

  lemma {:induction false} OnlyMessagesConcat(a: seq<DataFields>, b: seq<DataFields>)
    ensures OnlyMessages(a + b) == OnlyMessages(a) + OnlyMessages(b)
  {
    if a == [] {
      assert a + b == b;
    } else {
      assert (a + b)[1..] == a[1..] + b && (a + b)[0] == a[0];
      OnlyMessagesConcat(a[1..], b);
      Concat(if IsMessage(a[0]) then [a[0]] else [], OnlyMessages(a[1..]), OnlyMessages(b));
    }
  }

  lemma OnlyConcat(a: seq<DataFields>, b: seq<DataFields>)
    ensures OnlyControls(a + b) == OnlyControls(a) + OnlyControls(b)
    ensures OnlyMessages(a + b) == OnlyMessages(a) + OnlyMessages(b)
  {
    OnlyControlsConcat(a, b);
    OnlyMessagesConcat(a, b);
  }

  lemma OnlyOne(p: DataFields)
    ensures OnlyControls([p]) == (if IsControl(p) then [p] else [])
    ensures OnlyMessages([p]) == (if IsMessage(p) then [p] else [])
  {
    assert [p][1..] == [];
  }

  /** The queues of n are those of n0 after the operations of h, and each class has accepted only its own kind. */
  ghost predicate Tracks(n: Node, n0: Node, h: History)
    requires GoodNode(n0)
  {
    && n.cfg == n0.cfg
    && n.controls == ServedControls(n0, h).q && AllControls(ServedControls(n0, h).accepted)
    && n.messages == ServedMessages(n0, h).q && AllMessages(ServedMessages(n0, h).accepted)
    && n.received == RelayedPackets(n0, h).ring
  }

  /**
   * From (c0, m0, p0) to (c, m, p) the log was added: accepted packets by kind, sent packets by kind as long as
   * no queue has overrun, and everything that arrived or was delivered.
   */
  ghost predicate Added(c0: Served, m0: Served, p0: Relayed, c: Served, m: Served, p: Relayed, log: Log) {
    && c.accepted == c0.accepted + OnlyControls(log.accepted)
    && m.accepted == m0.accepted + OnlyMessages(log.accepted)
    && (c0.q.overrun ==> c.q.overrun) && (m0.q.overrun ==> m.q.overrun)
    && (!c.q.overrun && !m.q.overrun ==>
          c.sent == c0.sent + OnlyControls(log.sent) && m.sent == m0.sent + OnlyMessages(log.sent))
    && p.arrived == p0.arrived + log.arrived && p.delivered == p0.delivered + log.delivered
  }

  /** The history g is h and then what the log says. */
  ghost predicate Extends(n0: Node, h: History, g: History, log: Log)
    requires GoodNode(n0)
  {
    Added(ServedControls(n0, h), ServedMessages(n0, h), RelayedPackets(n0, h),
          ServedControls(n0, g), ServedMessages(n0, g), RelayedPackets(n0, g), log)
  }

  lemma AddedCompose(c0: Served, m0: Served, p0: Relayed, c1: Served, m1: Served, p1: Relayed,
                     c2: Served, m2: Served, p2: Relayed, a: Log, b: Log)
    requires Added(c0, m0, p0, c1, m1, p1, a) && Added(c1, m1, p1, c2, m2, p2, b)
    ensures Added(c0, m0, p0, c2, m2, p2, Plus(a, b))
  {
    OnlyConcat(a.accepted, b.accepted);
    OnlyConcat(a.sent, b.sent);
    Concat(c0.accepted, OnlyControls(a.accepted), OnlyControls(b.accepted));
    Concat(m0.accepted, OnlyMessages(a.accepted), OnlyMessages(b.accepted));
    Concat(c0.sent, OnlyControls(a.sent), OnlyControls(b.sent));
    Concat(m0.sent, OnlyMessages(a.sent), OnlyMessages(b.sent));
    Concat(p0.arrived, a.arrived, b.arrived);
    Concat(p0.delivered, a.delivered, b.delivered);
  }

  lemma ExtendsCompose(n0: Node, h: History, f: History, g: History, a: Log, b: Log)
    requires GoodNode(n0) && Extends(n0, h, f, a) && Extends(n0, f, g, b)
    ensures Extends(n0, h, g, Plus(a, b))
  {
    AddedCompose(ServedControls(n0, h), ServedMessages(n0, h), RelayedPackets(n0, h),
                 ServedControls(n0, f), ServedMessages(n0, f), RelayedPackets(n0, f),
                 ServedControls(n0, g), ServedMessages(n0, g), RelayedPackets(n0, g), a, b);
  }

  lemma ExtendsNothing(n0: Node, h: History)
    requires GoodNode(n0)
    ensures Extends(n0, h, h, NOTHING)
  {
  }

  // --- PASSIVE -----------------------------------------------------------------------------------

  lemma AcceptMessageTracks(n: Node, n0: Node, h: History, p: DataFields)
    requires GoodNode(n0) && Tracks(n, n0, h) && IsMessage(p)
    ensures var g := h.(messages := h.messages + [Accept(p)]);
      && Tracks(n.(messages := Accepted(n.messages, p)), n0, g)
      && Extends(n0, h, g, NOTHING.(accepted := [p]))
  {
    ServeMore(n0.messages, h.messages, Accept(p));
    OnlyOne(p);
  }

  lemma AcceptControlTracks(n: Node, n0: Node, h: History, p: DataFields)
    requires GoodNode(n0) && Tracks(n, n0, h) && IsControl(p)
    ensures var g := h.(controls := h.controls + [Accept(p)]);
      && Tracks(n.(controls := Accepted(n.controls, p)), n0, g)
      && Extends(n0, h, g, NOTHING.(accepted := [p]))
  {
    ServeMore(n0.controls, h.controls, Accept(p));
    OnlyOne(p);
  }

  lemma ReadQueueTracks(n: Node, n0: Node, h: History, upper: Option<DataFields>) returns (g: History)
    requires GoodNode(n0) && Tracks(n, n0, h)
    ensures Tracks(ReadQueue(n, upper), n0, g) && Extends(n0, h, g, NOTHING.(accepted := Taken(n, upper)))
  {
    g := h;
    ExtendsNothing(n0, h);
    if n.messages.count + n.controls.count != 2 * n.cfg.maxPackets && upper.Some? {
      var p := upper.value;
      if IsMessage(p) {
        AcceptMessageTracks(n, n0, h, p);
        g := h.(messages := h.messages + [Accept(p)]);
      } else if IsControl(p) {
        AcceptControlTracks(n, n0, h, p);
        g := h.(controls := h.controls + [Accept(p)]);
      }
    }
  }

  lemma WriteQueueTracks(n: Node, n0: Node, h: History, routable: bool) returns (g: History)
    requires GoodNode(n0) && GoodNode(n) && Tracks(n, n0, h)
    ensures Tracks(WriteQueue(n, routable), n0, g) && Extends(n0, h, g, NOTHING.(delivered := Given(n, routable)))
  {
    g := h;
    if n.received.count > 0 && routable {
      RelayMore(n0.received, n0.cfg.maxPackets, h.received, Deliver);
      g := h.(received := h.received + [Deliver]);
    }
  }

  /** Nothing that PASSIVE moves depends on the timers. */
  lemma MoveTracks(n: Node, t: Node, n0: Node, h: History, upper: Option<DataFields>, routable: bool)
    returns (g: History)
    requires GoodNode(n0) && GoodNode(n) && GoodNode(t) && GoodNode(ReadQueue(t, upper)) && Tracks(n, n0, h)
    requires t == n.(timers := t.timers)
    ensures Tracks(WriteQueue(ReadQueue(t, upper), routable), n0, g)
    ensures Extends(n0, h, g, Plus(NOTHING.(accepted := Taken(n, upper)), NOTHING.(delivered := Given(n, routable))))
  {
    var f := ReadQueueTracks(t, n0, h, upper);
    g := WriteQueueTracks(ReadQueue(t, upper), n0, f, routable);
    ExtendsCompose(n0, h, f, g, NOTHING.(accepted := Taken(n, upper)), NOTHING.(delivered := Given(n, routable)));
  }

  lemma PassiveTurnTracks(n: Node, n0: Node, h: History, e: PassiveEvent) returns (g: History)
    requires GoodNode(n0) && GoodNode(n) && Tracks(n, n0, h)
    ensures Tracks(PassiveTurn(n, e), n0, g) && Extends(n0, h, g, PassiveTurnLog(n, e))
  {
    var passed := HasPassed(n.timers, n.frame.slotTimer, e.expired);
    var t := if passed then n.(timers := n.timers - {n.frame.slotTimer}) else n;
    if e.upper == None && n.received.count == 0 {
      ExtendsNothing(n0, h);
      g := h;
    } else {
      g := MoveTracks(n, t, n0, h, e.upper, e.routable);
    }
  }

  lemma {:induction false} PassiveLoopTracks(n: Node, n0: Node, h: History, events: seq<PassiveEvent>)
    returns (g: History)
    requires GoodNode(n0) && GoodNode(n) && Tracks(n, n0, h)
    ensures Tracks(PassiveLoop(n, events).0, n0, g) && Extends(n0, h, g, PassiveLog(n, events))
    decreases |events|
  {
    if events == [] {
      ExtendsNothing(n0, h);
      g := h;
    } else {
      var f := PassiveTurnTracks(n, n0, h, events[0]);
      g := f;
      if !HasPassed(n.timers, n.frame.slotTimer, events[0].expired) {
        var t := PassiveTurn(n, events[0]);
        g := PassiveLoopTracks(t, n0, f, events[1..]);
        ExtendsCompose(n0, h, f, g, PassiveTurnLog(n, events[0]), PassiveLog(t, events[1..]));
      }
    }
  }

  // --- RECEIVE -----------------------------------------------------------------------------------

  lemma {:induction false} ReceiveLoopTracks(n: Node, n0: Node, h: History, events: seq<ReceiveEvent>)
    returns (g: History)
    requires GoodNode(n0) && GoodNode(n) && Tracks(n, n0, h)
    ensures Tracks(ReceiveLoop(n, events).0, n0, g) && Extends(n0, h, g, NOTHING.(arrived := ReceiveLog(n, events)))
    decreases |events|
  {
    g := h;
    if n.received.count < 2 * n.cfg.maxPackets && events != [] &&
       !HasPassed(n.timers, n.frame.slotTimer, events[0].expired) {
      var t := Received(n, events[0].packet);
      var f := h;
      ghost var p: seq<DataFields> := [];
      ExtendsNothing(n0, h);
      if events[0].packet.Some? {
        p := [events[0].packet.value];
        RelayMore(n0.received, n0.cfg.maxPackets, h.received, Arrive(p[0]));
        f := h.(received := h.received + [Arrive(p[0])]);
      }
      g := ReceiveLoopTracks(t, n0, f, events[1..]);
      ExtendsCompose(n0, h, f, g, NOTHING.(arrived := p), NOTHING.(arrived := ReceiveLog(t, events[1..])));
    }
  }

  // --- TRANSMIT ----------------------------------------------------------------------------------

  /** The packet at the head of a queue that has not overrun is one that was accepted. */
  lemma HeadWasAccepted(q: SendQueue, ops: seq<QueueOp>)
    requires Indexed(q)
    requires var s := Serve(q, ops); !s.q.overrun && s.q.count > 0
    ensures var s := Serve(q, ops); s.q.slots[s.q.first] in s.accepted
  {
    SendQueueIsFifo(q, ops);
    var s := Serve(q, ops);
    FifoSend(s.q, s.accepted, |s.sent|);
  }

  /** One send on one queue: the packet is of the kind the queue accepts. */
  lemma ServedSend(q: SendQueue, ops: seq<QueueOp>)
    requires Indexed(q) && Serve(q, ops).q.count > 0
    ensures var s, t := Serve(q, ops), Serve(q, ops + [Send]);
      && t.q == Sent(s.q) && t.accepted == s.accepted && t.q.overrun == s.q.overrun
      && t.sent == s.sent + [s.q.slots[s.q.first]]
      && (!s.q.overrun ==> s.q.slots[s.q.first] in s.accepted)
  {
    ServeMore(q, ops, Send);
    if !Serve(q, ops).q.overrun {
      HeadWasAccepted(q, ops);
    }
  }

  /** What a history that differs by one send has accepted, and that it tells of that one packet. */
  ghost predicate OneMoreSent(n0: Node, h: History, g: History, p: DataFields)
    requires GoodNode(n0)
  {
    && g.received == h.received
    && ServedControls(n0, g).accepted == ServedControls(n0, h).accepted
    && ServedMessages(n0, g).accepted == ServedMessages(n0, h).accepted
    && Extends(n0, h, g, NOTHING.(sent := [p]))
  }

  lemma AddedControl(c0: Served, m: Served, p: Relayed, c: Served, x: DataFields)
    requires c.accepted == c0.accepted && c.q.overrun == c0.q.overrun && c.sent == c0.sent + [x]
    requires !c0.q.overrun ==> IsControl(x)
    ensures Added(c0, m, p, c, m, p, NOTHING.(sent := [x]))
  {
    OnlyOne(x);
  }

  lemma AddedMessage(c: Served, m0: Served, p: Relayed, m: Served, x: DataFields)
    requires m.accepted == m0.accepted && m.q.overrun == m0.q.overrun && m.sent == m0.sent + [x]
    requires !m0.q.overrun ==> IsMessage(x)
    ensures Added(c, m0, p, c, m, p, NOTHING.(sent := [x]))
  {
    OnlyOne(x);
  }

  lemma SendControlTracks(n0: Node, h: History)
    requires GoodNode(n0) && AllControls(ServedControls(n0, h).accepted) && ServedControls(n0, h).q.count > 0
    ensures var g, q := h.(controls := h.controls + [Send]), ServedControls(n0, h).q;
      ServedControls(n0, g).q == Sent(q) && OneMoreSent(n0, h, g, q.slots[q.first])
  {
    var q := ServedControls(n0, h).q;
    var g := h.(controls := h.controls + [Send]);
    ServedSend(n0.controls, h.controls);
    AddedControl(ServedControls(n0, h), ServedMessages(n0, h), RelayedPackets(n0, h), ServedControls(n0, g),
                 q.slots[q.first]);
  }

  lemma SendMessageTracks(n0: Node, h: History)
    requires GoodNode(n0) && AllMessages(ServedMessages(n0, h).accepted) && ServedMessages(n0, h).q.count > 0
    ensures var g, q := h.(messages := h.messages + [Send]), ServedMessages(n0, h).q;
      ServedMessages(n0, g).q == Sent(q) && OneMoreSent(n0, h, g, q.slots[q.first])
  {
    var q := ServedMessages(n0, h).q;
    var g := h.(messages := h.messages + [Send]);
    ServedSend(n0.messages, h.messages);
    AddedMessage(ServedControls(n0, h), ServedMessages(n0, h), RelayedPackets(n0, h), ServedMessages(n0, g),
                 q.slots[q.first]);
  }

  lemma SendOneTracks(n0: Node, h: History) returns (g: History)
    requires GoodNode(n0) && AllControls(ServedControls(n0, h).accepted) && AllMessages(ServedMessages(n0, h).accepted)
    ensures var (c, m, s) := SendOne(ServedControls(n0, h).q, ServedMessages(n0, h).q);
      && c == ServedControls(n0, g).q && m == ServedMessages(n0, g).q && g.received == h.received
      && ServedControls(n0, g).accepted == ServedControls(n0, h).accepted
      && ServedMessages(n0, g).accepted == ServedMessages(n0, h).accepted
      && Extends(n0, h, g, NOTHING.(sent := s))
  {
    g := h;
    ExtendsNothing(n0, h);
    if ServedControls(n0, h).q.count > 0 {
      g := h.(controls := h.controls + [Send]);
      SendControlTracks(n0, h);
    } else if ServedMessages(n0, h).q.count > 0 {
      g := h.(messages := h.messages + [Send]);
      SendMessageTracks(n0, h);
    }
  }

  lemma {:induction false} DrainTracks(n0: Node, h: History, passes: seq<bool>) returns (g: History)
    requires GoodNode(n0) && AllControls(ServedControls(n0, h).accepted) && AllMessages(ServedMessages(n0, h).accepted)
    ensures var d := Drain(ServedControls(n0, h).q, ServedMessages(n0, h).q, passes);
      && d.controls == ServedControls(n0, g).q && d.messages == ServedMessages(n0, g).q && g.received == h.received
      && ServedControls(n0, g).accepted == ServedControls(n0, h).accepted
      && ServedMessages(n0, g).accepted == ServedMessages(n0, h).accepted
      && Extends(n0, h, g, NOTHING.(sent := d.sent))
    decreases ServedControls(n0, h).q.count + ServedMessages(n0, h).q.count
  {
    g := h;
    var c0, m0 := ServedControls(n0, h).q, ServedMessages(n0, h).q;
    if !(passes != [] && passes[0]) {
      var (c, m, s) := SendOne(c0, m0);
      var f := SendOneTracks(n0, h);
      g := f;
      if c.count + m.count > 0 {
        var rest := if passes == [] then [] else passes[1..];
        g := DrainTracks(n0, f, rest);
        ExtendsCompose(n0, h, f, g, NOTHING.(sent := s), NOTHING.(sent := Drain(c, m, rest).sent));
      }
    }
  }

  // --- Runs --------------------------------------------------------------------------------------

  lemma ExecuteTracks(n: Node, s: Script, n0: Node, h: History) returns (g: History)
    requires GoodNode(n0) && GoodNode(n) && InCycle(n.power) && Tracks(n, n0, h)
    ensures Tracks(Execute(n, s).node, n0, g) && Extends(n0, h, g, Execute(n, s).log)
  {
    g := h;
    ExtendsNothing(n0, h);
    match n.power
    case PASSIVE =>
      g := PassiveLoopTracks(n.(frame := n.frame.(currentCfSlot := 0)), n0, h, s.passive);
    case ACTIVE => CfLoopQueues(CfEnter(n), CfStart(n), s.active);
    case TRANSMIT =>
      if !n.collision.detected {
        g := DrainTracks(n0, h, Passes(n, s.expiries));
      }
    case RECEIVE =>
      if s.attempt1.Some? {
        var t := HeardControl(n, s.attempt1.value);
        if CheckControl(t, t.controlReceived) == None {
          g := ReceiveLoopTracks(t, n0, h, s.data);
        }
      }
    case _ =>
  }

  lemma {:induction false} CfLoopQueues(n: Node, c: CfState, events: seq<ActiveEvent>)
    requires GoodNode(n) && n.frame.currentCfSlot < |n.cfg.frequencies|
    ensures var t := CfLoop(n, c, events).node;
      t.controls == n.controls && t.messages == n.messages && t.received == n.received
    decreases |events|
  {
    if events != [] {
      var (t, d, what) := CfTurnOf(n, c, events[0]);
      if what != Over {
        CfLoopQueues(t, d, events[1..]);
      }
    }
  }

  /** A run stands where its history says, and its log is what its history did. */
  ghost predicate RunTracked(r: Run, n0: Node, h: History)
    requires GoodNode(n0)
  {
    Tracks(r.node, n0, h) && Extends(n0, History([], [], []), h, r.log)
  }

  lemma HandledQueues(n: Node, ret: Execution)
    ensures var m := Handled(n, ret);
      m.cfg == n.cfg && m.controls == n.controls && m.messages == n.messages && m.received == n.received
  {
  }

  lemma ConcludeTracks(r: Run, step: Step, s: Script, n0: Node, h: History, g: History)
    requires GoodNode(n0) && GoodNode(step.node) && RunTracked(r, n0, h)
    requires Tracks(step.node, n0, g) && Extends(n0, h, g, step.log)
    ensures Conclude(r, step, s).status == Exited || RunTracked(Conclude(r, step, s), n0, g)
  {
    ExtendsCompose(n0, History([], [], []), h, g, r.log, step.log);
    HandledQueues(step.node, step.ret);
  }

  lemma EnterTracks(n: Node)
    requires GoodNode(n)
    ensures RunTracked(RunMedium(n, []), n, History([], [], []))
  {
    ExtendsNothing(n, History([], [], []));
  }

  lemma {:induction false} RunTracks(n: Node, scripts: seq<Script>) returns (h: History)
    requires GoodNode(n)
    ensures RunMedium(n, scripts).status == Exited || RunTracked(RunMedium(n, scripts), n, h)
  {
    if scripts == [] {
      EnterTracks(n);
      h := History([], [], []);
    } else {
      var before, s := scripts[..|scripts| - 1], scripts[|scripts| - 1];
      h := RunTracks(n, before);
      var r := RunMedium(n, before);
      if r.status == Running {
        var cs, k := RunSpelled(n, before);
        var g := ExecuteTracks(r.node, s, n, h);
        ConcludeTracks(r, Execute(r.node, s), s, n, h, g);
        h := g;
      }
    }
  }

  lemma AddedToNone(c0: Served, m0: Served, p0: Relayed, c: Served, m: Served, p: Relayed, log: Log)
    requires Added(c0, m0, p0, c, m, p, log)
    requires c0.accepted == c0.sent == m0.accepted == m0.sent == p0.arrived == p0.delivered == []
    ensures c.accepted == OnlyControls(log.accepted) && m.accepted == OnlyMessages(log.accepted)
    ensures !c.q.overrun && !m.q.overrun ==> c.sent == OnlyControls(log.sent) && m.sent == OnlyMessages(log.sent)
    ensures p.arrived == log.arrived && p.delivered == log.delivered
  {
  }

  /** The run r of a node that entered as n did the queue operations of h, and moved the packets they moved. */
  ghost predicate IsHistory(n: Node, r: Run, h: History)
    requires GoodNode(n)
  {
    var c, m, p := ServedControls(n, h), ServedMessages(n, h), RelayedPackets(n, h);
    && Tracks(r.node, n, h)
    && c.accepted == OnlyControls(r.log.accepted) && m.accepted == OnlyMessages(r.log.accepted)
    && (!c.q.overrun && !m.q.overrun ==> c.sent == OnlyControls(r.log.sent) && m.sent == OnlyMessages(r.log.sent))
    && p.arrived == r.log.arrived && p.delivered == r.log.delivered
  }

  /** Every run that has not left MEDIUM_ACCESS is a history of queue operations, which moved the packets of its log. */
  lemma RunHistory(n: Node, scripts: seq<Script>, r: Run) returns (h: History)
    requires GoodNode(n) && r == RunMedium(n, scripts)
    ensures r.status != Exited ==> IsHistory(n, r, h)
  {
    h := RunTracks(n, scripts);
    if r.status != Exited {
      var none := History([], [], []);
      AddedToNone(ServedControls(n, none), ServedMessages(n, none), RelayedPackets(n, none),
                  ServedControls(n, h), ServedMessages(n, h), RelayedPackets(n, h), r.log);
    }
  }
}
