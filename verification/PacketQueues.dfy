/**
 * The packet queues of MAC/MCLMAC.c and MAC/Packets_Handlers.c: two send queues whose write index never wraps,
 * and a receive ring whose read index wraps at half the ring.
 */
module PacketQueues {
  import opened Wrappers
  import opened DataPackets
  import Division

  /** The index after i in a ring of m slots: (i + 1) % m. */
  function Around(i: nat, m: nat): (r: nat)
    requires i < m
    ensures r < m
  {
    if i + 1 == m then 0 else i + 1
  }

  lemma ModSmall(x: nat, m: nat)
    requires x < m
    ensures x % m == x
  {
  }

  lemma AroundIsMod(i: nat, m: nat)
    requires i < m
    ensures Around(i, m) == (i + 1) % m
  {
    if i + 1 < m {
      ModSmall(i + 1, m);
    }
  }

  /** Counting x up by one turns its ring index to the next. */
  lemma ModStep(x: nat, m: nat)
    requires m > 0
    ensures (x + 1) % m == Around(x % m, m)
  {
    var q := x / m;
    assert x == q * m + x % m;
    if x % m + 1 < m {
      Division.DivModUnique(x + 1, m, q, x % m + 1);
    } else {
      assert x + 1 == (q + 1) * m + 0;
      Division.DivModUnique(x + 1, m, q + 1, 0);
    }
  }

  /** Two numbers less than m apart have different ring indices. */
  lemma ModDistinct(j: nat, k: nat, m: nat)
    requires j < k < j + m
    ensures j % m != k % m
  {
    var a, r := j / m, j % m + (k - j);
    assert j == a * m + j % m;
    if r < m {
      Division.DivModUnique(k, m, a, r);
    } else {
      assert k == (a + 1) * m + (r - m);
      Division.DivModUnique(k, m, a + 1, r - m);
    }
  }

  // --- Send queues as values --------------------------------------------------------------------

  /** overrun is history: an accepted packet was to be stored past the last slot. */
  datatype SendQueue = SendQueue(slots: seq<DataFields>, first: nat, last: nat, count: nat, overrun: bool)

  /** What STARTP does: the counters, not the slots. */
  function Rewound(q: SendQueue): SendQueue {
    q.(first := 0, last := 0, count := 0, overrun := false)
  }

  function EmptySlots(n: nat): (r: seq<DataFields>)
    ensures |r| == n
  {
    seq(n, _ => CLEARED)
  }

  /** What FINISHP does: counters and slots. */
  function Emptied(q: SendQueue): SendQueue {
    SendQueue(EmptySlots(|q.slots|), 0, 0, 0, false)
  }

  /** mclmac_read_queue_element: store at last, count on; there is no wrapping and no check. */
  function Accepted(q: SendQueue, p: DataFields): SendQueue {
    if q.last < |q.slots|
    then q.(slots := q.slots[q.last := p], last := q.last + 1, count := q.count + 1)
    else q.(last := q.last + 1, count := q.count + 1, overrun := true)
  }

  /** The index a send reads is always a slot. */
  predicate Indexed(q: SendQueue) {
    q.first < |q.slots|
  }

  /** mclmac_send_data_packet, on one queue. */
  function Sent(q: SendQueue): (r: SendQueue)
    requires Indexed(q) && q.count > 0
    ensures Indexed(r) && |r.slots| == |q.slots|
  {
    q.(slots := q.slots[q.first := CLEARED], first := Around(q.first, |q.slots|), count := q.count - 1)
  }

  /** The queue holds the packets accepted since the last reset, from the sent-th on, in order, and no other. */
  ghost predicate Fifo(q: SendQueue, accepted: seq<DataFields>, sent: nat) {
    && sent <= |accepted| <= |q.slots| && |q.slots| > 0
    && q.last == |accepted| && q.count == |accepted| - sent && q.first == sent % |q.slots| && !q.overrun
    && (forall k :: sent <= k < |accepted| ==> q.slots[k] == accepted[k])
    && (forall k :: 0 <= k < sent ==> q.slots[k] == CLEARED)
  }

  lemma FifoSend(q: SendQueue, accepted: seq<DataFields>, sent: nat)
    requires Fifo(q, accepted, sent) && sent < |accepted|
    ensures Indexed(q) && q.first == sent && q.slots[q.first] == accepted[sent] && Fifo(Sent(q), accepted, sent + 1)
  {
    ModSmall(sent, |q.slots|);
    ModStep(sent, |q.slots|);
  }

  datatype QueueOp = Accept(p: DataFields) | Send

  /** The packets accepted, and the packets sent, over a history; sending from an empty queue does nothing. */
  datatype Served = Served(q: SendQueue, accepted: seq<DataFields>, sent: seq<DataFields>)

  function Serve(q: SendQueue, ops: seq<QueueOp>): (r: Served)
    requires Indexed(q)
    ensures Indexed(r.q)
  {
    if ops == [] then Served(Rewound(q), [], [])
    else
      var s := Serve(q, ops[..|ops| - 1]);
      match ops[|ops| - 1]
      case Accept(p) => s.(q := Accepted(s.q, p), accepted := s.accepted + [p])
      case Send => if s.q.count == 0 then s else s.(q := Sent(s.q), sent := s.sent + [s.q.slots[s.q.first]])
  }

  lemma ServeMore(q: SendQueue, ops: seq<QueueOp>, op: QueueOp)
    requires Indexed(q)
    ensures var s, t := Serve(q, ops), Serve(q, ops + [op]);
      match op
      case Accept(p) => t == s.(q := Accepted(s.q, p), accepted := s.accepted + [p])
      case Send => t == if s.q.count == 0 then s else s.(q := Sent(s.q), sent := s.sent + [s.q.slots[s.q.first]])
  {
    assert (ops + [op])[..|ops|] == ops;
  }

  /** The counters, and the order within the bound. */
  ghost predicate SentAsAccepted(s: Served, n: nat)
    requires n > 0
  {
    && |s.q.slots| == n && s.q.last == |s.accepted| && s.q.count == |s.accepted| - |s.sent|
    && s.q.first == |s.sent| % n
    && (s.q.overrun <==> |s.accepted| > n)
    && (|s.accepted| <= n ==> Fifo(s.q, s.accepted, |s.sent|) && s.sent == s.accepted[..|s.sent|])
  }

  lemma SentAsAcceptedSend(s: Served, n: nat)
    requires n > 0 && SentAsAccepted(s, n) && s.q.count > 0
    ensures Indexed(s.q) && SentAsAccepted(s.(q := Sent(s.q), sent := s.sent + [s.q.slots[s.q.first]]), n)
  {
    ModStep(|s.sent|, n);
    if |s.accepted| <= n {
      FifoSend(s.q, s.accepted, |s.sent|);
    }
  }

  lemma SentAsAcceptedAccept(s: Served, n: nat, p: DataFields)
    requires n > 0 && SentAsAccepted(s, n)
    ensures SentAsAccepted(s.(q := Accepted(s.q, p), accepted := s.accepted + [p]), n)
  {
  }

  /**
   * Since the last reset and as long as at most as many packets were accepted as there are slots: first in,
   * first out, last = accepted, first = sent modulo the capacity, count = accepted - sent. Beyond that bound
   * a packet has been stored past the last slot, however many were sent in between.
   */
  lemma {:induction false} SendQueueIsFifo(q: SendQueue, ops: seq<QueueOp>)
    requires Indexed(q)
    ensures SentAsAccepted(Serve(q, ops), |q.slots|)
  {
    if ops != [] {
      var before, op := ops[..|ops| - 1], ops[|ops| - 1];
      SendQueueIsFifo(q, before);
      var s := Serve(q, before);
      if op.Accept? {
        SentAsAcceptedAccept(s, |q.slots|, op.p);
      } else if s.q.count > 0 {
        SentAsAcceptedSend(s, |q.slots|);
      }
    }
  }

  // --- Draining, control packets first ------------------------------------------------------------

  /** What is queued, oldest first, when the queue has not wrapped. */
  ghost predicate Straight(q: SendQueue) {
    Indexed(q) && (q.count == 0 || q.first + q.count <= |q.slots|)
  }

  function Queued(q: SendQueue): (r: seq<DataFields>)
    requires Straight(q)
    ensures |r| == q.count
  {
    if q.count == 0 then [] else q.slots[q.first..q.first + q.count]
  }

  /** Within the bound of SendQueueIsFifo a queue is straight, and holds the accepted packets not yet sent. */
  lemma FifoIsStraight(q: SendQueue, accepted: seq<DataFields>, sent: nat)
    requires Fifo(q, accepted, sent)
    ensures Straight(q) && Queued(q) == accepted[sent..]
  {
    if sent < |accepted| {
      ModSmall(sent, |q.slots|);
    }
  }

  lemma SentQueued(q: SendQueue)
    requires Straight(q) && q.count > 0
    ensures Straight(Sent(q)) && Queued(q) == [q.slots[q.first]] + Queued(Sent(q))
  {
  }

  /** mclmac_send_data_packet: the oldest control packet, or else the oldest message, or nothing. */
  function SendOne(controls: SendQueue, messages: SendQueue): (r: (SendQueue, SendQueue, seq<DataFields>))
    requires Indexed(controls) && Indexed(messages)
    ensures Indexed(r.0) && |r.0.slots| == |controls.slots| && Indexed(r.1) && |r.1.slots| == |messages.slots|
    ensures var n := controls.count + messages.count; r.0.count + r.1.count == if n > 0 then n - 1 else 0
  {
    if controls.count > 0 then (Sent(controls), messages, [controls.slots[controls.first]])
    else if messages.count > 0 then (controls, Sent(messages), [messages.slots[messages.first]])
    else (controls, messages, [])
  }

  /** All that is queued, in the order in which it is to be sent. */
  function Pending(controls: SendQueue, messages: SendQueue): seq<DataFields>
    requires Straight(controls) && Straight(messages)
  {
    Queued(controls) + Queued(messages)
  }

  lemma SendOneInOrder(controls: SendQueue, messages: SendQueue)
    requires Straight(controls) && Straight(messages)
    ensures var (c, m, s) := SendOne(controls, messages);
      Straight(c) && Straight(m) && Pending(controls, messages) == s + Pending(c, m)
  {
    if controls.count > 0 {
      SentQueued(controls);
    } else if messages.count > 0 {
      SentQueued(messages);
    }
  }

  /** How the sending loop of TRANSMIT ended. */
  datatype Drained = Drained(controls: SendQueue, messages: SendQueue, sent: seq<DataFields>, expired: bool)

  /**
   * The sending loop of TRANSMIT. passes[k] says that the slot timer is found to have passed at turn k;
   * what is not listed has not passed.
   */
  function Drain(controls: SendQueue, messages: SendQueue, passes: seq<bool>): (r: Drained)
    requires Indexed(controls) && Indexed(messages)
    ensures Indexed(r.controls) && |r.controls.slots| == |controls.slots|
    ensures Indexed(r.messages) && |r.messages.slots| == |messages.slots|
    decreases controls.count + messages.count
  {
    if passes != [] && passes[0] then Drained(controls, messages, [], true)
    else
      var (c, m, s) := SendOne(controls, messages);
      if c.count + m.count == 0 then Drained(c, m, s, false)
      else
        var rest := Drain(c, m, if passes == [] then [] else passes[1..]);
        rest.(sent := s + rest.sent)
  }

  /**
   * TRANSMIT sends the queued control packets in order, then the queued messages in order, or when the slot
   * timer passes a prefix of that; what it did not send is still queued, in order.
   */
  lemma {:induction false} DrainSendsInOrder(controls: SendQueue, messages: SendQueue, passes: seq<bool>)
    requires Straight(controls) && Straight(messages)
    ensures var d := Drain(controls, messages, passes);
      && Straight(d.controls) && Straight(d.messages)
      && Pending(controls, messages) == d.sent + Pending(d.controls, d.messages)
      && (!d.expired ==> d.controls.count == 0 && d.messages.count == 0)
      && (d.expired ==> exists k :: 0 <= k < |passes| && passes[k])
    decreases controls.count + messages.count
  {
    if !(passes != [] && passes[0]) {
      var (c, m, s) := SendOne(controls, messages);
      var rest := if passes == [] then [] else passes[1..];
      SendOneInOrder(controls, messages);
      if c.count + m.count > 0 {
        DrainSendsInOrder(c, m, rest);
        var d := Drain(c, m, rest);
        Concat(s, d.sent, Pending(d.controls, d.messages));
        if d.expired {
          var k :| 0 <= k < |rest| && rest[k];
          assert passes[k + 1];
        }
      }
    }
  }

  /** The slot timer is found to have passed before the queues are empty: at the first turn, or with something left. */
  ghost predicate PassesInTime(passes: seq<bool>, queued: nat) {
    exists k :: 0 <= k < |passes| && passes[k] && (k == 0 || k < queued)
  }

  lemma PassesLater(passes: seq<bool>, queued: nat)
    requires passes != [] && !passes[0] && queued > 1
    ensures PassesInTime(passes, queued) <==> PassesInTime(passes[1..], queued - 1)
  {
    var rest := passes[1..];
    if PassesInTime(passes, queued) {
      var k :| 0 <= k < |passes| && passes[k] && (k == 0 || k < queued);
      assert rest[k - 1];
    }
    if PassesInTime(rest, queued - 1) {
      var k :| 0 <= k < |rest| && rest[k] && (k == 0 || k < queued - 1);
      assert passes[k + 1];
    }
  }

  /** Exactly when TRANSMIT runs into the end of its slot, in terms of what it starts with. */
  lemma {:induction false} DrainExpiresIff(controls: SendQueue, messages: SendQueue, passes: seq<bool>)
    requires Indexed(controls) && Indexed(messages)
    ensures Drain(controls, messages, passes).expired <==> PassesInTime(passes, controls.count + messages.count)
    decreases controls.count + messages.count
  {
    var (c, m, s) := SendOne(controls, messages);
    if passes != [] && passes[0] {
      assert passes[0];
    } else if c.count + m.count > 0 {
      DrainExpiresIff(c, m, if passes == [] then [] else passes[1..]);
      if passes != [] {
        PassesLater(passes, controls.count + messages.count);
      }
    }
  }

  lemma Concat<T>(a: seq<T>, b: seq<T>, c: seq<T>)
    ensures a + (b + c) == (a + b) + c
  {
  }

  // --- The receive ring -----------------------------------------------------------------------------

  datatype ReceiveRing = ReceiveRing(slots: seq<DataFields>, first: nat, last: nat, count: nat)

  function RingRewound(r: ReceiveRing): ReceiveRing {
    r.(first := 0, last := 0, count := 0)
  }

  function RingEmptied(r: ReceiveRing): ReceiveRing {
    ReceiveRing(EmptySlots(|r.slots|), 0, 0, 0)
  }

  ghost predicate RingIndexed(r: ReceiveRing) {
    r.first < |r.slots| && r.last < |r.slots|
  }

  /** mclmac_receive_data_packet: the write index wraps at the size of the ring. */
  function Arrived(r: ReceiveRing, p: DataFields): (s: ReceiveRing)
    requires RingIndexed(r)
    ensures RingIndexed(s)
  {
    r.(slots := r.slots[r.last := p], last := Around(r.last, |r.slots|), count := r.count + 1)
  }

  /** mclmac_write_queue_element, when it delivers: the read index wraps at `modulus`. */
  function Delivered(r: ReceiveRing, modulus: nat): (s: ReceiveRing)
    requires RingIndexed(r) && r.count > 0 && r.first < modulus <= |r.slots|
    ensures RingIndexed(s) && s.first < modulus
  {
    r.(slots := r.slots[r.first := CLEARED], first := Around(r.first, modulus), count := r.count - 1)
  }

  datatype RingOp = Arrive(p: DataFields) | Deliver

  /** Everything that arrived since the last reset, and everything handed to the upper layer. */
  datatype Relayed = Relayed(ring: ReceiveRing, arrived: seq<DataFields>, delivered: seq<DataFields>)

  /** RECEIVE takes a packet only while the ring is not full, PASSIVE delivers only when it is not empty. */
  function Relay(r: ReceiveRing, modulus: nat, ops: seq<RingOp>): (s: Relayed)
    requires RingIndexed(r) && 0 < modulus <= |r.slots|
    ensures RingIndexed(s.ring) && s.ring.first < modulus && |s.ring.slots| == |r.slots|
  {
    if ops == [] then Relayed(RingRewound(r), [], [])
    else
      var s := Relay(r, modulus, ops[..|ops| - 1]);
      match ops[|ops| - 1]
      case Arrive(p) =>
        if s.ring.count < |r.slots| then s.(ring := Arrived(s.ring, p), arrived := s.arrived + [p]) else s
      case Deliver =>
        if s.ring.count > 0
        then s.(ring := Delivered(s.ring, modulus), delivered := s.delivered + [s.ring.slots[s.ring.first]])
        else s
  }

  lemma RelayMore(r: ReceiveRing, modulus: nat, ops: seq<RingOp>, op: RingOp)
    requires RingIndexed(r) && 0 < modulus <= |r.slots|
    ensures var s, t := Relay(r, modulus, ops), Relay(r, modulus, ops + [op]);
      match op
      case Arrive(p) =>
        t == if s.ring.count < |r.slots| then s.(ring := Arrived(s.ring, p), arrived := s.arrived + [p]) else s
      case Deliver =>
        t == if s.ring.count > 0
             then s.(ring := Delivered(s.ring, modulus), delivered := s.delivered + [s.ring.slots[s.ring.first]])
             else s
  {
    assert (ops + [op])[..|ops|] == ops;
  }

  /** The counting law, for either modulus and every history. */
  ghost predicate Counted(s: Relayed, modulus: nat)
    requires 0 < modulus && 0 < |s.ring.slots|
  {
    && s.ring.count == |s.arrived| - |s.delivered| && s.ring.count <= |s.ring.slots|
    && s.ring.last == |s.arrived| % |s.ring.slots|
    && s.ring.first == |s.delivered| % modulus
  }

  lemma {:induction false} RingCounts(r: ReceiveRing, modulus: nat, ops: seq<RingOp>)
    requires RingIndexed(r) && 0 < modulus <= |r.slots|
    ensures Counted(Relay(r, modulus, ops), modulus)
  {
    if ops != [] {
      var before := ops[..|ops| - 1];
      RingCounts(r, modulus, before);
      var s := Relay(r, modulus, before);
      ModStep(|s.arrived|, |r.slots|);
      ModStep(|s.delivered|, modulus);
    }
  }

  /** Every packet that has not been counted as delivered is where it was put: none was overwritten. */
  ghost predicate Kept(s: Relayed) {
    forall k :: |s.delivered| <= k < |s.arrived| ==>
      0 < |s.ring.slots| && s.ring.slots[k % |s.ring.slots|] == s.arrived[k]
  }

  lemma KeptArrive(s: Relayed, p: DataFields)
    requires RingIndexed(s.ring) && s.ring.last == |s.arrived| % |s.ring.slots|
    requires |s.delivered| <= |s.arrived| < |s.delivered| + |s.ring.slots| && Kept(s)
    ensures Kept(s.(ring := Arrived(s.ring, p), arrived := s.arrived + [p]))
  {
    forall k | |s.delivered| <= k < |s.arrived|
      ensures k % |s.ring.slots| != |s.arrived| % |s.ring.slots|
    {
      ModDistinct(k, |s.arrived|, |s.ring.slots|);
    }
  }

  /** A delivery from the right position hands over the oldest packet and keeps the others. */
  lemma KeptDeliver(s: Relayed, modulus: nat)
    requires RingIndexed(s.ring) && s.ring.count > 0 && s.ring.first < modulus <= |s.ring.slots|
    requires |s.delivered| < |s.arrived| <= |s.delivered| + |s.ring.slots| && Kept(s)
    requires s.ring.first == |s.delivered| % |s.ring.slots|
    ensures s.ring.slots[s.ring.first] == s.arrived[|s.delivered|]
    ensures Kept(s.(ring := Delivered(s.ring, modulus), delivered := s.delivered + [s.ring.slots[s.ring.first]]))
  {
    forall k | |s.delivered| < k < |s.arrived|
      ensures k % |s.ring.slots| != |s.delivered| % |s.ring.slots|
    {
      ModDistinct(|s.delivered|, k, |s.ring.slots|);
    }
  }

  /**
   * The ring as it is meant: with both indices wrapping at its size it is a FIFO for ever, and with the read index
   * wrapping earlier it is one for the first `modulus` deliveries after a reset.
   */
  lemma {:induction false} RingIsFifo(r: ReceiveRing, modulus: nat, ops: seq<RingOp>)
    requires RingIndexed(r) && 0 < modulus <= |r.slots|
    ensures var s := Relay(r, modulus, ops);
      modulus == |r.slots| || |s.delivered| <= modulus ==>
        Kept(s) && |s.delivered| <= |s.arrived| && s.delivered == s.arrived[..|s.delivered|]
  {
    RingCounts(r, modulus, ops);
    if ops != [] {
      var before := ops[..|ops| - 1];
      RingIsFifo(r, modulus, before);
      RingCounts(r, modulus, before);
      var s, t := Relay(r, modulus, before), Relay(r, modulus, ops);
      var op := ops[|ops| - 1];
      if modulus == |r.slots| || |t.delivered| <= modulus {
        if op.Arrive? && s.ring.count < |r.slots| {
          KeptArrive(s, op.p);
        } else if op.Deliver? && s.ring.count > 0 {
          if modulus < |r.slots| {
            ModSmall(|s.delivered|, modulus);
            ModSmall(|s.delivered|, |r.slots|);
          }
          KeptDeliver(s, modulus);
        }
      }
    }
  }

  /**
   * What the code does, whose read index wraps at half the ring, as long as no more packets have arrived
   * since the reset than the ring has slots: the first `modulus` deliveries are the first arrivals, in
   * order, and every later delivery hands over a cleared packet.
   */
  lemma {:induction false} LateDeliveriesAreEmpty(r: ReceiveRing, modulus: nat, ops: seq<RingOp>)
    requires RingIndexed(r) && |r.slots| == 2 * modulus > 0
    requires |Relay(r, modulus, ops).arrived| <= |r.slots|
    ensures var s := Relay(r, modulus, ops);
      && |s.delivered| <= |s.arrived|
      && (forall k :: 0 <= k < |s.delivered| ==> s.delivered[k] == if k < modulus then s.arrived[k] else CLEARED)
      && (|s.delivered| > modulus ==> forall k :: 0 <= k < modulus ==> s.ring.slots[k] == CLEARED)
  {
    var s := Relay(r, modulus, ops);
    RingCounts(r, modulus, ops);
    RingIsFifo(r, modulus, ops);
    if ops != [] {
      var before := ops[..|ops| - 1];
      var b := Relay(r, modulus, before);
      LateDeliveriesAreEmpty(r, modulus, before);
      RingCounts(r, modulus, before);
      if |b.delivered| >= modulus {
        FirstHalfCleared(r, modulus, before);
        if ops[|ops| - 1].Arrive? && b.ring.count < |r.slots| {
          ModSmall(|b.arrived|, |r.slots|);
        }
      }
    }
  }

  /** Once the first half has been delivered it stays cleared until the write index comes round. */
  lemma {:induction false} FirstHalfCleared(r: ReceiveRing, modulus: nat, ops: seq<RingOp>)
    requires RingIndexed(r) && |r.slots| == 2 * modulus > 0
    requires var s := Relay(r, modulus, ops); |s.arrived| <= |r.slots|
    ensures var s := Relay(r, modulus, ops);
      forall k :: 0 <= k < modulus && k < |s.delivered| ==> s.ring.slots[k] == CLEARED
  {
    if ops != [] {
      var before := ops[..|ops| - 1];
      var b := Relay(r, modulus, before);
      FirstHalfCleared(r, modulus, before);
      RingCounts(r, modulus, before);
      var op := ops[|ops| - 1];
      if op.Arrive? && b.ring.count < |r.slots| {
        ModSmall(|b.arrived|, |r.slots|);
      } else if op.Deliver? && b.ring.count > 0 && |b.delivered| < modulus {
        ModSmall(|b.delivered|, modulus);
      }
    }
  }

  /** x is a cleared packet, or one of those that arrived at position i of a ring of m slots. */
  ghost predicate FromPosition(x: DataFields, arrived: seq<DataFields>, m: nat, i: nat) {
    x == CLEARED || exists j :: 0 <= j < |arrived| && arrived[j] == x && 0 < m && j % m == i
  }

  lemma FromPositionMore(x: DataFields, arrived: seq<DataFields>, m: nat, i: nat, p: DataFields)
    requires FromPosition(x, arrived, m, i)
    ensures FromPosition(x, arrived + [p], m, i)
  {
    if x != CLEARED {
      var j :| 0 <= j < |arrived| && arrived[j] == x && 0 < m && j % m == i;
      assert (arrived + [p])[j] == x;
    }
  }

  /** What the first half of the ring holds, where it has been written since the reset, and what came out of it. */
  ghost predicate FirstHalfOnly(s: Relayed, modulus: nat)
    requires 0 < modulus <= |s.ring.slots|
  {
    && (forall i :: 0 <= i < modulus && i < |s.arrived| ==> FromPosition(s.ring.slots[i], s.arrived, |s.ring.slots|, i))
    && (forall k :: 0 <= k < |s.delivered| ==>
          FromPosition(s.delivered[k], s.arrived, |s.ring.slots|, k % modulus))
  }

  lemma FirstHalfArrive(s: Relayed, modulus: nat, p: DataFields)
    requires RingIndexed(s.ring) && 0 < modulus <= |s.ring.slots| && FirstHalfOnly(s, modulus)
    requires s.ring.last == |s.arrived| % |s.ring.slots|
    ensures FirstHalfOnly(s.(ring := Arrived(s.ring, p), arrived := s.arrived + [p]), modulus)
  {
    var t := s.(ring := Arrived(s.ring, p), arrived := s.arrived + [p]);
    var m := |s.ring.slots|;
    forall i | 0 <= i < modulus && i < |t.arrived|
      ensures FromPosition(t.ring.slots[i], t.arrived, m, i)
    {
      if i == s.ring.last {
        assert t.arrived[|s.arrived|] == t.ring.slots[i];
      } else {
        if i == |s.arrived| {
          ModSmall(i, m);
        }
        FromPositionMore(s.ring.slots[i], s.arrived, m, i, p);
      }
    }
    forall k | 0 <= k < |t.delivered|
      ensures FromPosition(t.delivered[k], t.arrived, m, k % modulus)
    {
      FromPositionMore(s.delivered[k], s.arrived, m, k % modulus, p);
    }
  }

  lemma FirstHalfDeliver(s: Relayed, modulus: nat)
    requires RingIndexed(s.ring) && s.ring.first < modulus <= |s.ring.slots| && FirstHalfOnly(s, modulus)
    requires s.ring.first == |s.delivered| % modulus && 0 < s.ring.count && |s.delivered| < |s.arrived|
    ensures FirstHalfOnly(s.(ring := Delivered(s.ring, modulus),
                             delivered := s.delivered + [s.ring.slots[s.ring.first]]), modulus)
  {
    var q := |s.delivered| / modulus;
    assert |s.delivered| == q * modulus + s.ring.first;
    assert s.ring.first <= |s.delivered|;
  }

  /** For every history: what is handed up comes from the first `modulus` positions of the ring, or is cleared. */
  lemma {:induction false} OnlyFirstHalf(r: ReceiveRing, modulus: nat, ops: seq<RingOp>)
    requires RingIndexed(r) && 0 < modulus <= |r.slots|
    ensures FirstHalfOnly(Relay(r, modulus, ops), modulus)
  {
    if ops != [] {
      var before := ops[..|ops| - 1];
      OnlyFirstHalf(r, modulus, before);
      RingCounts(r, modulus, before);
      var s, op := Relay(r, modulus, before), ops[|ops| - 1];
      if op.Arrive? && s.ring.count < |r.slots| {
        FirstHalfArrive(s, modulus, op.p);
      } else if op.Deliver? && s.ring.count > 0 {
        FirstHalfDeliver(s, modulus);
      }
    }
  }

  /** Packets that can be told apart from each other, and from a cleared one. */
  ghost predicate ToldApart(ps: seq<DataFields>) {
    && (forall j :: 0 <= j < |ps| ==> ps[j] != CLEARED)
    && (forall j, k :: 0 <= j < k < |ps| ==> ps[j] != ps[k])
  }

  /** So a packet that arrives at a position beyond the first `modulus` is never handed up. */
  lemma SecondHalfIsLost(r: ReceiveRing, modulus: nat, ops: seq<RingOp>, j: nat)
    requires RingIndexed(r) && 0 < modulus <= |r.slots|
    ensures var s := Relay(r, modulus, ops);
      j < |s.arrived| && ToldApart(s.arrived) && j % |r.slots| >= modulus ==> s.arrived[j] !in s.delivered
  {
    var s := Relay(r, modulus, ops);
    OnlyFirstHalf(r, modulus, ops);
    if j < |s.arrived| && ToldApart(s.arrived) && j % |r.slots| >= modulus {
      forall k | 0 <= k < |s.delivered|
        ensures s.delivered[k] != s.arrived[j]
      {
        assert FromPosition(s.delivered[k], s.arrived, |r.slots|, k % modulus);
      }
    }
  }

  /** Exactly when the code delivers in order: while no more than half a ring has been handed up since the reset. */
  lemma InOrderIff(r: ReceiveRing, modulus: nat, ops: seq<RingOp>)
    requires RingIndexed(r) && |r.slots| == 2 * modulus > 0
    ensures var s := Relay(r, modulus, ops);
      ToldApart(s.arrived) ==> (s.delivered <= s.arrived <==> |s.delivered| <= modulus)
  {
    var s := Relay(r, modulus, ops);
    RingIsFifo(r, modulus, ops);
    RingCounts(r, modulus, ops);
    if ToldApart(s.arrived) && |s.delivered| > modulus {
      ModSmall(modulus, |r.slots|);
      SecondHalfIsLost(r, modulus, ops, modulus);
      assert s.delivered[modulus] in s.delivered;
      assert s.delivered[modulus] != s.arrived[modulus];
    }
  }

  /** k times: a packet arrives, and one is handed up. */
  function Rounds(p: DataFields, k: nat): seq<RingOp> {
    if k == 0 then [] else Rounds(p, k - 1) + [Arrive(p)] + [Deliver]
  }

  lemma OneRound(r: ReceiveRing, modulus: nat, ops: seq<RingOp>, p: DataFields)
    requires RingIndexed(r) && 0 < modulus <= |r.slots| && Relay(r, modulus, ops).ring.count == 0
    ensures var s, t := Relay(r, modulus, ops), Relay(r, modulus, ops + [Arrive(p)] + [Deliver]);
      t.arrived == s.arrived + [p] && |t.delivered| == |s.delivered| + 1
  {
    RelayMore(r, modulus, ops, Arrive(p));
    RelayMore(r, modulus, ops + [Arrive(p)], Deliver);
  }

  lemma {:induction false} RoundsRelay(r: ReceiveRing, modulus: nat, p: DataFields, k: nat)
    requires RingIndexed(r) && 0 < modulus <= |r.slots|
    ensures var s := Relay(r, modulus, Rounds(p, k));
      |s.arrived| == |s.delivered| == k && forall j :: 0 <= j < k ==> s.arrived[j] == p
  {
    if k > 0 {
      RoundsRelay(r, modulus, p, k - 1);
      var before := Rounds(p, k - 1);
      RingCounts(r, modulus, before);
      OneRound(r, modulus, before, p);
    }
  }

  /** And out of order it gets: the packet number `modulus` is replaced by a cleared one, though it had just arrived. */
  lemma OutOfOrderIsReachable(r: ReceiveRing, modulus: nat, p: DataFields)
    requires RingIndexed(r) && |r.slots| == 2 * modulus > 0 && p != CLEARED
    ensures var s := Relay(r, modulus, Rounds(p, modulus + 1));
      && |s.delivered| == |s.arrived| == modulus + 1
      && s.arrived[modulus] == p && s.delivered[modulus] == CLEARED && !(s.delivered <= s.arrived)
  {
    RoundsRelay(r, modulus, p, modulus + 1);
    LateDeliveriesAreEmpty(r, modulus, Rounds(p, modulus + 1));
  }

  // --- The queues as the C code keeps them ----------------------------------------------------------

  /** One of the two send queues of MAC_Internals_t. */
  class PacketQueue {
    const slots: array<DataFields>
    var first: nat
    var last: nat
    var count: nat
    ghost var overrun: bool

    ghost predicate Valid()
      reads this
    {
      first < slots.Length
    }

    ghost function Value(): (q: SendQueue)
      reads this, slots
      ensures Valid() ==> Indexed(q)
    {
      SendQueue(slots[..], first, last, count, overrun)
    }

    constructor (n: nat)
      requires n > 0
      ensures Valid() && fresh(slots) && Value() == SendQueue(EmptySlots(n), 0, 0, 0, false)
    {
      slots := new DataFields[n](_ => CLEARED);
      first, last, count, overrun := 0, 0, 0, false;
      new;
      assert slots[..] == EmptySlots(n);
    }

    /** The write index is not checked: past the last slot the packet goes elsewhere. */
    method Accept(p: DataFields)
      requires Valid()
      modifies this, slots
      ensures Valid() && Value() == Accepted(old(Value()), p)
    {
      if last < slots.Length {
        slots[last] := p;
      } else {
        overrun := true;
      }
      last := last + 1;
      count := count + 1;
    }

    method SendFirst() returns (p: DataFields)
      requires Valid() && count > 0
      modifies this, slots
      ensures Valid() && Value() == Sent(old(Value())) && p == old(slots[first])
    {
      p := slots[first];
      slots[first] := CLEARED;
      first := Around(first, slots.Length);
      count := count - 1;
    }

    method Rewind()
      requires Valid()
      modifies this
      ensures Valid() && Value() == Rewound(old(Value()))
    {
      first, last, count, overrun := 0, 0, 0, false;
    }

    method Clear()
      requires Valid()
      modifies this, slots
      ensures Valid() && Value() == Emptied(old(Value()))
    {
      first, last, count, overrun := 0, 0, 0, false;
      var i := 0;
      while i < slots.Length
        modifies slots
        invariant 0 <= i <= slots.Length
        invariant forall k :: 0 <= k < i ==> slots[k] == CLEARED
      {
        slots[i] := CLEARED;
        i := i + 1;
      }
      assert slots[..] == EmptySlots(slots.Length);
    }
  }

  /** The packets received, in a ring of twice `half` slots. */
  class PacketRing {
    const half: nat
    const slots: array<DataFields>
    var first: nat
    var last: nat
    var count: nat

    ghost predicate Valid()
      reads this
    {
      slots.Length == 2 * half && first < half && last < slots.Length
    }

    ghost function Value(): (r: ReceiveRing)
      reads this, slots
      ensures Valid() ==> RingIndexed(r) && |r.slots| == 2 * half && r.first < half
    {
      ReceiveRing(slots[..], first, last, count)
    }

    constructor (half: nat)
      requires half > 0
      ensures Valid() && fresh(slots) && this.half == half && Value() == ReceiveRing(EmptySlots(2 * half), 0, 0, 0)
    {
      this.half := half;
      slots := new DataFields[2 * half](_ => CLEARED);
      first, last, count := 0, 0, 0;
      new;
      assert slots[..] == EmptySlots(2 * half);
    }

    method Arrive(p: DataFields)
      requires Valid()
      modifies this, slots
      ensures Valid() && Value() == Arrived(old(Value()), p)
    {
      slots[last] := p;
      last := Around(last, slots.Length);
      count := count + 1;
    }

    method DeliverFirst() returns (p: DataFields)
      requires Valid() && count > 0
      modifies this, slots
      ensures Valid() && Value() == Delivered(old(Value()), half) && p == old(slots[first])
    {
      p := slots[first];
      slots[first] := CLEARED;
      first := Around(first, half);
      count := count - 1;
    }

    method Rewind()
      requires Valid()
      modifies this
      ensures Valid() && Value() == RingRewound(old(Value()))
    {
      first, last, count := 0, 0, 0;
    }

    method Clear()
      requires Valid()
      modifies this, slots
      ensures Valid() && Value() == RingEmptied(old(Value()))
    {
      first, last, count := 0, 0, 0;
      var i := 0;
      while i < half
        modifies slots
        invariant 0 <= i <= half
        invariant forall k :: 0 <= k < i || half <= k < half + i ==> slots[k] == CLEARED
      {
        slots[i] := CLEARED;
        slots[i + half] := CLEARED;
        i := i + 1;
      }
      assert slots[..] == EmptySlots(slots.Length);
    }
  }
}
