/**
 * The state of a node in MEDIUM_ACCESS and what each power-mode state does to it, as functions
 * (MAC/MAC_PowerMode_StateMachine.c).
 */
module PowerModes {
  import opened Wrappers
  import opened ControlPackets
  import opened DataPackets
  import opened PacketQueues
  import CF = CFPackets
  import Octets

  // The radio, the timers and the upper layer are scripts: one event for every turn of a waiting loop. A script
  // that ends too early leaves the node waiting, which is a partial result, not an error.

  // --- The two state machines -----------------------------------------------------------------

  datatype PowerMode = STARTP | PASSIVE | ACTIVE | TRANSMIT | RECEIVE | NONEP | FINISHP | IDLEP
  datatype MacState =
    START | INITIALIZATION | SYNCHRONIZATION | TIMESLOT_AND_CHANNEL_SELECTION | MEDIUM_ACCESS | FINISH | NONE

  datatype Transition = TransitionSuccess | TransitionError | NoTransition | InvalidState
  datatype Execution = ExecutionSuccess | ExecutionFailed | CollisionDetected | CollisionError | SynchronizationError

  /** mclmac_update_powermode_state_machine: the state afterwards, and the verdict. */
  function UpdatePower(current: PowerMode, next: PowerMode): (PowerMode, Transition) {
    if current == next then (current, NoTransition)
    else
      match next
      case NONEP => (NONEP, NoTransition)
      case PASSIVE => if current == FINISHP then (current, TransitionError) else (PASSIVE, TransitionSuccess)
      case ACTIVE => if current == PASSIVE then (ACTIVE, TransitionSuccess) else (current, TransitionError)
      case TRANSMIT => if current == ACTIVE then (TRANSMIT, TransitionSuccess) else (current, TransitionError)
      case RECEIVE => if current == ACTIVE then (RECEIVE, TransitionSuccess) else (current, TransitionError)
      case FINISHP =>
        if current == STARTP || current == PASSIVE then (current, TransitionError) else (FINISHP, TransitionSuccess)
      case STARTP => (current, InvalidState)
      case IDLEP => (current, InvalidState)
  }

  /** mclmac_update_mac_state_machine. */
  function UpdateMac(current: MacState, next: MacState): (MacState, Transition) {
    if current == next then (current, NoTransition)
    else
      match next
      case NONE => (current, NoTransition)
      case INITIALIZATION =>
        if current == START || current == MEDIUM_ACCESS then (INITIALIZATION, TransitionSuccess)
        else (current, TransitionError)
      case SYNCHRONIZATION =>
        if current == START then (current, TransitionError) else (SYNCHRONIZATION, TransitionSuccess)
      case TIMESLOT_AND_CHANNEL_SELECTION =>
        if current == SYNCHRONIZATION then (TIMESLOT_AND_CHANNEL_SELECTION, TransitionSuccess)
        else (current, TransitionError)
      case MEDIUM_ACCESS =>
        if current == TIMESLOT_AND_CHANNEL_SELECTION then (MEDIUM_ACCESS, TransitionSuccess)
        else (current, TransitionError)
      case FINISH => if current == MEDIUM_ACCESS then (FINISH, TransitionSuccess) else (current, TransitionError)
      case START => (current, InvalidState)
  }

  // --- The node ---------------------------------------------------------------------------------

  datatype Id = Id(hi: uint64, lo: uint64)

  const BROADCAST: Id := Id(0, 0)

  /** What does not change while the node is in MEDIUM_ACCESS. */
  datatype Config = Config(nodeId: Id, slots: uint8, frequencies: seq<uint32>, bytes: nat, maxPackets: nat,
                           timeouts: nat, epsilon: nat, hopCount: uint16, initTime: uint32, wakeupFrame: uint32,
                           occupied: Occupancy, selectedSlot: uint8, transmitChannel: uint32)

  /** Frame_t, less the durations. */
  datatype Frame = Frame(currentFrame: uint32, currentSlot: uint8, slotsNumber: uint8, currentCfSlot: nat,
                         slotTimer: int, cfTimer: int)

  datatype Collision = Collision(detected: bool, internal: bool, slot: uint8, frequency: uint32)

  /** The peers of the node's current conversation. */
  datatype Peers = Peers(receiveChannel: uint32, transmitter: Id, destination: Id, isFirst: bool)

  /**
   * A node. timers is the set of timeouts in use in the timeout bank (live handles of module Timeouts);
   * controlReceived is the last control packet decoded.
   */
  datatype Node = Node(cfg: Config, power: PowerMode, next: PowerMode, mac: MacState, macNext: MacState,
                       frame: Frame, networkTime: uint64, collision: Collision, peers: Peers,
                       controls: SendQueue, messages: SendQueue, received: ReceiveRing,
                       controlReceived: ControlFields, timers: set<int>)

  ghost predicate GoodConfig(c: Config) {
    && c.slots > 0 && |c.frequencies| > 0 && c.bytes > 0 && c.maxPackets > 0
    && Fits(|c.frequencies|, c.bytes) && Shaped(c.occupied, |c.frequencies|, c.bytes)
  }

  ghost predicate GoodNode(n: Node) {
    && GoodConfig(n.cfg)
    && Indexed(n.controls) && Indexed(n.messages)
    && |n.controls.slots| == |n.messages.slots| == n.cfg.maxPackets
    && RingIndexed(n.received) && |n.received.slots| == 2 * n.cfg.maxPackets && n.received.first < n.cfg.maxPackets
    && (forall h :: h in n.timers ==> 0 <= h < n.cfg.timeouts)
  }

  // --- Timers -------------------------------------------------------------------------------------

  /** timeout_set: the least unused handle from `from` on, or TIMEOUT_SET_ERROR. */
  function LeastFree(timers: set<int>, from: nat, timeouts: nat): (h: int)
    ensures h == timeouts + 1 || (from <= h < timeouts && h !in timers)
    ensures h == timeouts + 1 <==> forall i :: from <= i < timeouts ==> i in timers
    decreases timeouts - from
  {
    if from >= timeouts then timeouts + 1
    else if from !in timers then from
    else LeastFree(timers, from + 1, timeouts)
  }

  /** The bank after timeout_set. */
  function WithTimer(timers: set<int>, h: int, timeouts: nat): set<int> {
    if h == timeouts + 1 then timers else timers + {h}
  }

  /** timeout_passed answers 1 only for a timeout in use; expired is whether its time has come. */
  predicate HasPassed(timers: set<int>, h: int, expired: bool) {
    h in timers && expired
  }

  /** slot_timer = timeout_set(slot_duration). */
  function ArmSlotTimer(n: Node): (r: Node)
    ensures GoodNode(n) ==> GoodNode(r)
  {
    var h := LeastFree(n.timers, 0, n.cfg.timeouts);
    n.(frame := n.frame.(slotTimer := h), timers := WithTimer(n.timers, h, n.cfg.timeouts))
  }

  function ArmCfTimer(n: Node): (r: Node)
    ensures GoodNode(n) ==> GoodNode(r)
  {
    var h := LeastFree(n.timers, 0, n.cfg.timeouts);
    n.(frame := n.frame.(cfTimer := h), timers := WithTimer(n.timers, h, n.cfg.timeouts))
  }

  // --- STARTP -------------------------------------------------------------------------------------

  /** A uint8_t plus one. */
  function Inc8(x: uint8): uint8 {
    if x == 0xff then 0 else x + 1
  }

  /** A uint32_t plus one. */
  function Inc32(x: uint32): uint32 {
    if x == 0xffff_ffff then 0 else x + 1
  }

  function Inc64(x: uint64): uint64 {
    if x == 0xffff_ffff_ffff_ffff then 0 else x + 1
  }

  function ExecStart(n: Node): (r: Node)
    requires GoodNode(n)
    ensures GoodNode(r)
  {
    ArmSlotTimer(n.(frame := n.frame.(slotsNumber := n.cfg.slots, currentFrame := Inc32(n.cfg.wakeupFrame),
                                      currentSlot := 0, currentCfSlot := 0),
                    messages := Rewound(n.messages), controls := Rewound(n.controls),
                    received := RingRewound(n.received), next := PASSIVE))
  }

  // --- PASSIVE ------------------------------------------------------------------------------------

  /**
   * One turn of the waiting loop: whether the slot timer's time has come, the message at the head of the
   * queue from the upper layers, and whether the routing layer takes a packet.
   */
  datatype PassiveEvent = PassiveEvent(expired: bool, upper: Option<DataFields>, routable: bool)

  /** mclmac_read_queue_element. A message of another type is consumed and dropped. */
  function ReadQueue(n: Node, upper: Option<DataFields>): Node {
    if n.messages.count + n.controls.count == 2 * n.cfg.maxPackets || upper == None then n
    else if 7 <= upper.value.tag < 10 then n.(messages := Accepted(n.messages, upper.value))
    else if 2 <= upper.value.tag < 7 then n.(controls := Accepted(n.controls, upper.value))
    else n
  }

  /** mclmac_write_queue_element. */
  function WriteQueue(n: Node, routable: bool): Node
    requires GoodNode(n)
  {
    if n.received.count == 0 || !routable then n
    else n.(received := Delivered(n.received, n.cfg.maxPackets))
  }

  function PassiveTurn(n: Node, e: PassiveEvent): (r: Node)
    requires GoodNode(n)
    ensures GoodNode(r)
  {
    var passed := HasPassed(n.timers, n.frame.slotTimer, e.expired);
    var t := if passed then n.(timers := n.timers - {n.frame.slotTimer}) else n;
    if e.upper == None && t.received.count == 0 then t
    else WriteQueue(ReadQueue(t, e.upper), e.routable)
  }

  /** The slot clock. */
  function NextSlot(f: Frame): Frame {
    var slot := Inc8(f.currentSlot);
    if slot == f.slotsNumber then f.(currentFrame := Inc32(f.currentFrame), currentSlot := 0)
    else f.(currentSlot := slot)
  }

  /** What PASSIVE does once its loop is over. */
  function PassiveEnd(n: Node): Node {
    ArmSlotTimer(n.(frame := NextSlot(n.frame), networkTime := Inc64(n.networkTime), next := ACTIVE))
  }

  /** The waiting loop, and whether it ended. */
  function PassiveLoop(n: Node, events: seq<PassiveEvent>): (r: (Node, bool))
    requires GoodNode(n)
    ensures GoodNode(r.0)
    decreases |events|
  {
    if events == [] then (n, false)
    else
      var t := PassiveTurn(n, events[0]);
      if HasPassed(n.timers, n.frame.slotTimer, events[0].expired) then (t, true) else PassiveLoop(t, events[1..])
  }

  /**
   * The data packets that passed through the node (taken from the upper layers, sent, received, handed up), and the
   * control packets it sent.
   */
  datatype Log =
    Log(accepted: seq<DataFields>, sent: seq<DataFields>, arrived: seq<DataFields>, delivered: seq<DataFields>,
        announced: seq<ControlFields>)

  const NOTHING: Log := Log([], [], [], [], [])

  function Plus(a: Log, b: Log): Log {
    Log(a.accepted + b.accepted, a.sent + b.sent, a.arrived + b.arrived, a.delivered + b.delivered,
        a.announced + b.announced)
  }

  /** The packet that mclmac_read_queue_element stores. */
  function Taken(n: Node, upper: Option<DataFields>): seq<DataFields> {
    if n.messages.count + n.controls.count == 2 * n.cfg.maxPackets || upper == None then []
    else if 2 <= upper.value.tag < 10 then [upper.value]
    else []
  }

  /** The packet that mclmac_write_queue_element hands up. */
  function Given(n: Node, routable: bool): seq<DataFields>
    requires GoodNode(n)
  {
    if n.received.count == 0 || !routable then [] else [n.received.slots[n.received.first]]
  }

  function PassiveTurnLog(n: Node, e: PassiveEvent): Log
    requires GoodNode(n)
  {
    if e.upper == None && n.received.count == 0 then NOTHING
    else Plus(NOTHING.(accepted := Taken(n, e.upper)), NOTHING.(delivered := Given(n, e.routable)))
  }

  /** Everything the waiting loop moves. */
  function PassiveLog(n: Node, events: seq<PassiveEvent>): Log
    requires GoodNode(n)
    decreases |events|
  {
    if events == [] then NOTHING
    else
      var log := PassiveTurnLog(n, events[0]);
      if HasPassed(n.timers, n.frame.slotTimer, events[0].expired) then log
      else Plus(log, PassiveLog(PassiveTurn(n, events[0]), events[1..]))
  }

  /** The outcome of one execution: done tells whether the state ran to its end. */
  datatype Step = Step(node: Node, ret: Execution, done: bool, log: Log)

  function ExecPassive(n: Node, events: seq<PassiveEvent>): (s: Step)
    requires GoodNode(n)
    ensures GoodNode(s.node)
  {
    var m := n.(frame := n.frame.(currentCfSlot := 0));
    var (t, woken) := PassiveLoop(m, events);
    Step(if woken then PassiveEnd(t) else t, ExecutionSuccess, woken, PassiveLog(m, events))
  }

  // --- ACTIVE -------------------------------------------------------------------------------------

  /** One turn of the CF loop: whether the CF timer's time has come, and what the radio would hear. */
  datatype ActiveEvent = ActiveEvent(expired: bool, heard: Option<CF.CFFields>)

  /** The locals of the CF loop. */
  datatype CfState = CfState(isCurrent: bool, send: bool, receive: bool, packets: uint8)

  /** What one turn of the CF loop amounted to. */
  datatype CfTurn = Over | SentCf | Silent | Overheard | Addressed

  /** The node's own channel is the one of the current CF slot. */
  predicate OwnChannel(n: Node)
    requires n.frame.currentCfSlot < |n.cfg.frequencies|
  {
    n.cfg.transmitChannel == n.cfg.frequencies[n.frame.currentCfSlot]
  }

  /** Something is to be announced. */
  predicate HasTraffic(n: Node) {
    n.messages.count > 0 || n.controls.count > 0 || n.collision.detected
  }

  /** The CF message is for this node, or for everyone. */
  predicate ForMe(n: Node, m: CF.CFFields) {
    Id(m.dest0, m.dest1) == BROADCAST || Id(m.dest0, m.dest1) == n.cfg.nodeId
  }

  /** The timer side of a turn: the next CF slot, with its timer re-armed unless it was the last. */
  function CfTick(n: Node, expired: bool): (r: Node)
    requires GoodNode(n) && n.frame.currentCfSlot < |n.cfg.frequencies|
    ensures GoodNode(r) && r.frame.currentCfSlot <= |r.cfg.frequencies| && r.cfg == n.cfg
  {
    if HasPassed(n.timers, n.frame.cfTimer, expired) then
      var t := n.(timers := n.timers - {n.frame.cfTimer},
                  frame := n.frame.(currentCfSlot := n.frame.currentCfSlot + 1));
      if t.frame.currentCfSlot == |n.cfg.frequencies| then t else ArmCfTimer(t)
    else n
  }

  /** The radio side when the node listens: cf is the CF slot in which the turn began. */
  function CfListen(n: Node, c: CfState, cf: nat, heard: Option<CF.CFFields>): (r: (Node, CfState, CfTurn))
    requires GoodNode(n) && cf < |n.cfg.frequencies|
    ensures GoodNode(r.0) && r.0.frame == n.frame && r.0.cfg == n.cfg && r.2 != Over
  {
    if heard == None then (n, c, Silent)
    else
      var m := heard.value;
      if ForMe(n, m) then
        (n.(peers := n.peers.(transmitter := Id(m.node0, m.node1), receiveChannel := n.cfg.frequencies[cf],
                              isFirst := false)),
         c.(packets := Inc8(c.packets), receive := true), Addressed)
      else (n.(peers := n.peers.(isFirst := false)), c, Overheard)
  }

  /** One turn of the CF loop. */
  function CfTurnOf(n: Node, c: CfState, e: ActiveEvent): (r: (Node, CfState, CfTurn))
    requires GoodNode(n) && n.frame.currentCfSlot < |n.cfg.frequencies|
    ensures GoodNode(r.0) && r.0.cfg == n.cfg
    ensures r.2 == Over <==> r.0.frame.currentCfSlot == |n.cfg.frequencies|
    ensures r.2 != Over ==> r.0.frame.currentCfSlot < |n.cfg.frequencies|
  {
    var own := c.isCurrent && OwnChannel(n);
    var t := CfTick(n, e.expired);
    if t.frame.currentCfSlot == |n.cfg.frequencies| then (t, c, Over)
    else if own then
      if HasTraffic(t) || t.peers.isFirst then (t, c.(send := true, isCurrent := false), SentCf) else (t, c, Silent)
    else CfListen(t, c, n.frame.currentCfSlot, e.heard)
  }

  /** The CF loop: the node, the locals, whether it ended, and what each turn amounted to. */
  datatype CfRun = CfRun(node: Node, c: CfState, ended: bool, turns: seq<CfTurn>)

  function CfLoop(n: Node, c: CfState, events: seq<ActiveEvent>): (r: CfRun)
    requires GoodNode(n) && n.frame.currentCfSlot < |n.cfg.frequencies|
    ensures GoodNode(r.node) && r.node.cfg == n.cfg
    decreases |events|
  {
    if events == [] then CfRun(n, c, false, [])
    else
      var (t, d, what) := CfTurnOf(n, c, events[0]);
      if what == Over then CfRun(t, d, true, [Over])
      else
        var rest := CfLoop(t, d, events[1..]);
        rest.(turns := [what] + rest.turns)
  }

  /** The locals as the loop finds them. */
  function CfStart(n: Node): CfState {
    CfState(n.frame.currentSlot == n.cfg.selectedSlot, false, false, 0)
  }

  /** The node as the loop finds it: first CF slot, CF timer armed. */
  function CfEnter(n: Node): (r: Node)
    requires GoodNode(n)
    ensures GoodNode(r) && r.cfg == n.cfg && r.frame.currentCfSlot == 0
  {
    ArmCfTimer(n.(frame := n.frame.(currentCfSlot := 0)))
  }

  /** The verdict of the CF phase. */
  function CfVerdict(n: Node, c: CfState): Step {
    if (c.send && c.receive) || c.packets > 1 then
      Step(n.(next := PASSIVE, collision := n.collision.(internal := n.collision.internal || (c.send && c.receive))),
           CollisionDetected, true, NOTHING)
    else
      Step(n.(next := if c.receive then RECEIVE else if c.send then TRANSMIT else PASSIVE),
           ExecutionSuccess, true, NOTHING)
  }

  function ExecActive(n: Node, events: seq<ActiveEvent>): (s: Step)
    requires GoodNode(n)
    ensures GoodNode(s.node)
  {
    var r := CfLoop(CfEnter(n), CfStart(n), events);
    if r.ended then CfVerdict(r.node, r.c) else Step(r.node, ExecutionSuccess, false, NOTHING)
  }

  // --- TRANSMIT -----------------------------------------------------------------------------------

  /** mclmac_create_control_packet. */
  function ControlOf(n: Node): ControlFields {
    ControlFields(n.cfg.nodeId.hi, n.cfg.nodeId.lo, n.frame.currentFrame, n.frame.currentSlot,
                  n.collision.slot, n.collision.frequency, n.cfg.hopCount, n.networkTime, n.cfg.initTime,
                  n.cfg.occupied)
  }

  /** At which turns the slot timer is found to have passed. */
  function Passes(n: Node, expiries: seq<bool>): (r: seq<bool>)
    ensures |r| == |expiries|
  {
    seq(|expiries|, k requires 0 <= k < |expiries| => HasPassed(n.timers, n.frame.slotTimer, expiries[k]))
  }

  function ExecTransmit(n: Node, expiries: seq<bool>): (s: Step)
    requires GoodNode(n)
    ensures GoodNode(s.node)
  {
    var log := NOTHING.(announced := [ControlOf(n)]);
    if n.collision.detected then
      var t := n.(collision := Collision(false, false, 0, 0));
      if n.collision.internal then Step(t.(next := FINISHP), CollisionError, true, log)
      else Step(t.(next := PASSIVE), ExecutionSuccess, true, log)
    else
      var d := Drain(n.controls, n.messages, Passes(n, expiries));
      Step(n.(controls := d.controls, messages := d.messages, next := PASSIVE,
              timers := if d.expired then n.timers - {n.frame.slotTimer} else n.timers),
           ExecutionSuccess, true, log.(sent := d.sent))
  }

  // --- RECEIVE ------------------------------------------------------------------------------------

  /** A byte string received in one of the two attempts to hear a control packet. */
  type Air = b: seq<Octets.byte> | |b| == Octets.PACKET_SIZE_MAC witness seq(Octets.PACKET_SIZE_MAC, _ => 0)

  /** One turn of the receiving loop: whether the slot timer's time has come, and what the radio receives. */
  datatype ReceiveEvent = ReceiveEvent(expired: bool, packet: Option<DataFields>)

  /** The lower end of the accepted window: a uint64_t minus EPSILON, cut down to an int, negative taken as zero. */
  function WindowLow(own: uint64, epsilon: nat): uint64 {
    var d := (own - epsilon) % 0x1_0000_0000;
    if d >= 0x8000_0000 then 0 else d
  }

  function WindowHigh(own: uint64, epsilon: nat): uint64 {
    (own + epsilon) % 0x1_0000_0000_0000_0000
  }

  predicate OnTime(own: uint64, epsilon: nat, time: uint64) {
    WindowLow(own, epsilon) <= time <= WindowHigh(own, epsilon)
  }

  /** The checks on a control packet: None when it passes. */
  function CheckControl(n: Node, p: ControlFields): Option<Execution> {
    if p.collisionFrequency == n.cfg.transmitChannel && p.collisionSlot == n.cfg.selectedSlot then Some(CollisionError)
    else if p.currentSlot != n.frame.currentSlot || p.currentFrame != n.frame.currentFrame ||
            !OnTime(n.networkTime, n.cfg.epsilon, p.networkTime) then Some(SynchronizationError)
    else None
  }

  /** mclmac_receive_data_packet. */
  function Received(n: Node, packet: Option<DataFields>): (r: Node)
    requires GoodNode(n)
    ensures GoodNode(r)
  {
    if packet.Some? then n.(received := Arrived(n.received, packet.value)) else n
  }

  /** The receiving loop: until the ring is full or the slot timer has passed. */
  function ReceiveLoop(n: Node, events: seq<ReceiveEvent>): (r: (Node, bool))
    requires GoodNode(n)
    ensures GoodNode(r.0)
    decreases |events|
  {
    if n.received.count >= 2 * n.cfg.maxPackets then (n, true)
    else if events == [] then (n, false)
    else if HasPassed(n.timers, n.frame.slotTimer, events[0].expired) then (n, true)
    else ReceiveLoop(Received(n, events[0].packet), events[1..])
  }

  /** The packets the receiving loop takes in. */
  function ReceiveLog(n: Node, events: seq<ReceiveEvent>): seq<DataFields>
    requires GoodNode(n)
    decreases |events|
  {
    if n.received.count >= 2 * n.cfg.maxPackets || events == [] ||
       HasPassed(n.timers, n.frame.slotTimer, events[0].expired) then []
    else
      var packet := events[0].packet;
      (if packet.Some? then [packet.value] else []) + ReceiveLog(Received(n, packet), events[1..])
  }

  function HeardControl(n: Node, b: Air): (r: Node)
    requires GoodNode(n)
    ensures GoodNode(r)
  {
    n.(controlReceived := ControlPackets.Decode(n.controlReceived, b, |n.cfg.frequencies|, n.cfg.bytes))
  }

  /** A control packet heard only at the second attempt is decoded and then ignored. */
  function ExecReceive(n: Node, attempt1: Option<Air>, attempt2: Option<Air>, events: seq<ReceiveEvent>): (s: Step)
    requires GoodNode(n)
    ensures GoodNode(s.node)
  {
    if attempt1 == None then
      var t := if attempt2.Some? then HeardControl(n, attempt2.value) else n;
      Step(t.(next := PASSIVE), ExecutionSuccess, true, NOTHING)
    else
      var t := HeardControl(n, attempt1.value);
      var bad := CheckControl(t, t.controlReceived);
      if bad.Some? then Step(t.(next := FINISHP), bad.value, true, NOTHING)
      else
        var (u, done) := ReceiveLoop(t, events);
        Step(if done then u.(next := PASSIVE) else u, ExecutionSuccess, done,
             NOTHING.(arrived := ReceiveLog(t, events)))
  }

  // --- FINISHP, and any state -------------------------------------------------------------------

  function ExecFinish(n: Node): (r: Node)
    requires GoodNode(n)
    ensures GoodNode(r)
  {
    n.(peers := n.peers.(destination := BROADCAST), messages := Emptied(n.messages), controls := Emptied(n.controls),
       received := RingEmptied(n.received))
  }

  /** Everything the environment may do during one execution of one state. */
  datatype Script = Script(passive: seq<PassiveEvent>, active: seq<ActiveEvent>, expiries: seq<bool>,
                           attempt1: Option<Air>, attempt2: Option<Air>, data: seq<ReceiveEvent>)

  /** The environment does nothing. */
  const QUIET: Script := Script([], [], [], None, None, [])

  /** mclmac_execute_powermode_state. */
  function Execute(n: Node, s: Script): (r: Step)
    requires GoodNode(n)
    ensures GoodNode(r.node)
  {
    match n.power
    case NONEP => Step(n, ExecutionFailed, true, NOTHING)
    case STARTP => Step(ExecStart(n), ExecutionSuccess, true, NOTHING)
    case PASSIVE => ExecPassive(n, s.passive)
    case ACTIVE => ExecActive(n, s.active)
    case TRANSMIT => ExecTransmit(n, s.expiries)
    case RECEIVE => ExecReceive(n, s.attempt1, s.attempt2, s.data)
    case FINISHP => Step(ExecFinish(n), ExecutionSuccess, true, NOTHING)
    case IDLEP => Step(n, ExecutionSuccess, true, NOTHING)
  }
}
