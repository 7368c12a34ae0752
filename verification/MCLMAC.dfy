/**
 * The node as the C code keeps it: MCLMAC_t with its queues, and the power-mode machine that changes it in
 * place. Each method is proved to do to the fields what the function of the same state in module PowerModes
 * does to the node as a value, so every theorem about runs is a theorem about these methods.
 */
module MCLMACs {
  import opened Wrappers
  import opened ControlPackets
  import opened DataPackets
  import opened PacketQueues
  import opened PowerModes
  import opened MediumAccess
  import CF = CFPackets

  class MCLMAC {
    const cfg: Config
    var power: PowerMode
    var next: PowerMode
    var mac: MacState
    var macNext: MacState
    var frame: Frame
    var networkTime: uint64
    var collision: Collision
    var peers: Peers
    const controls: PacketQueue
    const messages: PacketQueue
    const received: PacketRing
    var controlReceived: ControlFields
    var timers: set<int>

    ghost predicate Valid()
      reads this, controls, messages, received
    {
      && GoodConfig(cfg)
      && controls != messages && controls.slots != messages.slots
      && controls.slots != received.slots && messages.slots != received.slots
      && controls.Valid() && messages.Valid() && received.Valid()
      && controls.slots.Length == messages.slots.Length == received.half == cfg.maxPackets
      && (forall h :: h in timers ==> 0 <= h < cfg.timeouts)
    }

    /** The node as a value. */
    ghost function Snapshot(): (n: Node)
      reads this, controls, controls.slots, messages, messages.slots, received, received.slots
      ensures Valid() ==> GoodNode(n)
    {
      Node(cfg, power, next, mac, macNext, frame, networkTime, collision, peers,
           controls.Value(), messages.Value(), received.Value(), controlReceived, timers)
    }

    constructor (cfg: Config, timers: set<int>, controlReceived: ControlFields)
      requires GoodConfig(cfg) && forall h :: h in timers ==> 0 <= h < cfg.timeouts
      ensures Valid() && this.cfg == cfg && this.timers == timers
      ensures fresh(controls) && fresh(messages) && fresh(received)
      ensures fresh(controls.slots) && fresh(messages.slots) && fresh(received.slots)
      ensures power == STARTP && next == NONEP && mac == START && macNext == NONE
    {
      this.cfg := cfg;
      power, next, mac, macNext := STARTP, NONEP, START, NONE;
      frame := Frame(0, 0, 0, 0, 0, 0);
      networkTime := 0;
      collision := Collision(false, false, 0, 0);
      peers := Peers(0, BROADCAST, BROADCAST, false);
      controls := new PacketQueue(cfg.maxPackets);
      messages := new PacketQueue(cfg.maxPackets);
      received := new PacketRing(cfg.maxPackets);
      this.controlReceived := controlReceived;
      this.timers := timers;
    }

    // --- Timers -----------------------------------------------------------------------------------

    method TimeoutSet() returns (h: int)
      requires Valid()
      modifies this`timers
      ensures Valid() && h == LeastFree(old(timers), 0, cfg.timeouts)
      ensures timers == WithTimer(old(timers), h, cfg.timeouts)
    {
      h := LeastFree(timers, 0, cfg.timeouts);
      timers := WithTimer(timers, h, cfg.timeouts);
    }

    // --- The updater --------------------------------------------------------------------------------

    /** mclmac_update_powermode_state_machine. */
    method UpdatePowerMode() returns (verdict: Transition)
      modifies this`power
      ensures (power, verdict) == UpdatePower(old(power), next)
    {
      if power == next {
        return NoTransition;
      }
      match next {
        case NONEP =>
          power := NONEP;
          return NoTransition;
        case PASSIVE =>
          if power == FINISHP {
            return TransitionError;
          }
          power := PASSIVE;
        case ACTIVE =>
          if power != PASSIVE {
            return TransitionError;
          }
          power := ACTIVE;
        case TRANSMIT =>
          if power != ACTIVE {
            return TransitionError;
          }
          power := TRANSMIT;
        case RECEIVE =>
          if power != ACTIVE {
            return TransitionError;
          }
          power := RECEIVE;
        case FINISHP =>
          if power == STARTP {
            return TransitionError;
          }
          if power == PASSIVE {
            return TransitionError;
          }
          power := FINISHP;
        case _ =>
          return InvalidState;
      }
      verdict := TransitionSuccess;
    }

    /** mclmac_update_mac_state_machine. */
    method UpdateMacState() returns (verdict: Transition)
      modifies this`mac
      ensures (mac, verdict) == UpdateMac(old(mac), macNext)
    {
      if mac == macNext {
        return NoTransition;
      }
      match macNext {
        case NONE => return NoTransition;
        case INITIALIZATION =>
          if mac == START || mac == MacState.MEDIUM_ACCESS {
            mac := INITIALIZATION;
          } else {
            return TransitionError;
          }
        case SYNCHRONIZATION =>
          if mac == START {
            return TransitionError;
          }
          mac := SYNCHRONIZATION;
        case TIMESLOT_AND_CHANNEL_SELECTION =>
          if mac == SYNCHRONIZATION {
            mac := TIMESLOT_AND_CHANNEL_SELECTION;
          } else {
            return TransitionError;
          }
        case MEDIUM_ACCESS =>
          if mac == TIMESLOT_AND_CHANNEL_SELECTION {
            mac := MacState.MEDIUM_ACCESS;
          } else {
            return TransitionError;
          }
        case FINISH =>
          if mac == MacState.MEDIUM_ACCESS {
            mac := FINISH;
          } else {
            return TransitionError;
          }
        case _ =>
          return InvalidState;
      }
      verdict := TransitionSuccess;
    }

    // --- STARTP -------------------------------------------------------------------------------------

    method ExecuteStart()
      requires Valid()
      modifies this, controls, messages, received
      ensures Valid() && Snapshot() == ExecStart(old(Snapshot()))
    {
      frame := frame.(slotsNumber := cfg.slots);
      frame := frame.(currentFrame := Inc32(cfg.wakeupFrame), currentSlot := 0, currentCfSlot := 0);
      messages.Rewind();
      controls.Rewind();
      received.Rewind();
      next := PASSIVE;
      var h := TimeoutSet();
      frame := frame.(slotTimer := h);
    }

    // --- PASSIVE ------------------------------------------------------------------------------------

    /** mclmac_read_queue_element. */
    method ReadQueueElement(upper: Option<DataFields>)
      requires Valid()
      modifies messages, messages.slots, controls, controls.slots
      ensures Valid() && Snapshot() == ReadQueue(old(Snapshot()), upper)
    {
      if messages.count + controls.count == 2 * cfg.maxPackets {
        return;
      }
      if upper == None {
        return;
      }
      var p := upper.value;
      if p.tag >= 7 && p.tag < 10 {
        messages.Accept(p);
      } else if p.tag >= 2 && p.tag < 7 {
        controls.Accept(p);
      }
    }

    /** mclmac_write_queue_element. */
    method WriteQueueElement(routable: bool) returns (given: Option<DataFields>)
      requires Valid()
      modifies received, received.slots
      ensures Valid() && Snapshot() == WriteQueue(old(Snapshot()), routable)
      ensures var g := old(Given(Snapshot(), routable)); given == if g == [] then None else Some(g[0])
    {
      if received.count == 0 {
        return None;
      }
      if !routable {
        return None;
      }
      var p := received.DeliverFirst();
      given := Some(p);
    }

    /** One turn of the waiting loop, and whether the node is to sleep on. */
    method PassiveTurnOnce(e: PassiveEvent) returns (sleep: bool)
      requires Valid()
      modifies this`timers, messages, messages.slots, controls, controls.slots, received, received.slots
      ensures Valid() && Snapshot() == PassiveTurn(old(Snapshot()), e)
      ensures sleep <==> !HasPassed(old(timers), frame.slotTimer, e.expired)
    {
      sleep := true;
      if HasPassed(timers, frame.slotTimer, e.expired) {
        timers := timers - {frame.slotTimer};
        sleep := false;
      }
      if e.upper == None && received.count == 0 {
        return;
      }
      ReadQueueElement(e.upper);
      var given := WriteQueueElement(e.routable);
    }

    method ExecutePassive(events: seq<PassiveEvent>) returns (done: bool)
      requires Valid()
      modifies this, messages, messages.slots, controls, controls.slots, received, received.slots
      ensures Valid()
      ensures var s := ExecPassive(old(Snapshot()), events); Snapshot() == s.node && done == s.done
    {
      frame := frame.(currentCfSlot := 0);
      ghost var start := Snapshot();
      var sleep := true;
      var i := 0;
      while sleep && i < |events|
        invariant Valid() && 0 <= i <= |events|
        invariant sleep ==> PassiveLoop(start, events) == PassiveLoop(Snapshot(), events[i..])
        invariant !sleep ==> PassiveLoop(start, events) == (Snapshot(), true)
      {
        sleep := PassiveTurnOnce(events[i]);
        i := i + 1;
      }
      if sleep {
        return false;
      }
      SlotPassed();
      done := true;
    }

    /** What PASSIVE does once its loop is over. */
    method SlotPassed()
      requires Valid()
      modifies this
      ensures Valid() && Snapshot() == PassiveEnd(old(Snapshot()))
    {
      frame := frame.(currentSlot := Inc8(frame.currentSlot));
      if frame.currentSlot == frame.slotsNumber {
        frame := frame.(currentFrame := Inc32(frame.currentFrame));
        frame := frame.(currentSlot := 0);
      }
      networkTime := Inc64(networkTime);
      var h := TimeoutSet();
      frame := frame.(slotTimer := h);
      next := ACTIVE;
    }

    // --- ACTIVE -------------------------------------------------------------------------------------

    /** The timer side of a turn of the CF loop: is the phase over? */
    method CfTimer(expired: bool) returns (ended: bool)
      requires Valid() && frame.currentCfSlot < |cfg.frequencies|
      modifies this`frame, this`timers
      ensures Valid() && Snapshot() == CfTick(old(Snapshot()), expired)
      ensures ended <==> frame.currentCfSlot == |cfg.frequencies|
    {
      ended := false;
      if HasPassed(timers, frame.cfTimer, expired) {
        timers := timers - {frame.cfTimer};
        frame := frame.(currentCfSlot := frame.currentCfSlot + 1);
        if frame.currentCfSlot == |cfg.frequencies| {
          ended := true;
        } else {
          var h := TimeoutSet();
          frame := frame.(cfTimer := h);
        }
      }
    }

    /** The radio side when there is a CF message to listen for; cf is the CF slot in which the turn began. */
    method ListenCf(c: CfState, cf: nat, heard: Option<CF.CFFields>) returns (d: CfState, ghost what: CfTurn)
      requires Valid() && cf < |cfg.frequencies|
      modifies this`peers
      ensures Valid() && (Snapshot(), d, what) == CfListen(old(Snapshot()), c, cf, heard)
    {
      d := c;
      if heard == None {
        return d, Silent;
      }
      what := Overheard;
      var m := heard.value;
      var destination := Id(m.dest0, m.dest1);
      if destination == cfg.nodeId || destination == BROADCAST {
        peers := peers.(transmitter := Id(m.node0, m.node1));
        peers := peers.(receiveChannel := cfg.frequencies[cf]);
        d := d.(packets := Inc8(d.packets), receive := true);
        what := Addressed;
      }
      if peers.isFirst {
        peers := peers.(isFirst := false);
      }
    }

    /** One turn of the CF loop. */
    method CfTurnOnce(c: CfState, e: ActiveEvent) returns (d: CfState, ended: bool, ghost what: CfTurn)
      requires Valid() && frame.currentCfSlot < |cfg.frequencies|
      modifies this`frame, this`timers, this`peers
      ensures Valid() && (Snapshot(), d, what) == CfTurnOf(old(Snapshot()), c, e)
      ensures ended <==> what == Over
    {
      var cf := frame.currentCfSlot;
      var own := c.isCurrent && cfg.transmitChannel == cfg.frequencies[cf];
      d, what := c, Over;
      ended := CfTimer(e.expired);
      if ended {
        return;
      }
      if own {
        what := Silent;
        if messages.count > 0 || controls.count > 0 || collision.detected {
          d := d.(send := true, isCurrent := false);
          what := SentCf;
        }
        if peers.isFirst {
          d := d.(send := true, isCurrent := false);
          what := SentCf;
        }
      } else {
        d, what := ListenCf(c, cf, e.heard);
      }
    }

    /** The CF loop. */
    method CfPhase(c0: CfState, events: seq<ActiveEvent>) returns (c: CfState, ended: bool)
      requires Valid() && frame.currentCfSlot < |cfg.frequencies|
      modifies this`frame, this`timers, this`peers
      ensures Valid()
      ensures var r := CfLoop(old(Snapshot()), c0, events); Snapshot() == r.node && c == r.c && ended == r.ended
    {
      ghost var start := Snapshot();
      c, ended := c0, false;
      var i := 0;
      while !ended && i < |events|
        invariant Valid() && 0 <= i <= |events|
        invariant !ended ==> frame.currentCfSlot < |cfg.frequencies|
        invariant var r := CfLoop(start, c0, events);
          if ended then Snapshot() == r.node && c == r.c && r.ended
          else
            var rest := CfLoop(Snapshot(), c, events[i..]);
            r.node == rest.node && r.c == rest.c && r.ended == rest.ended
      {
        ghost var what: CfTurn;
        c, ended, what := CfTurnOnce(c, events[i]);
        i := i + 1;
      }
    }

    /** What the CF loop finds when it is entered: the first CF slot, and its timer armed. */
    method EnterCf()
      requires Valid()
      modifies this`frame, this`timers
      ensures Valid() && Snapshot() == CfEnter(old(Snapshot()))
    {
      frame := frame.(currentCfSlot := 0);
      var h := TimeoutSet();
      frame := frame.(cfTimer := h);
    }

    /** What is made of the flags once the CF loop is over. */
    method ConcludeCf(c: CfState) returns (ret: Execution)
      requires Valid()
      modifies this`next, this`collision
      ensures Valid()
      ensures var s := CfVerdict(old(Snapshot()), c); Snapshot() == s.node && ret == s.ret
    {
      if (c.send && c.receive) || c.packets > 1 {
        next := PASSIVE;
        if c.send && c.receive {
          collision := collision.(internal := true);
        }
        return CollisionDetected;
      }
      if c.send {
        next := TRANSMIT;
      }
      if c.receive {
        next := RECEIVE;
      }
      if !c.send && !c.receive {
        next := PASSIVE;
      }
      ret := ExecutionSuccess;
    }

    method ExecuteActive(events: seq<ActiveEvent>) returns (ret: Execution, done: bool)
      requires Valid()
      modifies this
      ensures Valid()
      ensures var s := ExecActive(old(Snapshot()), events); Snapshot() == s.node && ret == s.ret && done == s.done
    {
      ret := ExecutionSuccess;
      var c := CfState(frame.currentSlot == cfg.selectedSlot, false, false, 0);
      EnterCf();
      c, done := CfPhase(c, events);
      if done {
        ret := ConcludeCf(c);
      }
    }

    // --- TRANSMIT -----------------------------------------------------------------------------------

    /** mclmac_send_data_packet. */
    method SendDataPacket() returns (sent: seq<DataFields>)
      requires Valid()
      modifies messages, messages.slots, controls, controls.slots
      ensures Valid()
      ensures var n := old(Snapshot());
        var r := SendOne(n.controls, n.messages);
        Snapshot() == n.(controls := r.0, messages := r.1) && sent == r.2
    {
      sent := [];
      if messages.count == 0 && controls.count == 0 {
        return;
      }
      if controls.count > 0 {
        var p := controls.SendFirst();
        sent := [p];
      } else if messages.count > 0 {
        var p := messages.SendFirst();
        sent := [p];
      }
    }

    /** One turn of the sending loop, and whether it is the last. */
    method DrainTurn(expired: bool) returns (end: bool, sent: seq<DataFields>)
      requires Valid()
      modifies this`timers, messages, messages.slots, controls, controls.slots
      ensures Valid()
      ensures var n := old(Snapshot());
        if HasPassed(n.timers, n.frame.slotTimer, expired) then
          end && sent == [] && Snapshot() == n.(timers := n.timers - {n.frame.slotTimer})
        else
          var r := SendOne(n.controls, n.messages);
          && Snapshot() == n.(controls := r.0, messages := r.1) && sent == r.2
          && (end <==> r.0.count + r.1.count == 0)
    {
      if HasPassed(timers, frame.slotTimer, expired) {
        timers := timers - {frame.slotTimer};
        return true, [];
      }
      sent := SendDataPacket();
      end := messages.count + controls.count == 0;
    }

    /** The sending loop: until both queues are empty, or the slot timer has passed. */
    method DrainQueues(expiries: seq<bool>) returns (sent: seq<DataFields>)
      requires Valid()
      modifies this`timers, messages, messages.slots, controls, controls.slots
      ensures Valid()
      ensures var n := old(Snapshot());
        var d := Drain(n.controls, n.messages, Passes(n, expiries));
        && Snapshot() == n.(controls := d.controls, messages := d.messages,
                            timers := if d.expired then n.timers - {n.frame.slotTimer} else n.timers)
        && sent == d.sent
    {
      ghost var n := Snapshot();
      ghost var passes := Passes(n, expiries);
      sent := [];
      var i := 0;
      var end := false;
      while !end
        invariant Valid() && i >= 0
        invariant Snapshot() == n.(controls := controls.Value(), messages := messages.Value(), timers := timers)
        invariant !end ==> timers == n.timers
        invariant var d := Drain(n.controls, n.messages, passes);
          if end then
            && d.controls == controls.Value() && d.messages == messages.Value() && d.sent == sent
            && timers == if d.expired then n.timers - {n.frame.slotTimer} else n.timers
          else
            d == AfterSending(sent, Drain(controls.Value(), messages.Value(), From(passes, i)))
        decreases if end then 0 else 1 + controls.count + messages.count
      {
        DrainUnrolled(controls.Value(), messages.Value(), passes, i, sent);
        var one: seq<DataFields>;
        end, one := DrainTurn(i < |expiries| && expiries[i]);
        sent := sent + one;
        i := i + 1;
      }
    }

    /** mclmac_create_control_packet. */
    method CreateControlPacket() returns (p: ControlFields)
      requires Valid()
      ensures p == ControlOf(Snapshot())
    {
      p := ControlFields(cfg.nodeId.hi, cfg.nodeId.lo, frame.currentFrame, frame.currentSlot, collision.slot,
                         collision.frequency, cfg.hopCount, networkTime, cfg.initTime, cfg.occupied);
    }

    /** The data packets sent, and the control packet sent before them. */
    method ExecuteTransmit(expiries: seq<bool>)
      returns (ret: Execution, sent: seq<DataFields>, announced: ControlFields)
      requires Valid()
      modifies this, messages, messages.slots, controls, controls.slots
      ensures Valid()
      ensures var s := ExecTransmit(old(Snapshot()), expiries);
        Snapshot() == s.node && ret == s.ret && sent == s.log.sent && s.log.announced == [announced]
    {
      announced := CreateControlPacket();
      sent := [];
      if collision.detected {
        var internal := collision.internal;
        collision := collision.(detected := false, slot := 0, frequency := 0);
        if internal {
          collision := collision.(internal := false);
          next := FINISHP;
          return CollisionError, sent, announced;
        }
        next := PASSIVE;
        return ExecutionSuccess, sent, announced;
      }
      sent := DrainQueues(expiries);
      next := PASSIVE;
      ret := ExecutionSuccess;
    }

    // --- RECEIVE ------------------------------------------------------------------------------------

    /** Listen to the control packet up to twice: at which attempt it was heard, 3 for none. */
    method HearControl(attempt1: Option<Air>, attempt2: Option<Air>) returns (count: nat)
      requires Valid()
      modifies this`controlReceived
      ensures Valid() && count == if attempt1.Some? then 1 else if attempt2.Some? then 2 else 3
      ensures Snapshot() == if attempt1.Some? then HeardControl(old(Snapshot()), attempt1.value)
                            else if attempt2.Some? then HeardControl(old(Snapshot()), attempt2.value)
                            else old(Snapshot())
    {
      count := 1;
      while count <= 2
        invariant 1 <= count <= 3
        invariant count > 1 ==> attempt1 == None
        invariant count > 2 ==> attempt2 == None
        invariant controlReceived == old(controlReceived)
      {
        var air := if count == 1 then attempt1 else attempt2;
        if air == None {
          count := count + 1;
          continue;
        }
        controlReceived := ControlPackets.Decode(controlReceived, air.value, |cfg.frequencies|, cfg.bytes);
        break;
      }
    }

    /** The receiving loop: until the ring is full or the slot timer has passed. */
    method ReceivePackets(events: seq<ReceiveEvent>) returns (done: bool)
      requires Valid()
      modifies received, received.slots
      ensures Valid() && (Snapshot(), done) == ReceiveLoop(old(Snapshot()), events)
    {
      ghost var start := Snapshot();
      var i := 0;
      while received.count < 2 * cfg.maxPackets && i < |events|
        invariant Valid() && 0 <= i <= |events|
        invariant ReceiveLoop(start, events) == ReceiveLoop(Snapshot(), events[i..])
      {
        if HasPassed(timers, frame.slotTimer, events[i].expired) {
          return true;
        }
        if events[i].packet.Some? {
          received.Arrive(events[i].packet.value);
        }
        i := i + 1;
      }
      done := received.count >= 2 * cfg.maxPackets;
    }

    /** The checks on the control packet. */
    method CheckReceived() returns (bad: Option<Execution>)
      requires Valid()
      ensures bad == CheckControl(Snapshot(), controlReceived)
    {
      var p := controlReceived;
      if p.collisionFrequency == cfg.transmitChannel && p.collisionSlot == cfg.selectedSlot {
        return Some(CollisionError);
      }
      var low, high := WindowLow(networkTime, cfg.epsilon), WindowHigh(networkTime, cfg.epsilon);
      var notOnTime := p.networkTime < low || p.networkTime > high;
      if p.currentSlot != frame.currentSlot || p.currentFrame != frame.currentFrame || notOnTime {
        return Some(SynchronizationError);
      }
      bad := None;
    }

    method ExecuteReceive(attempt1: Option<Air>, attempt2: Option<Air>, events: seq<ReceiveEvent>)
      returns (ret: Execution, done: bool)
      requires Valid()
      modifies this, received, received.slots
      ensures Valid()
      ensures var s := ExecReceive(old(Snapshot()), attempt1, attempt2, events);
        Snapshot() == s.node && ret == s.ret && done == s.done
    {
      ret, done := ExecutionSuccess, true;
      var count := HearControl(attempt1, attempt2);
      if count >= 2 {
        next := PASSIVE;
        return;
      }
      var bad := CheckReceived();
      if bad.Some? {
        next := FINISHP;
        return bad.value, true;
      }
      done := ReceivePackets(events);
      if done {
        next := PASSIVE;
      }
    }

    // --- FINISHP, and any state -------------------------------------------------------------------

    method ExecuteFinish()
      requires Valid()
      modifies this, messages, messages.slots, controls, controls.slots, received, received.slots
      ensures Valid() && Snapshot() == ExecFinish(old(Snapshot()))
    {
      peers := peers.(destination := BROADCAST);
      messages.Clear();
      controls.Clear();
      received.Clear();
    }

    /** mclmac_execute_powermode_state. */
    method ExecutePowerMode(s: Script) returns (ret: Execution, done: bool)
      requires Valid()
      modifies this, messages, messages.slots, controls, controls.slots, received, received.slots
      ensures Valid()
      ensures var step := Execute(old(Snapshot()), s); Snapshot() == step.node && ret == step.ret && done == step.done
    {
      ret, done := ExecutionSuccess, true;
      match power {
        case NONEP => ret := ExecutionFailed;
        case STARTP => ExecuteStart();
        case PASSIVE => done := ExecutePassive(s.passive);
        case ACTIVE => ret, done := ExecuteActive(s.active);
        case TRANSMIT =>
          var sent: seq<DataFields>;
          var announced: ControlFields;
          ret, sent, announced := ExecuteTransmit(s.expiries);
        case RECEIVE => ret, done := ExecuteReceive(s.attempt1, s.attempt2, s.data);
        case FINISHP => ExecuteFinish();
        case IDLEP =>
      }
    }

    // --- MEDIUM_ACCESS --------------------------------------------------------------------------------

    /** What the supervisor loop does about a return value: is it to go on? */
    method HandleReturn(ret: Execution) returns (execute: bool)
      requires Valid()
      modifies this`power, this`next, this`macNext, this`collision, this`peers
      ensures Valid() && Snapshot() == Handled(old(Snapshot()), ret) && (execute <==> !Leaves(ret))
    {
      execute := true;
      match ret {
        case ExecutionSuccess =>
          var verdict := UpdatePowerMode();
        case CollisionError =>
          next := FINISHP;
          macNext := SYNCHRONIZATION;
          execute := false;
        case SynchronizationError =>
          next := FINISHP;
          macNext := INITIALIZATION;
          execute := false;
        case CollisionDetected =>
          collision := collision.(detected := true);
          collision := collision.(slot := frame.currentSlot);
          collision := collision.(frequency := peers.receiveChannel);
          peers := peers.(destination := BROADCAST);
        case ExecutionFailed =>
      }
    }

    /** The way into the supervisor loop. */
    method EnterMediumAccess()
      requires Valid()
      modifies this, messages, controls, received
      ensures Valid() && Snapshot() == Enter(old(Snapshot()))
    {
      power, next := STARTP, NONEP;
      ExecuteStart();
      var verdict := UpdatePowerMode();
    }

    /** One turn of the supervisor loop, and after the last one what follows it. */
    method SuperviseOnce(s: Script, ghost r: Run) returns (status: Status, ghost t: Run)
      requires Valid() && r.node == Snapshot() && r.status == Running
      modifies this, messages, messages.slots, controls, controls.slots, received, received.slots
      ensures Valid() && t == Supervise(r, s) && t.node == Snapshot() && t.status == status
    {
      t := Supervise(r, s);
      var ret, done := ExecutePowerMode(s);
      if !done {
        return Waiting, t;
      }
      var execute := HandleReturn(ret);
      status := Running;
      if !execute {
        var verdict := UpdatePowerMode();
        ret, done := ExecutePowerMode(s);
        status := Exited;
      }
    }

    /**
     * The MEDIUM_ACCESS state of mclmac_execute_mac_state_machine, for as long as the environment's scripts last: the
     * fields end up as in the run of the same scripts.
     */
    method RunMediumAccess(scripts: seq<Script>) returns (status: Status)
      requires Valid()
      modifies this, messages, messages.slots, controls, controls.slots, received, received.slots
      ensures Valid()
      ensures var r := RunMedium(old(Snapshot()), scripts); Snapshot() == r.node && status == r.status
    {
      ghost var start := Snapshot();
      EnterMediumAccess();
      status := Running;
      ghost var r := RunMedium(start, []);
      var i := 0;
      while status == Running && i < |scripts|
        invariant Valid() && 0 <= i <= |scripts|
        invariant r == RunMedium(start, scripts[..i]) && r.node == Snapshot() && r.status == status
      {
        assert scripts[..i + 1][..i] == scripts[..i];
        status, r := SuperviseOnce(scripts[i], r);
        i := i + 1;
      }
      StoppedStays(start, scripts, i);
    }
  }

  /** The turns from i on. */
  function From(passes: seq<bool>, i: nat): seq<bool> {
    if i <= |passes| then passes[i..] else []
  }

  function AfterSending(sent: seq<DataFields>, d: Drained): Drained {
    d.(sent := sent + d.sent)
  }

  /** The sending loop, one turn at a time. */
  lemma DrainUnrolled(controls: SendQueue, messages: SendQueue, passes: seq<bool>, i: nat, sent: seq<DataFields>)
    requires Indexed(controls) && Indexed(messages)
    ensures AfterSending(sent, Drain(controls, messages, From(passes, i))) ==
            if i < |passes| && passes[i] then Drained(controls, messages, sent, true)
            else
              var (c, m, s) := SendOne(controls, messages);
              if c.count + m.count == 0 then Drained(c, m, sent + s, false)
              else AfterSending(sent + s, Drain(c, m, From(passes, i + 1)))
  {
    if !(i < |passes| && passes[i]) {
      var (c, m, s) := SendOne(controls, messages);
      assert From(passes, i) != [] ==> From(passes, i)[1..] == From(passes, i + 1);
      assert From(passes, i) == [] ==> From(passes, i + 1) == [];
      var rest := Drain(c, m, From(passes, i + 1)).sent;
      assert sent + (s + rest) == (sent + s) + rest;
    }
  }

  /** A run that is no longer running does not change any more. */
  lemma {:induction false} StoppedStays(n: Node, scripts: seq<Script>, i: nat)
    requires GoodNode(n) && i <= |scripts|
    requires i == |scripts| || RunMedium(n, scripts[..i]).status != Running
    ensures RunMedium(n, scripts) == RunMedium(n, scripts[..i])
  {
    if i == |scripts| {
      assert scripts[..i] == scripts;
    } else {
      var before := scripts[..|scripts| - 1];
      assert before[..i] == scripts[..i];
      StoppedStays(n, before, i);
    }
  }
}
