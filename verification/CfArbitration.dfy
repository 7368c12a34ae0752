/**
 * The CF phase (MAC/MAC_PowerMode_StateMachine.c, state ACTIVE): what its verdict means in terms of what was
 * sent and heard, for every behaviour of the timer and the radio.
 */
module CfArbitration {
  import opened Wrappers
  import opened PowerModes
  import Division

  /** The uint8_t that counts CF slots cannot wrap: as many frequencies as a control packet has room for fit in it. */
  lemma CfSlotFits(c: Config)
    requires GoodConfig(c)
    ensures |c.frequencies| <= 215
  {
    if |c.frequencies| > 215 {
      Division.MulAtLeast(c.bytes, |c.frequencies|);
    }
  }

  /** How many turns amounted to what. */
  function Count(turns: seq<CfTurn>, what: CfTurn): nat {
    if turns == [] then 0 else (if turns[0] == what then 1 else 0) + Count(turns[1..], what)
  }

  /** In how many of the first k turns the time of the CF timer had come. */
  function Expiries(events: seq<ActiveEvent>, k: nat): nat
    requires k <= |events|
  {
    if k == 0 then 0 else (if events[0].expired then 1 else 0) + Expiries(events[1..], k - 1)
  }

  /** The node and the locals at the beginning of turn i. */
  function AtTurn(n: Node, c: CfState, events: seq<ActiveEvent>, i: nat): (r: (Node, CfState))
    requires GoodNode(n) && n.frame.currentCfSlot < |n.cfg.frequencies| && i < |CfLoop(n, c, events).turns|
    decreases i
    ensures GoodNode(r.0) && r.0.cfg == n.cfg && r.0.frame.currentCfSlot < |n.cfg.frequencies|
  {
    if i == 0 then (n, c)
    else
      var (t, d, _) := CfTurnOf(n, c, events[0]);
      AtTurn(t, d, events[1..], i - 1)
  }

  /** What one turn does to the locals. */
  lemma TurnFacts(n: Node, c: CfState, e: ActiveEvent)
    requires GoodNode(n) && n.frame.currentCfSlot < |n.cfg.frequencies|
    ensures var (t, d, what) := CfTurnOf(n, c, e);
      && (what == SentCf ==>
            && c.isCurrent && OwnChannel(n) && (HasTraffic(n) || n.peers.isFirst)
            && d == c.(send := true, isCurrent := false))
      && (what == Addressed ==> d == c.(packets := Inc8(c.packets), receive := true))
      && (what != SentCf && what != Addressed ==> d == c)
      && (HasTraffic(t) <==> HasTraffic(n)) && (t.peers.isFirst ==> n.peers.isFirst)
  {
  }

  lemma CountMore(what: CfTurn, turns: seq<CfTurn>, w: CfTurn)
    ensures Count([what] + turns, w) == (if what == w then 1 else 0) + Count(turns, w)
  {
    assert ([what] + turns)[1..] == turns;
  }

  /** What the flags of the loop count, and that a node sends at most once. */
  lemma {:induction false} CfLoopCounts(n: Node, c: CfState, events: seq<ActiveEvent>)
    requires GoodNode(n) && n.frame.currentCfSlot < |n.cfg.frequencies|
    ensures var r := CfLoop(n, c, events);
      var sends, addressed := Count(r.turns, SentCf), Count(r.turns, Addressed);
      && |r.turns| <= |events|
      && sends <= (if c.isCurrent then 1 else 0)
      && (r.c.send <==> c.send || sends > 0)
      && (r.c.receive <==> c.receive || addressed > 0)
      && Count(r.turns, Over) == if r.ended then 1 else 0
    decreases |events|
  {
    if events != [] {
      var (t, d, what) := CfTurnOf(n, c, events[0]);
      var rest := if what == Over then [] else CfLoop(t, d, events[1..]).turns;
      TurnFacts(n, c, events[0]);
      CountMore(what, rest, SentCf);
      CountMore(what, rest, Addressed);
      CountMore(what, rest, Over);
      if what != Over {
        CfLoopCounts(t, d, events[1..]);
      } else {
        assert [Over] + rest == [Over];
      }
    }
  }

  /** The uint8_t that counts the messages for the node. */
  lemma {:induction false} CfLoopPackets(n: Node, c: CfState, events: seq<ActiveEvent>)
    requires GoodNode(n) && n.frame.currentCfSlot < |n.cfg.frequencies|
    ensures var r := CfLoop(n, c, events); r.c.packets == CountedUp(c.packets, Count(r.turns, Addressed))
    decreases |events|
  {
    if events != [] {
      var (t, d, what) := CfTurnOf(n, c, events[0]);
      var rest := if what == Over then [] else CfLoop(t, d, events[1..]).turns;
      TurnFacts(n, c, events[0]);
      CountMore(what, rest, Addressed);
      if what == Addressed {
        assert CountedUp(c.packets, 1 + Count(rest, Addressed)) == CountedUp(d.packets, Count(rest, Addressed));
      }
      if what != Over {
        CfLoopPackets(t, d, events[1..]);
      } else {
        assert [Over] + rest == [Over];
      }
    }
  }

  /** A uint8_t counted up k times. */
  function CountedUp(p: uint8, k: nat): uint8
    decreases k
  {
    if k == 0 then p else CountedUp(Inc8(p), k - 1)
  }

  lemma {:induction false} CountedUpIsMod(p: uint8, k: nat)
    ensures CountedUp(p, k) == (p + k) % 256
    decreases k
  {
    if k > 0 {
      CountedUpIsMod(Inc8(p), k - 1);
    }
  }

  /** A CF message goes out only in the own slot, in a turn that began on the own channel, when there is traffic. */
  lemma {:induction false} SendsOnlyOnOwnChannel(n: Node, c: CfState, events: seq<ActiveEvent>, i: nat)
    requires GoodNode(n) && n.frame.currentCfSlot < |n.cfg.frequencies|
    ensures var turns := CfLoop(n, c, events).turns;
      i < |turns| && turns[i] == SentCf ==>
        && c.isCurrent && OwnChannel(AtTurn(n, c, events, i).0)
        && (HasTraffic(n) || n.peers.isFirst)
    decreases i
  {
    if i < |CfLoop(n, c, events).turns| {
      var (t, d, what) := CfTurnOf(n, c, events[0]);
      TurnFacts(n, c, events[0]);
      if i > 0 {
        SendsOnlyOnOwnChannel(t, d, events[1..], i - 1);
      }
    }
  }

  /** The phase ends after exactly one expiry of the CF timer for every frequency. */
  lemma {:induction false} CfPhaseLength(n: Node, c: CfState, events: seq<ActiveEvent>)
    requires GoodNode(n) && n.frame.currentCfSlot < |n.cfg.frequencies| && CfLoop(n, c, events).ended
    ensures var k := |CfLoop(n, c, events).turns|;
      && k <= |events| && n.frame.cfTimer in n.timers
      && n.frame.currentCfSlot + Expiries(events, k) == |n.cfg.frequencies|
    decreases |events|
  {
    var (t, d, what) := CfTurnOf(n, c, events[0]);
    if what != Over {
      CfPhaseLength(t, d, events[1..]);
    } else {
      assert Expiries(events[1..], 0) == 0;
    }
  }

  /**
   * The verdict of a completed CF phase. At most one turn sent; there is a collision iff the node both sent and was
   * addressed, or was addressed more than once, as a uint8_t counts (see CountedUpIsMod); otherwise comes RECEIVE when
   * it was addressed, TRANSMIT when it sent, PASSIVE when neither.
   */
  lemma Arbitration(n: Node, events: seq<ActiveEvent>)
    requires GoodNode(n) && ExecActive(n, events).done
    ensures var s := ExecActive(n, events);
      var turns := CfLoop(CfEnter(n), CfStart(n), events).turns;
      var sends, addressed := Count(turns, SentCf), Count(turns, Addressed);
      && sends <= 1 && (sends == 1 ==> n.frame.currentSlot == n.cfg.selectedSlot)
      && (s.ret == CollisionDetected <==> (sends == 1 && addressed >= 1) || CountedUp(0, addressed) > 1)
      && (s.ret == CollisionDetected || s.ret == ExecutionSuccess)
      && (s.ret == ExecutionSuccess ==>
            s.node.next == if addressed >= 1 then RECEIVE else if sends == 1 then TRANSMIT else PASSIVE)
      && (s.ret == CollisionDetected ==> s.node.next == PASSIVE)
      && (s.ret == CollisionDetected && sends == 1 && addressed >= 1 ==> s.node.collision.internal)
  {
    CfLoopCounts(CfEnter(n), CfStart(n), events);
    CfLoopPackets(CfEnter(n), CfStart(n), events);
  }

  /** With fewer than 256 messages for the node the count is exact. */
  lemma ArbitrationExact(n: Node, events: seq<ActiveEvent>)
    requires GoodNode(n) && ExecActive(n, events).done
    requires Count(CfLoop(CfEnter(n), CfStart(n), events).turns, Addressed) < 256
    ensures var turns := CfLoop(CfEnter(n), CfStart(n), events).turns;
      var sends, addressed := Count(turns, SentCf), Count(turns, Addressed);
      ExecActive(n, events).ret == CollisionDetected <==> (sends >= 1 && addressed >= 1) || addressed >= 2
  {
    Arbitration(n, events);
    CountedUpSmall(Count(CfLoop(CfEnter(n), CfStart(n), events).turns, Addressed));
  }

  lemma CountedUpSmall(k: nat)
    requires k < 256
    ensures CountedUp(0, k) == k
  {
    CountedUpIsMod(0, k);
  }
}
