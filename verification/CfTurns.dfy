/**
 * The CF phase once more, in terms of what the environment does: which turns send, which messages count as
 * addressed, whose they were, and what the phase makes of them.
 */
module CfTurns {
  import opened Wrappers
  import opened PowerModes
  import opened MediumAccess
  import opened RunShapes
  import opened CfArbitration
  import CF = CFPackets

  // --- One turn -----------------------------------------------------------------------------------

  /** The CF timer passes in the last CF slot. */
  predicate Ends(n: Node, e: ActiveEvent) {
    e.expired && n.frame.cfTimer in n.timers && n.frame.currentCfSlot + 1 == |n.cfg.frequencies|
  }

  /** The turn began on the node's own channel, and the node may still send. */
  predicate OwnTurn(n: Node, c: CfState)
    requires n.frame.currentCfSlot < |n.cfg.frequencies|
  {
    c.isCurrent && n.cfg.frequencies[n.frame.currentCfSlot] == n.cfg.transmitChannel
  }

  predicate Sends(n: Node, c: CfState, e: ActiveEvent)
    requires n.frame.currentCfSlot < |n.cfg.frequencies|
  {
    && !Ends(n, e) && OwnTurn(n, c)
    && (n.messages.count > 0 || n.controls.count > 0 || n.collision.detected || n.peers.isFirst)
  }

  predicate Hears(n: Node, c: CfState, e: ActiveEvent)
    requires n.frame.currentCfSlot < |n.cfg.frequencies|
  {
    !Ends(n, e) && !OwnTurn(n, c) && e.heard.Some?
  }

  /** The destination of the message is zero, which is everyone, or the node. */
  predicate ToNode(n: Node, m: CF.CFFields) {
    (m.dest0 == 0 && m.dest1 == 0) || (m.dest0 == n.cfg.nodeId.hi && m.dest1 == n.cfg.nodeId.lo)
  }

  predicate HearsOwn(n: Node, c: CfState, e: ActiveEvent)
    requires n.frame.currentCfSlot < |n.cfg.frequencies|
  {
    Hears(n, c, e) && ToNode(n, e.heard.value)
  }

  /** What a turn amounts to, exactly, and what it leaves behind of the message it heard. */
  lemma TurnMeaning(n: Node, c: CfState, e: ActiveEvent)
    requires GoodNode(n) && n.frame.currentCfSlot < |n.cfg.frequencies|
    ensures var (t, d, what) := CfTurnOf(n, c, e);
      && (what == Over <==> Ends(n, e))
      && (what == SentCf <==> Sends(n, c, e))
      && (what == Addressed <==> HearsOwn(n, c, e))
      && (what == Overheard <==> Hears(n, c, e) && !ToNode(n, e.heard.value))
      && (d.isCurrent <==> c.isCurrent && !Sends(n, c, e))
    ensures var t := CfTurnOf(n, c, e).0;
      && (t.peers.isFirst <==> n.peers.isFirst && !Hears(n, c, e))
      && t.peers.destination == n.peers.destination
      && t.peers.transmitter == (if HearsOwn(n, c, e) then Id(e.heard.value.node0, e.heard.value.node1)
                                 else n.peers.transmitter)
      && t.peers.receiveChannel == (if HearsOwn(n, c, e) then n.cfg.frequencies[n.frame.currentCfSlot]
                                    else n.peers.receiveChannel)
  {
  }

  // --- All turns ------------------------------------------------------------------------------------

  /** The turns of a CF loop are those of its node at the beginning of each turn. */
  lemma {:induction false} TurnsAre(n: Node, c: CfState, events: seq<ActiveEvent>, i: nat)
    requires GoodNode(n) && n.frame.currentCfSlot < |n.cfg.frequencies|
    ensures var turns := CfLoop(n, c, events).turns;
      && |turns| <= |events|
      && (i < |turns| ==> var (m, d) := AtTurn(n, c, events, i); turns[i] == CfTurnOf(m, d, events[i]).2)
    decreases |events|
  {
    if events != [] {
      var (t, d, what) := CfTurnOf(n, c, events[0]);
      if what != Over {
        TurnsAre(t, d, events[1..], if i > 0 then i - 1 else 0);
      }
    }
  }

  /** A node may still send as long as it has not sent. */
  lemma {:induction false} CurrentUntilSent(n: Node, c: CfState, events: seq<ActiveEvent>, i: nat)
    requires GoodNode(n) && n.frame.currentCfSlot < |n.cfg.frequencies| && i < |CfLoop(n, c, events).turns|
    ensures AtTurn(n, c, events, i).1.isCurrent <==> c.isCurrent && SentCf !in CfLoop(n, c, events).turns[..i]
    decreases i
  {
    if i > 0 {
      var (t, d, what) := CfTurnOf(n, c, events[0]);
      TurnMeaning(n, c, events[0]);
      var rest := CfLoop(t, d, events[1..]).turns;
      assert CfLoop(n, c, events).turns[..i] == [what] + rest[..i - 1];
      CurrentUntilSent(t, d, events[1..], i - 1);
    }
  }

  lemma {:induction false} CountSome(turns: seq<CfTurn>, what: CfTurn)
    ensures Count(turns, what) >= 1 <==> exists i :: 0 <= i < |turns| && turns[i] == what
  {
    if turns != [] {
      CountSome(turns[1..], what);
      if turns[0] == what {
      } else if i :| 0 <= i < |turns| && turns[i] == what {
        assert turns[1..][i - 1] == what;
      }
    }
  }

  lemma {:induction false} CountTwo(turns: seq<CfTurn>, what: CfTurn)
    ensures Count(turns, what) >= 2 <==> exists i, j :: 0 <= i < j < |turns| && turns[i] == turns[j] == what
  {
    if turns != [] {
      var rest := turns[1..];
      CountTwo(rest, what);
      CountSome(rest, what);
      if Count(turns, what) >= 2 {
        if turns[0] == what {
          var j :| 0 <= j < |rest| && rest[j] == what;
          assert turns[0] == turns[j + 1] == what;
        } else {
          var i, j :| 0 <= i < j < |rest| && rest[i] == rest[j] == what;
          assert turns[i + 1] == turns[j + 1] == what;
        }
      }
      if i, j :| 0 <= i < j < |turns| && turns[i] == turns[j] == what {
        assert rest[j - 1] == what;
        if i > 0 {
          assert rest[i - 1] == what;
        }
      }
    }
  }

  // --- The phase ------------------------------------------------------------------------------------

  /** How many turns the CF phase of a node takes. */
  function Turns(n: Node, events: seq<ActiveEvent>): nat
    requires GoodNode(n)
  {
    |CfLoop(CfEnter(n), CfStart(n), events).turns|
  }

  /** The node at the beginning of turn i of its CF phase, and whether it may still send. */
  function InTurn(n: Node, events: seq<ActiveEvent>, i: nat): (r: (Node, CfState))
    requires GoodNode(n) && i < Turns(n, events)
    ensures GoodNode(r.0) && r.0.cfg == n.cfg && r.0.frame.currentCfSlot < |n.cfg.frequencies|
  {
    AtTurn(CfEnter(n), CfStart(n), events, i)
  }

  ghost predicate SendsIn(n: Node, events: seq<ActiveEvent>, i: nat)
    requires GoodNode(n)
  {
    i < Turns(n, events) <= |events| && Sends(InTurn(n, events, i).0, InTurn(n, events, i).1, events[i])
  }

  ghost predicate HearsOwnIn(n: Node, events: seq<ActiveEvent>, i: nat)
    requires GoodNode(n)
  {
    i < Turns(n, events) <= |events| && HearsOwn(InTurn(n, events, i).0, InTurn(n, events, i).1, events[i])
  }

  ghost predicate SomeSends(n: Node, events: seq<ActiveEvent>)
    requires GoodNode(n)
  {
    exists i: nat :: SendsIn(n, events, i)
  }

  ghost predicate SomeOwn(n: Node, events: seq<ActiveEvent>)
    requires GoodNode(n)
  {
    exists i: nat :: HearsOwnIn(n, events, i)
  }

  ghost predicate TwoOwn(n: Node, events: seq<ActiveEvent>)
    requires GoodNode(n)
  {
    exists i: nat, j: nat :: i < j && HearsOwnIn(n, events, i) && HearsOwnIn(n, events, j)
  }

  lemma PhaseTurn(n: Node, events: seq<ActiveEvent>, i: nat)
    requires GoodNode(n)
    ensures var turns := CfLoop(CfEnter(n), CfStart(n), events).turns;
      && (SendsIn(n, events, i) <==> i < |turns| && turns[i] == SentCf)
      && (HearsOwnIn(n, events, i) <==> i < |turns| && turns[i] == Addressed)
  {
    TurnsAre(CfEnter(n), CfStart(n), events, i);
    if i < Turns(n, events) {
      var (m, d) := InTurn(n, events, i);
      TurnMeaning(m, d, events[i]);
    }
  }

  /** What was counted is what happened. */
  lemma PhaseCounts(n: Node, events: seq<ActiveEvent>)
    requires GoodNode(n)
    ensures var turns := CfLoop(CfEnter(n), CfStart(n), events).turns;
      && (Count(turns, SentCf) >= 1 <==> SomeSends(n, events))
      && (Count(turns, Addressed) >= 1 <==> SomeOwn(n, events))
      && (Count(turns, Addressed) >= 2 <==> TwoOwn(n, events))
  {
    var turns := CfLoop(CfEnter(n), CfStart(n), events).turns;
    forall i: nat
      ensures SendsIn(n, events, i) <==> i < |turns| && turns[i] == SentCf
      ensures HearsOwnIn(n, events, i) <==> i < |turns| && turns[i] == Addressed
    {
      PhaseTurn(n, events, i);
    }
    CountSome(turns, SentCf);
    CountSome(turns, Addressed);
    CountTwo(turns, Addressed);
  }

  /**
   * The verdict of a completed CF phase in terms of what the radio brought. The phase is an internal collision iff the
   * node sent and heard a message of its own; it is reported as a collision in that case, and in no case in which
   * there was at most one message and no such clash; otherwise the next state is RECEIVE, TRANSMIT or PASSIVE.
   */
  lemma PhaseVerdict(n: Node, events: seq<ActiveEvent>)
    requires GoodNode(n) && ExecActive(n, events).done
    ensures var s := ExecActive(n, events);
      && s.node.collision ==
           n.collision.(internal := n.collision.internal || (SomeSends(n, events) && SomeOwn(n, events)))
      && (SomeSends(n, events) && SomeOwn(n, events) ==> s.ret == CollisionDetected)
      && (s.ret == CollisionDetected ==> (SomeSends(n, events) && SomeOwn(n, events)) || TwoOwn(n, events))
      && (s.ret == CollisionDetected || s.ret == ExecutionSuccess)
      && s.node.next == (if s.ret == CollisionDetected then PASSIVE
                         else if SomeOwn(n, events) then RECEIVE
                         else if SomeSends(n, events) then TRANSMIT
                         else PASSIVE)
  {
    Arbitration(n, events);
    PhaseCounts(n, events);
    CfLoopCounts(CfEnter(n), CfStart(n), events);
    CfLoopKeeps(CfEnter(n), CfStart(n), events);
    CountedUpFew(Count(CfLoop(CfEnter(n), CfStart(n), events).turns, Addressed));
  }

  lemma CountedUpFew(k: nat)
    ensures k <= 1 ==> CountedUp(0, k) <= 1
  {
    CountedUpIsMod(0, k);
  }

  /** With fewer than 256 messages for the node, two of them are always reported as a collision. */
  lemma PhaseCollisionIff(n: Node, events: seq<ActiveEvent>)
    requires GoodNode(n) && ExecActive(n, events).done
    requires Count(CfLoop(CfEnter(n), CfStart(n), events).turns, Addressed) < 256
    ensures ExecActive(n, events).ret == CollisionDetected <==>
            (SomeSends(n, events) && SomeOwn(n, events)) || TwoOwn(n, events)
  {
    ArbitrationExact(n, events);
    PhaseCounts(n, events);
  }

  /** What the turns of a CF loop leave as it was. */
  ghost predicate SamePhase(m: Node, n: Node) {
    && m.messages == n.messages && m.controls == n.controls && m.collision == n.collision
    && m.frame.currentSlot == n.frame.currentSlot && (m.peers.isFirst ==> n.peers.isFirst)
  }

  lemma TurnSame(n: Node, c: CfState, e: ActiveEvent)
    requires GoodNode(n) && n.frame.currentCfSlot < |n.cfg.frequencies|
    ensures SamePhase(CfTurnOf(n, c, e).0, n)
  {
  }

  /** The node in turn i has the queues and the record of collisions it had when the phase began. */
  lemma {:induction false} TurnKeeps(n: Node, c: CfState, events: seq<ActiveEvent>, i: nat)
    requires GoodNode(n) && n.frame.currentCfSlot < |n.cfg.frequencies| && i < |CfLoop(n, c, events).turns|
    ensures SamePhase(AtTurn(n, c, events, i).0, n)
    decreases i
  {
    if i > 0 {
      var (t, d, what) := CfTurnOf(n, c, events[0]);
      TurnSame(n, c, events[0]);
      TurnKeeps(t, d, events[1..], i - 1);
    }
  }

  /** A node sends at most once, in its own slot, with something to announce. */
  lemma SendsOnce(n: Node, events: seq<ActiveEvent>, i: nat, j: nat)
    requires GoodNode(n) && SendsIn(n, events, i) && SendsIn(n, events, j)
    ensures i == j && n.frame.currentSlot == n.cfg.selectedSlot
    ensures n.messages.count > 0 || n.controls.count > 0 || n.collision.detected || n.peers.isFirst
  {
    var turns := CfLoop(CfEnter(n), CfStart(n), events).turns;
    PhaseTurn(n, events, i);
    PhaseTurn(n, events, j);
    CurrentUntilSent(CfEnter(n), CfStart(n), events, i);
    CurrentUntilSent(CfEnter(n), CfStart(n), events, j);
    TurnKeeps(CfEnter(n), CfStart(n), events, i);
  }

  /**
   * And it does send: a node in its own slot with something queued or a collision to announce has sent by the end of
   * the first turn that begins on its own channel.
   */
  lemma TrafficIsAnnounced(n: Node, events: seq<ActiveEvent>, i: nat)
    requires GoodNode(n) && i < Turns(n, events) && n.frame.currentSlot == n.cfg.selectedSlot
    requires n.messages.count > 0 || n.controls.count > 0 || n.collision.detected
    ensures var m := InTurn(n, events, i).0;
      m.cfg.frequencies[m.frame.currentCfSlot] == m.cfg.transmitChannel && i < |events| && !Ends(m, events[i]) ==>
        exists j: nat :: j <= i && SendsIn(n, events, j)
  {
    var turns := CfLoop(CfEnter(n), CfStart(n), events).turns;
    var (m, d) := InTurn(n, events, i);
    TurnsAre(CfEnter(n), CfStart(n), events, i);
    CurrentUntilSent(CfEnter(n), CfStart(n), events, i);
    TurnKeeps(CfEnter(n), CfStart(n), events, i);
    if m.cfg.frequencies[m.frame.currentCfSlot] == m.cfg.transmitChannel && !Ends(m, events[i]) {
      if SentCf in turns[..i] {
        var j :| 0 <= j < i && turns[j] == SentCf;
        PhaseTurn(n, events, j);
        assert j <= i && SendsIn(n, events, j);
      } else {
        assert i <= i && SendsIn(n, events, i);
      }
    }
  }

  // --- Whose message it was ---------------------------------------------------------------------------

  lemma {:induction false} NoneAddressed(n: Node, c: CfState, events: seq<ActiveEvent>)
    requires GoodNode(n) && n.frame.currentCfSlot < |n.cfg.frequencies|
    requires Addressed !in CfLoop(n, c, events).turns
    ensures var p := CfLoop(n, c, events).node.peers;
      p.transmitter == n.peers.transmitter && p.receiveChannel == n.peers.receiveChannel
    decreases |events|
  {
    if events != [] {
      var (t, d, what) := CfTurnOf(n, c, events[0]);
      TurnMeaning(n, c, events[0]);
      if what != Over {
        var rest := CfLoop(t, d, events[1..]).turns;
        assert CfLoop(n, c, events).turns == [what] + rest;
        NoneAddressed(t, d, events[1..]);
      } else {
        assert CfLoop(n, c, events).turns[0] == Over;
      }
    }
  }

  lemma {:induction false} LastAddressed(n: Node, c: CfState, events: seq<ActiveEvent>, i: nat)
    requires GoodNode(n) && n.frame.currentCfSlot < |n.cfg.frequencies| && i < |CfLoop(n, c, events).turns| <= |events|
    requires CfLoop(n, c, events).turns[i] == Addressed && Addressed !in CfLoop(n, c, events).turns[i + 1..]
    ensures var p, m := CfLoop(n, c, events).node.peers, AtTurn(n, c, events, i).0;
      && events[i].heard.Some?
      && p.transmitter == Id(events[i].heard.value.node0, events[i].heard.value.node1)
      && p.receiveChannel == m.cfg.frequencies[m.frame.currentCfSlot]
    decreases i
  {
    var (t, d, what) := CfTurnOf(n, c, events[0]);
    TurnMeaning(n, c, events[0]);
    assert what != Over;
    var rest := CfLoop(t, d, events[1..]).turns;
    assert CfLoop(n, c, events).turns == [what] + rest;
    if i > 0 {
      assert CfLoop(n, c, events).turns[i + 1..] == rest[i..];
      LastAddressed(t, d, events[1..], i - 1);
    } else {
      assert CfLoop(n, c, events).turns[1..] == rest;
      NoneAddressed(t, d, events[1..]);
    }
  }

  /** Turn i brought the last message for the node. */
  ghost predicate LastOwn(n: Node, events: seq<ActiveEvent>, i: nat)
    requires GoodNode(n)
  {
    HearsOwnIn(n, events, i) && forall j: nat :: i < j ==> !HearsOwnIn(n, events, j)
  }

  /** The transmitter and the reception channel are those of the last message for the node; without one they stay. */
  lemma PhasePeers(n: Node, events: seq<ActiveEvent>, i: nat)
    requires GoodNode(n) && ExecActive(n, events).done
    ensures var p := ExecActive(n, events).node.peers;
      && (LastOwn(n, events, i) ==>
            var m := InTurn(n, events, i).0;
            && p.transmitter == Id(events[i].heard.value.node0, events[i].heard.value.node1)
            && p.receiveChannel == n.cfg.frequencies[m.frame.currentCfSlot])
      && (!SomeOwn(n, events) ==>
            p.transmitter == n.peers.transmitter && p.receiveChannel == n.peers.receiveChannel)
  {
    var turns := CfLoop(CfEnter(n), CfStart(n), events).turns;
    forall j: nat
      ensures HearsOwnIn(n, events, j) <==> j < |turns| && turns[j] == Addressed
    {
      PhaseTurn(n, events, j);
    }
    if LastOwn(n, events, i) {
      var later := turns[i + 1..];
      forall j | 0 <= j < |later| ensures later[j] != Addressed {
        assert later[j] == turns[i + 1 + j] && !HearsOwnIn(n, events, i + 1 + j);
      }
      LastAddressed(CfEnter(n), CfStart(n), events, i);
    }
    if !SomeOwn(n, events) {
      forall j | 0 <= j < |turns| ensures turns[j] != Addressed {
        assert !HearsOwnIn(n, events, j);
      }
      NoneAddressed(CfEnter(n), CfStart(n), events);
    }
  }
}
