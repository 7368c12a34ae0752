/** The timeout multiplexer of utils/timeouts.c as a step system. */
module Timeouts {
  import opened Wrappers

  // Many virtual one-shot timeouts share one hardware timer. The main thread runs timeout_set as
  // a sequence of atomic operations; the signal handler may run between any two of them, and the
  // clock may advance at any point. An action that is not enabled leaves the state as it is, so
  // every sequence of actions is a run, and the theorems at the end hold of all of them.

  /** One virtual timeout: the three bits of its state word and its deadline. */
  datatype Slot = Slot(used: bool, armed: bool, passed: bool, time: int)

  /** The local variables of timeout_set: the requested wait, the clock value it read, its deadline. */
  datatype Call = Call(wait: int, read: int)

  /** Where the main thread is. Every case but Idle is inside timeout_set, between two atomic operations. */
  datatype Main =
    | Idle
    | Claiming(call: Call, i: nat)             // about to test-and-set USED on slot i
    | Clearing(call: Call, h: nat)             // about to clear every bit of slot h but USED
    | Storing(call: Call, h: nat)              // about to store the deadline of slot h
    | Arming(call: Call, h: nat)               // about to set ARMED on slot h
    | Scanning(call: Call, h: nat, i: nat, next: int) // about to look at slot i for an earlier deadline
    | Setting(call: Call, h: nat, next: int)   // about to program the hardware timer

  /**
   * timer is the clock value at which the one-shot hardware timer expires; an expired timer stays
   * there until the handler has run. live and lag are history: the handles returned and not yet
   * released, each with the deadline its own timeout_set computed, and the clock time that the
   * timeout_set which last programmed the timer had spent since it read the clock.
   */
  datatype State = State(now: int, slots: seq<Slot>, timer: Option<int>, main: Main, live: map<int, int>, lag: int)

  datatype Action =
    | Tick(d: nat)           // the clock advances
    | Handler                // timeout_signal_handler runs to completion
    | BeginSet(wait: int)    // the main thread calls timeout_set
    | Advance                // the main thread performs its next atomic operation
    | Scribble(garbage: int) // a deadline store that is not atomic leaves something else behind first
    | FailTimer              // programming the hardware timer fails
    | Unset(h: int)          // the main thread calls timeout_unset

  predicate Pending(s: Slot) {
    s.used && s.armed && !s.passed
  }

  // --- The functions the loops compute ------------------------------------------------------

  /** What the handler does to one slot: a pending timeout whose deadline has come is marked passed. */
  function Fired(s: Slot, now: int): Slot {
    if Pending(s) && s.time <= now then s.(passed := true) else s
  }

  function FireAll(slots: seq<Slot>, now: int): (r: seq<Slot>)
    ensures |r| == |slots|
  {
    seq(|slots|, i requires 0 <= i < |slots| => Fired(slots[i], now))
  }

  /** The shorter of the handler's current candidate (none when not positive) and the wait of slot s. */
  function Sooner(next: int, s: Slot, now: int): int {
    if Pending(s) && s.time - now > 0 && (next <= 0 || s.time - now < next) then s.time - now else next
  }

  /** The handler's scan of the first k slots: the wait until the earliest future deadline, or -1. */
  function HandlerNext(slots: seq<Slot>, now: int, k: nat): int
    requires k <= |slots|
  {
    if k == 0 then -1 else Sooner(HandlerNext(slots, now, k - 1), slots[k - 1], now)
  }

  /** What timer_settime does with a relative wait: zero or less disarms. */
  function Programmed(now: int, next: int): Option<int> {
    if next > 0 then Some(now + next) else None
  }

  /** The scan of timeout_set at one slot: a pending deadline not before the clock value it read. */
  function Nearer(next: int, s: Slot, read: int): int {
    if Pending(s) && 0 <= s.time - read < next then s.time - read else next
  }

  // --- The step system ----------------------------------------------------------------------

  function Init(n: nat): State {
    State(0, seq(n, _ => Slot(false, false, false, 0)), None, Idle, map[], 0)
  }

  /** The hardware is prompt: the clock does not pass an armed timer before the handler has run. */
  predicate MayTick(s: State, d: nat) {
    s.timer.Some? ==> s.now + d <= s.timer.value
  }

  function RunHandler(s: State): State {
    s.(slots := FireAll(s.slots, s.now),
       timer := Programmed(s.now, HandlerNext(s.slots, s.now, |s.slots|)),
       lag := 0)
  }

  function RunAdvance(s: State): State {
    match s.main
    case Idle => s
    case Claiming(c, i) =>
      if i >= |s.slots| then s.(main := Idle) // no unused timeout: TIMEOUT_SET_ERROR
      else if s.slots[i].used then s.(main := Claiming(c, i + 1))
      else s.(slots := s.slots[i := s.slots[i].(used := true)], main := Clearing(c, i))
    case Clearing(c, h) =>
      if h >= |s.slots| then s.(main := Idle) // does not happen in a reachable state
      else s.(slots := s.slots[h := s.slots[h].(armed := false, passed := false)], main := Storing(c, h))
    case Storing(c, h) =>
      if h >= |s.slots| then s.(main := Idle)
      else s.(slots := s.slots[h := s.slots[h].(time := c.read + c.wait)], main := Arming(c, h))
    case Arming(c, h) =>
      if h >= |s.slots| then s.(main := Idle)
      else s.(slots := s.slots[h := s.slots[h].(armed := true)], main := Scanning(c, h, 0, c.wait))
    case Scanning(c, h, i, next) =>
      if i >= |s.slots| then s.(main := Setting(c, h, next))
      else s.(main := Scanning(c, h, i + 1, Nearer(next, s.slots[i], c.read)))
    case Setting(c, h, next) =>
      s.(timer := Programmed(s.now, next), main := Idle, live := s.live[h := c.read + c.wait], lag := s.now - c.read)
  }

  function RunUnset(s: State, h: int): State {
    if 0 <= h < |s.slots|
    then s.(slots := s.slots[h := s.slots[h].(used := false, armed := false)], live := s.live - {h})
    else s
  }

  function Next(s: State, a: Action): State {
    match a
    case Tick(d) => if MayTick(s, d) then s.(now := s.now + d) else s
    case Handler => RunHandler(s)
    case BeginSet(wait) => if s.main.Idle? && wait > 0 then s.(main := Claiming(Call(wait, s.now), 0)) else s
    case Advance => RunAdvance(s)
    case Scribble(garbage) =>
      if s.main.Storing? && s.main.h < |s.slots|
      then s.(slots := s.slots[s.main.h := s.slots[s.main.h].(time := garbage)])
      else s
    case FailTimer =>
      if s.main.Setting? && s.main.h < |s.slots|
      then s.(slots := s.slots[s.main.h := s.slots[s.main.h].(used := false, armed := false, passed := false)],
              main := Idle)
      else s
    case Unset(h) => if s.main.Idle? then RunUnset(s, h) else s
  }

  function Run(s: State, actions: seq<Action>): State
    decreases |actions|
  {
    if actions == [] then s else Run(Next(s, actions[0]), actions[1..])
  }

  /** timeout_passed: 0 not yet, 1 passed, 2 not a timeout in use. */
  function Passed(s: State, h: int): int {
    if 0 <= h < |s.slots| && s.slots[h].used && s.slots[h].armed
    then if s.slots[h].passed then 1 else 0
    else 2
  }

  // --- Safety: who owns a slot, and what its PASSED bit means ----------------------------------

  /** The handle timeout_set has claimed but not yet returned. */
  predicate InFlight(m: Main, h: int) {
    !m.Idle? && !m.Claiming? && m.h == h
  }

  /** How far the claimed slot has been prepared. */
  ghost predicate FlightOk(s: State) {
    var m := s.main;
    && (!m.Idle? ==> m.call.wait > 0 && m.call.read <= s.now)
    && (!m.Idle? && !m.Claiming? ==>
          && m.h < |s.slots| && m.h !in s.live && s.slots[m.h].used
          && (m.Clearing? || m.Storing? || m.Arming? ==> !s.slots[m.h].armed)
          && (!m.Clearing? ==> (s.slots[m.h].passed ==> m.call.read + m.call.wait <= s.now))
          && (m.Storing? || m.Arming? ==> !s.slots[m.h].passed)
          && (m.Arming? || m.Scanning? || m.Setting? ==> s.slots[m.h].time == m.call.read + m.call.wait)
          && (m.Scanning? || m.Setting? ==> s.slots[m.h].armed))
  }

  ghost predicate Owned(s: State) {
    && (forall h :: h in s.live ==>
          && 0 <= h < |s.slots| && s.slots[h].used && s.slots[h].armed
          && s.slots[h].time == s.live[h]
          && (s.slots[h].passed ==> s.live[h] <= s.now))
    && (forall h :: 0 <= h < |s.slots| && s.slots[h].used ==> h in s.live || InFlight(s.main, h))
    && (forall h :: 0 <= h < |s.slots| && s.slots[h].armed ==> s.slots[h].used)
  }

  ghost predicate Safe(s: State) {
    Owned(s) && FlightOk(s)
  }

  lemma SafeClaim(s: State)
    requires Safe(s) && s.main.Claiming?
    ensures Safe(RunAdvance(s)) && |RunAdvance(s).slots| == |s.slots|
  {
  }

  lemma SafePrepare(s: State)
    requires Safe(s) && (s.main.Clearing? || s.main.Storing? || s.main.Arming?)
    ensures Safe(RunAdvance(s)) && |RunAdvance(s).slots| == |s.slots|
  {
  }

  lemma SafeAdvance(s: State)
    requires Safe(s)
    ensures Safe(RunAdvance(s)) && |RunAdvance(s).slots| == |s.slots|
  {
    if s.main.Claiming? {
      SafeClaim(s);
    } else if s.main.Clearing? || s.main.Storing? || s.main.Arming? {
      SafePrepare(s);
    }
  }

  lemma SafeHandler(s: State)
    requires Safe(s)
    ensures Safe(RunHandler(s)) && |RunHandler(s).slots| == |s.slots|
  {
  }

  lemma SafeStep(s: State, a: Action)
    requires Safe(s)
    ensures Safe(Next(s, a)) && |Next(s, a).slots| == |s.slots|
  {
    match a
    case Handler => SafeHandler(s);
    case Advance => SafeAdvance(s);
    case _ =>
  }

  lemma {:induction false} SafeRun(s: State, actions: seq<Action>)
    requires Safe(s)
    ensures Safe(Run(s, actions)) && |Run(s, actions).slots| == |s.slots|
    decreases |actions|
  {
    if actions != [] {
      SafeStep(s, actions[0]);
      SafeRun(Next(s, actions[0]), actions[1..]);
    }
  }

  /**
   * Never early, never stale. Whatever the interleaving, timeout_passed answers 1 only for a handle
   * that is live, or is still being set up by a timeout_set whose deadline has itself come, and only once
   * the clock has reached the deadline that the handle's own timeout_set computed. A PASSED bit
   * left behind by timeout_unset is never the answer for the slot's next owner.
   */
  lemma {:induction false} NeverEarly(n: nat, actions: seq<Action>, h: int)
    ensures var s := Run(Init(n), actions);
      Passed(s, h) == 1 ==>
        || (h in s.live && s.live[h] <= s.now)
        || (InFlight(s.main, h) && s.main.call.read + s.main.call.wait <= s.now)
    ensures var s := Run(Init(n), actions);
      s.main.Idle? ==> (Passed(s, h) != 2 <==> h in s.live)
  {
    SafeRun(Init(n), actions);
  }

  /** Live handles are below the number of timeouts, and the handle about to be returned is a new one. */
  lemma {:induction false} HandlesDistinct(n: nat, actions: seq<Action>, h: int)
    ensures var s := Run(Init(n), actions);
      && (h in s.live ==> 0 <= h < n)
      && (InFlight(s.main, h) ==> 0 <= h < n && h !in s.live)
  {
    SafeRun(Init(n), actions);
  }

  /** Once passed, a timeout stays passed, with the same deadline, until it is unset. */
  lemma {:induction false} StaysPassed(s: State, actions: seq<Action>, h: int)
    requires Safe(s) && h in s.live && Passed(s, h) == 1
    requires forall i :: 0 <= i < |actions| ==> actions[i] != Unset(h)
    ensures var r := Run(s, actions); h in r.live && r.live[h] == s.live[h] && Passed(r, h) == 1
    decreases |actions|
  {
    if actions != [] {
      var t := Next(s, actions[0]);
      assert actions[0] != Unset(h);
      SafeStep(s, actions[0]);
      assert h in t.live && t.live[h] == s.live[h] && Passed(t, h) == 1;
      StaysPassed(t, actions[1..], h);
    }
  }

  // --- No deadline is missed ------------------------------------------------------------------

  /** The handler's scan finds the earliest deadline after now, exactly. */
  lemma {:induction false} HandlerNextIsEarliest(slots: seq<Slot>, now: int, k: nat)
    requires k <= |slots|
    ensures var next := HandlerNext(slots, now, k);
      && (forall j :: 0 <= j < k && Pending(slots[j]) && slots[j].time > now ==> 0 < next <= slots[j].time - now)
      && (next > 0 ==> exists j :: 0 <= j < k && Pending(slots[j]) && slots[j].time == now + next)
      && (next > 0 || next == -1)
  {
    if k > 0 {
      HandlerNextIsEarliest(slots, now, k - 1);
      var before, next := HandlerNext(slots, now, k - 1), HandlerNext(slots, now, k);
      if next > 0 && next == before {
        var j :| 0 <= j < k - 1 && Pending(slots[j]) && slots[j].time == now + next;
        assert 0 <= j < k && Pending(slots[j]) && slots[j].time == now + next;
      } else if next > 0 {
        assert Pending(slots[k - 1]) && slots[k - 1].time == now + next;
      }
    }
  }

  /** Every pending timeout not in the making will be looked at by the handler no later than lag after its deadline. */
  ghost predicate Covered(s: State) {
    && (forall i :: 0 <= i < |s.slots| && Pending(s.slots[i]) && !InFlight(s.main, i) ==>
          s.timer.Some? && s.timer.value <= s.slots[i].time + s.lag)
    && (s.timer.Some? ==> s.now <= s.timer.value)
    && 0 <= s.lag
  }

  /** No timeout is due and still unfired: what a caller of timeout_set can check beforehand. */
  ghost predicate NoneDue(s: State, at: int) {
    forall i :: 0 <= i < |s.slots| && Pending(s.slots[i]) && !InFlight(s.main, i) ==> at < s.slots[i].time
  }

  /** What the scan of timeout_set has established when it has looked at the first i slots. */
  ghost predicate Scanned(s: State, i: nat, next: int)
    requires !s.main.Idle?
  {
    && 0 < next <= s.main.call.wait
    && forall j :: 0 <= j < i && j < |s.slots| && Pending(s.slots[j]) ==> next <= s.slots[j].time - s.main.call.read
  }

  ghost predicate ScanOk(s: State) {
    && (!s.main.Idle? ==> NoneDue(s, s.main.call.read))
    && (s.main.Scanning? ==> Scanned(s, s.main.i, s.main.next))
    && (s.main.Setting? ==> Scanned(s, |s.slots|, s.main.next))
  }

  /** timeout_set is only ever called when no pending timeout is due. */
  ghost predicate Calm(s: State, actions: seq<Action>)
    decreases |actions|
  {
    actions == [] ||
    (&& (actions[0].BeginSet? && s.main.Idle? ==> NoneDue(s, s.now))
     && Calm(Next(s, actions[0]), actions[1..]))
  }

  lemma CoveredHandler(s: State)
    requires Safe(s) && Covered(s) && ScanOk(s)
    ensures Covered(RunHandler(s)) && ScanOk(RunHandler(s))
  {
    HandlerNextIsEarliest(s.slots, s.now, |s.slots|);
    var r := RunHandler(s);
    forall i | 0 <= i < |r.slots| && Pending(r.slots[i])
      ensures r.timer.Some? && r.timer.value <= r.slots[i].time && r.slots[i] == s.slots[i]
    {
      assert r.slots[i] == Fired(s.slots[i], s.now);
    }
  }

  lemma CoveredAdvance(s: State)
    requires Safe(s) && Covered(s) && ScanOk(s)
    ensures Covered(RunAdvance(s)) && ScanOk(RunAdvance(s))
  {
  }

  lemma CoveredStep(s: State, a: Action)
    requires Safe(s) && Covered(s) && ScanOk(s)
    requires a.BeginSet? && s.main.Idle? ==> NoneDue(s, s.now)
    ensures Covered(Next(s, a)) && ScanOk(Next(s, a))
  {
    match a
    case Handler => CoveredHandler(s);
    case Advance => CoveredAdvance(s);
    case _ =>
  }

  lemma {:induction false} CoveredRun(s: State, actions: seq<Action>)
    requires Safe(s) && Covered(s) && ScanOk(s) && Calm(s, actions)
    ensures Covered(Run(s, actions))
    decreases |actions|
  {
    if actions != [] {
      SafeStep(s, actions[0]);
      CoveredStep(s, actions[0]);
      CoveredRun(Next(s, actions[0]), actions[1..]);
    }
  }

  /**
   * No deadline is missed: in every run that calls timeout_set only when no pending timeout is due,
   * every pending timeout has the hardware timer armed for it, at most lag after its deadline, and
   * its deadline is at most lag in the past.
   */
  lemma {:induction false} NoDeadlineMissed(n: nat, actions: seq<Action>, i: nat)
    requires Calm(Init(n), actions)
    ensures var s := Run(Init(n), actions);
      i < |s.slots| && Pending(s.slots[i]) && !InFlight(s.main, i) ==>
        && s.timer.Some? && s.timer.value <= s.slots[i].time + s.lag
        && s.now <= s.slots[i].time + s.lag
  {
    CoveredRun(Init(n), actions);
  }

  // --- The same from assumptions on the platform alone -----------------------------------------

  /** The clock does not advance inside timeout_set, and a due signal is handled before timeout_set is called. */
  ghost predicate Prompt(s: State, actions: seq<Action>)
    decreases |actions|
  {
    actions == [] ||
    (&& (actions[0].Tick? && !s.main.Idle? ==> actions[0].d == 0)
     && (actions[0].BeginSet? && s.main.Idle? ==> !(s.timer.Some? && s.timer.value <= s.now))
     && Prompt(Next(s, actions[0]), actions[1..]))
  }

  lemma {:induction false} PromptRun(s: State, actions: seq<Action>)
    requires Safe(s) && Covered(s) && ScanOk(s) && s.lag == 0 && Prompt(s, actions)
    requires !s.main.Idle? ==> s.main.call.read == s.now
    ensures Covered(Run(s, actions)) && Run(s, actions).lag == 0
    decreases |actions|
  {
    if actions != [] {
      SafeStep(s, actions[0]);
      CoveredStep(s, actions[0]);
      PromptRun(Next(s, actions[0]), actions[1..]);
    }
  }

  /** On a prompt platform no pending deadline ever lies in the past, and the timer is armed no later than it. */
  lemma {:induction false} NoDeadlineMissedWhenPrompt(n: nat, actions: seq<Action>, i: nat)
    requires Prompt(Init(n), actions)
    ensures var s := Run(Init(n), actions);
      i < |s.slots| && Pending(s.slots[i]) && !InFlight(s.main, i) ==>
        s.timer.Some? && s.now <= s.timer.value <= s.slots[i].time
  {
    PromptRun(Init(n), actions);
  }

  // --- Single operations on the bits -----------------------------------------------------------

  /** timeout_unset leaves the PASSED bit behind, and nothing else, in the slot of the handle alone. */
  lemma UnsetLeavesPassed(s: State, h: int)
    requires s.main.Idle?
    ensures var r := Next(s, Unset(h));
      && |r.slots| == |s.slots| && r.timer == s.timer && r.now == s.now
      && forall i :: 0 <= i < |s.slots| ==>
           r.slots[i] == if i == h then Slot(false, false, s.slots[i].passed, s.slots[i].time) else s.slots[i]
  {
  }

  /** And timeout_set clears it before the slot is armed, whoever left it. */
  lemma ClaimClearsPassed(s: State)
    requires s.main.Clearing? && s.main.h < |s.slots|
    ensures var r := Next(s, Advance);
      r.main.Storing? && r.slots[s.main.h] == Slot(s.slots[s.main.h].used, false, false, s.slots[s.main.h].time)
  {
  }

  /** When the timer cannot be programmed the slot is given up with no bit set. */
  lemma FailureGivesUp(s: State)
    requires s.main.Setting? && s.main.h < |s.slots|
    ensures var r := Next(s, FailTimer);
      r.main.Idle? && r.live == s.live && r.slots[s.main.h] == Slot(false, false, false, s.slots[s.main.h].time)
  {
  }

  // --- One call, exactly ----------------------------------------------------------------------

  /** The scan of timeout_set over the first k slots. */
  function SetNext(slots: seq<Slot>, c: Call, k: nat): int
    requires k <= |slots|
  {
    if k == 0 then c.wait else Nearer(SetNext(slots, c, k - 1), slots[k - 1], c.read)
  }

  lemma {:induction false} SetNextIsNearest(slots: seq<Slot>, c: Call, k: nat)
    requires k <= |slots| && c.wait > 0
    ensures 0 <= SetNext(slots, c, k) <= c.wait
    ensures forall j :: 0 <= j < k && Pending(slots[j]) && slots[j].time >= c.read ==>
              SetNext(slots, c, k) <= slots[j].time - c.read
    ensures var next := SetNext(slots, c, k);
      next < c.wait ==> exists j :: 0 <= j < k && Pending(slots[j]) && slots[j].time == c.read + next
  {
    if k > 0 {
      SetNextIsNearest(slots, c, k - 1);
      var next := SetNext(slots, c, k);
      if next < SetNext(slots, c, k - 1) {
        assert Pending(slots[k - 1]) && slots[k - 1].time == c.read + next;
      }
    }
  }

  /** How many atomic operations timeout_set has left, at most. */
  function Left(s: State): nat {
    var n := |s.slots|;
    match s.main
    case Idle => 0
    case Claiming(_, i) => n + 6 + (if i < n then n - i else 0)
    case Clearing(_, _) => n + 5
    case Storing(_, _) => n + 4
    case Arming(_, _) => n + 3
    case Scanning(_, _, i, _) => 2 + (if i < n then n - i else 0)
    case Setting(_, _, _) => 1
  }

  /** The rest of a call that nothing interrupts. */
  function FinishSet(s: State): State
    decreases Left(s)
  {
    if s.main.Idle? then s else FinishSet(RunAdvance(s))
  }

  /** timeout_set called in s and not interrupted. */
  function SetAtOnce(s: State, wait: int): State {
    FinishSet(Next(s, BeginSet(wait)))
  }

  /** An uninterrupted call is a run. */
  lemma {:induction false} FinishSetIsRun(s: State) returns (actions: seq<Action>)
    ensures Run(s, actions) == FinishSet(s)
    ensures forall i :: 0 <= i < |actions| ==> actions[i] == Advance
    decreases Left(s)
  {
    actions := [];
    if !s.main.Idle? {
      var rest := FinishSetIsRun(RunAdvance(s));
      actions := [Advance] + rest;
      assert actions[1..] == rest;
    }
  }

  lemma {:induction false} RunConcat(s: State, a: seq<Action>, b: seq<Action>)
    ensures Run(s, a + b) == Run(Run(s, a), b)
    decreases |a|
  {
    if a == [] {
      assert a + b == b;
    } else {
      assert (a + b)[1..] == a[1..] + b;
      RunConcat(Next(s, a[0]), a[1..], b);
    }
  }

  ghost predicate FirstFree(s: State, h: nat) {
    h < |s.slots| && !s.slots[h].used && forall j :: 0 <= j < h ==> s.slots[j].used
  }

  lemma {:induction false} FinishClaim(s: State, h: nat)
    requires s.main.Claiming? && s.main.i <= h && FirstFree(s, h)
    ensures FinishSet(s) ==
            FinishSet(s.(slots := s.slots[h := s.slots[h].(used := true)], main := Clearing(s.main.call, h)))
    decreases h - s.main.i
  {
    if s.main.i < h {
      FinishClaim(RunAdvance(s), h);
    }
  }

  lemma {:induction false} FinishScan(s: State)
    requires s.main.Scanning? && s.main.i <= |s.slots|
    requires s.main.next == SetNext(s.slots, s.main.call, s.main.i)
    ensures var c := s.main.call;
      FinishSet(s) == FinishSet(s.(main := Setting(c, s.main.h, SetNext(s.slots, c, |s.slots|))))
    decreases |s.slots| - s.main.i
  {
    if s.main.i < |s.slots| {
      FinishScan(RunAdvance(s));
    }
  }

  /** The state an uninterrupted timeout_set leaves: the least unused slot, armed for now + wait. */
  lemma {:induction false} SetAtOnceResult(s: State, wait: int, h: nat)
    requires s.main.Idle? && wait > 0 && FirstFree(s, h)
    ensures var slots := s.slots[h := Slot(true, true, false, s.now + wait)];
      SetAtOnce(s, wait) == s.(slots := slots,
                               timer := Programmed(s.now, SetNext(slots, Call(wait, s.now), |slots|)),
                               live := s.live[h := s.now + wait],
                               lag := 0)
  {
    var c := Call(wait, s.now);
    var slots := s.slots[h := Slot(true, true, false, s.now + wait)];
    FinishClaim(Next(s, BeginSet(wait)), h);
    var s1 := s.(slots := s.slots[h := s.slots[h].(used := true)], main := Clearing(c, h));
    var s2, s3 := RunAdvance(s1), RunAdvance(RunAdvance(s1));
    var s4 := RunAdvance(s3);
    assert FinishSet(s1) == FinishSet(s2) == FinishSet(s3) == FinishSet(s4);
    assert s4.slots == slots;
    FinishScan(s4);
    var s5 := s4.(main := Setting(c, h, SetNext(slots, c, |slots|)));
    assert FinishSet(s5) == FinishSet(RunAdvance(s5)) == RunAdvance(s5);
  }

  /** With every slot in use timeout_set reports an error and changes nothing. */
  lemma {:induction false} SetAtOnceFull(s: State, i: nat)
    requires forall j :: 0 <= j < |s.slots| ==> s.slots[j].used
    requires s.main.Claiming? && s.main.i == i <= |s.slots|
    ensures FinishSet(s) == s.(main := Idle)
    decreases |s.slots| - i
  {
    if i < |s.slots| {
      SetAtOnceFull(RunAdvance(s), i + 1);
    }
  }

  /** The hardware timer is armed no later than any pending deadline. */
  ghost predicate CoversAll(s: State) {
    forall i :: 0 <= i < |s.slots| && Pending(s.slots[i]) ==> s.timer.Some? && s.timer.value <= s.slots[i].time
  }

  /** Exactly when timeout_set keeps the promise: no pending timeout may be due when it is called. */
  lemma {:induction false} SetCoversAllIff(s: State, wait: int, h: nat)
    requires Safe(s) && s.main.Idle? && wait > 0 && FirstFree(s, h)
    ensures CoversAll(SetAtOnce(s, wait)) <==> NoneDue(s, s.now)
  {
    var c := Call(wait, s.now);
    var r := SetAtOnce(s, wait);
    SetAtOnceResult(s, wait, h);
    SetNextIsNearest(r.slots, c, |r.slots|);
    if NoneDue(s, s.now) {
      forall i | 0 <= i < |r.slots| && Pending(r.slots[i])
        ensures r.timer.Some? && r.timer.value <= r.slots[i].time
      {
        assert i == h || r.slots[i] == s.slots[i];
      }
    } else {
      var i :| 0 <= i < |s.slots| && Pending(s.slots[i]) && s.slots[i].time <= s.now;
      assert r.slots[i] == s.slots[i];
    }
  }

  /**
   * What happens otherwise: a timeout due at the very instant of the call stops the hardware timer
   * altogether, and the clock can then run past its deadline by any amount without it being fired.
   */
  lemma {:induction false} DueDeadlineIsDropped(s: State, wait: int, h: nat, i: nat, d: nat)
    requires s.main.Idle? && wait > 0 && FirstFree(s, h)
    requires i < |s.slots| && Pending(s.slots[i]) && s.slots[i].time == s.now
    ensures var r := Next(SetAtOnce(s, wait), Tick(d));
      i < |r.slots| && (r.timer, r.now, r.slots[i]) == (None, s.now + d, Slot(true, true, false, s.now))
  {
    SetAtOnceResult(s, wait, h);
    var r := SetAtOnce(s, wait);
    assert r.slots[i] == s.slots[i];
    SetNextIsNearest(r.slots, Call(wait, s.now), |r.slots|);
  }

  /** And it does happen: two calls, the second at the instant the first one's deadline comes. */
  lemma {:induction false} DroppedDeadlineIsReachable(n: nat, w1: nat, w2: int, d: nat) returns (actions: seq<Action>)
    requires n >= 2 && w1 > 0 && w2 > 0
    ensures var s := Run(Init(n), actions);
      |s.slots| == n && (s.main, s.timer, s.now, s.slots[0]) == (Idle, None, w1 + d, Slot(true, true, false, w1))
  {
    var s0 := Init(n);
    SetAtOnceResult(s0, w1, 0);
    var a1 := FinishSetIsRun(Next(s0, BeginSet(w1)));
    var s1 := SetAtOnce(s0, w1);
    SetNextIsNearest(s1.slots, Call(w1, 0), n);
    assert Pending(s1.slots[0]);
    assert s1.timer == Some(w1);
    var s2 := Next(s1, Tick(w1));
    assert FirstFree(s2, 1);
    SetAtOnceResult(s2, w2, 1);
    var a2 := FinishSetIsRun(Next(s2, BeginSet(w2)));
    DueDeadlineIsDropped(s2, w2, 1, 0, d);
    actions := ([BeginSet(w1)] + a1) + ([Tick(w1), BeginSet(w2)] + (a2 + [Tick(d)]));
    RunConcat(s0, [BeginSet(w1)] + a1, [Tick(w1), BeginSet(w2)] + (a2 + [Tick(d)]));
    RunConcat(s0, [BeginSet(w1)], a1);
    RunConcat(s1, [Tick(w1), BeginSet(w2)], a2 + [Tick(d)]);
    RunConcat(Next(s2, BeginSet(w2)), a2, [Tick(d)]);
    RunTwo(s1, Tick(w1), BeginSet(w2));
    RunOne(s0, BeginSet(w1));
    RunOne(SetAtOnce(s2, w2), Tick(d));
  }

  lemma RunOne(s: State, a: Action)
    ensures Run(s, [a]) == Next(s, a)
  {
    assert Run(Next(s, a), [a][1..]) == Next(s, a);
  }

  lemma RunTwo(s: State, a: Action, b: Action)
    ensures Run(s, [a, b]) == Next(Next(s, a), b)
  {
    assert [a, b] == [a] + [b];
    RunConcat(s, [a], [b]);
    RunOne(s, a);
    RunOne(Next(s, a), b);
  }
}
