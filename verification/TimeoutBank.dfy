/**
 * utils/timeouts.c in its own form: state words and deadlines in two arrays, changed in place by
 * atomic read-modify-writes, with the signal handler free to run between any two of them.
 * Every method extends a run of the step system in module Timeouts, so each theorem about runs
 * holds of every object of this class.
 */
module TimeoutBanks {
  import opened Wrappers
  import opened Timeouts

  /** The three bits of a state word. */
  datatype Word = Word(used: bool, armed: bool, passed: bool)

  class TimeoutBank {
    const count: nat
    const state: array<Word>
    const time: array<int>
    var now: int           // the clock
    var timer: Option<int> // the hardware timer
    ghost var main: Main
    ghost var live: map<int, int>
    ghost var lag: int
    ghost var actions: seq<Action> // everything that has happened since timeout_init

    ghost function Slots(): (r: seq<Slot>)
      requires state.Length == time.Length == count
      reads this, state, time
      ensures |r| == count
    {
      seq(count, i requires 0 <= i < count reads this, state, time =>
        Slot(state[i].used, state[i].armed, state[i].passed, time[i]))
    }

    ghost function Abs(): State
      requires state.Length == time.Length == count
      reads this, state, time
    {
      State(now, Slots(), timer, main, live, lag)
    }

    ghost predicate Valid()
      reads this, state, time
    {
      && state.Length == time.Length == count
      && Run(Init(count), actions) == Abs()
    }

    /** What a valid object inherits from the theorems about runs. */
    lemma Inherits()
      requires Valid()
      ensures Safe(Abs())
    {
      SafeRun(Init(count), actions);
    }

    ghost method Log(a: Action, before: State)
      requires state.Length == time.Length == count
      requires Run(Init(count), actions) == before && Abs() == Next(before, a)
      modifies this`actions
      ensures Valid() && actions == old(actions) + [a]
    {
      RunConcat(Init(count), actions, [a]);
      RunOne(before, a);
      actions := actions + [a];
    }

    constructor (n: nat)
      ensures Valid() && fresh(state) && fresh(time)
      ensures count == n && now == 0 && timer == None && main.Idle? && live == map[]
    {
      count := n;
      state := new Word[n](_ => Word(false, false, false));
      time := new int[n](_ => 0);
      now, timer, main, live, lag, actions := 0, None, Idle, map[], 0, [];
      new;
      assert Slots() == Init(n).slots;
    }

    // --- The interrupt side -------------------------------------------------------------------

    /** The clock advances, but not past an armed timer whose handler has not run yet. */
    method Tick(d: nat)
      requires Valid()
      modifies this`now, this`actions
      ensures Valid() && Abs() == Next(old(Abs()), Action.Tick(d))
    {
      ghost var before := Abs();
      if timer == None || now + d <= timer.value {
        now := now + d;
      }
      assert Abs().slots == before.slots;
      Log(Action.Tick(d), before);
    }

    /** __sync_or_and_fetch(&state[i], PASSED). */
    method SetPassed(i: nat)
      requires state.Length == time.Length == count && i < count
      modifies state
      ensures Slots() == old(Slots())[i := old(Slots())[i].(passed := true)]
    {
      state[i] := state[i].(passed := true);
    }

    /** The scan of the handler: fire what is due, find what is next. */
    method FireDue() returns (next: int)
      requires state.Length == time.Length == count
      modifies state
      ensures Slots() == FireAll(old(Slots()), now)
      ensures next == HandlerNext(old(Slots()), now, count)
    {
      ghost var slots := Slots();
      next := -1;
      var i := 0;
      while i < count
        invariant 0 <= i <= count
        invariant forall j :: 0 <= j < i ==> Slots()[j] == Fired(slots[j], now)
        invariant forall j :: i <= j < count ==> Slots()[j] == slots[j]
        invariant next == HandlerNext(slots, now, i)
      {
        assert slots[i] == Slots()[i] == Slot(state[i].used, state[i].armed, state[i].passed, time[i]);
        if state[i].used && state[i].armed && !state[i].passed {
          var wait := time[i] - now;
          if wait <= 0 {
            SetPassed(i);
          } else if next <= 0 || wait < next {
            next := wait;
          }
        }
        i := i + 1;
      }
    }

    /** timeout_signal_handler. */
    method SignalHandler()
      requires Valid()
      modifies this`timer, this`lag, this`actions, state
      ensures Valid() && Abs() == RunHandler(old(Abs()))
    {
      ghost var before := Abs();
      var next := FireDue();
      timer := if next > 0 then Some(now + next) else None;
      lag := 0;
      assert Slots() == FireAll(before.slots, now);
      Log(Handler, before);
    }

    /** Anything the interrupt side may do between two operations of the main thread. */
    method Interrupt()
      requires Valid()
      modifies this`now, this`timer, this`lag, this`actions, state
      ensures Valid()
    {
      var n: nat := *;
      while n > 0
        invariant Valid()
      {
        if * {
          var d: nat := *;
          Tick(d);
        } else {
          SignalHandler();
        }
        n := n - 1;
      }
    }

    // --- The atomic operations of timeout_set ---------------------------------------------------

    /** __sync_fetch_and_or(&state[i], USED): the old bit. */
    method TestAndSetUsed(i: nat) returns (was: bool)
      requires Valid() && i < count && main.Claiming? && main.i == i
      modifies this`main, this`actions, state
      ensures Valid() && Abs() == RunAdvance(old(Abs())) && was == old(state[i].used)
    {
      ghost var before := Abs();
      was := state[i].used;
      assert before.slots[i].used == was;
      state[i] := state[i].(used := true);
      main := if was then Claiming(main.call, i + 1) else Clearing(main.call, i);
      assert Slots() == before.slots[i := before.slots[i].(used := true)];
      assert was ==> Slots() == before.slots;
      Log(Advance, before);
    }

    /** __sync_and_and_fetch(&state[h], USED). */
    method ClearAllButUsed(h: nat)
      requires Valid() && h < count && main.Clearing? && main.h == h
      modifies this`main, this`actions, state
      ensures Valid() && main == Storing(old(main).call, h)
    {
      ghost var before := Abs();
      state[h] := Word(state[h].used, false, false);
      main := Storing(main.call, h);
      assert Slots() == before.slots[h := before.slots[h].(armed := false, passed := false)];
      Log(Advance, before);
    }

    /** timeout_time[h] = deadline, which is not one operation: something else may be there for a while. */
    method StoreDeadline(h: nat, deadline: int, garbage: int)
      requires Valid() && h < count && main.Storing? && main.h == h && deadline == main.call.read + main.call.wait
      modifies this`now, this`timer, this`lag, this`main, this`actions, state, time
      ensures Valid() && main == Arming(old(main).call, h)
    {
      ghost var before := Abs();
      time[h] := garbage;
      assert Slots() == before.slots[h := before.slots[h].(time := garbage)];
      Log(Scribble(garbage), before);
      Interrupt();
      before := Abs();
      time[h] := deadline;
      main := Arming(main.call, h);
      assert Slots() == before.slots[h := before.slots[h].(time := deadline)];
      Log(Advance, before);
    }

    /** __sync_or_and_fetch(&state[h], ARMED). */
    method SetArmed(h: nat)
      requires Valid() && h < count && main.Arming? && main.h == h
      modifies this`main, this`actions, state
      ensures Valid() && main == Scanning(old(main).call, h, 0, old(main).call.wait)
    {
      ghost var before := Abs();
      state[h] := state[h].(armed := true);
      main := Scanning(main.call, h, 0, main.call.wait);
      assert Slots() == before.slots[h := before.slots[h].(armed := true)];
      Log(Advance, before);
    }

    /** One look of the scan for the next deadline. */
    method LookAt(i: nat, next: int, read: int) returns (nearer: int)
      requires Valid() && i < count && main.Scanning? && main.i == i && main.next == next && main.call.read == read
      modifies this`main, this`actions
      ensures Valid() && main == Scanning(old(main).call, old(main).h, i + 1, nearer) && live == old(live)
    {
      ghost var before := Abs();
      nearer := next;
      if state[i].used && state[i].armed && !state[i].passed {
        var secs := time[i] - read;
        if secs >= 0 && secs < next {
          nearer := secs;
        }
      }
      assert before.slots[i] == Slot(state[i].used, state[i].armed, state[i].passed, time[i]);
      main := Scanning(main.call, main.h, i + 1, nearer);
      assert Slots() == before.slots;
      Log(Advance, before);
    }

    /** timer_settime; when it fails the slot is given up. */
    method ProgramTimer(h: nat, next: int, read: int, works: bool)
      requires Valid() && h < count && main.Scanning? && main.h == h && main.i == count && main.next == next
      requires main.call.read == read
      modifies this`timer, this`lag, this`live, this`main, this`actions, state
      ensures Valid() && main.Idle?
      ensures live == if works then old(live)[h := read + old(main).call.wait] else old(live)
    {
      ghost var before, call := Abs(), main.call;
      main := Setting(call, h, next);
      assert Slots() == before.slots;
      Log(Advance, before);
      before := Abs();
      if works {
        timer := if next > 0 then Some(now + next) else None;
        live, lag, main := live[h := read + call.wait], now - read, Idle;
        assert Slots() == before.slots;
        Log(Advance, before);
      } else {
        state[h] := Word(false, false, false);
        main := Idle;
        assert Slots() == before.slots[h := before.slots[h].(used := false, armed := false, passed := false)];
        Log(FailTimer, before);
      }
    }

    // --- The interface ----------------------------------------------------------------------------

    /** The search for an unused timeout; without one the call is over. */
    method ClaimUnused(ghost call: Call) returns (timeout: nat)
      requires Valid() && main == Claiming(call, 0)
      modifies this`now, this`timer, this`lag, this`main, this`actions, state
      ensures Valid() && timeout <= count
      ensures timeout < count ==> main == Clearing(call, timeout)
      ensures timeout == count ==> main.Idle? && forall j :: 0 <= j < count ==> j in live
    {
      timeout := 0;
      while timeout < count
        invariant Valid() && timeout <= count && main == Claiming(call, timeout)
        invariant forall j :: 0 <= j < timeout ==> j in live
      {
        Inherits();
        assert Abs().slots[timeout].used == state[timeout].used;
        var was := TestAndSetUsed(timeout);
        Interrupt();
        if !was {
          return;
        }
        timeout := timeout + 1;
      }
      ghost var before := Abs();
      main := Idle;
      assert Slots() == before.slots;
      Log(Advance, before);
    }

    /** From a claimed slot to an armed one. */
    method PrepareSlot(timeout: nat, wait: int, read: int)
      requires Valid() && timeout < count && main == Clearing(Call(wait, read), timeout)
      modifies this`now, this`timer, this`lag, this`main, this`actions, state, time
      ensures Valid() && main == Scanning(Call(wait, read), timeout, 0, wait)
    {
      ClearAllButUsed(timeout);
      Interrupt();
      var garbage: int := *;
      StoreDeadline(timeout, read + wait, garbage);
      Interrupt();
      SetArmed(timeout);
      Interrupt();
    }

    /** How long till the next timeout? */
    method ScanDeadlines(timeout: nat, wait: int, read: int) returns (next: int)
      requires Valid() && timeout < count && main == Scanning(Call(wait, read), timeout, 0, wait)
      modifies this`now, this`timer, this`lag, this`main, this`actions, state
      ensures Valid() && main == Scanning(Call(wait, read), timeout, count, next)
    {
      next := wait;
      var i := 0;
      while i < count
        invariant Valid() && 0 <= i <= count && main == Scanning(Call(wait, read), timeout, i, next)
      {
        next := LookAt(i, next, read);
        Interrupt();
        i := i + 1;
      }
    }

    /**
     * timeout_set. The result is a handle nobody holds, now live with the deadline old(now) + wait, or the
     * error value; there is no other outcome, and no other handle is affected, whatever interrupts it.
     */
    method TimeoutSet(wait: int, works: bool) returns (h: int)
      requires Valid() && main.Idle?
      modifies this, state, time
      ensures Valid() && main.Idle?
      ensures h == count + 1 || (0 <= h < count && h !in old(live))
      ensures live == if h == count + 1 then old(live) else old(live)[h := old(now) + wait]
      ensures h == count + 1 <==> wait <= 0 || !works || forall j :: 0 <= j < count ==> j in old(live)
    {
      if wait <= 0 {
        return count + 1;
      }
      var read := now;
      ghost var before, call := Abs(), Call(wait, read);
      main := Claiming(call, 0);
      assert Slots() == before.slots;
      Log(BeginSet(wait), before);

      var timeout := ClaimUnused(call);
      if timeout >= count {
        return count + 1;
      }
      assert timeout !in live by { Inherits(); }
      PrepareSlot(timeout, wait, read);
      var next := ScanDeadlines(timeout, wait, read);
      ProgramTimer(timeout, next, read, works);
      h := if works then timeout else count + 1;
    }

    /** timeout_unset: 1 when the timeout had fired, 0 when it had not, 2 when there was none. */
    method TimeoutUnset(timeout: int) returns (r: int)
      requires Valid() && main.Idle?
      modifies this`live, this`actions, state
      ensures Valid() && Abs() == Next(old(Abs()), Unset(timeout))
      ensures r == Passed(old(Abs()), timeout)
      ensures r != 2 <==> timeout in old(live)
      ensures r == 1 ==> old(live)[timeout] <= now
    {
      Inherits();
      ghost var before := Abs();
      r := 2;
      if 0 <= timeout < count {
        var was := state[timeout];
        assert before.slots[timeout] == Slot(was.used, was.armed, was.passed, time[timeout]);
        state[timeout] := Word(false, false, was.passed);
        live := live - {timeout};
        if was.used && was.armed {
          r := if was.passed then 1 else 0;
        }
        assert Slots() == before.slots[timeout := before.slots[timeout].(used := false, armed := false)];
      }
      Log(Unset(timeout), before);
    }

    /** timeout_passed: it answers 1 only for a live handle whose deadline the clock has reached. */
    method TimeoutPassed(timeout: int) returns (r: int)
      requires Valid() && main.Idle?
      ensures r == Passed(Abs(), timeout)
      ensures r != 2 <==> timeout in live
      ensures r == 1 ==> live[timeout] <= now
    {
      Inherits();
      r := 2;
      if 0 <= timeout < count {
        var was := state[timeout];
        assert Slots()[timeout] == Slot(was.used, was.armed, was.passed, time[timeout]);
        if state[timeout].used && state[timeout].armed {
          r := if state[timeout].passed then 1 else 0;
        }
      }
    }
  }
}
