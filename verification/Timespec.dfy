/**
 * The clock arithmetic of utils/timeouts.c: struct timespec on Linux, with doubles taken as real
 * numbers, and wrapping 32-bit microsecond counters on RIOT.
 */
module TimespecArithmetic {

  const NANOS: int := 1_000_000_000

  datatype Timespec = Timespec(sec: int, nsec: int)

  /** The form the kernel accepts: nanoseconds in [0, 10^9). */
  predicate Normal(t: Timespec) {
    0 <= t.nsec < NANOS
  }

  /** The instant a timespec denotes, in seconds. */
  function Seconds(t: Timespec): real {
    t.sec as real + t.nsec as real / 1000000000.0
  }

  function Abs(x: real): real {
    if x < 0.0 then -x else x
  }

  /** The nanosecond part of a positive duration: rounded to nearest, then clamped below one second. */
  function RoundedNanos(seconds: real): int {
    var ns := (0.5 + 1000000000.0 * (seconds - seconds.Floor as real)).Floor;
    if ns < 0 then 0 else if ns > 999999999 then 999999999 else ns
  }

  /** timespec_add with its single carry; a duration that is not positive adds nothing. */
  function Added(t: Timespec, seconds: real): Timespec {
    if seconds > 0.0 then
      var nsec := t.nsec + RoundedNanos(seconds);
      if nsec >= NANOS then Timespec(t.sec + seconds.Floor + 1, nsec - NANOS)
      else Timespec(t.sec + seconds.Floor, nsec)
    else t
  }

  /** timespec_set: the duration itself, or zero, which disarms a timer. */
  function FromSeconds(seconds: real): Timespec {
    if seconds > 0.0 then Timespec(seconds.Floor, RoundedNanos(seconds)) else Timespec(0, 0)
  }

  /** timespec_diff. */
  function Diff(after: Timespec, before: Timespec): real {
    (after.sec - before.sec) as real + (after.nsec - before.nsec) as real / 1000000000.0
  }

  /** Rounding and clamping together stay within one nanosecond, and never reach a full second. */
  lemma RoundedNanosError(seconds: real)
    ensures 0 <= RoundedNanos(seconds) < NANOS
    ensures Abs(RoundedNanos(seconds) as real / 1000000000.0 - (seconds - seconds.Floor as real)) <= 0.000000001
  {
    var frac := seconds - seconds.Floor as real;
    var scaled := 1000000000.0 * frac;
    var ns := (0.5 + scaled).Floor;
    assert 0.0 <= frac < 1.0;
    assert scaled - 0.5 <= ns as real <= scaled + 0.5;
    assert Abs(RoundedNanos(seconds) as real - scaled) <= 1.0;
  }

  /**
   * One carry is enough: adding keeps a timespec normal, and the result lies within a nanosecond
   * of the requested instant, so the difference gives the request back within a nanosecond.
   */
  lemma AddedIsAccurate(t: Timespec, seconds: real)
    requires Normal(t) && seconds > 0.0
    ensures Normal(Added(t, seconds))
    ensures Abs(Seconds(Added(t, seconds)) - (Seconds(t) + seconds)) <= 0.000000001
    ensures Abs(Diff(Added(t, seconds), t) - seconds) <= 0.000000001
  {
    RoundedNanosError(seconds);
  }

  /** Diff is the difference of the instants, whatever carries happened. */
  lemma DiffIsDifference(a: Timespec, b: Timespec)
    ensures Diff(a, b) == Seconds(a) - Seconds(b)
  {
  }

  /**
   * The handler's decision `diff <= 0` on two normal timespecs is the order of the instants, which
   * is the lexicographic order of the fields.
   */
  lemma DueIffNotAfter(deadline: Timespec, now: Timespec)
    requires Normal(deadline) && Normal(now)
    ensures Diff(deadline, now) <= 0.0 <==>
              deadline.sec < now.sec || (deadline.sec == now.sec && deadline.nsec <= now.nsec)
  {
    var d := deadline.nsec - now.nsec;
    assert -1.0 < d as real / 1000000000.0 < 1.0;
  }

  /**
   * A positive remaining time arms the timer with a value within a nanosecond of it; the value is zero,
   * which disarms, exactly when less than half a nanosecond remains.
   */
  lemma FromSecondsDisarmsIff(seconds: real)
    ensures Normal(FromSeconds(seconds))
    ensures FromSeconds(seconds) == Timespec(0, 0) <==> seconds < 0.0000000005
    ensures seconds > 0.0 ==> Abs(Seconds(FromSeconds(seconds)) - seconds) <= 0.000000001
  {
    RoundedNanosError(seconds);
    if seconds > 0.0 && seconds.Floor == 0 {
      assert RoundedNanos(seconds) == 0 <==> 0.5 + 1000000000.0 * seconds < 1.0;
    }
  }

  /** A timespec that the C code updates through a pointer. */
  class TimespecCell {
    var sec: int
    var nsec: int

    function Value(): Timespec
      reads this
    {
      Timespec(sec, nsec)
    }

    constructor (t: Timespec)
      ensures Value() == t
    {
      sec, nsec := t.sec, t.nsec;
    }

    method Add(seconds: real)
      modifies this
      ensures Value() == Added(old(Value()), seconds)
      ensures old(Normal(Value())) ==> Normal(Value())
    {
      if seconds > 0.0 {
        ghost var was := Value();
        var s := seconds.Floor;
        var ns := (0.5 + 1000000000.0 * (seconds - s as real)).Floor;
        if ns < 0 {
          ns := 0;
        } else if ns > 999999999 {
          ns := 999999999;
        }
        sec := sec + s;
        nsec := nsec + ns;
        if nsec >= NANOS {
          nsec := nsec - NANOS;
          sec := sec + 1;
        }
        RoundedNanosError(seconds);
      }
    }

    method Set(seconds: real)
      modifies this
      ensures Value() == FromSeconds(seconds)
    {
      if seconds > 0.0 {
        var s := seconds.Floor;
        var ns := (0.5 + 1000000000.0 * (seconds - s as real)).Floor;
        if ns < 0 {
          ns := 0;
        } else if ns > 999999999 {
          ns := 999999999;
        }
        sec, nsec := s, ns;
      } else {
        sec, nsec := 0, 0;
      }
    }
  }

  // --- RIOT: 32-bit wrapping microseconds -----------------------------------------------------

  const WORD: int := 0x1_0000_0000
  const HALF: int := 0x8000_0000

  /** The 32-bit register that holds the clock, or a deadline. */
  function Register(t: int): (r: int)
    ensures 0 <= r < WORD
  {
    t % WORD
  }

  /** A subtraction of two registers stored in an int32_t. */
  function WrappedDiff(after: int, before: int): (r: int)
    ensures -HALF <= r < HALF
  {
    var d := (after - before) % WORD;
    if d < HALF then d else d - WORD
  }

  /** The register difference is the true remaining time exactly when that time fits in 32 signed bits. */
  lemma WrappedDiffExactIff(deadline: int, now: int)
    ensures WrappedDiff(Register(deadline), Register(now)) == deadline - now <==> -HALF <= deadline - now < HALF
  {
    RegisterDifference(deadline, now);
  }

  lemma RegisterDifference(a: int, b: int)
    ensures (Register(a) - Register(b)) % WORD == (a - b) % WORD
  {
    var q := (Register(a) - Register(b) - (a - b)) / WORD;
    assert a == WORD * (a / WORD) + Register(a);
    assert b == WORD * (b / WORD) + Register(b);
  }

  /** The deadline stored on RIOT: timespec_add takes the wait as an int32_t, and adds only a positive one. */
  function RiotDeadline(read: int, wait: int): int {
    if WrappedDiff(wait, 0) > 0 then Register(read + wait) else read
  }

  /**
   * What the handler computes as remaining, when the clock is at now and it is at most 2^31 late, is the
   * true remaining time exactly for waits below 2^31.
   */
  lemma RiotRemainingExactIff(read: int, wait: int, now: int)
    requires 0 < wait < WORD && read <= now <= read + wait + HALF
    ensures WrappedDiff(RiotDeadline(Register(read), wait), Register(now)) == read + wait - now <==> wait < HALF
  {
    SmallWait(wait);
    if wait < HALF {
      RegisterOfSum(read, wait);
      WrappedDiffExactIff(read + wait, now);
    } else {
      RegisterDifference(read, now);
      DifferentBy(read - now, read + wait - now, wait);
    }
  }

  /** So for such waits the handler fires a timeout exactly when its time has come. */
  lemma RiotFiresExactly(read: int, wait: int, now: int)
    requires 0 < wait < HALF && read <= now <= read + wait + HALF
    ensures WrappedDiff(RiotDeadline(Register(read), wait), Register(now)) <= 0 <==> read + wait <= now
  {
    RiotRemainingExactIff(read, wait, now);
  }

  /** A wait of 2^31 or more is due at the very instant it is set. */
  lemma RiotLongWaitFiresAtOnce(read: int, wait: int)
    requires HALF <= wait < WORD
    ensures WrappedDiff(RiotDeadline(Register(read), wait), Register(read)) == 0
  {
    SmallWait(wait);
  }

  lemma SmallWait(wait: int)
    requires 0 < wait < WORD
    ensures WrappedDiff(wait, 0) > 0 <==> wait < HALF
    ensures wait % WORD == wait
  {
  }

  /** Two numbers that differ by less than a word, but not by nothing, leave different remainders. */
  lemma DifferentBy(a: int, b: int, wait: int)
    requires b == a + wait && 0 < wait < WORD
    ensures a % WORD != b % WORD
  {
    assert a == WORD * (a / WORD) + a % WORD;
    assert b == WORD * (b / WORD) + b % WORD;
  }

  lemma RegisterOfSum(read: int, wait: int)
    ensures Register(Register(read) + wait) == Register(read + wait)
  {
    assert read == WORD * (read / WORD) + Register(read);
    SameRegister(Register(read) + wait, read + wait, read / WORD);
  }

  lemma SameRegister(a: int, b: int, k: int)
    requires b == a + WORD * k
    ensures Register(a) == Register(b)
  {
    assert a == WORD * (a / WORD) + Register(a);
    assert b == WORD * (a / WORD + k) + Register(a);
  }
}
