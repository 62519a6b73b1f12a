/** Simulated time (cpu/src/clock.rs): durations in whole nanoseconds,
    the sign-magnitude `SignedDuration` used for sleep debt, the
    `BasicClock` that accumulates simulated time, and the decision of
    `MinimalSleeper::sleep` whether enough debt has built up to sleep. */
module Clock {
  import opened Outcomes

  const NanosPerSecond: int := 1_000_000_000
  const MaxSeconds: int := 0xFFFF_FFFF_FFFF_FFFF   // u64::MAX

  /** `Duration::MAX`: u64::MAX seconds and 999,999,999 nanoseconds. */
  const MaxDuration: int := MaxSeconds * NanosPerSecond + (NanosPerSecond - 1)

  /** A `std::time::Duration`, counted in nanoseconds. */
  type Duration = d: int | 0 <= d <= MaxDuration

  /** `Duration::checked_add`: None exactly when the sum is too large. */
  function DurationCheckedAdd(a: Duration, b: Duration): (r: Option<Duration>)
    ensures r.Some? <==> a + b <= MaxDuration
    ensures r.Some? ==> r.value == a + b
  {
    if a + b <= MaxDuration then Some(a + b) else None
  }

  /** `Duration::checked_sub`: None exactly when the result would be
      negative. */
  function DurationCheckedSub(a: Duration, b: Duration): (r: Option<Duration>)
    ensures r.Some? <==> b <= a
    ensures r.Some? ==> r.value == a - b
  {
    if b <= a then Some(a - b) else None
  }

  /** Of two durations, one can always be taken from the other; this is
      why the "inconsistent" panics of `checked_sub` and `checked_add`
      cannot happen. */
  lemma OneSubtractionSucceeds(a: Duration, b: Duration)
    ensures DurationCheckedSub(a, b).Some? || DurationCheckedSub(b, a).Some?
  {
  }

  datatype SignedDuration = SignedDuration(negative: bool, magnitude: Duration)

  /** `SignedDuration::ZERO`. */
  const Zero: SignedDuration := SignedDuration(false, 0)

  /** `From<Duration>`. */
  function FromDuration(d: Duration): (s: SignedDuration)
    ensures Value(s) == d && NoNegativeZero(s)
  {
    SignedDuration(false, d)
  }

  /** The signed number of nanoseconds a value stands for. */
  function Value(s: SignedDuration): (v: int)
    ensures -MaxDuration <= v <= MaxDuration
  {
    if s.negative then -(s.magnitude as int) else s.magnitude as int
  }

  /** Zero is represented only as non-negative. */
  predicate NoNegativeZero(s: SignedDuration) {
    s.negative ==> s.magnitude > 0
  }

  /** Without negative zero, a signed duration is determined by its value. */
  lemma ValueDetermines(x: SignedDuration, y: SignedDuration)
    requires NoNegativeZero(x) && NoNegativeZero(y)
    requires Value(x) == Value(y)
    ensures x == y
  {
  }

  /** `SignedDuration::checked_sub`: exact subtraction, None only when the
      result is more negative than a magnitude can hold. */
  function CheckedSub(s: SignedDuration, d: Duration): (r: Option<SignedDuration>)
    ensures r.Some? <==> Value(s) - d >= -MaxDuration
    ensures r.Some? ==> Value(r.value) == Value(s) - d
    ensures r.Some? && NoNegativeZero(s) ==> NoNegativeZero(r.value)
  {
    if s.negative then
      match DurationCheckedAdd(s.magnitude, d)
      case Some(result) => Some(SignedDuration(true, result))
      case None => None
    else
      match DurationCheckedSub(s.magnitude, d)
      case Some(diff) => Some(SignedDuration(false, diff))
      case None =>
        match DurationCheckedSub(d, s.magnitude)
        case Some(diff) => Some(SignedDuration(true, diff))
        case None => assert false; None
  }

  /** `SignedDuration::checked_add`: exact addition, None only when the
      result is larger than a magnitude can hold; it never yields
      negative zero. */
  function CheckedAdd(s: SignedDuration, d: Duration): (r: Option<SignedDuration>)
    ensures r.Some? <==> Value(s) + d <= MaxDuration
    ensures r.Some? ==> Value(r.value) == Value(s) + d
    ensures r.Some? ==> NoNegativeZero(r.value)
  {
    if s.negative then
      match DurationCheckedSub(d, s.magnitude)
      case Some(diff) => Some(SignedDuration(false, diff))
      case None =>
        match DurationCheckedSub(s.magnitude, d)
        case Some(diff) => Some(SignedDuration(true, diff))
        case None => assert false; None
    else
      match DurationCheckedAdd(s.magnitude, d)
      case Some(total) => Some(SignedDuration(false, total))
      case None => None
  }

  /** Adding and then subtracting the same duration gives back the same
      signed duration. */
  lemma AddThenSub(s: SignedDuration, d: Duration)
    requires NoNegativeZero(s) && CheckedAdd(s, d).Some?
    ensures CheckedSub(CheckedAdd(s, d).value, d) == Some(s)
  {
    var t := CheckedAdd(s, d).value;
    assert Value(t) - d == Value(s);
    ValueDetermines(CheckedSub(t, d).value, s);
  }

  // ---------------------------------------------------------------------
  // The simulated clock

  /** `BasicClock`; its wall-clock origin is not part of this model. */
  datatype BasicClock = BasicClock(simulatorElapsed: Duration)

  /** `BasicClock::new`. */
  function NewBasicClock(): (c: BasicClock)
    ensures Now(c) == 0
  {
    BasicClock(0)
  }

  /** `Clock::now`: the simulated time elapsed. */
  function Now(c: BasicClock): Duration {
    c.simulatorElapsed
  }

  /** `Clock::consume`: simulated time moves on by exactly the interval
      (the source panics if the total would not fit a `Duration`). */
  function Consume(c: BasicClock, interval: Duration): (c': BasicClock)
    requires Now(c) + interval <= MaxDuration
    ensures Now(c') == Now(c) + interval
    ensures Now(c) <= Now(c')
  {
    BasicClock(c.simulatorElapsed + interval)
  }

  function Total(intervals: seq<Duration>): nat {
    if |intervals| == 0 then 0 else Total(intervals[..|intervals| - 1]) + intervals[|intervals| - 1]
  }

  /** Consuming the intervals one after another, as long as the total fits. */
  function ConsumeAll(c: BasicClock, intervals: seq<Duration>): (c': BasicClock)
    requires Now(c) + Total(intervals) <= MaxDuration
    ensures Now(c') == Now(c) + Total(intervals)
  {
    if |intervals| == 0 then c
    else Consume(ConsumeAll(c, intervals[..|intervals| - 1]), intervals[|intervals| - 1])
  }

  /** The clock never goes backwards: after any prefix of the intervals
      it reads no more than after all of them. */
  lemma {:induction false} ClockMonotone(c: BasicClock, intervals: seq<Duration>, k: nat)
    requires k <= |intervals|
    requires Now(c) + Total(intervals) <= MaxDuration
    ensures Now(c) + Total(intervals[..k]) <= MaxDuration
    ensures Now(ConsumeAll(c, intervals[..k])) <= Now(ConsumeAll(c, intervals))
    decreases |intervals| - k
  {
    if k < |intervals| {
      var front := intervals[..|intervals| - 1];
      assert front[..k] == intervals[..k];
      ClockMonotone(c, front, k);
    } else {
      assert intervals[..k] == intervals;
    }
  }

  // ---------------------------------------------------------------------
  // Sleep debt

  /** `MinimalSleeper`: how much sleep is owed, and the least sleep worth
      a system call. */
  datatype MinimalSleeper = MinimalSleeper(minSleep: Duration, sleepOwed: SignedDuration, totalCumulativeSleep: Duration)

  /** `MinimalSleeper::new`. */
  function NewMinimalSleeper(minSleep: Duration): (s: MinimalSleeper)
    ensures Value(s.sleepOwed) == 0 && NoNegativeZero(s.sleepOwed)
    ensures s.minSleep == minSleep && s.totalCumulativeSleep == 0
  {
    MinimalSleeper(minSleep, Zero, 0)
  }

  /** `MinimalSleeper::sleep` up to the call of `really_sleep`: the debt
      grows by exactly the duration, and the second result says whether
      `really_sleep` is called, which is when the debt now exceeds the
      minimum sleep.  The source panics when the debt would overflow. */
  function Sleep(s: MinimalSleeper, duration: Duration): (r: (MinimalSleeper, bool))
    requires Value(s.sleepOwed) + duration <= MaxDuration
    ensures Value(r.0.sleepOwed) == Value(s.sleepOwed) + duration
    ensures NoNegativeZero(r.0.sleepOwed)
    ensures r.1 <==> Value(r.0.sleepOwed) > s.minSleep
    ensures r.0.minSleep == s.minSleep && r.0.totalCumulativeSleep == s.totalCumulativeSleep
  {
    var more := CheckedAdd(s.sleepOwed, duration).value;
    var next := s.(sleepOwed := more);
    (next, !more.negative && more.magnitude > s.minSleep)
  }

  /** A debt that is still negative after a call never triggers sleep. */
  lemma NoSleepWhileInCredit(s: MinimalSleeper, duration: Duration)
    requires Value(s.sleepOwed) + duration <= 0
    ensures !Sleep(s, duration).1
  {
  }
}
