/** setNewAlarm's arithmetic: the countdown handed to the one-shot POSIX timer,
    split into whole seconds and the nanosecond remainder. */
module AlarmSetting {
  import opened TimerEntry

  /** NanoSecPerSec, the constant setNewAlarm subtracts by. Its value is TICKS_PER_SECOND
      only because a tick is one nanosecond; the source keeps the two apart as well
      (Seconds for the cast, NanoSecPerSec for the correction). */
  const NANOS_PER_SECOND: int := 1_000_000_000

  /** itimerspec.it_value. */
  datatype TimeSpec = TimeSpec(sec: int, nsec: int)

  /** The countdown that fires at `expiration` when the clock reads `now`: the
      shortest positive delay (0 s, 1 ns) when the expiration has passed, and
      otherwise exactly the interval, with the nanoseconds below one second. */
  predicate Splits(ts: TimeSpec, expiration: Tick, now: Tick) {
    if expiration <= now then ts == TimeSpec(0, 1)
    else (0 <= ts.nsec < NANOS_PER_SECOND
      && ts.sec * NANOS_PER_SECOND + ts.nsec == expiration - now)
  }

  /** The in_value computation of setNewAlarm. The interval is positive in the
      second branch, so truncating toward zero (duration_cast) is Euclidean division. */
  method SplitInterval(expiration: Tick, now: Tick) returns (ts: TimeSpec)
    ensures Splits(ts, expiration, now)
    ensures 0 <= ts.sec && 0 <= ts.nsec && ts != TimeSpec(0, 0)
  {
    if expiration <= now {
      ts := TimeSpec(0, 1);
    } else {
      var interval := expiration - now;
      var sec := interval / TICKS_PER_SECOND;
      var nsec := interval;
      nsec := nsec - sec * NANOS_PER_SECOND;
      ts := TimeSpec(sec, nsec);
    }
  }

  /** The split is unique: a countdown is determined by the interval it encodes. */
  lemma SplitsUnique(a: TimeSpec, b: TimeSpec, expiration: Tick, now: Tick)
    requires Splits(a, expiration, now) && Splits(b, expiration, now)
    ensures a == b
  {
  }
}
