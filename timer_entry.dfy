/** The Timer record of ManagerTimer: one scheduled job, one-shot or repeating.
    Time points and durations of the steady clock are integer tick counts; a tick
    is one unit of the scheduler's Accuracy, a nanosecond. */
module TimerEntry {

  /** A steady-clock time point or duration, in nanosecond ticks. */
  type Tick = int

  /** The handle a client holds on a Timer (the shared pointer of the source). */
  type TimerId = nat

  /** The opaque work unit bound at submission time. */
  type CallbackId = nat

  const TICKS_PER_SECOND: int := 1_000_000_000

  /** Accuracy::max(), the largest 64-bit duration. */
  const ACCURACY_MAX: Tick := 0x7FFF_FFFF_FFFF_FFFF

  /** The handling time of a timer that has never been dispatched: the time point Accuracy::max(). */
  const NEVER: Tick := ACCURACY_MAX

  datatype Option<+T> = None | Some(value: T)

  /** The fields repeat_, is_over_time_, expiration_, duration_, handling_time_ and cb_func_. */
  datatype Timer = Timer(
    repeat: bool,
    isOverTime: bool,
    expiration: Tick,
    duration: Tick,
    handlingTime: Tick,
    callback: CallbackId)
  {
    /** Neither dispatched nor classified as over time yet. */
    predicate Unhandled() {
      !isOverTime && handlingTime == NEVER
    }

    /** The key at which the scheduler re-inserts this timer after processing it,
        anchored to the current expiration, or None when it is not re-inserted. */
    function NextExpiration(): (r: Option<Tick>)
      ensures r.Some? <==> repeat && duration > 0
      ensures r.Some? ==> r.value == expiration + duration && expiration < r.value
    {
      if repeat && duration > 0 then Some(expiration + duration) else None
    }

    /** stopRepeat: clears the repeat flag and nothing else. */
    function StopRepeat(): (t: Timer)
      ensures !t.repeat && t.NextExpiration() == None
      ensures t.expiration == expiration && t.duration == duration && t.callback == callback
      ensures t.isOverTime == isOverTime && t.handlingTime == handlingTime
    {
      this.(repeat := false)
    }
  }

  /** Timer(const TimePoint& expiration): a one-shot job. */
  function OneShot(expiration: Tick, callback: CallbackId): (t: Timer)
    ensures t.Unhandled() && !t.repeat && t.duration == 0
    ensures t.expiration == expiration && t.callback == callback
    ensures t.NextExpiration() == None
  {
    Timer(false, false, expiration, 0, NEVER, callback)
  }

  /** Timer(const Accuracy& duration): a repeating job whose first occurrence is one
      period after the clock reading `now`. */
  function Every(duration: Tick, now: Tick, callback: CallbackId): (t: Timer)
    ensures t.Unhandled() && t.repeat && t.duration == duration && t.callback == callback
    ensures t.expiration - now == duration
    ensures duration > 0 ==> t.NextExpiration() == Some(now + 2 * duration)
    ensures duration <= 0 ==> t.NextExpiration() == None
  {
    Timer(true, false, now + duration, duration, NEVER, callback)
  }

  /** Timer(const TimePoint& expiration, const Accuracy& duration): a repeating job
      with an explicit first occurrence. */
  function RepeatFrom(expiration: Tick, duration: Tick, callback: CallbackId): (t: Timer)
    ensures t.Unhandled() && t.repeat && t.duration == duration && t.callback == callback
    ensures t.expiration == expiration
    ensures duration > 0 ==> t.NextExpiration() == Some(expiration + duration)
  {
    Timer(true, false, expiration, duration, NEVER, callback)
  }
}
