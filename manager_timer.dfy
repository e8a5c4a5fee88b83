/** ManagerTimer: the scheduler object. It owns the store, the table of timers its
    handles reach, the alarm setting and the lifecycle flags; each method is one
    sequential step of the object, with every clock reading passed in. */
module Manager {
  import opened TimerEntry
  import opened TimerStore
  import opened AlarmSetting
  import opened Draining

  /** The last countdown handed to timer_settime, with the expiration it was computed for. */
  datatype Arming = Arming(target: Tick, setting: TimeSpec)

  /** std::chrono::hours(24), hours(1) and minutes(1) in ticks. */
  const DAY_TICKS: Tick := 24 * 3600 * TICKS_PER_SECOND
  const HOUR_TICKS: Tick := 3600 * TICKS_PER_SECOND
  const MINUTE_TICKS: Tick := 60 * TICKS_PER_SECOND

  /** system_clock::time_point::min(): what getAlarmTime returns when localtime_r fails. */
  const WALL_TIME_MIN: Tick := -0x8000_0000_0000_0000

  class ManagerTimer {
    /** init_ and running_. */
    var initialized: bool
    var running: bool
    /** Whether loop_thread_ holds a thread that has not been joined. */
    var joinable: bool
    /** Whether thread_pool_ is set. */
    var pooled: bool
    /** over_time_: the lateness beyond which an occurrence is skipped. */
    var overTime: Tick
    /** now_time_: the latest alarm reading, the time the drain works at. */
    var nowTime: Tick
    /** timer_map_. */
    var store: seq<Entry>
    /** Every timer a handle returned by a submission reaches. */
    var timers: map<TimerId, Timer>
    /** The handle the next submission returns. */
    var nextId: TimerId
    /** The alarm as last armed; None before the first arming. */
    var armed: Option<Arming>
    /** The dispatches and skips performed so far, in order. */
    var trace: seq<Event>

    /** The store is well formed and every handle given out is below nextId. */
    ghost predicate Valid()
      reads this
    {
      && WellFormed(Current())
      && forall id :: id in timers ==> id < nextId
    }

    /** The state the drain specification works on. */
    function Current(): Schedule
      reads this
    {
      Schedule(store, timers, trace)
    }

    /** ManagerTimer(ThreadPool*): no timers, over_time_ at its maximum, now_time_ at
        the clock reading `clockNow`, not initialised and not running. */
    constructor(threadPool: bool, clockNow: Tick)
      ensures Valid()
      ensures !initialized && !running && !joinable && pooled == threadPool
      ensures overTime == ACCURACY_MAX && nowTime == clockNow
      ensures store == [] && timers == map[] && armed == None && trace == []
    {
      initialized := false;
      running := false;
      joinable := false;
      pooled := threadPool;
      overTime := ACCURACY_MAX;
      nowTime := clockNow;
      store := [];
      timers := map[];
      nextId := 0;
      armed := None;
      trace := [];
    }

    /** init: succeeds at once when already initialised; otherwise succeeds exactly when
        the POSIX timer could be created (`created`). */
    method Init(created: bool) returns (ok: bool)
      modifies this`initialized
      ensures ok == (old(initialized) || created)
      ensures initialized == ok
    {
      if initialized {
        return true;
      }
      if !created {
        return false;
      }
      initialized := true;
      ok := true;
    }

    /** start: fails without touching anything unless initialised; otherwise sets
        running_ before spawning the loop thread, and keeps it set even when the
        spawn (`spawned`) fails. A spawned thread is move-assigned to loop_thread_,
        which terminates the process (`terminated`) when loop_thread_ still holds a
        thread that was not joined: a second start, or a start after stop. */
    method Start(spawned: bool) returns (ok: bool, terminated: bool)
      modifies this`running, this`joinable
      ensures terminated == (initialized && spawned && old(joinable))
      ensures ok == (initialized && spawned && !old(joinable))
      ensures running == (old(running) || initialized)
      ensures joinable == (old(joinable) || ok)
    {
      if !initialized {
        return false, false;
      }
      running := true;
      if !spawned {
        return false, false;
      }
      if joinable {
        return false, true;
      }
      joinable := true;
      ok, terminated := true, false;
    }

    /** stop: clears running_ and leaves the loop thread unjoined. */
    method Stop()
      modifies this`running
      ensures !running
    {
      running := false;
    }

    /** stopAndJoin: clears running_ and joins the loop thread, if there is one. The wait
        for the thread to finish is not modelled. */
    method StopAndJoin()
      modifies this`running, this`joinable
      ensures !running && !joinable
    {
      running := false;
      joinable := false;
    }

    /** setThreadPool. */
    method SetThreadPool(present: bool)
      modifies this`pooled
      ensures pooled == present
    {
      pooled := present;
    }

    /** setOverTime, with the duration already in ticks. */
    method SetOverTime(duration: Tick)
      modifies this`overTime
      ensures overTime == duration
    {
      overTime := duration;
    }

    /** alarm: now_time_ moves to the clock reading `observed` only if that is later,
        so it never goes back. */
    method Alarm(observed: Tick)
      modifies this`nowTime
      ensures nowTime == (if observed > old(nowTime) then observed else old(nowTime))
      ensures old(nowTime) <= nowTime && observed <= nowTime
    {
      if observed > nowTime {
        nowTime := observed;
      }
    }

    /** setNewAlarm: arms the countdown to `expiration` from the clock reading `clockNow`. */
    method SetNewAlarm(expiration: Tick, clockNow: Tick)
      modifies this`armed
      ensures armed.Some? && armed.value.target == expiration
      ensures Splits(armed.value.setting, expiration, clockNow)
    {
      var setting := SplitInterval(expiration, clockNow);
      armed := Some(Arming(expiration, setting));
    }

    /** repeatFunc: a timer that repeats with a positive period moves its expiration one
        period on and is inserted again under the new expiration; any other timer is
        left as it is. */
    method RepeatFunc(id: TimerId)
      requires id in timers
      modifies this`store, this`timers
      ensures var t := old(timers[id]);
        if t.NextExpiration().Some? then
          && timers == old(timers)[id := t.(expiration := t.NextExpiration().value)]
          && store == Insert(old(store), Entry(t.NextExpiration().value, id))
        else
          timers == old(timers) && store == old(store)
    {
      var t := timers[id];
      if t.repeat && t.duration > 0 {
        var newExpiration := t.expiration + t.duration;
        timers := timers[id := t.(expiration := newExpiration)];
        store := Insert(store, Entry(newExpiration, id));
      }
    }

    /** One turn of the drain loop on the first entry, due at now_time_: marks it over
        time or not, records its dispatch (or its skip), stamps the handling time when
        dispatched, erases the entry and lets repeatFunc re-insert it. The new state is
        one step of the drain specification. */
    method ProcessFirst()
      requires Valid() && Due(Current(), nowTime)
      modifies this`store, this`timers, this`trace
      ensures Valid() && timers.Keys == old(timers.Keys)
      ensures Current() == Process(old(Current()), nowTime, overTime, pooled)
      ensures Work(store, timers, nowTime) < Work(old(store), old(timers), nowTime)
      ensures DrainSpec(Current(), nowTime, overTime, pooled) == DrainSpec(old(Current()), nowTime, overTime, pooled)
    {
      ghost var before := Current();
      var e := store[0];
      var timer := timers[e.id];
      var late := nowTime - e.key > overTime;
      timer := timer.(isOverTime := late);
      if !late {
        trace := trace + [Dispatched(e.id, e.key, timer.callback, ModeOf(pooled, timer.repeat))];
        timer := timer.(handlingTime := nowTime);
      } else {
        trace := trace + [Skipped(e.id, e.key)];
      }
      timers := timers[e.id := timer];
      RepeatFunc(e.id);
      store := store[1..];
      LoopTraceIsProcess(before, trace, nowTime, overTime, pooled);
      LoopStoreIsProcess(before, store, nowTime, overTime, pooled);
      LoopTimersIsProcess(before, timers, nowTime, overTime, pooled);
      DrainStep(before, nowTime, overTime, pooled);
    }

    /** The drain of one wake-up of the loop: processes the first entry while it is due
        at now_time_, then arms the alarm for the first remaining entry, if any, from
        the clock reading `clockNow`. The result is the drain specification. */
    method Drain(clockNow: Tick)
      requires Valid()
      modifies this`store, this`timers, this`trace, this`armed
      ensures Valid()
      ensures Current() == DrainSpec(old(Current()), nowTime, overTime, pooled)
      ensures forall e :: e in store ==> nowTime < e.key
      ensures store == [] ==> armed == old(armed)
      ensures store != [] ==>
        && armed.Some? && armed.value.target == store[0].key
        && Splits(armed.value.setting, store[0].key, clockNow)
        && forall e :: e in store ==> armed.value.target <= e.key
    {
      ghost var start := Current();
      while store != [] && nowTime >= store[0].key
        invariant Valid()
        invariant timers.Keys == start.timers.Keys
        invariant armed == old(armed)
        invariant DrainSpec(Current(), nowTime, overTime, pooled) == DrainSpec(start, nowTime, overTime, pooled)
        decreases Work(store, timers, nowTime)
      {
        ProcessFirst();
      }
      DrainSettles(start, nowTime, overTime, pooled);
      assert DrainSpec(Current(), nowTime, overTime, pooled) == Current();
      if store != [] {
        SetNewAlarm(timers[store[0].id].expiration, clockNow);
        assert store[0] in store;
        HeadIsMinimum(store);
      }
    }

    /** stopRepeat on the timer behind handle `id`. */
    method StopRepeat(id: TimerId)
      requires Valid() && id in timers
      modifies this`timers
      ensures Valid()
      ensures timers == old(timers)[id := old(timers[id]).StopRepeat()]
    {
      timers := timers[id := timers[id].StopRepeat()];
    }

    /** isOverTime on the timer behind handle `id`. */
    method IsOverTime(id: TimerId) returns (b: bool)
      requires id in timers
      ensures b == timers[id].isOverTime
    {
      b := timers[id].isOverTime;
    }

    /** getHandlingTime on the timer behind handle `id`. */
    method GetHandlingTime(id: TimerId) returns (h: Tick)
      requires id in timers
      ensures h == timers[id].handlingTime
    {
      h := timers[id].handlingTime;
    }

    /** The shared tail of every submission: emplace the new timer under its expiration
        and arm the alarm for that expiration from the clock reading `armNow`. */
    method Submit(t: Timer, armNow: Tick) returns (id: TimerId)
      requires Valid()
      modifies this`store, this`timers, this`nextId, this`armed
      ensures Valid()
      ensures id !in old(timers) && timers == old(timers)[id := t]
      ensures store == Insert(old(store), Entry(t.expiration, id))
      ensures armed.Some? && armed.value.target == SubmitArmAsWritten(Entry(t.expiration, id))
      ensures Splits(armed.value.setting, t.expiration, armNow)
    {
      id := nextId;
      var entry := Entry(t.expiration, id);
      forall x | x in store ensures x.id != id {
        assert x.id in timers;
      }
      InsertSorted(store, entry);
      InsertDistinct(store, entry);
      InsertMembers(store, entry);
      nextId := nextId + 1;
      timers := timers[id := t];
      store := Insert(store, entry);
      SetNewAlarm(t.expiration, armNow);
    }

    /** addJobRunAt with a steady-clock time point: a one-shot job at `expiration`. */
    method AddJobRunAt(expiration: Tick, callback: CallbackId, armNow: Tick) returns (id: TimerId)
      requires Valid()
      modifies this`store, this`timers, this`nextId, this`armed
      ensures Valid()
      ensures id !in old(timers) && timers == old(timers)[id := OneShot(expiration, callback)]
      ensures store == Insert(old(store), Entry(expiration, id))
      ensures armed.Some? && armed.value.target == expiration
      ensures Splits(armed.value.setting, expiration, armNow)
    {
      id := Submit(OneShot(expiration, callback), armNow);
    }

    /** addJobRunAt with a time point of another clock: translated to this clock as
        `clockNow + (expiration - foreignNow)`. */
    method AddJobRunAtForeign(expiration: Tick, foreignNow: Tick, clockNow: Tick, callback: CallbackId, armNow: Tick)
      returns (id: TimerId)
      requires Valid()
      modifies this`store, this`timers, this`nextId, this`armed
      ensures Valid()
      ensures id !in old(timers)
      ensures timers == old(timers)[id := OneShot(Translate(expiration, foreignNow, clockNow), callback)]
      ensures store == Insert(old(store), Entry(Translate(expiration, foreignNow, clockNow), id))
      ensures armed.Some? && armed.value.target == Translate(expiration, foreignNow, clockNow)
      ensures Splits(armed.value.setting, Translate(expiration, foreignNow, clockNow), armNow)
    {
      id := AddJobRunAt(clockNow + (expiration - foreignNow), callback, armNow);
    }

    /** addJobRunAfter with a duration in ticks: a one-shot job `duration` after `clockNow`. */
    method AddJobRunAfter(duration: Tick, clockNow: Tick, callback: CallbackId, armNow: Tick) returns (id: TimerId)
      requires Valid()
      modifies this`store, this`timers, this`nextId, this`armed
      ensures Valid()
      ensures id !in old(timers) && timers == old(timers)[id := OneShot(clockNow + duration, callback)]
      ensures timers[id].expiration - clockNow == duration
      ensures store == Insert(old(store), Entry(clockNow + duration, id))
      ensures armed.Some? && armed.value.target == clockNow + duration
      ensures Splits(armed.value.setting, clockNow + duration, armNow)
    {
      id := AddJobRunAt(clockNow + duration, callback, armNow);
    }

    /** addJobRunAfter with a whole number of seconds: the tick form on Seconds(seconds). */
    method AddJobRunAfterSeconds(seconds: nat, clockNow: Tick, callback: CallbackId, armNow: Tick) returns (id: TimerId)
      requires Valid()
      modifies this`store, this`timers, this`nextId, this`armed
      ensures Valid()
      ensures id !in old(timers)
      ensures timers == old(timers)[id := OneShot(clockNow + seconds * TICKS_PER_SECOND, callback)]
      ensures store == Insert(old(store), Entry(clockNow + seconds * TICKS_PER_SECOND, id))
      ensures armed.Some? && armed.value.target == clockNow + seconds * TICKS_PER_SECOND
      ensures Splits(armed.value.setting, clockNow + seconds * TICKS_PER_SECOND, armNow)
    {
      id := AddJobRunAfter(seconds * TICKS_PER_SECOND, clockNow, callback, armNow);
    }

    /** addJobRunEvery with a period in ticks: a repeating job whose first occurrence is
        one period after `clockNow`. */
    method AddJobRunEvery(duration: Tick, clockNow: Tick, callback: CallbackId, armNow: Tick) returns (id: TimerId)
      requires Valid()
      modifies this`store, this`timers, this`nextId, this`armed
      ensures Valid()
      ensures id !in old(timers) && timers == old(timers)[id := Every(duration, clockNow, callback)]
      ensures store == Insert(old(store), Entry(clockNow + duration, id))
      ensures armed.Some? && armed.value.target == clockNow + duration
      ensures Splits(armed.value.setting, clockNow + duration, armNow)
    {
      id := Submit(Every(duration, clockNow, callback), armNow);
    }

    /** addJobRunEvery with a whole number of seconds. */
    method AddJobRunEverySeconds(seconds: nat, clockNow: Tick, callback: CallbackId, armNow: Tick) returns (id: TimerId)
      requires Valid()
      modifies this`store, this`timers, this`nextId, this`armed
      ensures Valid()
      ensures id !in old(timers)
      ensures timers == old(timers)[id := Every(seconds * TICKS_PER_SECOND, clockNow, callback)]
      ensures store == Insert(old(store), Entry(clockNow + seconds * TICKS_PER_SECOND, id))
      ensures armed.Some? && armed.value.target == clockNow + seconds * TICKS_PER_SECOND
      ensures Splits(armed.value.setting, clockNow + seconds * TICKS_PER_SECOND, armNow)
    {
      id := AddJobRunEvery(seconds * TICKS_PER_SECOND, clockNow, callback, armNow);
    }

    /** addJobRepeatAt: a repeating job with period `period` whose first occurrence is the
        wall-clock time `alarmTime`, translated to this clock through the readings
        `wallNow` and `clockNow`. */
    method AddJobRepeatAt(alarmTime: Tick, period: Tick, wallNow: Tick, clockNow: Tick, callback: CallbackId, armNow: Tick)
      returns (id: TimerId)
      requires Valid()
      modifies this`store, this`timers, this`nextId, this`armed
      ensures Valid()
      ensures id !in old(timers)
      ensures timers == old(timers)[id := RepeatFrom(Translate(alarmTime, wallNow, clockNow), period, callback)]
      ensures store == Insert(old(store), Entry(Translate(alarmTime, wallNow, clockNow), id))
      ensures armed.Some? && armed.value.target == Translate(alarmTime, wallNow, clockNow)
      ensures Splits(armed.value.setting, Translate(alarmTime, wallNow, clockNow), armNow)
    {
      var expiration := clockNow + (alarmTime - wallNow);
      id := Submit(RepeatFrom(expiration, period, callback), armNow);
    }

    /** addJobRepeatAtDay: null for an hour, minute or second out of range, or when the
        alarm time `alarmTime` (getAlarmTime's answer) is the failure sentinel; otherwise
        a job repeating every 24 hours. */
    method AddJobRepeatAtDay(hour: nat, min: nat, sec: nat, alarmTime: Tick, wallNow: Tick, clockNow: Tick,
                             callback: CallbackId, armNow: Tick)
      returns (r: Option<TimerId>)
      requires Valid()
      modifies this`store, this`timers, this`nextId, this`armed
      ensures Valid()
      ensures r.None? <==> !WallRepeatAccepted(DayFields(hour, min, sec), alarmTime)
      ensures r.None? ==> store == old(store) && timers == old(timers) && armed == old(armed)
      ensures r.Some? ==>
        && r.value !in old(timers)
        && timers == old(timers)[r.value := RepeatFrom(Translate(alarmTime, wallNow, clockNow), DAY_TICKS, callback)]
        && store == Insert(old(store), Entry(Translate(alarmTime, wallNow, clockNow), r.value))
        && armed.Some? && armed.value.target == Translate(alarmTime, wallNow, clockNow)
        && Splits(armed.value.setting, Translate(alarmTime, wallNow, clockNow), armNow)
    {
      if hour > 23 || min > 59 || sec > 59 {
        return None;
      }
      if alarmTime == WALL_TIME_MIN {
        return None;
      }
      var id := AddJobRepeatAt(alarmTime, DAY_TICKS, wallNow, clockNow, callback, armNow);
      r := Some(id);
    }

    /** addJobRepeatAtHour: as the daily form, at minute `min` and second `sec` of every hour. */
    method AddJobRepeatAtHour(min: nat, sec: nat, alarmTime: Tick, wallNow: Tick, clockNow: Tick,
                              callback: CallbackId, armNow: Tick)
      returns (r: Option<TimerId>)
      requires Valid()
      modifies this`store, this`timers, this`nextId, this`armed
      ensures Valid()
      ensures r.None? <==> !WallRepeatAccepted(HourFields(min, sec), alarmTime)
      ensures r.None? ==> store == old(store) && timers == old(timers) && armed == old(armed)
      ensures r.Some? ==>
        && r.value !in old(timers)
        && timers == old(timers)[r.value := RepeatFrom(Translate(alarmTime, wallNow, clockNow), HOUR_TICKS, callback)]
        && store == Insert(old(store), Entry(Translate(alarmTime, wallNow, clockNow), r.value))
        && armed.Some? && armed.value.target == Translate(alarmTime, wallNow, clockNow)
        && Splits(armed.value.setting, Translate(alarmTime, wallNow, clockNow), armNow)
    {
      if min > 59 || sec > 59 {
        return None;
      }
      if alarmTime == WALL_TIME_MIN {
        return None;
      }
      var id := AddJobRepeatAt(alarmTime, HOUR_TICKS, wallNow, clockNow, callback, armNow);
      r := Some(id);
    }

    /** addJobRepeatAtMinute: as the daily form, at second `sec` of every minute. */
    method AddJobRepeatAtMinute(sec: nat, alarmTime: Tick, wallNow: Tick, clockNow: Tick,
                                callback: CallbackId, armNow: Tick)
      returns (r: Option<TimerId>)
      requires Valid()
      modifies this`store, this`timers, this`nextId, this`armed
      ensures Valid()
      ensures r.None? <==> !WallRepeatAccepted(MinuteFields(sec), alarmTime)
      ensures r.None? ==> store == old(store) && timers == old(timers) && armed == old(armed)
      ensures r.Some? ==>
        && r.value !in old(timers)
        && timers == old(timers)[r.value := RepeatFrom(Translate(alarmTime, wallNow, clockNow), MINUTE_TICKS, callback)]
        && store == Insert(old(store), Entry(Translate(alarmTime, wallNow, clockNow), r.value))
        && armed.Some? && armed.value.target == Translate(alarmTime, wallNow, clockNow)
        && Splits(armed.value.setting, Translate(alarmTime, wallNow, clockNow), armNow)
    {
      if sec > 59 {
        return None;
      }
      if alarmTime == WALL_TIME_MIN {
        return None;
      }
      var id := AddJobRepeatAt(alarmTime, MINUTE_TICKS, wallNow, clockNow, callback, armNow);
      r := Some(id);
    }
  }

  /** The lateness of the first entry and its timer after classification, as the loop
      computes them in place. */
  function LoopClassified(before: Schedule, now: Tick, overTime: Tick): Timer
    requires before.store != [] && before.store[0].id in before.timers
  {
    var e := before.store[0];
    var late := now - e.key > overTime;
    var t1 := before.timers[e.id].(isOverTime := late);
    if late then t1 else t1.(handlingTime := now)
  }

  /** One turn of the drain loop appends the event the specification records. */
  lemma LoopTraceIsProcess(before: Schedule, trace: seq<Event>, now: Tick, overTime: Tick, pooled: bool)
    requires WellFormed(before) && Due(before, now)
    requires var e := before.store[0];
      var t := before.timers[e.id];
      trace == before.trace + [if now - e.key > overTime then Skipped(e.id, e.key)
                               else Dispatched(e.id, e.key, t.callback, ModeOf(pooled, t.repeat))]
    ensures trace == Process(before, now, overTime, pooled).trace
  {
    assert before.store[0] in before.store;
    ProcessUnfold(before, now, overTime, pooled);
  }

  /** One turn of the drain loop, with repeatFunc's insertion before the erase, leaves the
      store the specification computes by erasing first. */
  lemma LoopStoreIsProcess(before: Schedule, store: seq<Entry>, now: Tick, overTime: Tick, pooled: bool)
    requires WellFormed(before) && Due(before, now)
    requires var e := before.store[0];
      var t := before.timers[e.id];
      store == if t.NextExpiration().Some? then Insert(before.store, Entry(t.NextExpiration().value, e.id))[1..]
               else before.store[1..]
    ensures store == Process(before, now, overTime, pooled).store
  {
    var e := before.store[0];
    var t := before.timers[e.id];
    assert e in before.store;
    ProcessUnfold(before, now, overTime, pooled);
    if t.NextExpiration().Some? {
      InsertBehindHead(before.store, Entry(e.key + t.duration, e.id));
    }
  }

  /** One turn of the drain loop, classifying the timer in place and then moving its
      expiration, leaves the timers the specification computes. */
  lemma LoopTimersIsProcess(before: Schedule, timers: map<TimerId, Timer>, now: Tick, overTime: Tick, pooled: bool)
    requires WellFormed(before) && Due(before, now)
    requires var e := before.store[0];
      var t2 := LoopClassified(before, now, overTime);
      var timers1 := before.timers[e.id := t2];
      timers == if t2.NextExpiration().Some? then timers1[e.id := t2.(expiration := t2.NextExpiration().value)]
                else timers1
    ensures timers == Process(before, now, overTime, pooled).timers
  {
    var e := before.store[0];
    var t := before.timers[e.id];
    var t2 := LoopClassified(before, now, overTime);
    assert e in before.store;
    assert t2 == Classify(t, e.key, now, overTime);
    ProcessUnfold(before, now, overTime, pooled);
    if t.NextExpiration().Some? {
      UpdateTwice(before.timers, e.id, t2, t2.(expiration := e.key + t.duration));
    }
  }

  /** Writing a key twice leaves the second value. */
  lemma UpdateTwice(m: map<TimerId, Timer>, k: TimerId, a: Timer, b: Timer)
    ensures m[k := a][k := b] == m[k := b]
  {
  }

  /** A foreign-clock time point carried over to the steady clock: the same distance from
      the steady reading as it is from the foreign one. */
  function Translate(expiration: Tick, foreignNow: Tick, clockNow: Tick): (r: Tick)
    ensures r - clockNow == expiration - foreignNow
  {
    clockNow + (expiration - foreignNow)
  }

  /** The calendar fields a wall-clock repeat validates, each with its upper bound;
      a field the form does not take is absent. */
  datatype WallFields = WallFields(hour: Option<nat>, min: Option<nat>, sec: nat)

  function DayFields(hour: nat, min: nat, sec: nat): WallFields { WallFields(Some(hour), Some(min), sec) }
  function HourFields(min: nat, sec: nat): WallFields { WallFields(None, Some(min), sec) }
  function MinuteFields(sec: nat): WallFields { WallFields(None, None, sec) }

  /** A wall-clock repeat goes ahead when every given field is in range and the alarm
      time is not the failure sentinel. */
  predicate WallRepeatAccepted(f: WallFields, alarmTime: Tick) {
    && (f.hour.Some? ==> f.hour.value <= 23)
    && (f.min.Some? ==> f.min.value <= 59)
    && f.sec <= 59
    && alarmTime != WALL_TIME_MIN
  }

  /** The alarm target a submission arms, as written: the new entry's own expiration. */
  function SubmitArmAsWritten(e: Entry): Tick
  {
    e.key
  }

  /** The alarm target a submission should arm: the first key of the store after the
      insertion, the earliest pending expiration. */
  function SubmitArmCorrected(store: seq<Entry>, e: Entry): Tick
  {
    Insert(store, e)[0].key
  }

  /** As written, a submission can arm the alarm past an entry that is already pending:
      with an entry due at 10 in the store, submitting one at 100 arms for 100. */
  lemma SubmitArmAsWrittenStrands()
    ensures var s, e := [Entry(10, 0)], Entry(100, 1);
      && Entry(10, 0) in Insert(s, e)
      && 10 < SubmitArmAsWritten(e)
  {
  }

  /** The corrected target is the earliest pending expiration after the insertion,
      and never later than the new entry's own. */
  lemma SubmitArmCorrectedIsMinimum(store: seq<Entry>, e: Entry)
    requires Sorted(store)
    ensures exists x :: x in Insert(store, e) && x.key == SubmitArmCorrected(store, e)
    ensures forall x :: x in Insert(store, e) ==> SubmitArmCorrected(store, e) <= x.key
    ensures SubmitArmCorrected(store, e) <= SubmitArmAsWritten(e)
  {
    var r := Insert(store, e);
    InsertSorted(store, e);
    InsertMembers(store, e);
    HeadIsMinimum(r);
    assert r[0] in r;
  }
}
