# ManagerTimer in Dafny

This project models the scheduler engine of `ManagerTimer`, a POSIX-timer-driven job scheduler.
Clients submit jobs that run once at a time point or after a delay, jobs that repeat with a
period, and jobs that repeat every day, hour or minute at a wall-clock time. The manager keeps
every pending occurrence in `timer_map_`, a multimap ordered by expiration. It arms one
one-shot system timer for the next deadline. When the alarm fires, the loop drains every
occurrence that is due. An occurrence later than the over-time limit is skipped. Every other
occurrence is dispatched inline or to a thread pool. A repeating timer is re-inserted one
period after its old expiration. Finally the alarm is re-armed for the earliest remaining entry.

The model is sequential. Each method of `ManagerTimer` is one step of the object. Every clock
reading is passed in as a tick count (nanoseconds of the steady clock).

- `TimerEntry` (`timer_entry.dfy`): the `Timer` record, its three constructors and `stopRepeat`.
  A timer is a value. The manager's table `timers` maps each handle (`TimerId`, the shared
  pointer of the source) to its current value.
- `TimerStore` (`timer_store.dfy`): `timer_map_` as a sequence of (key, timer id) entries in
  ascending key order. `Insert` is the multimap's emplace: a new entry goes after every entry
  with an equal key.
- `AlarmSetting` (`alarm.dfy`): the countdown split in `setNewAlarm`, from an interval to whole
  seconds and the nanosecond remainder.
- `Draining` (`drain.dfy`): the reference definition of one wake-up of the loop.
  - `Process` handles the first entry.
  - `DrainSpec` repeats `Process` while the first entry is due.
  - The lemmas state what a drain guarantees: order, coverage, termination, catch-up of late
    repeating timers, and the untouched future.
  - Dispatch is recorded as an `Event` in a trace instead of calling the callback.
- `Manager` (`manager_timer.dfy`): the `ManagerTimer` class.
  - The lifecycle flags, the setters, `alarm`, `setNewAlarm`, `repeatFunc` and the drain loop.
  - The handle operations (`stopRepeat`, `isOverTime`, `getHandlingTime`).
  - Every `addJob*` submission path.
  - The drain loop `Drain` is proved equal to `DrainSpec`.

Where the code and its documentation differ, the model follows the code:
- A submission re-arms the alarm for the new entry's own expiration, not for the earliest
  pending one (see "## Findings").
- `is_over_time_` describes only the latest processed occurrence; it is not sticky.
- `start` sets `running_` before spawning the loop thread and leaves it set when the spawn fails.
- A second `start`, or a `start` after `stop` without a join, terminates the process: the new
  thread is move-assigned over a joinable one.
- A repeating timer's next key is anchored to its old expiration. The next key can therefore
  still be due, and a timer several periods late is processed once per missed period in a
  single drain.
- Submissions change `timer_map_` without taking `mutex_`. The model is sequential and cannot
  show that race.

## Model

| member | source | states |
|---|---|---|
| TimerEntry.OneShot | manager_timer.h:26-31 | a one-shot timer: not repeating, not over time, zero duration, handling time at the never sentinel, never re-inserted |
| TimerEntry.Every | manager_timer.h:32-38 | a period-only timer repeats with the given period and first expires one period after the clock reading; with a positive period its next occurrence is two periods after that reading |
| TimerEntry.RepeatFrom | manager_timer.h:39-44 | a repeating timer with an explicit first expiration and period, unhandled |
| TimerEntry.Timer.StopRepeat | manager_timer.h:45-47 | clears the repeat flag only; expiration, duration, callback, over-time flag and handling time are unchanged; the timer is no longer re-inserted |
| TimerEntry.Timer.NextExpiration | manager_timer.cpp:113-119 | a timer is re-inserted exactly when it repeats with a positive period, and then at its expiration plus the period, strictly later |
| TimerStore.UpperBound | manager_timer.h:79 | the emplace position: every entry before it has a key not greater than the new key, every entry from it on a greater key |
| TimerStore.Insert | manager_timer.h:190 | emplace adds exactly the new entry: one more element, same multiset plus the entry |
| TimerStore.InsertMembers | manager_timer.h:190 | after the insertion an entry is present exactly when it was there before or is the new one |
| TimerStore.InsertSorted | manager_timer.h:79 | insertion keeps the store in ascending key order |
| TimerStore.InsertPlacement | manager_timer.h:79 | the new entry goes at the upper bound of its key, after entries with equal keys, with every old entry kept in its old order |
| TimerStore.InsertDistinct | manager_timer.cpp:113-119 | inserting a timer that is not already in the store keeps every timer in it at most once |
| AlarmSetting.SplitInterval | manager_timer.cpp:122-136 | an expiration at or before now gives (0 s, 1 ns); otherwise the seconds and a nanosecond remainder in [0, 10^9) recompose the interval exactly; never the disarming (0, 0) |
| AlarmSetting.SplitsUnique | manager_timer.cpp:122-136 | the split is determined by the expiration and the clock reading |
| Draining.ModeOf | manager_timer.cpp:88-96 | inline exactly when there is no pool; a moved callback belongs to a one-shot timer and a copied one to a repeating timer |
| Draining.Classify | manager_timer.cpp:85-97 | the over-time flag is this occurrence's lateness; the handling time becomes now only when not over time; repeat flag, period, expiration, callback and so whether it is re-inserted are unchanged |
| Draining.Occurrence | manager_timer.cpp:85-96 | the event of one occurrence names its timer and key, is a skip exactly when over time, and a dispatch carries the timer's callback in the selected mode |
| Draining.Process | manager_timer.cpp:82-100 | reference definition of one loop turn on the first entry, with the re-insertion into the store after the erase; its properties are the Process* lemmas below |
| Draining.DrainSpec | manager_timer.cpp:80-105 | reference definition of the drain: Process while the first entry is due, terminating by ProcessWork; its properties are the Drain* lemmas below |
| Draining.ProcessUnfold | manager_timer.cpp:82-100 | one processed occurrence: one event appended; the entry erased; the timer re-inserted under old key plus duration with its expiration moved there exactly when it repeats with a positive period |
| Draining.ProcessWellFormed | manager_timer.cpp:99-100 | processing keeps the store sorted, without repeated timers, and keyed by each timer's expiration; no handle is lost |
| Draining.EraseWellFormed | manager_timer.cpp:100 | erasing the head keeps the store well formed |
| Draining.ReinsertWellFormed | manager_timer.cpp:113-119 | re-inserting the head's timer under its new expiration keeps the store well formed |
| Draining.ProcessTimer | manager_timer.cpp:85-98 | the over-time flag becomes this occurrence's lateness; the handling time becomes now only when dispatched; the expiration advances by one period from the old key only when re-inserted; no other timer changes |
| Draining.ProcessStore | manager_timer.cpp:99-100 | the store loses exactly the processed entry and gains exactly the re-inserted one, if any |
| Draining.ProcessEvent | manager_timer.cpp:85-96 | one event per processed occurrence, skipped exactly when over time; a dispatch carries the timer's callback and the mode the pool and repeat flag select; a moved callback belongs to a timer that is not re-inserted |
| Draining.ProcessFront | manager_timer.cpp:81-82 | after processing, the first key is no smaller than the processed one |
| Draining.WorkInsert | manager_timer.cpp:118 | inserting an entry adds exactly its own due occurrences to the work left |
| Draining.OccurrencesCadence | manager_timer.cpp:114-116 | how often an entry is still processed depends only on the timer's repeat flag and period |
| Draining.WorkCadence | manager_timer.cpp:86-97 | updating the flags and handling time of timers leaves the work left unchanged |
| Draining.WorkNone | manager_timer.cpp:101-104 | nothing is left to do when every key lies after now |
| Draining.WorkStep | manager_timer.cpp:99-100 | replacing a due head entry by its re-insertion or by nothing takes exactly one off the work |
| Draining.WorkReinsert | manager_timer.cpp:114-118 | re-inserting a repeating timer one period later takes exactly one occurrence off the work |
| Draining.WorkRetire | manager_timer.cpp:100 | erasing a due timer that is not re-inserted takes its one occurrence off the work |
| Draining.WorkUpdate | manager_timer.cpp:86-97 | changing one timer without changing its cadence leaves the work unchanged |
| Draining.ProcessWork | manager_timer.cpp:81-82 | each processed occurrence takes exactly one off the work: the drain terminates |
| Draining.DrainStep | manager_timer.cpp:81-100 | one loop turn keeps the store well formed, decreases the work and leaves the outcome of the drain as it was |
| Draining.DrainSettles | manager_timer.cpp:80-105 | after a drain the store is well formed, no handle is lost, and every remaining key is later than now |
| Draining.DrainCount | manager_timer.cpp:80-105 | a drain records exactly as many events as there were due occurrences, repeats included, after the earlier trace |
| Draining.DrainOrder | manager_timer.cpp:80-105 | the events of a drain are in ascending key order, all due, no earlier than the first key, each skipped exactly when over time |
| Draining.DrainKeepsFuture | manager_timer.cpp:101-104 | entries that are not due stay in the store and their timers are untouched |
| Draining.DrainRetires | manager_timer.cpp:113-119 | a due timer that is not re-inserted (one-shot or stopped) leaves the store for good |
| Draining.DrainCovers | manager_timer.cpp:80-105 | no occurrence is lost: for every entry of the store and every j below its due occurrences, the drain appends an event for that timer at its key plus j periods; a stopped or one-shot due timer still gets its pending event |
| Draining.CoveringEvent | manager_timer.cpp:80-105 | the position of that event, after the earlier trace and within the new one |
| Draining.CoverStep | manager_timer.cpp:82-100 | after one turn, the j-th occurrence of an entry is either the event just recorded or an occurrence at the same key of an entry of the new store, for the same timer and period |
| Draining.CoverHead | manager_timer.cpp:113-119 | a later occurrence of the processed entry is occurrence j - 1 of its re-inserted entry, one period on |
| Draining.CoverTail | manager_timer.cpp:99-100 | entries behind the processed one stay in the store with their timers untouched |
| Draining.DrainCatchesUp | manager_timer.cpp:81-82 | a lone repeating timer n periods late is processed n times and ends up keyed n periods after its old key |
| Draining.SingleStep | manager_timer.cpp:113-119 | one step of a lone repeating timer re-inserts it alone, one period later, with its cadence unchanged |
| Draining.DrainCatchesUpTrace | manager_timer.cpp:81-82 | the occurrences a lone repeating timer catches up on are recorded one period apart, from its old key on |
| Draining.PeriodicKeys | manager_timer.cpp:116 | keys one period apart from a position on, preceded by the key, are one period apart from the earlier position |
| Draining.OccurrencesBounds | manager_timer.cpp:114-116 | a late repeating timer's occurrences count the periods up to now: the last processed one is due and the next is not |
| Manager.ManagerTimer.constructor | manager_timer.h:84-91 | no timers, over time at its maximum, now at the clock reading, not initialised, not running, not armed |
| Manager.ManagerTimer.Init | manager_timer.cpp:21-39 | succeeds at once when initialised; otherwise succeeds and sets the flag exactly when the system timer is created |
| Manager.ManagerTimer.Start | manager_timer.cpp:41-55 | fails without change unless initialised; otherwise sets running; fails when the spawn fails; terminates the process when the loop thread of an earlier start was not joined; otherwise succeeds and the new thread is joinable |
| Manager.ManagerTimer.Stop | manager_timer.h:98-100 | clears running and leaves the loop thread joinable |
| Manager.ManagerTimer.StopAndJoin | manager_timer.cpp:57-62 | clears running and joins the loop thread, so a later start does not terminate |
| Manager.ManagerTimer.SetThreadPool | manager_timer.h:104-106 | sets whether a pool is present |
| Manager.ManagerTimer.SetOverTime | manager_timer.h:107-110 | sets the over-time limit |
| Manager.ManagerTimer.Alarm | manager_timer.cpp:64-73 | now becomes the maximum of the old value and the observed reading: it never goes back |
| Manager.ManagerTimer.SetNewAlarm | manager_timer.cpp:122-138 | arms for the expiration with the countdown that splits the interval from the clock reading |
| Manager.ManagerTimer.RepeatFunc | manager_timer.cpp:113-120 | a timer repeating with a positive period moves one period on and is inserted under the new expiration; any other timer and the store are unchanged |
| Manager.ManagerTimer.ProcessFirst | manager_timer.cpp:82-100 | one turn of the loop is one step of the drain specification and takes one off the work |
| Manager.ManagerTimer.Drain | manager_timer.cpp:80-109 | the loop computes the drain specification; every remaining key is later than now; the alarm is re-armed for the first remaining key, the minimum, or left alone when the store is empty |
| Manager.LoopTraceIsProcess | manager_timer.cpp:85-96 | the event one loop turn appends is the one the specification records |
| Manager.LoopStoreIsProcess | manager_timer.cpp:99-100 | inserting the repeat before erasing the head, as the loop does, gives the store of the specification, which erases first |
| Manager.LoopTimersIsProcess | manager_timer.cpp:85-97 | classifying the timer in place and then moving its expiration, as the loop does, gives the timers of the specification |
| Manager.ManagerTimer.StopRepeat | manager_timer.h:45-47 | stopRepeat through a handle changes only that timer, as the record's stopRepeat |
| Manager.ManagerTimer.IsOverTime | manager_timer.h:48-50 | reads the timer's over-time flag |
| Manager.ManagerTimer.GetHandlingTime | manager_timer.h:51-53 | reads the timer's handling time |
| Manager.ManagerTimer.Submit | manager_timer.h:189-191 | a fresh handle reaches the new timer; the store gains exactly its entry under its expiration; the alarm is armed for that expiration, as written |
| Manager.ManagerTimer.AddJobRunAt | manager_timer.h:178-193 | a one-shot job at the expiration, inserted and armed for; the alarm is armed for that expiration with the split countdown |
| Manager.ManagerTimer.AddJobRunAtForeign | manager_timer.h:195-207 | a foreign time point becomes a one-shot job at the translated expiration; the alarm is armed for that expiration with the split countdown |
| Manager.ManagerTimer.AddJobRunAfter | manager_timer.h:209-217 | a one-shot job at the clock reading plus the duration; the alarm is armed for that expiration with the split countdown |
| Manager.ManagerTimer.AddJobRunAfterSeconds | manager_timer.h:219-226 | the duration form on the seconds in ticks; the alarm is armed for that expiration with the split countdown |
| Manager.ManagerTimer.AddJobRunEvery | manager_timer.h:237-246 | a repeating job with the period, first due one period after the clock reading, inserted and armed for; the alarm is armed for that expiration with the split countdown |
| Manager.ManagerTimer.AddJobRunEverySeconds | manager_timer.h:248-253 | the period form on the seconds in ticks; the alarm is armed for that expiration with the split countdown |
| Manager.ManagerTimer.AddJobRepeatAt | manager_timer.h:325-340 | a repeating job with the period at the wall-clock alarm time translated to the steady clock; the alarm is armed for that expiration with the split countdown |
| Manager.ManagerTimer.AddJobRepeatAtDay | manager_timer.h:285-297 | null exactly when hour, minute or second is out of range or the alarm time is the failure sentinel, with store, timers and alarm unchanged; otherwise a job repeating every 24 hours, armed for |
| Manager.ManagerTimer.AddJobRepeatAtHour | manager_timer.h:299-310 | null exactly when minute or second is out of range or the alarm time is the sentinel, with nothing changed; otherwise a job repeating every hour, armed for |
| Manager.ManagerTimer.AddJobRepeatAtMinute | manager_timer.h:312-323 | null exactly when the second is out of range or the alarm time is the sentinel, with nothing changed; otherwise a job repeating every minute, armed for |
| Manager.WallRepeatAccepted | manager_timer.h:289-295 | the acceptance test of the wall-clock repeats: every given field within its bound (hour 23, minute 59, second 59) and an alarm time other than the failure sentinel; the three AddJobRepeatAt* rows state it as their null condition |
| Manager.SubmitArmAsWritten | manager_timer.h:190-191 | the alarm target a submission arms as written: the new entry's own expiration |
| Manager.SubmitArmCorrected | manager_timer.h:190-191 | the evidently intended target: the first key of the store after the insertion |
| Manager.Translate | manager_timer.h:201-205 | a time point of another clock lies as far from the steady reading as it lies from that clock's reading |
| Manager.SubmitArmAsWrittenStrands | manager_timer.h:190-191 | with an entry due at 10 pending, a submission at 100 arms for 100 |
| Manager.SubmitArmCorrectedIsMinimum | manager_timer.h:190-191 | the corrected target is a key of the store after insertion, no key is smaller, and it is never later than the new entry's |

## Left out

- The POSIX timer calls (`timer_create`, `timer_settime`, `timer_delete`, `sigevent`, `alarmFunction`) are foreign OS calls. Creation success is a parameter of `Init`, and arming is recorded as the target and the countdown in `armed`.
- Threads, `mutex_`, the `cv_` wait of up to one hour and the atomic flags are left out: each method is one sequential step. The outer `while (running_)` loop of `loop` and its hourly wake-ups without an alarm are not modelled; `Drain` is one wake-up.
- `ThreadPool::enqueue` is not shown in the source. A dispatch is an `Event` in `trace` that names the callback and whether it runs inline, is copied or is moved into the pool.
- `std::packaged_task`, `std::future` and `std::bind` over arbitrary callables are template machinery over opaque code. A callback is an id, and the returned future is not modelled.
- Re-entrant callbacks are not modelled. An inline callback runs on the loop thread in the middle of the drain (manager_timer.cpp:89), and the model records an event instead. Such a callback can call `stopRepeat` on its own handle, and `repeatFunc` then reads the cleared flag (manager_timer.cpp:114), so the timer is not re-inserted. It can also submit a job, which takes no lock: a job keyed below the current entry lands behind the iterator, is not drained, and the final re-arm targets the iterator's entry instead of the minimum (manager_timer.cpp:107-108).
- A moved-from callback left in the timer after a pool move is not modelled; `ProcessEvent` states that only timers that are never re-inserted are moved.
- `getAlarmTime` depends on `localtime_r` and `mktime`. Its result is the parameter `alarmTime` of the wall-clock submissions, and it may be the failure sentinel.
- `Clock::now()` and `system_clock::now()` are parameters. A submission takes one reading for its expiration and a separate reading `armNow` for `setNewAlarm`, as the source reads the clock twice.
- 64-bit overflow: ticks are unbounded integers, so `now + duration`, `expiration + duration` and `seconds * 10^9` never wrap.
- `duration_cast` and `time_point_cast` between clocks and units are left out. The generic duration overloads of `addJobRunAfter` and `addJobRunEvery`, and `setOverTime`, take their argument already in ticks.
- The `err` buffer and `snprintf` messages of `init` and `start` are left out, including the null `err` written to by `start` when the spawn fails.
- The destructor (stop, join, `timer_delete`) is left out; it only releases OS resources.
- Manager.ManagerTimer.StopAndJoin: the wait for the loop thread to finish is not modelled; the join only clears `joinable`.

## Findings

| source | as written | input that shows it | evidently intended | confidence | as-written member | corrected member |
|---|---|---|---|---|---|---|
| manager_timer.h:190-191 (also 243-244 and 337-338) | every submission arms the one-shot system timer for the new entry's own expiration, replacing the pending arming | an entry due at 10 is in the store; a job is submitted for 100; the alarm now fires at 100, so the entry due at 10 is not drained until the alarm at 100, or until the loop's next wake-up (at the latest its one-hour timeout) re-arms for the earliest key (manager_timer.cpp:79, 107-108) | arm for the earliest pending expiration, the first key of the store after the insertion | not executed; high that it delays earlier entries, medium that it is unintended | Manager.SubmitArmAsWritten, Manager.SubmitArmAsWrittenStrands | Manager.SubmitArmCorrected, Manager.SubmitArmCorrectedIsMinimum |

The submission methods (`Manager.ManagerTimer.Submit` and the `AddJob*` methods) follow the
code as written: their contracts state the as-written target. The post-drain re-arm in
`Manager.ManagerTimer.Drain` already targets the minimum.
