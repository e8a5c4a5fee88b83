/** The drain step of ManagerTimer::loop as a reference definition: what one wake-up
    does to the store, the timers and the record of dispatches, and what it guarantees. */
module Draining {
  import opened TimerEntry
  import opened TimerStore

  /** How a dispatched callback leaves the loop: called inline (no pool), copied into
      the pool (a repeating timer keeps it), or moved into the pool (a one-shot timer). */
  datatype DispatchMode = Inline | PoolCopy | PoolMove

  /** One processed occurrence: skipped as over time, or dispatched. */
  datatype Event =
    | Skipped(id: TimerId, key: Tick)
    | Dispatched(id: TimerId, key: Tick, callback: CallbackId, mode: DispatchMode)

  /** The state a drain works on: the store, every timer a handle can reach, and the
      events recorded so far. */
  datatype Schedule = Schedule(store: seq<Entry>, timers: map<TimerId, Timer>, trace: seq<Event>)

  /** The store is ordered, holds each timer once, and keys every timer by its expiration. */
  predicate WellFormed(sc: Schedule) {
    && Sorted(sc.store)
    && Distinct(sc.store)
    && forall e :: e in sc.store ==> e.id in sc.timers && sc.timers[e.id].expiration == e.key
  }

  /** The first entry is due at `now`. */
  predicate Due(sc: Schedule, now: Tick) {
    sc.store != [] && sc.store[0].key <= now
  }

  /** The dispatch mode: inline exactly when there is no pool; with a pool, a repeating
      timer's callback is copied so that it stays usable, and only a one-shot timer's is moved. */
  function ModeOf(pooled: bool, repeat: bool): (m: DispatchMode)
    ensures m == Inline <==> !pooled
    ensures m == PoolMove ==> !repeat
    ensures m == PoolCopy ==> repeat
  {
    if !pooled then Inline else if repeat then PoolCopy else PoolMove
  }

  /** The timer after one processed occurrence at `key`: is_over_time_ is overwritten
      with this occurrence's lateness, and handling_time_ becomes `now` when dispatched. */
  function Classify(t: Timer, key: Tick, now: Tick, overTime: Tick): (r: Timer)
    ensures r.isOverTime <==> now - key > overTime
    ensures r.handlingTime == (if r.isOverTime then t.handlingTime else now)
    ensures r.repeat == t.repeat && r.duration == t.duration && r.expiration == t.expiration
    ensures r.callback == t.callback && r.NextExpiration() == t.NextExpiration()
  {
    if now - key > overTime then t.(isOverTime := true)
    else t.(isOverTime := false, handlingTime := now)
  }

  /** What the loop records for one processed occurrence. */
  function Occurrence(id: TimerId, t: Timer, key: Tick, now: Tick, overTime: Tick, pooled: bool): (ev: Event)
    ensures ev.id == id && ev.key == key
    ensures ev.Skipped? <==> now - key > overTime
    ensures ev.Dispatched? ==> ev.callback == t.callback && ev.mode == ModeOf(pooled, t.repeat)
  {
    if now - key > overTime then Skipped(id, key)
    else Dispatched(id, key, t.callback, ModeOf(pooled, t.repeat))
  }

  /** Processes the first entry: classifies it, dispatches it unless it is over time,
      re-inserts its timer if it repeats, then erases it. */
  function Process(sc: Schedule, now: Tick, overTime: Tick, pooled: bool): Schedule
    requires WellFormed(sc) && Due(sc, now)
  {
    var e := sc.store[0];
    var t := sc.timers[e.id];
    var handled := Classify(t, e.key, now, overTime);
    var trace := sc.trace + [Occurrence(e.id, t, e.key, now, overTime, pooled)];
    if handled.NextExpiration().Some? then
      // repeatFunc inserts before the erase; the new key lies behind the head, so by
      // the definition of Insert erasing first gives the same store.
      var moved := handled.(expiration := handled.NextExpiration().value);
      Schedule(Insert(sc.store[1..], Entry(moved.expiration, e.id)), sc.timers[e.id := moved], trace)
    else
      Schedule(sc.store[1..], sc.timers[e.id := handled], trace)
  }

  /** Processing keeps the store well formed and every timer reachable. */
  lemma ProcessWellFormed(sc: Schedule, now: Tick, overTime: Tick, pooled: bool)
    requires WellFormed(sc) && Due(sc, now)
    ensures var r := Process(sc, now, overTime, pooled);
      WellFormed(r) && r.timers.Keys == sc.timers.Keys
  {
    var e := sc.store[0];
    var t := sc.timers[e.id];
    var handled := Classify(t, e.key, now, overTime);
    var trace := sc.trace + [Occurrence(e.id, t, e.key, now, overTime, pooled)];
    assert e in sc.store;
    if handled.NextExpiration().Some? {
      ReinsertWellFormed(sc, handled.(expiration := handled.NextExpiration().value), trace);
    } else {
      EraseWellFormed(sc, handled, trace);
    }
  }

  lemma EraseWellFormed(sc: Schedule, t: Timer, trace: seq<Event>)
    requires WellFormed(sc) && sc.store != []
    ensures WellFormed(Schedule(sc.store[1..], sc.timers[sc.store[0].id := t], trace))
  {
    DistinctHead(sc.store);
    SortedTail(sc.store);
  }

  lemma ReinsertWellFormed(sc: Schedule, t: Timer, trace: seq<Event>)
    requires WellFormed(sc) && sc.store != []
    ensures var id := sc.store[0].id;
      WellFormed(Schedule(Insert(sc.store[1..], Entry(t.expiration, id)), sc.timers[id := t], trace))
  {
    var moved := Entry(t.expiration, sc.store[0].id);
    DistinctHead(sc.store);
    SortedTail(sc.store);
    InsertDistinct(sc.store[1..], moved);
    InsertSorted(sc.store[1..], moved);
    InsertMembers(sc.store[1..], moved);
  }

  /** Process in closed form: the head timer is re-inserted one period after its old key
      exactly when it repeats with a positive period. */
  lemma ProcessUnfold(sc: Schedule, now: Tick, overTime: Tick, pooled: bool)
    requires WellFormed(sc) && Due(sc, now)
    ensures var r := Process(sc, now, overTime, pooled);
      var e := sc.store[0];
      var t := sc.timers[e.id];
      var handled := Classify(t, e.key, now, overTime);
      && r.trace == sc.trace + [Occurrence(e.id, t, e.key, now, overTime, pooled)]
      && (t.NextExpiration().Some? ==>
            && r.store == Insert(sc.store[1..], Entry(e.key + t.duration, e.id))
            && r.timers == sc.timers[e.id := handled.(expiration := e.key + t.duration)])
      && (t.NextExpiration().None? ==>
            && r.store == sc.store[1..]
            && r.timers == sc.timers[e.id := handled])
  {
    var e := sc.store[0];
    var t := sc.timers[e.id];
    assert e in sc.store;
    var handled := Classify(t, e.key, now, overTime);
    assert handled.NextExpiration() == t.NextExpiration();
    if t.NextExpiration().Some? {
      assert handled.NextExpiration().value == e.key + t.duration;
    }
  }

  /** The processed timer: its over-time flag is overwritten by this occurrence's
      lateness, its handling time moves to `now` only when it is dispatched, and its
      expiration advances by one period, from the old expiration, when it is re-inserted.
      No other timer changes. */
  lemma ProcessTimer(sc: Schedule, now: Tick, overTime: Tick, pooled: bool)
    requires WellFormed(sc) && Due(sc, now)
    ensures var r := Process(sc, now, overTime, pooled);
      forall id :: id in sc.timers && id != sc.store[0].id ==> r.timers[id] == sc.timers[id]
    ensures var r := Process(sc, now, overTime, pooled);
      var e := sc.store[0];
      var t, t' := sc.timers[e.id], r.timers[e.id];
      && t'.isOverTime == (now - e.key > overTime)
      && t'.handlingTime == (if t'.isOverTime then t.handlingTime else now)
      && t'.repeat == t.repeat && t'.duration == t.duration && t'.callback == t.callback
      && t'.expiration == (if t.NextExpiration().Some? then e.key + t.duration else e.key)
  {
    assert sc.store[0] in sc.store;
    ProcessUnfold(sc, now, overTime, pooled);
  }

  /** The store after processing: the processed entry is gone, every other entry is
      kept, and a re-inserted timer comes back keyed one period after its old key. */
  lemma ProcessStore(sc: Schedule, now: Tick, overTime: Tick, pooled: bool)
    requires WellFormed(sc) && Due(sc, now)
    ensures var r := Process(sc, now, overTime, pooled);
      var e := sc.store[0];
      var t := sc.timers[e.id];
      multiset(r.store) == multiset(sc.store) - multiset{e}
        + (if t.NextExpiration().Some? then multiset{Entry(e.key + t.duration, e.id)} else multiset{})
  {
    var e := sc.store[0];
    assert multiset(sc.store) == multiset{e} + multiset(sc.store[1..]) by {
      assert sc.store == [e] + sc.store[1..];
    }
    ProcessUnfold(sc, now, overTime, pooled);
  }

  /** The recorded event: one per processed entry, skipped exactly when over time, and
      dispatched with the timer's callback in the mode the pool and the repeat flag select.
      A callback moved into the pool belongs to a timer that is never re-inserted. */
  lemma ProcessEvent(sc: Schedule, now: Tick, overTime: Tick, pooled: bool)
    requires WellFormed(sc) && Due(sc, now)
    ensures var r := Process(sc, now, overTime, pooled);
      var e := sc.store[0];
      var t := sc.timers[e.id];
      var ev := r.trace[|sc.trace|];
      && r.trace == sc.trace + [ev]
      && ev.id == e.id && ev.key == e.key
      && (ev.Skipped? <==> now - e.key > overTime)
      && (ev.Dispatched? ==> ev.callback == t.callback && ev.mode == ModeOf(pooled, t.repeat))
      && (ev.Dispatched? && ev.mode == PoolMove ==> t.NextExpiration() == None)
  {
    ProcessUnfold(sc, now, overTime, pooled);
  }

  /** How many times the entry of timer `t` at `key` will still be processed by a drain
      at `now`: none if it is not due, once for a timer that is not re-inserted, and once
      per period up to `now` for one that is. */
  function Occurrences(t: Timer, key: Tick, now: Tick): nat
    decreases now - key
  {
    if key > now then 0
    else if t.repeat && t.duration > 0 then 1 + Occurrences(t, key + t.duration, now)
    else 1
  }

  /** The occurrences a drain at `now` still has to process. */
  function Work(store: seq<Entry>, timers: map<TimerId, Timer>, now: Tick): nat
    requires forall e :: e in store ==> e.id in timers
  {
    if store == [] then 0
    else Occurrences(timers[store[0].id], store[0].key, now) + Work(store[1..], timers, now)
  }

  /** Inserting an entry adds exactly its own occurrences to the work. */
  lemma {:induction false} WorkInsert(s: seq<Entry>, e: Entry, timers: map<TimerId, Timer>, now: Tick)
    requires e.id in timers && forall x :: x in s ==> x.id in timers
    ensures forall x :: x in Insert(s, e) ==> x.id in timers
    ensures Work(Insert(s, e), timers, now) == Work(s, timers, now) + Occurrences(timers[e.id], e.key, now)
  {
    InsertMembers(s, e);
    if s == [] || e.key < s[0].key {
      assert ([e] + s)[1..] == s;
    } else {
      assert s[0] in s;
      InsertMembers(s[1..], e);
      WorkInsert(s[1..], e, timers, now);
      assert ([s[0]] + Insert(s[1..], e))[1..] == Insert(s[1..], e);
    }
  }

  /** Occurrences depend only on whether and how often a timer repeats. */
  lemma {:induction false} OccurrencesCadence(t: Timer, u: Timer, key: Tick, now: Tick)
    requires t.repeat == u.repeat && t.duration == u.duration
    ensures Occurrences(t, key, now) == Occurrences(u, key, now)
    decreases now - key
  {
    if key <= now && t.repeat && t.duration > 0 {
      OccurrencesCadence(t, u, key + t.duration, now);
    }
  }

  /** Updating timers without changing their cadence leaves the work unchanged. */
  lemma {:induction false} WorkCadence(s: seq<Entry>, timers: map<TimerId, Timer>, timers': map<TimerId, Timer>, now: Tick)
    requires forall e :: e in s ==> e.id in timers && e.id in timers'
    requires forall e :: e in s ==> timers'[e.id].repeat == timers[e.id].repeat && timers'[e.id].duration == timers[e.id].duration
    ensures Work(s, timers', now) == Work(s, timers, now)
  {
    if s != [] {
      OccurrencesCadence(timers[s[0].id], timers'[s[0].id], s[0].key, now);
      WorkCadence(s[1..], timers, timers', now);
    }
  }

  /** Nothing is left to do when every key lies after `now`. */
  lemma {:induction false} WorkNone(s: seq<Entry>, timers: map<TimerId, Timer>, now: Tick)
    requires forall e :: e in s ==> e.id in timers && now < e.key
    ensures Work(s, timers, now) == 0
  {
    if s != [] {
      assert s[0] in s;
      WorkNone(s[1..], timers, now);
    }
  }

  /** Each processed occurrence takes exactly one off the work: the drain terminates,
      because a re-inserted key lies one period after the processed one. */
  lemma ProcessWork(sc: Schedule, now: Tick, overTime: Tick, pooled: bool)
    requires WellFormed(sc) && Due(sc, now)
    ensures var r := Process(sc, now, overTime, pooled);
      && WellFormed(r)
      && Work(r.store, r.timers, now) + 1 == Work(sc.store, sc.timers, now)
  {
    var r := Process(sc, now, overTime, pooled);
    var e := sc.store[0];
    assert e in sc.store;
    ProcessUnfold(sc, now, overTime, pooled);
    WorkStep(sc.store, sc.timers, r.store, r.timers[e.id], now);
    ProcessWellFormed(sc, now, overTime, pooled);
  }

  /** The work after replacing the due head entry of `store` by its successor: the
      entry re-inserted one period later, or nothing. */
  lemma WorkStep(store: seq<Entry>, timers: map<TimerId, Timer>, store': seq<Entry>, u: Timer, now: Tick)
    requires store != [] && store[0].key <= now
    requires forall x :: x in store ==> x.id in timers
    requires var e := store[0]; var t := timers[e.id];
      && u.repeat == t.repeat && u.duration == t.duration
      && store' == (if t.NextExpiration().Some? then Insert(store[1..], Entry(e.key + t.duration, e.id)) else store[1..])
    ensures forall x :: x in store' ==> x.id in timers[store[0].id := u]
    ensures Work(store', timers[store[0].id := u], now) + 1 == Work(store, timers, now)
  {
    var e := store[0];
    var tail := store[1..];
    assert e in store;
    assert forall x :: x in tail ==> x in store;
    assert Work(store, timers, now) == Occurrences(timers[e.id], e.key, now) + Work(tail, timers, now);
    if timers[e.id].NextExpiration().Some? {
      WorkReinsert(tail, timers, e.id, u, e.key, now);
    } else {
      WorkRetire(tail, timers, e.id, u, e.key, now);
    }
  }

  /** Re-inserting a repeating timer one period later, with its cadence unchanged,
      takes exactly one occurrence off its work. */
  lemma WorkReinsert(tail: seq<Entry>, timers: map<TimerId, Timer>, id: TimerId, u: Timer, key: Tick, now: Tick)
    requires id in timers && forall x :: x in tail ==> x.id in timers
    requires key <= now && timers[id].repeat && timers[id].duration > 0
    requires u.repeat == timers[id].repeat && u.duration == timers[id].duration
    ensures var s := Insert(tail, Entry(key + u.duration, id));
      && (forall x :: x in s ==> x.id in timers[id := u])
      && Work(s, timers[id := u], now) + 1 == Occurrences(timers[id], key, now) + Work(tail, timers, now)
  {
    var t := timers[id];
    var moved := Entry(key + t.duration, id);
    WorkUpdate(tail, timers, id, u, now);
    WorkInsert(tail, moved, timers[id := u], now);
    OccurrencesCadence(t, u, moved.key, now);
    assert Occurrences(t, key, now) == 1 + Occurrences(t, moved.key, now);
  }

  /** Erasing a due timer that is not re-inserted takes its one occurrence off the work. */
  lemma WorkRetire(tail: seq<Entry>, timers: map<TimerId, Timer>, id: TimerId, u: Timer, key: Tick, now: Tick)
    requires id in timers && forall x :: x in tail ==> x.id in timers
    requires key <= now && !(timers[id].repeat && timers[id].duration > 0)
    requires u.repeat == timers[id].repeat && u.duration == timers[id].duration
    ensures forall x :: x in tail ==> x.id in timers[id := u]
    ensures Work(tail, timers[id := u], now) + 1 == Occurrences(timers[id], key, now) + Work(tail, timers, now)
  {
    WorkUpdate(tail, timers, id, u, now);
  }

  /** Changing one timer without changing its cadence leaves the work unchanged. */
  lemma WorkUpdate(s: seq<Entry>, timers: map<TimerId, Timer>, id: TimerId, u: Timer, now: Tick)
    requires id in timers && u.repeat == timers[id].repeat && u.duration == timers[id].duration
    requires forall e :: e in s ==> e.id in timers
    ensures forall e :: e in s ==> e.id in timers[id := u]
    ensures Work(s, timers[id := u], now) == Work(s, timers, now)
  {
    WorkCadence(s, timers, timers[id := u], now);
  }

  /** The drain: processes entries from the front while the first one is due. */
  function DrainSpec(sc: Schedule, now: Tick, overTime: Tick, pooled: bool): Schedule
    requires WellFormed(sc)
    decreases Work(sc.store, sc.timers, now)
  {
    if Due(sc, now) then
      ProcessWork(sc, now, overTime, pooled);
      DrainSpec(Process(sc, now, overTime, pooled), now, overTime, pooled)
    else
      sc
  }

  /** One step of the drain keeps the store well formed, takes one off the work and
      leaves the outcome of the drain as it was. */
  lemma DrainStep(sc: Schedule, now: Tick, overTime: Tick, pooled: bool)
    requires WellFormed(sc) && Due(sc, now)
    ensures var p := Process(sc, now, overTime, pooled);
      && WellFormed(p) && p.timers.Keys == sc.timers.Keys
      && Work(p.store, p.timers, now) < Work(sc.store, sc.timers, now)
      && DrainSpec(p, now, overTime, pooled) == DrainSpec(sc, now, overTime, pooled)
  {
    ProcessWork(sc, now, overTime, pooled);
    ProcessWellFormed(sc, now, overTime, pooled);
  }

  /** After a drain the store is still well formed, every timer is still reachable,
      and nothing left in the store is due. */
  lemma {:induction false} DrainSettles(sc: Schedule, now: Tick, overTime: Tick, pooled: bool)
    requires WellFormed(sc)
    ensures var r := DrainSpec(sc, now, overTime, pooled);
      && WellFormed(r)
      && r.timers.Keys == sc.timers.Keys
      && forall e :: e in r.store ==> now < e.key
    decreases Work(sc.store, sc.timers, now)
  {
    if Due(sc, now) {
      ProcessWork(sc, now, overTime, pooled);
      ProcessWellFormed(sc, now, overTime, pooled);
      DrainSettles(Process(sc, now, overTime, pooled), now, overTime, pooled);
    } else {
      HeadIsMinimum(sc.store);
    }
  }

  /** A drain processes exactly the occurrences that were due, repeats included. */
  lemma {:induction false} DrainCount(sc: Schedule, now: Tick, overTime: Tick, pooled: bool)
    requires WellFormed(sc)
    ensures var r := DrainSpec(sc, now, overTime, pooled);
      |r.trace| == |sc.trace| + Work(sc.store, sc.timers, now) && r.trace[..|sc.trace|] == sc.trace
    decreases Work(sc.store, sc.timers, now)
  {
    if Due(sc, now) {
      var p := Process(sc, now, overTime, pooled);
      ProcessWork(sc, now, overTime, pooled);
      ProcessUnfold(sc, now, overTime, pooled);
      DrainCount(p, now, overTime, pooled);
      var r := DrainSpec(p, now, overTime, pooled);
      assert r == DrainSpec(sc, now, overTime, pooled);
      var n := |sc.trace|;
      assert r.trace[..n] == r.trace[..|p.trace|][..n];
    } else {
      HeadIsMinimum(sc.store);
      WorkNone(sc.store, sc.timers, now);
    }
  }

  /** The occurrences a drain appends to the trace, in ascending key order, each due,
      and each classified by its lateness: skipped exactly when over time. */
  lemma {:induction false} DrainOrder(sc: Schedule, now: Tick, overTime: Tick, pooled: bool)
    requires WellFormed(sc)
    ensures var r := DrainSpec(sc, now, overTime, pooled);
      && |sc.trace| <= |r.trace| && r.trace[..|sc.trace|] == sc.trace
      && (forall i, j :: |sc.trace| <= i < j < |r.trace| ==> r.trace[i].key <= r.trace[j].key)
      && (forall i :: |sc.trace| <= i < |r.trace| ==> r.trace[i].key <= now)
      && (forall i :: |sc.trace| <= i < |r.trace| ==> (r.trace[i].Skipped? <==> now - r.trace[i].key > overTime))
      && (sc.store != [] ==> forall i :: |sc.trace| <= i < |r.trace| ==> sc.store[0].key <= r.trace[i].key)
    decreases Work(sc.store, sc.timers, now)
  {
    if Due(sc, now) {
      var p := Process(sc, now, overTime, pooled);
      var e := sc.store[0];
      ProcessWork(sc, now, overTime, pooled);
      ProcessEvent(sc, now, overTime, pooled);
      DrainOrder(p, now, overTime, pooled);
      var r := DrainSpec(p, now, overTime, pooled);
      assert r == DrainSpec(sc, now, overTime, pooled);
      var n := |sc.trace|;
      assert r.trace[..n] == r.trace[..|p.trace|][..n];
      assert r.trace[n] == p.trace[n] by {
        assert r.trace[..|p.trace|] == p.trace;
      }
      if p.store != [] {
        ProcessFront(sc, now, overTime, pooled);
      }
      forall i, j | n <= i < j < |r.trace| ensures r.trace[i].key <= r.trace[j].key {
        if i == n {
          assert r.trace[j].key >= e.key;
        }
      }
    }
  }

  /** Whatever is first in the store after processing has a key no smaller than the
      processed one: the drain never goes back in time. */
  lemma ProcessFront(sc: Schedule, now: Tick, overTime: Tick, pooled: bool)
    requires WellFormed(sc) && Due(sc, now)
    ensures var p := Process(sc, now, overTime, pooled);
      p.store != [] ==> sc.store[0].key <= p.store[0].key
  {
    var p := Process(sc, now, overTime, pooled);
    var e := sc.store[0];
    var t := sc.timers[e.id];
    if p.store != [] {
      ProcessStore(sc, now, overTime, pooled);
      HeadIsMinimum(sc.store);
      var x := p.store[0];
      assert x in multiset(p.store);
      if t.NextExpiration().Some? && x == Entry(e.key + t.duration, e.id) {
      } else {
        assert x in multiset(sc.store);
      }
    }
  }

  /** Entries that are not due are left in the store, and their timers untouched. */
  lemma {:induction false} DrainKeepsFuture(sc: Schedule, now: Tick, overTime: Tick, pooled: bool)
    requires WellFormed(sc)
    ensures var r := DrainSpec(sc, now, overTime, pooled);
      forall e :: e in sc.store && now < e.key ==> e in r.store && e.id in r.timers && r.timers[e.id] == sc.timers[e.id]
    decreases Work(sc.store, sc.timers, now)
  {
    if Due(sc, now) {
      var p := Process(sc, now, overTime, pooled);
      var h := sc.store[0];
      ProcessWork(sc, now, overTime, pooled);
      ProcessStore(sc, now, overTime, pooled);
      ProcessTimer(sc, now, overTime, pooled);
      DrainKeepsFuture(p, now, overTime, pooled);
      forall e | e in sc.store && now < e.key ensures e in p.store && p.timers[e.id] == sc.timers[e.id] {
        var i :| 0 <= i < |sc.store| && sc.store[i] == e;
        assert i != 0;
        assert e.id != h.id;
        assert e in multiset(p.store);
      }
    }
  }

  /** No occurrence is lost: the `j`-th due occurrence of an entry of the store, at its
      key plus `j` periods, has its own event among those the drain appends. In particular
      a due timer that is stopped or one-shot still has its pending occurrence recorded. */
  lemma DrainCovers(sc: Schedule, now: Tick, overTime: Tick, pooled: bool, e: Entry, j: nat)
    requires WellFormed(sc) && e in sc.store
    requires j < Occurrences(sc.timers[e.id], e.key, now)
    ensures var r := DrainSpec(sc, now, overTime, pooled);
      exists i :: |sc.trace| <= i < |r.trace| && r.trace[i].id == e.id
        && r.trace[i].key == e.key + j * sc.timers[e.id].duration
  {
    var i := CoveringEvent(sc, now, overTime, pooled, e, j);
  }

  /** The position of the event DrainCovers promises. */
  lemma {:induction false} CoveringEvent(sc: Schedule, now: Tick, overTime: Tick, pooled: bool, e: Entry, j: nat)
    returns (i: nat)
    requires WellFormed(sc) && e in sc.store
    requires j < Occurrences(sc.timers[e.id], e.key, now)
    ensures var r := DrainSpec(sc, now, overTime, pooled);
      && |sc.trace| <= i < |r.trace| && r.trace[i].id == e.id
      && r.trace[i].key == e.key + j * sc.timers[e.id].duration
    decreases Work(sc.store, sc.timers, now)
  {
    var r := DrainSpec(sc, now, overTime, pooled);
    var d := sc.timers[e.id].duration;
    var n0 := |sc.trace|;
    assert Due(sc, now) by {
      HeadIsMinimum(sc.store);
    }
    var p := Process(sc, now, overTime, pooled);
    ProcessWork(sc, now, overTime, pooled);
    assert r == DrainSpec(p, now, overTime, pooled);
    assert |p.trace| <= |r.trace| && r.trace[..|p.trace|] == p.trace by {
      DrainCount(p, now, overTime, pooled);
    }
    var e', j' := CoverStep(sc, now, overTime, pooled, e, j);
    if e == sc.store[0] && j == 0 {
      i := n0;
      assert r.trace[n0] == p.trace[n0];
    } else {
      i := CoveringEvent(p, now, overTime, pooled, e', j');
    }
  }

  /** Where the `j`-th occurrence of `e` is after processing the first entry: the first
      new event itself, or occurrence `j'` of an entry `e'` of the new store, for the same
      timer with the same period, at the same key. */
  lemma CoverStep(sc: Schedule, now: Tick, overTime: Tick, pooled: bool, e: Entry, j: nat) returns (e': Entry, j': nat)
    requires WellFormed(sc) && Due(sc, now) && e in sc.store
    requires j < Occurrences(sc.timers[e.id], e.key, now)
    ensures var p := Process(sc, now, overTime, pooled);
      var d := sc.timers[e.id].duration;
      && |p.trace| == |sc.trace| + 1
      && p.trace[|sc.trace|].id == sc.store[0].id && p.trace[|sc.trace|].key == sc.store[0].key
      && (!(e == sc.store[0] && j == 0) ==>
            && e' in p.store && e'.id == e.id && p.timers[e'.id].duration == d
            && j' < Occurrences(p.timers[e'.id], e'.key, now)
            && e'.key + j' * d == e.key + j * d)
  {
    ProcessEvent(sc, now, overTime, pooled);
    if e == sc.store[0] && j == 0 {
      e', j' := e, 0;
    } else if e == sc.store[0] {
      e' := CoverHead(sc, now, overTime, pooled, j);
      j' := j - 1;
    } else {
      CoverTail(sc, now, overTime, pooled, e);
      e', j' := e, j;
    }
  }

  /** A later occurrence of the processed entry is occurrence `j - 1` of its re-inserted
      entry, one period on, for the same timer with the same period. */
  lemma CoverHead(sc: Schedule, now: Tick, overTime: Tick, pooled: bool, j: nat) returns (e': Entry)
    requires WellFormed(sc) && Due(sc, now)
    requires 0 < j < Occurrences(sc.timers[sc.store[0].id], sc.store[0].key, now)
    ensures var p := Process(sc, now, overTime, pooled);
      var e := sc.store[0];
      var d := sc.timers[e.id].duration;
      && e' in p.store && e'.id == e.id && p.timers[e'.id].duration == d
      && j - 1 < Occurrences(p.timers[e'.id], e'.key, now)
      && e'.key + (j - 1) * d == e.key + j * d
  {
    var p := Process(sc, now, overTime, pooled);
    var e := sc.store[0];
    var t := sc.timers[e.id];
    var d := t.duration;
    assert e in sc.store;
    e' := Entry(e.key + d, e.id);
    assert t.NextExpiration().Some?;
    ProcessUnfold(sc, now, overTime, pooled);
    InsertMembers(sc.store[1..], e');
    OccurrencesCadence(t, p.timers[e.id], e'.key, now);
    PeriodsShift(e.key, d, j - 1);
  }

  /** Every entry behind the processed one stays in the store with its timer untouched. */
  lemma CoverTail(sc: Schedule, now: Tick, overTime: Tick, pooled: bool, e: Entry)
    requires WellFormed(sc) && Due(sc, now) && e in sc.store && e != sc.store[0]
    ensures var p := Process(sc, now, overTime, pooled);
      e in p.store && p.timers[e.id] == sc.timers[e.id]
  {
    var p := Process(sc, now, overTime, pooled);
    var h := sc.store[0];
    assert e.id != h.id by {
      var k :| 0 <= k < |sc.store| && sc.store[k] == e;
    }
    assert e in p.store by {
      ProcessStore(sc, now, overTime, pooled);
      assert e in multiset(p.store);
    }
    ProcessTimer(sc, now, overTime, pooled);
  }

  /** A timer that is not re-inserted (one-shot, stopped, or without a positive period)
      and is due leaves the store for good: stopRepeat is not retroactive, it lets the
      pending occurrence through and prevents the next one. */
  lemma {:induction false} DrainRetires(sc: Schedule, now: Tick, overTime: Tick, pooled: bool, id: TimerId)
    requires WellFormed(sc)
    requires id in sc.timers && sc.timers[id].NextExpiration() == None
    requires forall e :: e in sc.store && e.id == id ==> e.key <= now
    ensures var r := DrainSpec(sc, now, overTime, pooled);
      forall e :: e in r.store ==> e.id != id
    decreases Work(sc.store, sc.timers, now)
  {
    if Due(sc, now) {
      var p := Process(sc, now, overTime, pooled);
      ProcessWork(sc, now, overTime, pooled);
      ProcessWellFormed(sc, now, overTime, pooled);
      ProcessStore(sc, now, overTime, pooled);
      ProcessTimer(sc, now, overTime, pooled);
      assert p.timers[id].NextExpiration() == None;
      forall e | e in p.store && e.id == id ensures e.key <= now {
        assert e in multiset(p.store);
        assert e in multiset(sc.store);
      }
      DrainRetires(p, now, overTime, pooled, id);
    }
  }

  /** A repeating timer several periods late is processed once per missed period, and its
      entry ends up the same number of periods after its old key. */
  lemma {:induction false} DrainCatchesUp(sc: Schedule, now: Tick, overTime: Tick, pooled: bool)
    requires WellFormed(sc) && |sc.store| == 1
    requires sc.timers[sc.store[0].id].repeat && sc.timers[sc.store[0].id].duration > 0
    ensures var e, t := sc.store[0], sc.timers[sc.store[0].id];
      var n := Occurrences(t, e.key, now);
      var r := DrainSpec(sc, now, overTime, pooled);
      && r.store == [Entry(e.key + n * t.duration, e.id)]
      && |r.trace| == |sc.trace| + n
    decreases Work(sc.store, sc.timers, now)
  {
    var e, t := sc.store[0], sc.timers[sc.store[0].id];
    var d := t.duration;
    var n := Occurrences(t, e.key, now);
    var r := DrainSpec(sc, now, overTime, pooled);
    assert Work(sc.store, sc.timers, now) == n by {
      assert sc.store[1..] == [];
    }
    DrainCount(sc, now, overTime, pooled);
    if Due(sc, now) {
      var p := Process(sc, now, overTime, pooled);
      ProcessWork(sc, now, overTime, pooled);
      var t' := SingleStep(sc, now, overTime, pooled);
      DrainCatchesUp(p, now, overTime, pooled);
      var m := Occurrences(t', e.key + d, now);
      assert r == DrainSpec(p, now, overTime, pooled);
      assert n == m + 1;
      PeriodsShift(e.key, d, m);
    } else {
      assert n == 0;
    }
  }

  /** One step of a lone repeating timer: it is re-inserted alone, one period later,
      with its cadence unchanged. */
  lemma SingleStep(sc: Schedule, now: Tick, overTime: Tick, pooled: bool) returns (t': Timer)
    requires WellFormed(sc) && |sc.store| == 1 && Due(sc, now)
    requires sc.timers[sc.store[0].id].repeat && sc.timers[sc.store[0].id].duration > 0
    ensures var e, t := sc.store[0], sc.timers[sc.store[0].id];
      var p := Process(sc, now, overTime, pooled);
      && p.store == [Entry(e.key + t.duration, e.id)]
      && t' == p.timers[e.id] && t'.repeat && t'.duration == t.duration
      && Occurrences(t, e.key, now) == 1 + Occurrences(t', e.key + t.duration, now)
  {
    var e, t := sc.store[0], sc.timers[sc.store[0].id];
    var p := Process(sc, now, overTime, pooled);
    ProcessUnfold(sc, now, overTime, pooled);
    assert sc.store[1..] == [];
    t' := p.timers[e.id];
    OccurrencesCadence(t, t', e.key + t.duration, now);
  }

  /** The occurrences of a lone repeating timer that a drain records are one period apart,
      starting at its old key. */
  lemma {:induction false} DrainCatchesUpTrace(sc: Schedule, now: Tick, overTime: Tick, pooled: bool)
    requires WellFormed(sc) && |sc.store| == 1
    requires sc.timers[sc.store[0].id].repeat && sc.timers[sc.store[0].id].duration > 0
    ensures var e, t := sc.store[0], sc.timers[sc.store[0].id];
      var r := DrainSpec(sc, now, overTime, pooled);
      forall j :: 0 <= j < Occurrences(t, e.key, now) ==> |sc.trace| + j < |r.trace| && r.trace[|sc.trace| + j].key == e.key + j * t.duration
    decreases Work(sc.store, sc.timers, now)
  {
    var e, t := sc.store[0], sc.timers[sc.store[0].id];
    var d := t.duration;
    var n0 := |sc.trace|;
    var r := DrainSpec(sc, now, overTime, pooled);
    assert |r.trace| == n0 + Occurrences(t, e.key, now) by {
      DrainCatchesUp(sc, now, overTime, pooled);
    }
    if Due(sc, now) {
      var p := Process(sc, now, overTime, pooled);
      ProcessWork(sc, now, overTime, pooled);
      var t' := p.timers[e.id];
      var m := Occurrences(t', e.key + d, now);
      assert |p.trace| == n0 + 1 && p.trace[n0].key == e.key by {
        ProcessEvent(sc, now, overTime, pooled);
      }
      assert p.store == [Entry(e.key + d, e.id)] && t'.repeat && t'.duration == d
        && Occurrences(t, e.key, now) == 1 + m by {
        var u := SingleStep(sc, now, overTime, pooled);
      }
      assert r == DrainSpec(p, now, overTime, pooled);
      assert r.trace[n0] == p.trace[n0] by {
        DrainCount(p, now, overTime, pooled);
        assert r.trace[..|p.trace|] == p.trace;
      }
      DrainCatchesUpTrace(p, now, overTime, pooled);
      PeriodicKeys(r.trace, n0, e.key, d, m);
    }
  }

  /** Keys one period apart from position `n0 + 1` on, preceded by `key`, are one period
      apart from position `n0` on. */
  lemma PeriodicKeys(trace: seq<Event>, n0: nat, key: Tick, d: Tick, m: nat)
    requires n0 + m < |trace| && trace[n0].key == key
    requires forall j :: 0 <= j < m ==> trace[n0 + 1 + j].key == key + d + j * d
    ensures forall j :: 0 <= j < m + 1 ==> trace[n0 + j].key == key + j * d
  {
    forall j | 0 < j < m + 1 ensures trace[n0 + j].key == key + j * d {
      assert trace[n0 + 1 + (j - 1)].key == key + d + (j - 1) * d;
      PeriodsShift(key, d, j - 1);
    }
  }

  lemma PeriodsShift(key: Tick, d: Tick, m: int)
    ensures key + d + m * d == key + (m + 1) * d
  {
  }

  /** Occurrences of a repeating timer count the periods up to `now`: the last one
      processed is due and the next one is not. */
  lemma {:induction false} OccurrencesBounds(t: Timer, key: Tick, now: Tick)
    requires t.repeat && t.duration > 0 && key <= now
    ensures var n := Occurrences(t, key, now);
      1 <= n && key + (n - 1) * t.duration <= now < key + n * t.duration
    decreases now - key
  {
    var d := t.duration;
    var m := Occurrences(t, key + d, now);
    if key + d <= now {
      OccurrencesBounds(t, key + d, now);
      PeriodsShift(key, d, m - 1);
      PeriodsShift(key, d, m);
    }
  }
}
