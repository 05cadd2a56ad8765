/**
 The schedule runner (`src/schedule_runner.rs`).

 `ScheduleRunner` is the state behind the runner's mutex; each method is one critical section.  `Pass`
 is the thread's loop body.  Clock readings are parameters.  `After` is what a critical section means;
 the module `ScheduleExecutions` builds whole executions from it.
 */
module ScheduleRunners {
  import opened Options
  import opened WaitPeriods
  import opened Calendar
  import opened Schedules
  import opened IndexMaps

  datatype SchedRun<+D> = SchedRun(sched: Schedule, data: D, nextRun: Option<Instant>)

  /** The two clock readings that a pass takes for one run. */
  datatype Tick = Tick(check: Instant, reschedule: Instant)

  /** The cache recomputed from the clock. */
  ghost function Rescheduled<D>(run: SchedRun<D>, now: Instant): SchedRun<D> {
    run.(nextRun := NextRun(run.sched, now))
  }

  predicate Due<D>(run: SchedRun<D>, check: Instant) {
    run.nextRun.Some? && run.nextRun.value <= check
  }

  ghost function Checked<D>(run: SchedRun<D>, tick: Tick): SchedRun<D> {
    if Due(run, tick.check) then Rescheduled(run, tick.reschedule) else run
  }

  /** The runs after a pass has examined every index below `n`. */
  ghost function PassedBelow<D>(live: map<nat, SchedRun<D>>, ticks: seq<Tick>, n: nat): map<nat, SchedRun<D>> {
    map i | i in live :: if i < n && i < |ticks| then Checked(live[i], ticks[i]) else live[i]
  }

  /** One critical section on the runs. */
  datatype Access<+D> =
    | Insert(sched: Schedule, data: D, now: Instant)
    | Remove(index: nat)
    | SetSchedule(index: nat, sched: Schedule, now: Instant)
    | SetData(index: nat, data: D)
    | Visits(ticks: seq<Tick>)

  ghost function After<D>(slab: Slab<SchedRun<D>>, access: Access<D>): Slab<SchedRun<D>> {
    match access
    case Insert(sched, data, now) => slab.Inserted(Rescheduled(SchedRun(sched, data, None), now))
    case Remove(index) => slab.Removed(index)
    case SetSchedule(index, sched, now) =>
      if index in slab.live then slab.Updated(index, Rescheduled(slab.live[index].(sched := sched), now)) else slab
    case SetData(index, data) =>
      if index in slab.live then slab.Updated(index, slab.live[index].(data := data)) else slab
    case Visits(ticks) => Slab(PassedBelow(slab.live, ticks, |ticks|), slab.free)
  }

  lemma AfterWellFormed<D>(slab: Slab<SchedRun<D>>, access: Access<D>)
    requires slab.WellFormed()
    ensures After(slab, access).WellFormed()
  {
    hide Checked, Rescheduled;
    match access
    case Insert(sched, data, now) => InsertedWellFormed(slab, Rescheduled(SchedRun(sched, data, None), now));
    case Remove(index) => RemovedWellFormed(slab, index);
    case _ => assert After(slab, access).live.Keys == slab.live.Keys;
  }

  /** What a pass over the indices below `n` executes: the slot and data of each due run, in order. */
  function Executed<D>(live: map<nat, SchedRun<D>>, ticks: seq<Tick>, n: nat): seq<(nat, D)> {
    if n == 0 then []
    else
      var i := n - 1;
      Executed(live, ticks, i) + if i in live && i < |ticks| && Due(live[i], ticks[i].check) then [(i, live[i].data)] else []
  }

  /**
   A pass executes each live run whose next run is at or before the reading for its slot, however late
   that reading is, exactly once and with its own data; it executes nothing else; and it goes through the
   slots in ascending order.
   */
  lemma {:induction false} ExecutedIsDue<D>(live: map<nat, SchedRun<D>>, ticks: seq<Tick>, n: nat)
    ensures var executed := Executed(live, ticks, n);
      && (forall p <- executed :: p.0 in live && p.0 < n && p.1 == live[p.0].data)
      && (forall j, k :: 0 <= j < k < |executed| ==> executed[j].0 < executed[k].0)
      && (forall i :: i in live && i < n && i < |ticks| ==>
            ((i, live[i].data) in executed <==>
             live[i].nextRun.Some? && live[i].nextRun.value <= ticks[i].check))
  {
    hide Executed;
    var executed := Executed(live, ticks, n);
    ExecutedAscends(live, ticks, n);
    forall k | 0 <= k < |executed|
      ensures executed[k].0 in live && executed[k].0 < n && executed[k].1 == live[executed[k].0].data
    {
      ExecutedHas(live, ticks, n, executed[k]);
    }
    forall i | i in live && i < n && i < |ticks|
      ensures (i, live[i].data) in executed <==> live[i].nextRun.Some? && live[i].nextRun.value <= ticks[i].check
    {
      ExecutedHas(live, ticks, n, (i, live[i].data));
    }
  }

  /** `p` is the slot of a run that is found due, with its data. */
  ghost predicate DueEntry<D>(live: map<nat, SchedRun<D>>, ticks: seq<Tick>, p: (nat, D))
    requires p.0 in live
  {
    p.0 < |ticks| && p.1 == live[p.0].data && Due(live[p.0], ticks[p.0].check)
  }

  lemma {:induction false} ExecutedHas<D>(live: map<nat, SchedRun<D>>, ticks: seq<Tick>, n: nat, p: (nat, D))
    ensures p in Executed(live, ticks, n) <==> p.0 in live && p.0 < n && DueEntry(live, ticks, p)
  {
    if n > 0 { ExecutedHas(live, ticks, n - 1, p); }
  }

  lemma ExecutedBelow<D>(live: map<nat, SchedRun<D>>, ticks: seq<Tick>, n: nat, k: nat)
    requires k < |Executed(live, ticks, n)|
    ensures Executed(live, ticks, n)[k].0 < n
  {
    hide Executed;
    ExecutedHas(live, ticks, n, Executed(live, ticks, n)[k]);
  }

  lemma {:induction false} ExecutedAscends<D>(live: map<nat, SchedRun<D>>, ticks: seq<Tick>, n: nat)
    ensures var executed := Executed(live, ticks, n);
      forall j, k :: 0 <= j < k < |executed| ==> executed[j].0 < executed[k].0
  {
    if n > 0 {
      ExecutedAscends(live, ticks, n - 1);
      var (before, executed) := (Executed(live, ticks, n - 1), Executed(live, ticks, n));
      assert |executed| <= |before| + 1 && forall k :: 0 <= k < |before| ==> executed[k] == before[k];
      assert |executed| > |before| ==> executed[|before|].0 == n - 1;
      hide Executed;
      forall j, k | 0 <= j < k < |executed|
        ensures executed[j].0 < executed[k].0
      {
        ExecutedBelow(live, ticks, n - 1, j);
        assert k < |before| ==> before[j].0 < before[k].0;
      }
    }
  }

  /**
   A pass replaces the cached next run of those it executes by the next run after their second reading,
   and changes nothing else.
   */
  lemma PassReschedulesExecuted<D>(slab: Slab<SchedRun<D>>, ticks: seq<Tick>)
    requires forall i <- slab.live :: i < |ticks|
    ensures var slab' := After(slab, Visits(ticks));
      && slab'.free == slab.free && slab'.live.Keys == slab.live.Keys
      && forall i <- slab.live :: var (run, run') := (slab.live[i], slab'.live[i]);
           && run'.sched == run.sched && run'.data == run.data
           && run'.nextRun == if run.nextRun.Some? && run.nextRun.value <= ticks[i].check
                              then NextRun(run.sched, ticks[i].reschedule) else run.nextRun
  {
    hide NextRun;
  }

  /** Time left until the next run of `i`, as the pass measures it. */
  function Left<D>(live: map<nat, SchedRun<D>>, ticks: seq<Tick>, i: nat): int
    requires i in live && i < |ticks| && live[i].nextRun.Some?
  {
    live[i].nextRun.value - ticks[i].check
  }

  /** `i` is a live index below `n` whose run has a next run. */
  predicate Pending<D>(live: map<nat, SchedRun<D>>, n: nat, i: nat) {
    i in live && i < n && live[i].nextRun.Some?
  }

  /** The sleep that the runs below `n` call for. */
  ghost predicate WaitFor<D>(live: map<nat, SchedRun<D>>, ticks: seq<Tick>, n: nat, wait: WaitPeriod)
    requires n <= |ticks|
  {
    match wait
    case NoWait => exists i :: Pending(live, n, i) && Left(live, ticks, i) <= 0
    case AtMost(dur) =>
      && (exists i :: Pending(live, n, i) && Left(live, ticks, i) == dur)
      && (forall i :: Pending(live, n, i) ==> 0 < dur <= Left(live, ticks, i))
    case Wait => forall i :: !Pending(live, n, i)
  }

  lemma SomethingExecutedIff<D>(live: map<nat, SchedRun<D>>, ticks: seq<Tick>)
    requires forall i <- live :: i < |ticks|
    ensures Executed(live, ticks, |ticks|) != [] <==>
            exists i :: i in live && live[i].nextRun.Some? && live[i].nextRun.value <= ticks[i].check
  {
    hide Executed;
    var executed := Executed(live, ticks, |ticks|);
    ExecutedIsDue(live, ticks, |ticks|);
    if executed != [] { assert executed[0] in executed; }
  }

  /**
   There is no sleep iff some run is executed; it is without limit iff no run has a next run; and
   otherwise it is exactly the least time that any run has left.
   */
  lemma SleepIsExact<D>(live: map<nat, SchedRun<D>>, ticks: seq<Tick>, wait: WaitPeriod)
    requires WaitFor(live, ticks, |ticks|, wait) && forall i <- live :: i < |ticks|
    ensures wait == NoWait <==> Executed(live, ticks, |ticks|) != []
    ensures wait == Wait <==> forall i <- live :: live[i].nextRun == None
    ensures wait.AtMost? ==>
      && (exists i :: i in live && live[i].nextRun.Some? && live[i].nextRun.value == ticks[i].check + wait.dur)
      && (forall i <- live :: live[i].nextRun.Some? ==> ticks[i].check + wait.dur <= live[i].nextRun.value)
  {
    hide Executed;
    SomethingExecutedIff(live, ticks);
    assert forall i <- live :: live[i].nextRun.Some? <==> Pending(live, |ticks|, i);
    match wait
    case NoWait =>
      var i :| Pending(live, |ticks|, i) && Left(live, ticks, i) <= 0;
    case AtMost(dur) =>
      var i :| Pending(live, |ticks|, i) && Left(live, ticks, i) == dur;
    case Wait =>
      assert forall i <- live :: !Pending(live, |ticks|, i);
  }

  /** The runs and the readings determine the sleep. */
  lemma WaitForUnique<D>(live: map<nat, SchedRun<D>>, ticks: seq<Tick>, n: nat, a: WaitPeriod, b: WaitPeriod)
    requires n <= |ticks| && WaitFor(live, ticks, n, a) && WaitFor(live, ticks, n, b)
    ensures a == b
  {
    if a.AtMost? && b.AtMost? {
      var i :| Pending(live, n, i) && Left(live, ticks, i) == a.dur;
      var j :| Pending(live, n, j) && Left(live, ticks, j) == b.dur;
      assert b.dur <= Left(live, ticks, i) && a.dur <= Left(live, ticks, j);
    }
  }

  /** The sleep after one more run has been looked at. */
  function WaitAfterRun<D>(wait: WaitPeriod, run: SchedRun<D>, check: Instant): WaitPeriod {
    match run.nextRun
    case None => wait
    case Some(next) => if next <= check then NoWait else Min(wait, AtMost(next - check))
  }

  lemma WaitForNext<D>(live: map<nat, SchedRun<D>>, ticks: seq<Tick>, n: nat, m: nat, wait: WaitPeriod)
    requires n < m <= |ticks| && n in live && forall i | n < i < m :: i !in live
    requires WaitFor(live, ticks, n, wait)
    ensures WaitFor(live, ticks, m, WaitAfterRun(wait, live[n], ticks[n].check))
  {
    var wait' := WaitAfterRun(wait, live[n], ticks[n].check);
    assert forall i :: Pending(live, m, i) <==> Pending(live, n, i) || (i == n && Pending(live, m, n));
    if wait.AtMost? && wait' == wait {
      var i :| Pending(live, n, i) && Left(live, ticks, i) == wait.dur;
      assert Pending(live, m, i);
    } else if wait.NoWait? {
      var i :| Pending(live, n, i) && Left(live, ticks, i) <= 0;
      assert Pending(live, m, i);
    } else if wait' != wait {
      assert Pending(live, m, n);
    }
  }

  /**
   A pass over `entries` has dealt with every index below `n`, leaving the runs `now`, the sleep
   `wait` and the executions `executed`.
   */
  ghost predicate PassedUpTo<D>(entries: seq<Entry<SchedRun<D>>>, ticks: seq<Tick>, n: nat,
                                now: map<nat, SchedRun<D>>, wait: WaitPeriod, executed: seq<(nat, D)>)
  {
    && n <= |entries| == |ticks|
    && now == PassedBelow(LiveOf(entries), ticks, n)
    && WaitFor(LiveOf(entries), ticks, n, wait)
    && executed == Executed(LiveOf(entries), ticks, n)
  }

  lemma PassedNext<D>(live: map<nat, SchedRun<D>>, ticks: seq<Tick>, n: nat, m: nat)
    requires n < m <= |ticks| && n in live && forall i | n < i < m :: i !in live
    ensures PassedBelow(live, ticks, n)[n := Checked(live[n], ticks[n])] == PassedBelow(live, ticks, m)
  {
    hide Checked;
  }

  lemma {:induction false} ExecutedSkip<D>(live: map<nat, SchedRun<D>>, ticks: seq<Tick>, n: nat, m: nat)
    requires n <= m && forall i | n <= i < m :: i !in live
    ensures Executed(live, ticks, n) == Executed(live, ticks, m)
  {
    if n < m { ExecutedSkip(live, ticks, n, m - 1); }
  }

  lemma PassStarts<D>(entries: seq<Entry<SchedRun<D>>>, ticks: seq<Tick>, n: nat)
    requires n <= |entries| == |ticks| && forall i | 0 <= i < n :: entries[i].Empty?
    ensures PassedUpTo(entries, ticks, n, LiveOf(entries), Wait, [])
  {
    ExecutedSkip(LiveOf(entries), ticks, 0, n);
  }

  lemma PassAdvances<D>(entries: seq<Entry<SchedRun<D>>>, ticks: seq<Tick>, n: nat, m: nat,
                        now: map<nat, SchedRun<D>>, wait: WaitPeriod, executed: seq<(nat, D)>, run: SchedRun<D>)
    requires PassedUpTo(entries, ticks, n, now, wait, executed)
    requires n < m <= |entries| && entries[n] == Element(run) && forall i | n < i < m :: entries[i].Empty?
    ensures PassedUpTo(entries, ticks, m, now[n := Checked(run, ticks[n])], WaitAfterRun(wait, run, ticks[n].check),
                       executed + if Due(run, ticks[n].check) then [(n, run.data)] else [])
  {
    var live := LiveOf(entries);
    WaitForNext(live, ticks, n, m, wait);
    PassedNext(live, ticks, n, m);
    ExecutedSkip(live, ticks, n + 1, m);
    hide Checked, Due, WaitFor, WaitAfterRun, PassedBelow;
  }

  lemma PassEnds<D>(entries: seq<Entry<SchedRun<D>>>, ticks: seq<Tick>,
                    now: map<nat, SchedRun<D>>, wait: WaitPeriod, executed: seq<(nat, D)>)
    requires PassedUpTo(entries, ticks, |entries|, now, wait, executed)
    ensures now == PassedBelow(LiveOf(entries), ticks, |ticks|) && WaitFor(LiveOf(entries), ticks, |ticks|, wait)
    ensures executed == Executed(LiveOf(entries), ticks, |ticks|)
  {
  }

  class ScheduleRunner<D> {
    var quit: bool
    const runs: IndexMap<SchedRun<D>>

    ghost predicate Valid()
      reads this, runs
    {
      runs.Valid()
    }

    ghost function View(): Slab<SchedRun<D>>
      reads this, runs
    {
      runs.View()
    }

    constructor ()
      ensures Valid() && View() == Slab(map[], []) && !quit && fresh(runs)
    {
      quit := false;
      runs := new IndexMap();
    }

    method Schedule(sched: Schedule, data: D, now: Instant) returns (index: nat)
      requires Valid()
      modifies runs
      ensures Valid() && index == old(View().InsertIndex())
      ensures View() == After(old(View()), Access.Insert(sched, data, now))
    {
      var next := NextRunAfter(sched, now);
      index := runs.Insert(SchedRun(sched, data, next));
    }

    method Remove(index: nat) returns (r: Option<SchedRun<D>>)
      requires Valid() && index < |runs.entries|
      modifies runs
      ensures Valid() && View() == After(old(View()), Access.Remove(index))
      ensures r == old(if index in View().live then Some(View().live[index]) else None)
    {
      r := runs.Remove(index);
    }

    method UpdateSchedule(index: nat, sched: Schedule, now: Instant) returns (replaced: Schedule)
      requires Valid() && index in View().live
      modifies runs
      ensures Valid() && replaced == old(View().live[index].sched)
      ensures View() == After(old(View()), SetSchedule(index, sched, now))
    {
      var run := runs.Index(index);
      replaced := run.sched;
      var next := NextRunAfter(sched, now);
      runs.IndexMut(index, run.(sched := sched, nextRun := next));
    }

    method UpdateData(index: nat, data: D) returns (replaced: D)
      requires Valid() && index in View().live
      modifies runs
      ensures Valid() && replaced == old(View().live[index].data)
      ensures View() == After(old(View()), SetData(index, data))
    {
      var run := runs.Index(index);
      replaced := run.data;
      runs.IndexMut(index, run.(data := data));
    }

    method Drop()
      modifies this
      ensures quit
    {
      quit := true;
    }

    /**
     What a pass does with one run: execute and reschedule it if it is due, else shorten the sleep.  The
     executor is handed the data; the slot is recorded beside it.
     */
    method Visit(index: nat, run: SchedRun<D>, tick: Tick, wait: WaitPeriod)
      returns (wait': WaitPeriod, executed: seq<(nat, D)>)
      requires Valid() && index < |runs.entries| && runs.entries[index] == Element(run)
      modifies runs
      ensures Valid() && runs.free == old(runs.free)
      ensures runs.entries == old(runs.entries)[index := Element(Checked(run, tick))]
      ensures LiveOf(runs.entries) == LiveOf(old(runs.entries))[index := Checked(run, tick)]
      ensures wait' == WaitAfterRun(wait, run, tick.check)
      ensures executed == if Due(run, tick.check) then [(index, run.data)] else []
    {
      wait', executed := wait, [];
      if run.nextRun.Some? {
        var left := run.nextRun.value - tick.check;
        if left <= 0 {
          executed := [(index, run.data)];
          var again := NextRunAfter(run.sched, tick.reschedule);
          runs.IndexMut(index, run.(nextRun := again));
          wait' := NoWait;
        } else {
          wait' := Min(wait, AtMost(left));
        }
      }
    }

    /** The loop of a pass: visits the live runs in index order. */
    method VisitAll(ticks: seq<Tick>) returns (wait: WaitPeriod, executed: seq<(nat, D)>)
      requires Valid() && |ticks| == |runs.entries|
      modifies runs
      ensures Valid() && runs.free == old(runs.free) && |runs.entries| == |ticks|
      ensures PassedUpTo(old(runs.entries), ticks, |ticks|, LiveOf(runs.entries), wait, executed)
    {
      wait, executed := WaitPeriod.Wait, [];
      hide PassedUpTo, PassedBelow, WaitFor, Executed, WaitAfterRun, Checked, Due, Items, LiveOf, Threaded;
      ghost var entries := runs.entries;
      var it := new Iter(runs);
      var next := it.Next();
      ghost var n := if next.Some? then next.value.0 else |entries|;
      PassStarts(entries, ticks, n);
      while next.Some?
        invariant fresh(it) && it.indexMap == runs && Valid() && runs.free == old(runs.free)
        invariant |runs.entries| == |entries| && n <= it.index <= |entries|
        invariant next.Some? ==> n == next.value.0 == it.index - 1 && entries[n] == Element(next.value.1)
        invariant next.None? ==> n == |entries|
        invariant forall i | n <= i < |entries| :: runs.entries[i] == entries[i]
        invariant PassedUpTo(entries, ticks, n, LiveOf(runs.entries), wait, executed)
        decreases |entries| - n
      {
        var (index, run) := next.value;
        ghost var before, waited, had := LiveOf(runs.entries), wait, executed;
        var ran;
        wait, ran := Visit(index, run, ticks[index], wait);
        executed := executed + ran;
        assert forall i | index < i < |entries| :: runs.entries[i] == entries[i];
        next := it.Next();
        n := if next.Some? then next.value.0 else |entries|;
        PassAdvances(entries, ticks, index, n, before, waited, had, run);
      }
    }

    /**
     One wake-up of the thread: unless it must quit, it executes the runs that are due and works out
     how long to sleep.  Slot `i` is checked and rescheduled at the readings `ticks[i]`.
     */
    method Pass(ticks: seq<Tick>) returns (exit: bool, wait: WaitPeriod, executed: seq<(nat, D)>)
      requires Valid() && |ticks| == |runs.entries|
      modifies runs
      ensures Valid() && exit == quit
      ensures exit ==> View() == old(View()) && executed == []
      ensures !exit ==> View() == After(old(View()), Visits(ticks))
      ensures !exit ==> WaitFor(old(View().live), ticks, |ticks|, wait)
      ensures !exit ==> executed == Executed(old(View().live), ticks, |ticks|)
      ensures !exit ==> (wait == NoWait <==> executed != [])
    {
      exit, wait, executed := quit, WaitPeriod.Wait, [];
      if !exit {
        ghost var entries := runs.entries;
        wait, executed := VisitAll(ticks);
        PassEnds(entries, ticks, LiveOf(runs.entries), wait, executed);
        SleepIsExact(LiveOf(entries), ticks, wait);
      }
    }
  }
}
