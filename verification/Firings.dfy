/**
 What the histories of a runner's executions mean for its schedules: which runs are executed, which are
 executed twice, and which are skipped.
 */
module Firings {
  import opened Options
  import opened TimeUnits
  import opened Calendar
  import opened Schedules
  import opened IndexMaps
  import opened ScheduleRunners
  import opened ScheduleExecutions

  ghost predicate AllHold(sched: Schedule, h: History) {
    forall k :: 0 <= k < |h.fired| ==> FiringHolds(sched, h, k)
  }

  predicate Fired(h: History, t: Instant) {
    exists k :: 0 <= k < |h.fired| && h.fired[k].due == t
  }

  /** `t` fell between a due instant and the clock reading after its execution. */
  predicate InGap(h: History, t: Instant) {
    exists k :: 0 <= k < |h.fired| && h.fired[k].due < t < h.fired[k].next
  }

  /**
   The `k`th firing was the earliest run in the window as seen from the reading before it, and was
   executed no earlier than it was due.
   */
  ghost predicate FiringSound(sched: Schedule, h: History, k: nat)
    requires k < |h.fired|
  {
    var f := h.fired[k];
    IsNext(sched, Reference(h, k), Some(f.due)) && Reference(h, k) <= f.due <= f.checked <= f.next
  }

  lemma FiringIsSound(sched: Schedule, h: History, k: nat)
    requires k < |h.fired| && FiringHolds(sched, h, k)
    ensures FiringSound(sched, h, k)
  {
    hide WithYear, YearOf;
  }

  lemma ReachableHistoryHolds<D(!new)>(start: Instant, events: seq<Event<D>>, s: State<D>, i: nat)
    requires Execution(start, events, s) && i in s.slab.live
    ensures i in s.histories
    ensures var (run, h) := (s.slab.live[i], s.histories[i]);
      AllHold(run.sched, h) && run.nextRun == NextRun(run.sched, Reference(h, |h.fired|))
  {
    hide FiringHolds;
    ExecutionsKeepInvariant(start, events, s);
  }

  /**
   Whatever its bounds, the runner executes only runs that the schedule asks for as seen from the clock
   reading before, the earliest of them first; and its cache is the next run as seen from the last reading.
   */
  lemma FiringsAreSound<D(!new)>(start: Instant, events: seq<Event<D>>, s: State<D>, i: nat)
    requires Execution(start, events, s) && i in s.slab.live
    ensures i in s.histories
    ensures var (run, h) := (s.slab.live[i], s.histories[i]);
      && (forall k :: 0 <= k < |h.fired| ==> FiringSound(run.sched, h, k))
      && IsNext(run.sched, Reference(h, |h.fired|), run.nextRun)
  {
    hide FiringSound, FiringHolds, IsNext;
    ReachableHistoryHolds(start, events, s, i);
    var (run, h) := (s.slab.live[i], s.histories[i]);
    forall k | 0 <= k < |h.fired|
      ensures FiringSound(run.sched, h, k)
    {
      FiringIsSound(run.sched, h, k);
    }
  }

  // ---- Order, and the same run twice ----

  lemma {:induction false} FiringsInOrder(sched: Schedule, h: History, j: nat, k: nat)
    requires AllHold(sched, h) && j < k < |h.fired|
    ensures h.fired[j].next <= h.fired[k].due
  {
    FiringIsSound(sched, h, k);
    if j < k - 1 {
      FiringsInOrder(sched, h, j, k - 1);
      FiringIsSound(sched, h, k - 1);
    }
  }

  /**
   A run is the next run from a reading not before it iff the reading is that very instant and the run is
   in the window seen from there: the search returns runs at the reference, not only after it.
   */
  lemma SameRunNextIff(sched: Schedule, due: Instant, reading: Instant)
    requires due <= reading
    ensures NextRun(sched, reading) == Some(due) <==> reading == due && sched.Hit(due, due)
  {
    hide WithYear, YearOf;
    if reading == due && sched.Hit(due, due) {
      NextUnique(sched, due, NextRun(sched, due), Some(due));
    }
  }

  /** A run stays in the window seen from itself if the bounds are fixed, or resolve in the same year. */
  lemma HitFromItself(sched: Schedule, reference: Instant, due: Instant)
    requires sched.Hit(reference, due) && (FixedBounds(sched) || YearOf(reference) == YearOf(due))
    ensures sched.Hit(due, due)
  {
    hide WithYear, YearOf;
  }

  /** What the runner holds next after the `k`th firing: the firing after it, or the cached next run. */
  function Following(run: Option<Instant>, h: History, k: nat): Option<Instant>
    requires k < |h.fired|
  {
    if k + 1 < |h.fired| then Some(h.fired[k + 1].due) else run
  }

  /**
   Firings never go back: each is due no earlier than the reading after any before it.  The same run
   comes again exactly when that reading is still its due instant and the run is in the window seen from
   there, which it always is if the bounds are fixed or the year has not changed.
   */
  lemma SameRunAgainIff<D(!new)>(start: Instant, events: seq<Event<D>>, s: State<D>, i: nat)
    requires Execution(start, events, s) && i in s.slab.live
    ensures i in s.histories
    ensures var (run, h) := (s.slab.live[i], s.histories[i]);
      && (forall j, k :: 0 <= j < k < |h.fired| ==> h.fired[j].next <= h.fired[k].due)
      && (forall k :: 0 <= k < |h.fired| ==> var f := h.fired[k];
            && (Following(run.nextRun, h, k) == Some(f.due) <==> f.next == f.due && run.sched.Hit(f.due, f.due))
            && (FixedBounds(run.sched) || YearOf(Reference(h, k)) == YearOf(f.due) ==> run.sched.Hit(f.due, f.due)))
  {
    hide WithYear, YearOf, IsNext;
    ReachableHistoryHolds(start, events, s, i);
    var (run, h) := (s.slab.live[i], s.histories[i]);
    forall j, k | 0 <= j < k < |h.fired|
      ensures h.fired[j].next <= h.fired[k].due
    {
      FiringsInOrder(run.sched, h, j, k);
    }
    forall k | 0 <= k < |h.fired|
      ensures var f := h.fired[k];
        && (Following(run.nextRun, h, k) == Some(f.due) <==> f.next == f.due && run.sched.Hit(f.due, f.due))
        && (FixedBounds(run.sched) || YearOf(Reference(h, k)) == YearOf(f.due) ==> run.sched.Hit(f.due, f.due))
    {
      FiringFollowed(run.sched, run.nextRun, h, k);
    }
  }

  lemma FiringFollowed(sched: Schedule, nextRun: Option<Instant>, h: History, k: nat)
    requires AllHold(sched, h) && nextRun == NextRun(sched, Reference(h, |h.fired|)) && k < |h.fired|
    ensures var f := h.fired[k];
      && (Following(nextRun, h, k) == Some(f.due) <==> f.next == f.due && sched.Hit(f.due, f.due))
      && (FixedBounds(sched) || YearOf(Reference(h, k)) == YearOf(f.due) ==> sched.Hit(f.due, f.due))
  {
    hide WithYear, YearOf;
    var f := h.fired[k];
    FiringIsSound(sched, h, k);
    if k + 1 < |h.fired| { assert FiringHolds(sched, h, k + 1); }
    assert Following(nextRun, h, k) == NextRun(sched, f.next);
    SameRunNextIff(sched, f.due, f.next);
    if FixedBounds(sched) || YearOf(Reference(h, k)) == YearOf(f.due) {
      HitFromItself(sched, Reference(h, k), f.due);
    }
  }

  // ---- Every run is executed or skipped ----

  lemma {:induction false} AccountedFrom(sched: Schedule, h: History, t: Instant, k: nat)
    requires FixedBounds(sched) && AllHold(sched, h)
    requires k <= |h.fired| && sched.Hit(Reference(h, k), t)
    requires var next := NextRun(sched, Reference(h, |h.fired|)); next.Some? ==> t < next.value
    ensures Fired(h, t) || InGap(h, t)
    decreases |h.fired| - k
  {
    hide WithYear, YearOf;
    if k < |h.fired| {
      assert FiringHolds(sched, h, k);
      var f := h.fired[k];
      assert f.due <= t;
      if f.next <= t {
        HitFromLaterReference(sched, Reference(h, k), f.next, t);
        AccountedFrom(sched, h, t, k + 1);
      }
    }
  }

  /** Whatever the bounds, a run that fell in a gap is never executed. */
  lemma GapsAreSkipped(sched: Schedule, h: History, t: Instant)
    requires AllHold(sched, h) && InGap(h, t)
    ensures !Fired(h, t)
  {
    var k :| 0 <= k < |h.fired| && h.fired[k].due < t < h.fired[k].next;
    forall j | 0 <= j < |h.fired|
      ensures h.fired[j].due != t
    {
      if j < k {
        FiringsInOrder(sched, h, j, k);
        assert FiringHolds(sched, h, j);
      } else if k < j {
        FiringsInOrder(sched, h, k, j);
      }
    }
  }

  /** A run in the window seen from the `k`th reading, and before the next reading, is in one or the other. */
  lemma AccountedBetween(sched: Schedule, h: History, t: Instant, k: nat)
    requires AllHold(sched, h) && k < |h.fired|
    requires sched.Hit(Reference(h, k), t) && t < h.fired[k].next
    ensures Fired(h, t) || InGap(h, t)
  {
    hide WithYear, YearOf;
    assert FiringHolds(sched, h, k);
    assert h.fired[k].due <= t;
  }

  /**
   A run that fell between a due instant and the reading after its execution was never executed, and any
   other that the schedule asked for was: for all bounds, as seen from the reading last before it; with
   fixed bounds, as seen from the setting of the schedule, up to the cached next run.
   */
  lemma EveryRunAccountedFor<D(!new)>(start: Instant, events: seq<Event<D>>, s: State<D>, i: nat, t: Instant)
    requires Execution(start, events, s) && i in s.slab.live
    ensures i in s.histories
    ensures var (run, h) := (s.slab.live[i], s.histories[i]);
      && (InGap(h, t) ==> !Fired(h, t))
      && (forall k :: 0 <= k < |h.fired| && run.sched.Hit(Reference(h, k), t) && t < h.fired[k].next ==>
            (Fired(h, t) <==> !InGap(h, t)))
      && (FixedBounds(run.sched) && run.sched.Hit(h.since, t) && (run.nextRun.Some? ==> t < run.nextRun.value) ==>
            (Fired(h, t) <==> !InGap(h, t)))
  {
    hide WithYear, YearOf, Fired, InGap, FiringHolds;
    ReachableHistoryHolds(start, events, s, i);
    var (run, h) := (s.slab.live[i], s.histories[i]);
    if InGap(h, t) { GapsAreSkipped(run.sched, h, t); }
    if k :| 0 <= k < |h.fired| && run.sched.Hit(Reference(h, k), t) && t < h.fired[k].next {
      AccountedBetween(run.sched, h, t, k);
    }
    if FixedBounds(run.sched) && run.sched.Hit(h.since, t) && (run.nextRun.Some? ==> t < run.nextRun.value) {
      AccountedFrom(run.sched, h, t, 0);
    }
  }

  // ---- Executions of a single run ----

  lemma ExecutionExtends<D(!new)>(start: Instant, events: seq<Event<D>>, s: State<D>, e: Event<D>)
    requires Execution(start, events, s) && Enabled(s, e) && Step(s, e).Ok?
    ensures Execution(start, events + [e], Step(s, e).state)
  {
    assert (events + [e])[..|events|] == events;
  }

  ghost predicate Reachable<D(!new)>(s: State<D>) {
    exists start: Instant, events: seq<Event<D>> :: Execution(start, events, s)
  }

  /** `s` has one run, at slot 0, of the schedule `sched` and with the history `h`. */
  ghost predicate Lone<D>(s: State<D>, sched: Schedule, h: History) {
    && !s.quit && s.slab.free == [] && s.slab.live.Keys == {0}
    && s.slab.live[0].sched == sched && s.slab.live[0].nextRun == NextRun(sched, s.clock)
    && s.histories == map[0 := h]
  }

  lemma LoneStarts<D(!new)>(sched: Schedule, data: D, since: Instant) returns (s: State<D>)
    ensures Reachable(s) && Lone(s, sched, History(since, [])) && s.clock == since
  {
    hide NextRun;
    var e := AddRun(sched, data, since);
    s := Step(Init<D>(since), e).state;
    assert Execution<D>(since, [], Init(since));
    ExecutionExtends(since, [], Init(since), e);
    assert [] + [e] == [e];
    assert Execution(since, [e], s);
  }

  lemma LoneStep<D>(s: State<D>, sched: Schedule, h: History, f: Firing, h': History)
    requires Lone(s, sched, h) && NextRun(sched, s.clock) == Some(f.due) && s.clock <= f.due <= f.checked <= f.next
    requires h' == h.(fired := h.fired + [f])
    ensures var e := Pass([Tick(f.checked, f.next)]);
      Enabled(s, e) && Step(s, e).Ok? && Lone(Step(s, e).state, sched, h') && Step(s, e).state.clock == f.next
  {
    hide NextRun;
  }

  /** However late the thread looks, a run that is due is executed. */
  lemma LoneFires<D(!new)>(s: State<D>, sched: Schedule, h: History, f: Firing, h': History) returns (s': State<D>)
    requires Reachable(s) && Lone(s, sched, h)
    requires NextRun(sched, s.clock) == Some(f.due) && s.clock <= f.due <= f.checked <= f.next
    requires h' == h.(fired := h.fired + [f])
    ensures Reachable(s') && Lone(s', sched, h') && s'.clock == f.next
  {
    hide NextRun, Lone, Step, Enabled;
    var start, events :| Execution<D>(start, events, s);
    var e := Pass([Tick(f.checked, f.next)]);
    LoneStep(s, sched, h, f, h');
    s' := Step(s, e).state;
    ExecutionExtends(start, events, s, e);
    assert Execution(start, events + [e], s');
  }

  /** A run asked for at the very instant it is added, with the clock standing still, is executed twice. */
  lemma RunsTwice<D(!new)>(data: D, sched: Schedule, t: Instant) returns (s: State<D>)
    requires sched.Hit(t, t)
    ensures Reachable(s) && Lone(s, sched, History(t, [Firing(t, t, t), Firing(t, t, t)]))
  {
    SameRunNextIff(sched, t, t);
    hide *;
    var f := Firing(t, t, t);
    assert [] + [f] == [f] && [f] + [f] == [f, f];
    s := LoneStarts(sched, data, t);
    s := LoneFires(s, sched, History(t, []), f, History(t, [f]));
    s := LoneFires(s, sched, History(t, [f]), f, History(t, [f, f]));
  }

  /** A run asked for before the one ahead of it has been executed, or while it is, is skipped. */
  lemma RunSkipped<D(!new)>(data: D, sched: Schedule, f: Firing, t: Instant) returns (s: State<D>)
    requires sched.Hit(f.due, f.due) && f.due <= f.checked <= f.next && f.due < t < f.next
    ensures var h := History(f.due, [f]);
      Reachable(s) && Lone(s, sched, h) && s.clock == f.next && InGap(h, t) && !Fired(h, t)
  {
    SameRunNextIff(sched, f.due, f.due);
    var h := History(f.due, [f]);
    assert h.fired[0].due < t < h.fired[0].next;
    hide *;
    assert [] + h.fired == h.fired;
    s := LoneStarts(sched, data, f.due);
    s := LoneFires(s, sched, History(f.due, []), f, h);
  }

  // ---- Cases ----

  const EVERY_DAY: set<Weekday> := {0, 1, 2, 3, 4, 5, 6}

  /** Two minutes from midnight on, every day, are each executed if the clock stands still, and otherwise not. */
  lemma MinutePastMidnight(day: Date, sched: Schedule)
    requires ValidDate(day) && sched == Schedule({0, NANOS_PER_MINUTE}, EVERY_DAY, Unbounded, Unbounded)
    ensures sched.Hit(Midnight(day), Midnight(day))
    ensures sched.Hit(Midnight(day), Midnight(day) + NANOS_PER_MINUTE)
  {
    hide DaysOf, WithYear;
    assert Midnight(day) + NANOS_PER_MINUTE == At(DaysOf(day), NANOS_PER_MINUTE);
  }

  /** So at midnight on 14 November 2016 the first of them may be executed twice. */
  lemma MidnightRunsTwice<D(!new)>(data: D, day: Date, sched: Schedule) returns (s: State<D>)
    requires day == Date(2016, 11, 14) && sched == Schedule({0, NANOS_PER_MINUTE}, EVERY_DAY, Unbounded, Unbounded)
    ensures var f := Firing(Midnight(day), Midnight(day), Midnight(day));
      Reachable(s) && Lone(s, sched, History(Midnight(day), [f, f]))
  {
    MinutePastMidnight(day, sched);
    hide *;
    s := RunsTwice(data, sched, Midnight(day));
  }

  /**
   And if the thread wakes a minute late and that one takes another minute, it is executed all the same,
   and the second is asked for, and over, but never executed.
   */
  lemma MinutePastSkipped<D(!new)>(data: D, day: Date, sched: Schedule) returns (s: State<D>)
    requires day == Date(2016, 11, 14) && sched == Schedule({0, NANOS_PER_MINUTE}, EVERY_DAY, Unbounded, Unbounded)
    ensures var (first, t) := (Midnight(day), Midnight(day) + NANOS_PER_MINUTE);
      var h := History(first, [Firing(first, t, t + NANOS_PER_MINUTE)]);
      Reachable(s) && Lone(s, sched, h) && sched.Hit(first, t) && t < s.clock && !Fired(h, t)
  {
    MinutePastMidnight(day, sched);
    var (first, t) := (Midnight(day), Midnight(day) + NANOS_PER_MINUTE);
    hide *;
    s := RunSkipped(data, sched, Firing(first, t, t + NANOS_PER_MINUTE), t);
  }

  lemma TurnOfYear(eve: Date, day: Date, june: Date)
    requires eve == Date(2016, 12, 31) && day == Date(2017, 1, 1) && june == Date(2016, 6, 1)
    ensures DaysOf(day) == DaysOf(eve) + 1
    ensures DaysOf(june) < DaysOf(eve) && DaysOf(day) < DaysOf(june.(year := 2017))
  {
    YearLength(2016); DaysInYear(2016);
    MonthsAscend(2016, 6, 12); MonthsAscend(2017, 1, 6);
  }

  /** A yearly start on 1 June, seen from New Year's Eve and from New Year. */
  lemma YearlyStarts(eve: Date, day: Date, june: Date, from: DateTimeBound)
    requires eve == Date(2016, 12, 31) && day == Date(2017, 1, 1) && june == Date(2016, 6, 1)
    requires from == Yearly(Midnight(june))
    ensures WindowStart(from, Unbounded, At(DaysOf(eve), 1)) == At(DaysOf(eve), 1)
    ensures Midnight(day) < WindowStart(from, Unbounded, Midnight(day))
  {
    hide WithYear, YearOf, DaysOf;
    TurnOfYear(eve, day, june);
    YearOfDate(eve, 1);
    YearOfDate(day, 0);
    WithYearOfDate(june, 0, 2016);
    WithYearOfDate(june, 0, 2017);
  }

  /**
   With yearly bounds the same instant need not come again: a run at midnight every day from 1 June on,
   added on New Year's Eve, is executed at New Year, though that is before 1 June of its own year, and
   not again, though the clock has not moved.
   */
  lemma NewYearRunsOnce<D(!new)>(data: D, eve: Date, day: Date, june: Date, sched: Schedule) returns (s: State<D>)
    requires eve == Date(2016, 12, 31) && day == Date(2017, 1, 1) && june == Date(2016, 6, 1)
    requires sched == Schedule({0}, EVERY_DAY, Yearly(Midnight(june)), Unbounded)
    ensures var t := Midnight(day);
      && Reachable(s) && Lone(s, sched, History(At(DaysOf(eve), 1), [Firing(t, t, t)]))
      && s.clock == t && !sched.Hit(t, t) && NextRun(sched, t) != Some(t)
  {
    var since, t := At(DaysOf(eve), 1), Midnight(day);
    NewYearNext(eve, day, june, sched);
    SameRunNextIff(sched, t, t);
    hide *;
    assert [] + [Firing(t, t, t)] == [Firing(t, t, t)];
    s := LoneStarts(sched, data, since);
    s := LoneFires(s, sched, History(since, []), Firing(t, t, t), History(since, [Firing(t, t, t)]));
  }

  lemma NewYearNext(eve: Date, day: Date, june: Date, sched: Schedule)
    requires eve == Date(2016, 12, 31) && day == Date(2017, 1, 1) && june == Date(2016, 6, 1)
    requires sched == Schedule({0}, EVERY_DAY, Yearly(Midnight(june)), Unbounded)
    ensures At(DaysOf(eve), 1) < Midnight(day)
    ensures NextRun(sched, At(DaysOf(eve), 1)) == Some(Midnight(day)) && !sched.Hit(Midnight(day), Midnight(day))
  {
    hide WithYear, YearOf;
    TurnOfYear(eve, day, june);
    YearlyStarts(eve, day, june, sched.from);
    hide DaysOf, WindowStart;
    var since, t := At(DaysOf(eve), 1), Midnight(day);
    forall u | sched.Hit(since, u)
      ensures t <= u
    {
      assert DayOf(since) <= DayOf(u) && TimeOf(u) == 0;
    }
    assert sched.Hit(since, t);
    NextUnique(sched, since, NextRun(sched, since), Some(t));
  }
}
