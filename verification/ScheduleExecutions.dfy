/**
 Every interleaving of the schedule runner's thread with clients that hold guards.

 A guard is a client's handle on one slot.  `Step` is one critical section; it answers `Panic` wherever
 the program would.  An execution is any sequence of enabled steps from the empty runner, with a clock
 that never goes back.
 */
module ScheduleExecutions {
  import opened Options
  import opened Calendar
  import opened Schedules
  import opened IndexMaps
  import opened ScheduleRunners

  /** One execution of a run: when it was due, when it was found due, and the reading it was rescheduled at. */
  datatype Firing = Firing(due: Instant, checked: Instant, next: Instant)

  /** The runs of one slot since its schedule was last set. */
  datatype History = History(since: Instant, fired: seq<Firing>)

  datatype State<D> = State(slab: Slab<SchedRun<D>>, guards: map<nat, nat>, histories: map<nat, History>,
                            clock: Instant, quit: bool, made: nat)

  datatype Event<+D> =
    | AddRun(sched: Schedule, data: D, now: Instant)
    | Stop(guard: nat)
    | Forget(guard: nat)                                    // the guard is dropped, the run stays
    | UpdateSchedule(guard: nat, sched: Schedule, now: Instant)
    | UpdateData(guard: nat, data: D)
    | Pass(ticks: seq<Tick>)
    | Quit

  /** What a step leaves, what it returns to a client, and the slots and data it hands to the executor. */
  datatype Outcome<D> = Ok(state: State<D>, returned: Option<(Schedule, D)>, executed: seq<(nat, D)>) | Panic

  predicate TicksFrom(clock: Instant, ticks: seq<Tick>) {
    && (forall k :: 0 <= k < |ticks| ==> clock <= ticks[k].check <= ticks[k].reschedule)
    && (forall j, k :: 0 <= j < k < |ticks| ==> ticks[j].reschedule <= ticks[k].check)
  }

  /** A client uses only guards it still owns, and clock readings never go back. */
  predicate Enabled<D>(s: State<D>, e: Event<D>) {
    match e
    case AddRun(_, _, now) => s.clock <= now
    case UpdateSchedule(g, _, now) => g in s.guards && s.clock <= now
    case Stop(g) => g in s.guards
    case Forget(g) => g in s.guards
    case UpdateData(g, _) => g in s.guards
    case Pass(ticks) => !s.quit && |ticks| == s.slab.Capacity() && TicksFrom(s.clock, ticks)
    case Quit => true
  }

  ghost function HistoriesAfter<D>(s: State<D>, ticks: seq<Tick>): map<nat, History> {
    map i | i in s.histories ::
      var h := s.histories[i];
      if i in s.slab.live && i < |ticks| && Due(s.slab.live[i], ticks[i].check)
      then h.(fired := h.fired + [Firing(s.slab.live[i].nextRun.value, ticks[i].check, ticks[i].reschedule)])
      else h
  }

  ghost function Step<D>(s: State<D>, e: Event<D>): Outcome<D>
    requires Enabled(s, e)
  {
    match e
    case AddRun(sched, data, now) =>
      var index := s.slab.InsertIndex();
      Ok(State(After(s.slab, Access.Insert(sched, data, now)), s.guards[s.made := index],
               s.histories[index := History(now, [])], now, s.quit, s.made + 1), None, [])
    case Stop(g) =>
      var index := s.guards[g];
      if index !in s.slab.live then Panic      // out of bounds, or `expect` on an empty cell
      else
        var run := s.slab.live[index];
        Ok(s.(slab := After(s.slab, Access.Remove(index)), guards := s.guards - {g}), Some((run.sched, run.data)), [])
    case Forget(g) =>
      Ok(s.(guards := s.guards - {g}), None, [])
    case UpdateSchedule(g, sched, now) =>
      var index := s.guards[g];
      if index !in s.slab.live then Panic
      else Ok(s.(slab := After(s.slab, SetSchedule(index, sched, now)),
                 histories := s.histories[index := History(now, [])], clock := now), None, [])
    case UpdateData(g, data) =>
      var index := s.guards[g];
      if index !in s.slab.live then Panic
      else Ok(s.(slab := After(s.slab, SetData(index, data))), None, [])
    case Pass(ticks) =>
      Ok(s.(slab := After(s.slab, Visits(ticks)), histories := HistoriesAfter(s, ticks),
            clock := if ticks == [] then s.clock else ticks[|ticks| - 1].reschedule),
         None, Executed(s.slab.live, ticks, |ticks|))
    case Quit =>
      Ok(s.(quit := true), None, [])
  }

  ghost function Init<D>(start: Instant): State<D> {
    State(Slab(map[], []), map[], map[], start, false, 0)
  }

  /** `s` is the state after `events`, each of which was enabled and did not panic. */
  ghost predicate Execution<D(!new)>(start: Instant, events: seq<Event<D>>, s: State<D>)
    decreases |events|
  {
    if events == [] then s == Init(start)
    else
      var last := |events| - 1;
      exists before ::
        Execution(start, events[..last], before) && Enabled(before, events[last]) &&
        Step(before, events[last]).Ok? && Step(before, events[last]).state == s
  }

  // ---- Guards ----

  function Created<D>(events: seq<Event<D>>): nat {
    if events == [] then 0
    else Created(events[..|events| - 1]) + if events[|events| - 1].AddRun? then 1 else 0
  }

  /** What was last set through guard `g`, read off the list of events alone. */
  function LastSet<D>(events: seq<Event<D>>, g: nat): Option<(Schedule, D)> {
    if events == [] then None
    else
      var before := events[..|events| - 1];
      match (events[|events| - 1], LastSet(before, g))
      case (AddRun(sched, data, _), earlier) => if Created(before) == g then Some((sched, data)) else earlier
      case (UpdateSchedule(h, sched, _), Some(pair)) => Some(if h == g then (sched, pair.1) else pair)
      case (UpdateData(h, data), Some(pair)) => Some(if h == g then (pair.0, data) else pair)
      case (_, pair) => pair
  }

  /** The slot of guard `g` is live, and holds what was last set through `g`. */
  ghost predicate GuardHolds<D>(events: seq<Event<D>>, s: State<D>, g: nat)
    requires g in s.guards
  {
    && g < s.made
    && s.guards[g] in s.slab.live
    && var run := s.slab.live[s.guards[g]]; LastSet(events, g) == Some((run.sched, run.data))
  }

  ghost predicate OwnSlots(guards: map<nat, nat>) {
    forall g, h :: g in guards && h in guards && guards[g] == guards[h] ==> g == h
  }

  ghost predicate GuardsHold<D>(events: seq<Event<D>>, s: State<D>) {
    && s.made == Created(events)
    && OwnSlots(s.guards)
    && forall g <- s.guards :: GuardHolds(events, s, g)
  }

  lemma StepKeepsSlab<D>(s: State<D>, e: Event<D>)
    requires s.slab.WellFormed() && Enabled(s, e) && Step(s, e).Ok?
    ensures Step(s, e).state.slab.WellFormed()
  {
    hide HistoriesAfter, After;
    match e
    case AddRun(sched, data, now) => AfterWellFormed(s.slab, Access.Insert(sched, data, now));
    case Stop(g) => AfterWellFormed(s.slab, Access.Remove(s.guards[g]));
    case UpdateSchedule(g, sched, now) => AfterWellFormed(s.slab, SetSchedule(s.guards[g], sched, now));
    case UpdateData(g, data) => AfterWellFormed(s.slab, SetData(s.guards[g], data));
    case Pass(ticks) => AfterWellFormed(s.slab, Visits(ticks));
    case _ =>
  }

  lemma LastSetStep<D>(events: seq<Event<D>>, e: Event<D>, g: nat)
    ensures Created(events + [e]) == Created(events) + if e.AddRun? then 1 else 0
    ensures LastSet(events + [e], g) ==
              match (e, LastSet(events, g))
              case (AddRun(sched, data, _), earlier) => if Created(events) == g then Some((sched, data)) else earlier
              case (UpdateSchedule(h, sched, _), Some(pair)) => Some(if h == g then (sched, pair.1) else pair)
              case (UpdateData(h, data), Some(pair)) => Some(if h == g then (pair.0, data) else pair)
              case (_, pair) => pair
  {
    assert (events + [e])[..|events|] == events;
  }

  lemma StepKeepsGuard<D>(events: seq<Event<D>>, s: State<D>, e: Event<D>, g: nat)
    requires s.slab.WellFormed() && GuardsHold(events, s) && Enabled(s, e)
    requires g in Step(s, e).state.guards
    ensures GuardHolds(events + [e], Step(s, e).state, g)
  {
    hide LastSet, Created, HistoriesAfter;
    LastSetStep(events, e, g);
    if !e.AddRun? || g != s.made { assert GuardHolds(events, s, g); }
  }

  lemma StepKeepsGuards<D>(events: seq<Event<D>>, s: State<D>, e: Event<D>)
    requires s.slab.WellFormed() && GuardsHold(events, s) && Enabled(s, e)
    ensures Step(s, e).Ok? && GuardsHold(events + [e], Step(s, e).state)
  {
    hide LastSet, Created, HistoriesAfter, After;
    LastSetStep(events, e, 0);
    forall g | g in Step(s, e).state.guards
      ensures GuardHolds(events + [e], Step(s, e).state, g)
    {
      StepKeepsGuard(events, s, e, g);
    }
  }

  // ---- Histories ----

  /** The reading from which the `k`th firing (or, after the last, the cached next run) was computed. */
  function Reference(h: History, k: nat): Instant
    requires k <= |h.fired|
  {
    if k == 0 then h.since else h.fired[k - 1].next
  }

  ghost predicate FiringHolds(sched: Schedule, h: History, k: nat)
    requires k < |h.fired|
  {
    var f := h.fired[k];
    NextRun(sched, Reference(h, k)) == Some(f.due) && f.due <= f.checked <= f.next
  }

  /** Every firing was the next run at its time, and the cache holds the next run after the last. */
  ghost predicate HistoryHolds(sched: Schedule, nextRun: Option<Instant>, h: History, clock: Instant) {
    && (forall k :: 0 <= k < |h.fired| ==> FiringHolds(sched, h, k))
    && nextRun == NextRun(sched, Reference(h, |h.fired|))
    && Reference(h, |h.fired|) <= clock
  }

  ghost predicate HistoriesHold<D>(s: State<D>) {
    forall i <- s.slab.live ::
      i in s.histories && HistoryHolds(s.slab.live[i].sched, s.slab.live[i].nextRun, s.histories[i], s.clock)
  }

  lemma ClockKeepsHistory(sched: Schedule, nextRun: Option<Instant>, h: History, clock: Instant, clock': Instant)
    requires HistoryHolds(sched, nextRun, h, clock) && clock <= clock'
    ensures HistoryHolds(sched, nextRun, h, clock')
  {
  }

  lemma SettingStartsHistory(sched: Schedule, now: Instant)
    ensures HistoryHolds(sched, NextRun(sched, now), History(now, []), now)
  {
  }

  lemma FiringExtendsHistory(sched: Schedule, due: Instant, h: History, clock: Instant, tick: Tick)
    requires HistoryHolds(sched, Some(due), h, clock) && due <= tick.check <= tick.reschedule
    ensures HistoryHolds(sched, NextRun(sched, tick.reschedule),
                         h.(fired := h.fired + [Firing(due, tick.check, tick.reschedule)]), tick.reschedule)
  {
    var h' := h.(fired := h.fired + [Firing(due, tick.check, tick.reschedule)]);
    forall k | 0 <= k < |h'.fired|
      ensures FiringHolds(sched, h', k)
    {
      assert Reference(h', k) == Reference(h, k);
      if k < |h.fired| { assert FiringHolds(sched, h, k); }
    }
  }

  lemma PassKeepsHistory<D>(s: State<D>, ticks: seq<Tick>, i: nat)
    requires s.slab.WellFormed() && HistoriesHold(s) && Enabled(s, Pass(ticks)) && i in s.slab.live
    ensures var s' := Step(s, Pass(ticks)).state;
      i in s'.histories && HistoryHolds(s'.slab.live[i].sched, s'.slab.live[i].nextRun, s'.histories[i], s'.clock)
  {
    hide HistoryHolds;
    var (run, h, s') := (s.slab.live[i], s.histories[i], Step(s, Pass(ticks)).state);
    if Due(run, ticks[i].check) {
      FiringExtendsHistory(run.sched, run.nextRun.value, h, s.clock, ticks[i]);
      ClockKeepsHistory(run.sched, NextRun(run.sched, ticks[i].reschedule), s'.histories[i], ticks[i].reschedule, s'.clock);
    } else {
      ClockKeepsHistory(run.sched, run.nextRun, h, s.clock, s'.clock);
    }
  }

  lemma StepKeepsHistory<D>(s: State<D>, e: Event<D>, i: nat)
    requires s.slab.WellFormed() && HistoriesHold(s) && Enabled(s, e) && Step(s, e).Ok? && !e.Pass?
    requires i in Step(s, e).state.slab.live
    ensures var s' := Step(s, e).state;
      i in s'.histories && HistoryHolds(s'.slab.live[i].sched, s'.slab.live[i].nextRun, s'.histories[i], s'.clock)
  {
    hide HistoryHolds, HistoriesAfter;
    var s' := Step(s, e).state;
    if i in s.slab.live {
      ClockKeepsHistory(s.slab.live[i].sched, s.slab.live[i].nextRun, s.histories[i], s.clock, s'.clock);
    }
    SettingStartsHistory(s'.slab.live[i].sched, s'.clock);
  }

  lemma StepKeepsHistories<D>(s: State<D>, e: Event<D>)
    requires s.slab.WellFormed() && HistoriesHold(s) && Enabled(s, e) && Step(s, e).Ok?
    ensures HistoriesHold(Step(s, e).state)
  {
    hide HistoryHolds, HistoriesAfter;
    forall i | i in Step(s, e).state.slab.live
      ensures var s' := Step(s, e).state;
        i in s'.histories && HistoryHolds(s'.slab.live[i].sched, s'.slab.live[i].nextRun, s'.histories[i], s'.clock)
    {
      match e
      case Pass(ticks) => PassKeepsHistory(s, ticks, i);
      case _ => StepKeepsHistory(s, e, i);
    }
  }

  // ---- Every execution ----

  ghost predicate Invariant<D>(events: seq<Event<D>>, s: State<D>) {
    s.slab.WellFormed() && GuardsHold(events, s) && HistoriesHold(s)
  }

  lemma InitInvariant<D>(start: Instant)
    ensures Invariant<D>([], Init(start))
  {
  }

  lemma StepKeepsInvariant<D>(events: seq<Event<D>>, s: State<D>, e: Event<D>)
    requires Invariant(events, s) && Enabled(s, e) && Step(s, e).Ok?
    ensures Invariant(events + [e], Step(s, e).state)
  {
    hide GuardsHold, HistoriesHold, Step;
    StepKeepsSlab(s, e);
    StepKeepsGuards(events, s, e);
    StepKeepsHistories(s, e);
  }

  lemma {:induction false} ExecutionsKeepInvariant<D(!new)>(start: Instant, events: seq<Event<D>>, s: State<D>)
    requires Execution(start, events, s)
    ensures Invariant(events, s)
    decreases |events|
  {
    hide Invariant, Step, Enabled, Init;
    if events == [] {
      InitInvariant<D>(start);
    } else {
      var last := |events| - 1;
      var before :| Execution(start, events[..last], before) && Enabled(before, events[last]) &&
        Step(before, events[last]).Ok? && Step(before, events[last]).state == s;
      ExecutionsKeepInvariant(start, events[..last], before);
      StepKeepsInvariant(events[..last], before, events[last]);
      assert events[..last] + [events[last]] == events;
    }
  }

  /**
   However slots have been reused, no client can make the runner panic, no two guards share a slot,
   and stopping a guard hands back what was last set through that same guard.
   */
  lemma GuardsAreSound<D(!new)>(start: Instant, events: seq<Event<D>>, s: State<D>, e: Event<D>)
    requires Execution(start, events, s) && Enabled(s, e)
    ensures Step(s, e).Ok? && OwnSlots(s.guards) && forall g <- s.guards :: s.guards[g] in s.slab.live
    ensures e.Stop? ==> Step(s, e).returned == LastSet(events, e.guard)
  {
    ExecutionsKeepInvariant(start, events, s);
    StepKeepsGuards(events, s, e);
    assert forall g <- s.guards :: GuardHolds(events, s, g);
  }

  /**
   A pass hands the executor, in order of slot, the data of exactly the runs that are due: for a run
   with a guard, what was last set through that guard.
   */
  lemma PassExecutesWhatWasSet<D(!new)>(start: Instant, events: seq<Event<D>>, s: State<D>, ticks: seq<Tick>)
    requires Execution(start, events, s) && Enabled(s, Pass(ticks))
    ensures Step(s, Pass(ticks)).Ok?
    ensures var executed := Step(s, Pass(ticks)).executed;
      && (forall j, k :: 0 <= j < k < |executed| ==> executed[j].0 < executed[k].0)
      && (forall p <- executed :: p.0 in s.slab.live)
      && (forall i <- s.slab.live :: i < |ticks| && var run := s.slab.live[i];
            ((i, run.data) in executed <==> run.nextRun.Some? && run.nextRun.value <= ticks[i].check))
      && (forall p, g :: p in executed && g in s.guards && s.guards[g] == p.0 ==>
            LastSet(events, g).Some? && p.1 == LastSet(events, g).value.1)
  {
    hide After, HistoriesAfter, Executed, Due;
    ExecutionsKeepInvariant(start, events, s);
    ExecutedIsDue(s.slab.live, ticks, |ticks|);
    assert Step(s, Pass(ticks)).executed == Executed(s.slab.live, ticks, |ticks|);
    assert forall g <- s.guards :: GuardHolds(events, s, g);
  }

  /**
   This rests on the runner keeping runs that will never run again: dropping them with `retain` would
   leave a guard without its slot exactly when its run has no next run.
   */
  lemma RetainWouldOrphanGuards<D(!new)>(start: Instant, events: seq<Event<D>>, s: State<D>, g: nat)
    requires Execution(start, events, s) && g in s.guards
    ensures s.guards[g] in s.slab.live
    ensures s.guards[g] in s.slab.Retained((i: nat, run: SchedRun<D>) => run.nextRun.Some?).live <==>
            s.slab.live[s.guards[g]].nextRun.Some?
  {
    ExecutionsKeepInvariant(start, events, s);
    assert GuardHolds(events, s, g);
    RetainedKeepsExactly(s.slab, (i: nat, run: SchedRun<D>) => run.nextRun.Some?, 0, s.slab.Capacity());
  }

  // ---- What a step leaves alone ----

  /** The slot that a client's step acts on. */
  function Target<D>(s: State<D>, e: Event<D>): Option<nat> {
    if (e.Stop? || e.UpdateSchedule? || e.UpdateData?) && e.guard in s.guards then Some(s.guards[e.guard]) else None
  }

  /**
   A run stays until its guard is stopped, even if the guard is forgotten; a client changes no run but its
   guard's; and the schedule and the data of a run change only when its guard sets them.
   */
  lemma RunsAreUndisturbed<D>(s: State<D>, e: Event<D>, i: nat)
    requires s.slab.WellFormed() && Enabled(s, e) && Step(s, e).Ok? && i in s.slab.live
    ensures var s' := Step(s, e).state;
      && (i in s'.slab.live <==> !(e.Stop? && Target(s, e) == Some(i)))
      && (i in s'.slab.live ==> var (run, run') := (s.slab.live[i], s'.slab.live[i]);
            && (!e.Pass? && Target(s, e) != Some(i) ==> run' == run)
            && (run'.sched == if e.UpdateSchedule? && Target(s, e) == Some(i) then e.sched else run.sched)
            && (run'.data == if e.UpdateData? && Target(s, e) == Some(i) then e.data else run.data)
            && (e.UpdateData? ==> run'.nextRun == run.nextRun))
  {
    hide NextRun, HistoriesAfter, Executed;
    if e.AddRun? { InsertedWellFormed(s.slab, Rescheduled(SchedRun(e.sched, e.data, None), e.now)); }
  }

  /** Once the runner has been dropped, no pass is ever made again. */
  lemma {:induction false} NoPassAfterQuit<D(!new)>(start: Instant, events: seq<Event<D>>, s: State<D>)
    requires Execution(start, events, s) && Quit in events
    ensures s.quit && forall ticks :: !Enabled(s, Pass(ticks))
    decreases |events|
  {
    hide After, HistoriesAfter, Executed;
    var last := |events| - 1;
    var before :| Execution(start, events[..last], before) && Enabled(before, events[last]) &&
      Step(before, events[last]).Ok? && Step(before, events[last]).state == s;
    if events[last] != Quit {
      assert Quit in events[..last];
      NoPassAfterQuit(start, events[..last], before);
    }
  }
}
