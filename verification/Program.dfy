/**
 Programs: sequences of section runs (`src/program.rs`).

 Queueing a program takes the runner's lock once per item, so other clients and the runner's thread
 may act before each item; `gaps` lists what they do.
 */
module Programs {
  import opened Options
  import opened SectionRunners

  datatype ProgItem = ProgItem(section: Section, duration: nat)

  /** What queueing `items` does when `gaps[k]` happens just before item `k`, and the runs it creates. */
  function ItemsQueued(s: State, items: seq<ProgItem>, gaps: seq<seq<Event>>): (State, seq<nat>)
    requires |gaps| == |items|
    decreases |items|
  {
    if items == [] then (s, [])
    else
      var before := RunAll(s, gaps[0]);
      var (after, ids) := ItemsQueued(Queued(before, items[0].section, items[0].duration), items[1..], gaps[1..]);
      (after, [|before.queued|] + ids)
  }

  predicate QueuePossible(s: State, items: seq<ProgItem>, gaps: seq<seq<Event>>)
    requires |gaps| == |items|
    decreases |items|
  {
    items != [] ==>
      && Possible(s, gaps[0])
      && QueuePossible(Queued(RunAll(s, gaps[0]), items[0].section, items[0].duration), items[1..], gaps[1..])
  }

  /** The first notification that ends a run, if there is one. */
  function Terminal(notes: seq<Notification>): Option<Notification> {
    if notes == [] then None
    else if notes[0] == Start then Terminal(notes[1..])
    else Some(notes[0])
  }

  /** Other clients and the thread acting on the runner in place. */
  method Interleave(runner: SectionRunner, events: seq<Event>)
    requires runner.Valid()
    modifies runner
    ensures runner.Valid() && runner.View() == RunAll(old(runner.View()), events)
  {
    for k := 0 to |events|
      invariant runner.Valid()
      invariant RunAll(runner.View(), events[k..]) == RunAll(old(runner.View()), events)
    {
      assert events[k..][1..] == events[k + 1..];
      match events[k]
      case RunSection(sec, dur) => var _ := runner.RunSection(sec, dur);
      case Stop => var _ := runner.Stop(true);
      case Wake(now) => if !runner.exited { runner.Wake(now); }
    }
  }

  class Program {
    const sequence: seq<ProgItem>

    constructor (sequence: seq<ProgItem>)
      ensures this.sequence == sequence
    {
      this.sequence := sequence;
    }

    /** Queues the items one after another, each in a critical section of its own. */
    method QueueRun(runner: SectionRunner, gaps: seq<seq<Event>>) returns (notifiers: seq<nat>)
      requires |gaps| == |sequence| && runner.Valid()
      modifies runner
      ensures (runner.View(), notifiers) == ItemsQueued(old(runner.View()), sequence, gaps)
      ensures runner.Valid()
    {
      notifiers := [];
      assert sequence[0..] == sequence && gaps[0..] == gaps;
      ghost var all := ItemsQueued(runner.View(), sequence, gaps);
      assert [] + all.1 == all.1;
      for k := 0 to |sequence|
        invariant runner.Valid()
        invariant var (after, ids) := ItemsQueued(runner.View(), sequence[k..], gaps[k..]);
          (after, notifiers + ids) == ItemsQueued(old(runner.View()), sequence, gaps)
      {
        assert sequence[k..][1..] == sequence[k + 1..] && gaps[k..][1..] == gaps[k + 1..];
        Interleave(runner, gaps[k]);
        var id := runner.RunSection(sequence[k].section, sequence[k].duration);
        ghost var rest := ItemsQueued(runner.View(), sequence[k + 1..], gaps[k + 1..]).1;
        assert (notifiers + [id]) + rest == notifiers + ([id] + rest);
        notifiers := notifiers + [id];
      }
      assert notifiers + [] == notifiers;
    }

    /**
     Queues the program and follows the last run's channel until the run has ended.  `rest` is what
     happens to the runner meanwhile; `None` means that the run has not ended by then.
     */
    method RunSync(runner: SectionRunner, gaps: seq<seq<Event>>, rest: seq<Event>) returns (outcome: Option<Notification>)
      requires |gaps| == |sequence| && runner.Valid()
      modifies runner
      ensures runner.Valid()
      ensures var (queued, ids) := ItemsQueued(old(runner.View()), sequence, gaps);
        && runner.View() == RunAll(queued, rest)
        && |ids| == |sequence|
        && (ids == [] ==> outcome == None)
        && (ids != [] ==> ids[|ids| - 1] < |runner.sent| && outcome == Terminal(runner.sent[ids[|ids| - 1]]))
      ensures var (queued, ids) := ItemsQueued(old(runner.View()), sequence, gaps);
        Invariant(old(runner.View())) && QueuePossible(old(runner.View()), sequence, gaps) && Possible(queued, rest) &&
        sequence != [] ==>
          |ids| == |sequence| && OutcomeFits(runner.View(), ids[|ids| - 1], outcome)
    {
      hide Invariant, OutcomeFits, QueuePossible, Possible, ItemsQueued, Step;
      ghost var before := runner.View();
      if sequence != [] && Invariant(before) && QueuePossible(before, sequence, gaps) &&
        Possible(ItemsQueued(before, sequence, gaps).0, rest)
      {
        OutcomeMeansEnded(before, sequence, gaps, rest);
      }
      var notifiers := QueueRun(runner, gaps);
      IdsAreQueued(before, sequence, gaps);
      LineKeepsQueued(runner.View(), rest);
      assert notifiers != [] ==> notifiers[|notifiers| - 1] in notifiers;
      Interleave(runner, rest);
      outcome := None;
      if notifiers != [] {
        var notes := runner.sent[notifiers[|notifiers| - 1]];
        for k := 0 to |notes|
          invariant Terminal(notes[k..]) == Terminal(notes)
        {
          assert notes[k..][1..] == notes[k + 1..];
          match notes[k]
          case Start =>
          case end => return Some(end);
        }
      }
    }
  }

  lemma {:induction false} IdsAreQueued(s: State, items: seq<ProgItem>, gaps: seq<seq<Event>>)
    requires |gaps| == |items|
    ensures var (s', ids) := ItemsQueued(s, items, gaps);
      |ids| == |items| && |s.queued| <= |s'.queued| && forall id <- ids :: id < |s'.queued|
    decreases |items|
  {
    if items != [] {
      var before := RunAll(s, gaps[0]);
      LineKeepsQueued(s, gaps[0]);
      IdsAreQueued(Queued(before, items[0].section, items[0].duration), items[1..], gaps[1..]);
    }
  }

  /** The runs `ids` are the items, in the order of the line. */
  ghost predicate QueuedInOrder(s: State, items: seq<ProgItem>, ids: seq<nat>) {
    && |ids| == |items|
    && (forall k :: 0 <= k < |ids| ==>
          ids[k] < |s.queued| && s.queued[ids[k]] == SecRun(ids[k], items[k].section, items[k].duration))
    && (forall j, k :: 0 <= j < k < |ids| ==> ids[j] < ids[k])
  }

  /** The items are queued in sequence order, whatever is queued between them. */
  lemma {:induction false} ItemsQueuedInOrder(s: State, items: seq<ProgItem>, gaps: seq<seq<Event>>)
    requires |gaps| == |items| && Invariant(s) && QueuePossible(s, items, gaps)
    ensures var (s', ids) := ItemsQueued(s, items, gaps);
      && Invariant(s') && s.queued <= s'.queued && QueuedInOrder(s', items, ids)
      && forall k :: 0 <= k < |ids| ==> |s.queued| <= ids[k]
    decreases |items|
  {
    hide Invariant;
    if items != [] {
      var before := RunAll(s, gaps[0]);
      var next := Queued(before, items[0].section, items[0].duration);
      LineKeepsQueued(s, gaps[0]);
      ExecutionsKeepInvariant(s, gaps[0]);
      StepKeepsInvariant(before, RunSection(items[0].section, items[0].duration));
      ItemsQueuedInOrder(next, items[1..], gaps[1..]);
    }
  }

  /** What has been queued stays in line, so the state after `rest` still has the items in order. */
  lemma ItemsStayInOrder(s: State, items: seq<ProgItem>, gaps: seq<seq<Event>>, rest: seq<Event>)
    requires |gaps| == |items| && Invariant(s) && QueuePossible(s, items, gaps)
    requires Possible(ItemsQueued(s, items, gaps).0, rest)
    ensures var (queued, ids) := ItemsQueued(s, items, gaps);
      Invariant(RunAll(queued, rest)) && QueuedInOrder(RunAll(queued, rest), items, ids)
  {
    hide Invariant, Step, ItemsQueued, QueuePossible;
    var (queued, ids) := ItemsQueued(s, items, gaps);
    ItemsQueuedInOrder(s, items, gaps);
    ExecutionsKeepInvariant(queued, rest);
    LineKeepsQueued(queued, rest);
  }

  lemma TerminalOf(s: State, k: nat)
    requires Invariant(s) && k < |s.queued|
    ensures Terminal(s.sent[k]) == Some(Finish) <==> k < |s.finished|
    ensures Terminal(s.sent[k]) == Some(Interrupted) <==> |s.finished| <= k < |s.finished| + |s.interrupted|
    ensures Terminal(s.sent[k]) == None <==> |s.finished| + |s.interrupted| <= k
  {
    LineIds(s);
    assert [Start, Finish][1..] == [Finish] && [Start, Interrupted][1..] == [Interrupted];
  }

  /** Is `outcome` how run `id` ended, and `None` exactly while it is under way or still to come? */
  ghost predicate OutcomeFits(s: State, id: nat, outcome: Option<Notification>) {
    && (outcome == Some(Finish) <==> id < |s.finished|)
    && (outcome == Some(Interrupted) <==> |s.finished| <= id < |s.finished| + |s.interrupted|)
    && (outcome == None <==> (s.current.Some? && s.current.value.job.id == id) || exists run <- s.queue :: run.id == id)
  }

  lemma TerminalFits(s: State, k: nat)
    requires Invariant(s) && k < |s.queued|
    ensures OutcomeFits(s, k, Terminal(s.sent[k]))
  {
    hide Told, OneOn, Timed, Terminal;
    LineIds(s);
    TerminalOf(s, k);
    var ended := |s.finished| + |s.interrupted| + |CurrentJob(s)|;
    assert forall j :: 0 <= j < |s.queue| ==> s.queue[j] == s.queued[ended + j];
    assert ended <= k ==> s.queue[k - ended].id == k;
  }

  /** Waiting for a program ends exactly when its last run has: not while that run is queued or under way. */
  lemma OutcomeMeansEnded(s: State, items: seq<ProgItem>, gaps: seq<seq<Event>>, rest: seq<Event>)
    requires |gaps| == |items| && Invariant(s) && QueuePossible(s, items, gaps) && items != []
    requires Possible(ItemsQueued(s, items, gaps).0, rest)
    ensures var (queued, ids) := ItemsQueued(s, items, gaps);
      var s' := RunAll(queued, rest);
      && |ids| == |items| && ids[|ids| - 1] < |s'.sent|
      && OutcomeFits(s', ids[|ids| - 1], Terminal(s'.sent[ids[|ids| - 1]]))
  {
    hide Told, OneOn, Timed, Terminal, OutcomeFits, ItemsQueued, QueuePossible, Possible, RunAll;
    ItemsStayInOrder(s, items, gaps, rest);
    var (queued, ids) := ItemsQueued(s, items, gaps);
    TerminalFits(RunAll(queued, rest), ids[|ids| - 1]);
  }

  /** Run `id` was `item`, and has finished. */
  ghost predicate ItemFinished(s: State, id: nat, item: ProgItem) {
    && id < |s.finished| && id < |s.sent|
    && s.finished[id].job == SecRun(id, item.section, item.duration)
    && s.sent[id] == [Start, Finish]
  }

  /** Every item has finished, each before the next one started. */
  ghost predicate AllFinishedInOrder(s: State, items: seq<ProgItem>, ids: seq<nat>) {
    && |ids| == |items|
    && (forall k :: 0 <= k < |ids| ==> ItemFinished(s, ids[k], items[k]))
    && (forall j, k :: 0 <= j < k < |ids| ==>
          ids[j] < |s.finished| && ids[k] < |s.finished| && s.finished[ids[j]].finishTime <= s.finished[ids[k]].startTime)
  }

  lemma LastFinishedMeansAll(s: State, items: seq<ProgItem>, ids: seq<nat>)
    requires Invariant(s) && QueuedInOrder(s, items, ids) && ids != []
    ensures ids[|ids| - 1] < |s.sent|
    ensures Terminal(s.sent[ids[|ids| - 1]]) == Some(Finish) ==> AllFinishedInOrder(s, items, ids)
  {
    hide Terminal;
    TerminalOf(s, ids[|ids| - 1]);
    if Terminal(s.sent[ids[|ids| - 1]]) == Some(Finish) {
      forall k | 0 <= k < |ids|
        ensures ItemFinished(s, ids[k], items[k])
      {
        assert s.queued[ids[k]] == s.finished[ids[k]].job;
      }
      forall j, k | 0 <= j < k < |ids|
        ensures s.finished[ids[j]].finishTime <= s.finished[ids[k]].startTime
      {
        FinishedBefore(s, ids[j], ids[k]);
      }
    }
  }

  /**
   If the last run of the program is seen to finish, then every item has finished, in sequence order,
   whatever other clients queued in between.
   */
  lemma FinishMeansAllFinished(s: State, items: seq<ProgItem>, gaps: seq<seq<Event>>, rest: seq<Event>)
    requires |gaps| == |items| && Invariant(s) && QueuePossible(s, items, gaps) && items != []
    requires Possible(ItemsQueued(s, items, gaps).0, rest)
    ensures var (queued, ids) := ItemsQueued(s, items, gaps);
      var s' := RunAll(queued, rest);
      && |ids| == |items| && ids[|ids| - 1] < |s'.sent|
      && (Terminal(s'.sent[ids[|ids| - 1]]) == Some(Finish) ==> AllFinishedInOrder(s', items, ids))
  {
    hide Invariant, Terminal, AllFinishedInOrder, ItemsQueued, QueuePossible, Possible, RunAll;
    ItemsStayInOrder(s, items, gaps, rest);
    var (queued, ids) := ItemsQueued(s, items, gaps);
    LastFinishedMeansAll(RunAll(queued, rest), items, ids);
  }

  lemma {:induction false} FinishedBefore(s: State, j: nat, k: nat)
    requires Timed(s) && j < k < |s.finished|
    ensures s.finished[j].finishTime <= s.finished[k].startTime
  {
    if j < k - 1 { FinishedBefore(s, j, k - 1); }
    assert s.finished[k - 1].finishTime <= s.finished[(k - 1) + 1].startTime;
  }

  /** If it is seen to be interrupted, then the items that finished come before the rest, which were interrupted. */
  lemma InterruptedMeansRestInterrupted(s: State, items: seq<ProgItem>, gaps: seq<seq<Event>>, rest: seq<Event>, k: nat)
    requires |gaps| == |items| && Invariant(s) && QueuePossible(s, items, gaps) && k < |items|
    requires Possible(ItemsQueued(s, items, gaps).0, rest)
    ensures var (queued, ids) := ItemsQueued(s, items, gaps);
      var s' := RunAll(queued, rest);
      && |ids| == |items| && ids[k] <= ids[|ids| - 1] < |s'.sent|
      && (Terminal(s'.sent[ids[|ids| - 1]]) == Some(Interrupted) ==>
            Terminal(s'.sent[ids[k]]) == Some(if ids[k] < |s'.finished| then Finish else Interrupted))
  {
    ItemsStayInOrder(s, items, gaps, rest);
    var (queued, ids) := ItemsQueued(s, items, gaps);
    TerminalOf(RunAll(queued, rest), ids[|ids| - 1]);
    TerminalOf(RunAll(queued, rest), ids[k]);
  }
}
