/**
 The section runner (`src/section_runner.rs`): one thread that runs sections one at a time from a
 queue that any number of clients append to.

 `Step` is one critical section, as a function on `State`; `SectionRunner` performs the same steps in
 place.  A run is identified by the order in which it was queued, which stands for its notification
 channel.  The last four fields of `State` are a record of what has happened.
 */
module SectionRunners {
  import opened Options
  import opened WaitPeriods

  type Section = nat

  datatype Notification = Start | Finish | Interrupted

  datatype SecRun = SecRun(id: nat, sec: Section, dur: nat)

  datatype Run = Run(job: SecRun, startTime: int)

  datatype Done = Done(job: SecRun, startTime: int, finishTime: int)

  datatype State = State(
    quit: bool, exited: bool, queue: seq<SecRun>, current: Option<Run>, wait: WaitPeriod,
    on: set<Section>, sent: seq<seq<Notification>>,
    queued: seq<SecRun>, finished: seq<Done>, interrupted: seq<SecRun>, clock: int)

  function Init(clock: int): State {
    State(false, false, [], None, Wait, {}, [], [], [], [], clock)
  }

  datatype Event = RunSection(sec: Section, dur: nat) | Stop | Wake(now: int)

  /** Sends `note` on the channel of every run in `runs`; a closed receiver is not an error. */
  function SendAll(sent: seq<seq<Notification>>, runs: seq<SecRun>, note: Notification): (r: seq<seq<Notification>>)
    ensures |r| == |sent|
    decreases |runs|
  {
    if runs == [] then sent
    else SendAll(Send(sent, runs[0].id, note), runs[1..], note)
  }

  function Send(sent: seq<seq<Notification>>, id: nat, note: Notification): seq<seq<Notification>> {
    if id < |sent| then sent[id := sent[id] + [note]] else sent
  }

  function Queued(s: State, sec: Section, dur: nat): State {
    var run := SecRun(|s.queued|, sec, dur);
    s.(queue := s.queue + [run], sent := s.sent + [[]], queued := s.queued + [run])
  }

  /** The thread notices that it must stop.  Queued runs are told only if a run is interrupted. */
  function Exited(s: State): State {
    match s.current
    case None => s.(exited := true)
    case Some(run) =>
      s.(exited := true, current := None, on := s.on - {run.job.sec}, queue := [],
         sent := SendAll(Send(s.sent, run.job.id, Interrupted), s.queue, Interrupted),
         interrupted := [run.job] + s.queue)
  }

  /** The thread looks after the current run, or starts the next one; the clock reads `now`. */
  function Advanced(s: State, now: int): State {
    match s.current
    case Some(run) =>
      var elapsed := now - run.startTime;
      if elapsed >= run.job.dur then
        s.(current := None, wait := NoWait, on := s.on - {run.job.sec}, sent := Send(s.sent, run.job.id, Finish),
           finished := s.finished + [Done(run.job, run.startTime, now)], clock := now)
      else
        s.(wait := AtMost(run.job.dur - elapsed), clock := now)
    case None =>
      if s.queue == [] then s.(wait := Wait, clock := now)
      else
        var job := s.queue[0];
        s.(queue := s.queue[1..], current := Some(Run(job, now)), wait := AtMost(job.dur), on := s.on + {job.sec},
           sent := Send(s.sent, job.id, Start), clock := now)
  }

  function Step(s: State, e: Event): State {
    match e
    case RunSection(sec, dur) => Queued(s, sec, dur)
    case Stop => s.(quit := true)
    case Wake(now) => if s.exited then s else if s.quit then Exited(s) else Advanced(s, now)
  }

  /** The thread's clock never goes back. */
  predicate Enabled(s: State, e: Event) {
    e.Wake? ==> s.clock <= e.now
  }

  // ---- The program ----

  class SectionRunner {
    var quit: bool
    var exited: bool
    var queue: seq<SecRun>
    var currentRun: Option<Run>
    var waitPeriod: WaitPeriod
    var on: set<Section>
    var sent: seq<seq<Notification>>
    ghost var queued: seq<SecRun>
    ghost var finished: seq<Done>
    ghost var interrupted: seq<SecRun>
    ghost var clock: int

    ghost function View(): State
      reads this
    {
      State(quit, exited, queue, currentRun, waitPeriod, on, sent, queued, finished, interrupted, clock)
    }

    /** Every run that was queued has a channel. */
    ghost predicate Valid()
      reads this
    {
      |sent| == |queued|
    }

    constructor (ghost start: int)
      ensures Valid() && View() == Init(start)
    {
      quit, exited, queue, currentRun, waitPeriod, on, sent := false, false, [], None, Wait, {}, [];
      queued, finished, interrupted, clock := [], [], [], start;
    }

    method Notify(id: nat, note: Notification)
      modifies this`sent
      ensures sent == Send(old(sent), id, note)
    {
      if id < |sent| {
        sent := sent[id := sent[id] + [note]];
      }
    }

    /** Queues a run; the identity returned stands for the receiving end of its channel. */
    method RunSection(sec: Section, dur: nat) returns (id: nat)
      requires Valid()
      modifies this
      ensures Valid() && id == |old(queued)| && View() == Step(old(View()), Event.RunSection(sec, dur))
    {
      id := |sent|;
      sent := sent + [[]];
      queue := queue + [SecRun(id, sec, dur)];
      queued := queued + [SecRun(id, sec, dur)];
    }

    /**
     Only the original handle can stop the runner: a clone, which has no thread to join, panics (the
     result is false) before it touches anything.
     */
    method Stop(original: bool) returns (ok: bool)
      requires Valid()
      modifies this
      ensures Valid() && ok == original
      ensures View() == if original then Step(old(View()), Event.Stop) else old(View())
    {
      if !original {
        return false;
      }
      quit := true;
      return true;
    }

    /** The thread has been told to quit: interrupts the current run and drains the queue. */
    method Quit()
      requires Valid()
      modifies this
      ensures Valid() && View() == Exited(old(View()))
    {
      if currentRun.Some? {
        var run := currentRun.value;
        on := on - {run.job.sec};
        Notify(run.job.id, Interrupted);
        interrupted := [run.job] + queue;
        ghost var before := View();
        while queue != []
          invariant View() == before.(queue := queue, sent := sent)
          invariant SendAll(sent, queue, Interrupted) == SendAll(before.sent, before.queue, Interrupted)
          decreases |queue|
        {
          Notify(queue[0].id, Interrupted);
          queue := queue[1..];
        }
        currentRun := None;
      }
      exited := true;
    }

    /** One iteration of the thread's loop, after a wait that may have ended for any reason. */
    method Wake(now: int)
      requires Valid() && !exited
      modifies this
      ensures Valid() && View() == Step(old(View()), Event.Wake(now))
    {
      if quit {
        Quit();
        return;
      }
      clock := now;
      if currentRun.Some? {
        var run := currentRun.value;
        var elapsed := now - run.startTime;
        if elapsed >= run.job.dur {
          on := on - {run.job.sec};
          Notify(run.job.id, Finish);
          finished := finished + [Done(run.job, run.startTime, now)];
          waitPeriod := NoWait;
          currentRun := None;
        } else {
          waitPeriod := AtMost(run.job.dur - elapsed);
        }
      } else if queue != [] {
        var run := queue[0];
        queue := queue[1..];
        on := on + {run.sec};
        Notify(run.id, Start);
        waitPeriod := AtMost(run.dur);
        currentRun := Some(Run(run, now));
      } else {
        waitPeriod := Wait;
      }
    }
  }

  // ---- Invariants ----

  function Jobs(done: seq<Done>): (jobs: seq<SecRun>)
    ensures |jobs| == |done| && forall k :: 0 <= k < |done| ==> jobs[k] == done[k].job
  {
    if done == [] then [] else Jobs(done[..|done| - 1]) + [done[|done| - 1].job]
  }

  function CurrentJob(s: State): seq<SecRun> {
    if s.current.Some? then [s.current.value.job] else []
  }

  /** The runs finished, then those interrupted, then the current one, then those waiting. */
  function Line(finished: seq<Done>, interrupted: seq<SecRun>, current: seq<SecRun>, queue: seq<SecRun>): seq<SecRun> {
    Jobs(finished) + interrupted + current + queue
  }

  /** Nothing queued is lost, repeated or overtaken. */
  ghost predicate Conserved(s: State) {
    && s.queued == Line(s.finished, s.interrupted, CurrentJob(s), s.queue)
    && |s.sent| == |s.queued|
    && (forall k :: 0 <= k < |s.queued| ==> s.queued[k].id == k)
    && (s.exited ==> s.quit && s.current == None)
    && (!s.exited ==> s.interrupted == [])
  }

  /** What the `k`th run to be queued has been sent. */
  function Expected(s: State, k: nat): seq<Notification> {
    if k < |s.finished| then [Start, Finish]
    else if k < |s.finished| + |s.interrupted| then (if k == |s.finished| then [Start, Interrupted] else [Interrupted])
    else if s.current.Some? && k == |s.finished| then [Start]
    else []
  }

  ghost predicate Told(s: State) {
    |s.sent| == |s.queued| && forall k :: 0 <= k < |s.queued| ==> s.sent[k] == Expected(s, k)
  }

  /** A section is on exactly while it is the current run's. */
  ghost predicate OneOn(s: State) {
    s.on == if s.current.Some? then {s.current.value.job.sec} else {}
  }

  /** Runs last at least their duration, one after the other, and the sleep is exactly what is left. */
  ghost predicate Timed(s: State) {
    && (forall k :: 0 <= k < |s.finished| ==> s.finished[k].startTime + s.finished[k].job.dur <= s.finished[k].finishTime)
    && (forall j, k :: 0 <= j < |s.finished| && k == j + 1 < |s.finished| ==>
          s.finished[j].finishTime <= s.finished[k].startTime)
    && (s.finished != [] ==> s.finished[|s.finished| - 1].finishTime <= s.clock)
    && (match s.current
        case Some(run) =>
          && (s.finished != [] ==> s.finished[|s.finished| - 1].finishTime <= run.startTime)
          && run.startTime <= s.clock
          && s.wait.AtMost? && (s.clock - run.startTime) + s.wait.dur == run.job.dur
        case None => s.exited || !s.wait.AtMost?)
  }

  ghost predicate Invariant(s: State) {
    Conserved(s) && Told(s) && OneOn(s) && Timed(s)
  }

  /** Sending to consecutive channels adds one message to each of them and nothing elsewhere. */
  lemma {:induction false} SendAllTells(sent: seq<seq<Notification>>, runs: seq<SecRun>, note: Notification,
                                        first: nat, k: nat)
    requires first + |runs| <= |sent| && k < |sent|
    requires forall j :: 0 <= j < |runs| ==> runs[j].id == first + j
    ensures SendAll(sent, runs, note)[k] == sent[k] + if first <= k < first + |runs| then [note] else []
    decreases |runs|
  {
    if runs == [] {
      assert sent[k] + [] == sent[k];
    } else {
      SendAllTells(Send(sent, runs[0].id, note), runs[1..], note, first + 1, k);
    }
  }

  lemma LineMoves(finished: seq<Done>, interrupted: seq<SecRun>, current: seq<SecRun>, done: Done,
                  queue: seq<SecRun>, run: SecRun)
    ensures Line(finished, interrupted, current, queue) + [run] == Line(finished, interrupted, current, queue + [run])
    ensures queue != [] ==> Line(finished, [], [], queue) == Line(finished, [], [queue[0]], queue[1..])
    ensures Line(finished, [], [done.job], queue) == Line(finished + [done], [], [], queue)
    ensures Line(finished, [], [run], queue) == Line(finished, [run] + queue, [], [])
  {
    assert (finished + [done])[..|finished|] == finished;
  }

  lemma StepKeepsConserved(s: State, e: Event)
    requires Conserved(s)
    ensures Conserved(Step(s, e))
  {
    hide Line;
    var run := if e.RunSection? then SecRun(|s.queued|, e.sec, e.dur)
               else if s.current.Some? then s.current.value.job else SecRun(0, 0, 0);
    var done := if e.Wake? && s.current.Some? then Done(run, s.current.value.startTime, e.now) else Done(run, 0, 0);
    LineMoves(s.finished, s.interrupted, CurrentJob(s), done, s.queue, run);
  }

  lemma LineIds(s: State)
    requires Conserved(s)
    ensures !s.exited && s.current.Some? ==> s.current.value.job.id == |s.finished|
    ensures !s.exited ==> forall j :: 0 <= j < |s.queue| ==> s.queue[j].id == |s.finished| + |CurrentJob(s)| + j
    ensures |s.queued| == |s.finished| + |s.interrupted| + |CurrentJob(s)| + |s.queue|
  {
    var n := |s.finished|;
    if s.current.Some? { assert s.queued[n] == s.current.value.job; }
    assert !s.exited ==> forall j :: 0 <= j < |s.queue| ==> s.queued[n + |CurrentJob(s)| + j] == s.queue[j];
  }

  lemma StepKeepsTold(s: State, e: Event)
    requires Conserved(s) && Told(s)
    ensures Told(Step(s, e))
  {
    hide Line;
    LineIds(s);
    if e.Wake? && !s.exited && s.quit { ExitTells(s); }
  }

  /** When the thread exits during a run, that run and all that follow it are told; when idle, nobody is. */
  lemma ExitTells(s: State)
    requires Conserved(s) && !s.exited
    ensures |Exited(s).sent| == |s.sent|
    ensures forall k :: 0 <= k < |s.sent| ==>
              Exited(s).sent[k] == s.sent[k] + if s.current.Some? && |s.finished| <= k then [Interrupted] else []
  {
    LineIds(s);
    forall k | 0 <= k < |s.sent|
      ensures Exited(s).sent[k] == s.sent[k] + if s.current.Some? && |s.finished| <= k then [Interrupted] else []
    {
      if s.current.Some? {
        SendAllTells(Send(s.sent, s.current.value.job.id, Interrupted), s.queue, Interrupted, |s.finished| + 1, k);
      } else {
        assert s.sent[k] + [] == s.sent[k];
      }
    }
  }

  lemma StepKeepsOneOn(s: State, e: Event)
    requires OneOn(s)
    ensures OneOn(Step(s, e))
  {
  }

  lemma StepKeepsTimed(s: State, e: Event)
    requires Timed(s) && Enabled(s, e)
    ensures Timed(Step(s, e))
  {
  }

  lemma StepKeepsInvariant(s: State, e: Event)
    requires Invariant(s) && Enabled(s, e)
    ensures Invariant(Step(s, e))
  {
    hide Conserved, Told, OneOn, Timed, Step;
    StepKeepsConserved(s, e);
    StepKeepsTold(s, e);
    StepKeepsOneOn(s, e);
    StepKeepsTimed(s, e);
  }

  // ---- Every execution ----

  function RunAll(s: State, events: seq<Event>): State
    decreases |events|
  {
    if events == [] then s else RunAll(Step(s, events[0]), events[1..])
  }

  predicate Possible(s: State, events: seq<Event>)
    decreases |events|
  {
    events != [] ==> Enabled(s, events[0]) && Possible(Step(s, events[0]), events[1..])
  }

  lemma {:induction false} ExecutionsKeepInvariant(s: State, events: seq<Event>)
    requires Invariant(s) && Possible(s, events)
    ensures Invariant(RunAll(s, events))
    decreases |events|
  {
    hide Invariant, Step;
    if events != [] {
      StepKeepsInvariant(s, events[0]);
      ExecutionsKeepInvariant(Step(s, events[0]), events[1..]);
    }
  }

  /** The runs that clients ask for, numbered in order after `earlier`, read off the events alone. */
  function Requests(earlier: seq<SecRun>, events: seq<Event>): seq<SecRun>
    decreases |events|
  {
    if events == [] then earlier
    else
      match events[0]
      case RunSection(sec, dur) => Requests(earlier + [SecRun(|earlier|, sec, dur)], events[1..])
      case _ => Requests(earlier, events[1..])
  }

  lemma {:induction false} RequestsAreQueued(s: State, events: seq<Event>)
    ensures RunAll(s, events).queued == Requests(s.queued, events)
    decreases |events|
  {
    if events != [] { RequestsAreQueued(Step(s, events[0]), events[1..]); }
  }

  /**
   Under any interleaving, the runs asked for are exactly those finished, then those interrupted, then
   the current one, then those still queued, in the order they were asked for.
   */
  lemma ServedInOrder(start: int, events: seq<Event>)
    requires Possible(Init(start), events)
    ensures var s := RunAll(Init(start), events);
      && Line(s.finished, s.interrupted, CurrentJob(s), s.queue) == Requests([], events)
      && (!s.exited ==> s.interrupted == [])
  {
    hide Line, Told, OneOn, Timed, RunAll, Possible, Requests;
    InitInvariant(start);
    ExecutionsKeepInvariant(Init(start), events);
    RequestsAreQueued(Init(start), events);
  }

  lemma InitInvariant(start: int)
    ensures Invariant(Init(start))
  {
  }

  /** Each run hears one of five histories, and which one says where in the line it is. */
  lemma NotificationProtocol(start: int, events: seq<Event>, k: nat)
    requires Possible(Init(start), events) && k < |RunAll(Init(start), events).queued|
    ensures var s := RunAll(Init(start), events);
      && k < |s.sent|
      && s.sent[k] in {[], [Start], [Start, Finish], [Start, Interrupted], [Interrupted]}
      && (s.sent[k] == [Start, Finish] <==> k < |s.finished|)
      && (s.sent[k] == [Start] <==> s.current.Some? && s.current.value.job.id == k)
      && (Interrupted in s.sent[k] <==> |s.finished| <= k < |s.finished| + |s.interrupted|)
      && (s.sent[k] == [Start, Interrupted] <==> s.interrupted != [] && k == |s.finished|)
  {
    hide OneOn, Timed, RunAll, Possible;
    InitInvariant(start);
    ExecutionsKeepInvariant(Init(start), events);
    LineIds(RunAll(Init(start), events));
  }

  /** At most one section is on at a time: the current run's. None is on once the thread has exited. */
  lemma OneSectionOn(start: int, events: seq<Event>)
    requires Possible(Init(start), events)
    ensures var s := RunAll(Init(start), events);
      && (forall sec :: sec in s.on <==> s.current.Some? && s.current.value.job.sec == sec)
      && (s.exited ==> s.on == {})
  {
    hide Line, Told, Timed, RunAll, Possible;
    InitInvariant(start);
    ExecutionsKeepInvariant(Init(start), events);
  }

  /** Total duration of the finished runs `j..k`. */
  function TotalDur(finished: seq<Done>, j: nat, k: nat): nat
    requires j <= k <= |finished|
  {
    if j == k then 0 else TotalDur(finished, j, k - 1) + finished[k - 1].job.dur
  }

  lemma {:induction false} StartsAreSpaced(s: State, j: nat, k: nat)
    requires Timed(s) && j <= k < |s.finished|
    ensures s.finished[j].startTime + TotalDur(s.finished, j, k) <= s.finished[k].startTime
  {
    if j < k {
      StartsAreSpaced(s, j, k - 1);
      assert s.finished[k - 1].finishTime <= s.finished[(k - 1) + 1].startTime;
    }
  }

  /**
   No run is cut short, runs never overlap, and a run starts no earlier than any run before it plus
   the durations of all those between.  While a run continues, the sleep is exactly what it has left.
   */
  lemma RunsTakeTheirTime(start: int, events: seq<Event>)
    requires Possible(Init(start), events)
    ensures var s := RunAll(Init(start), events);
      && (forall k :: 0 <= k < |s.finished| ==>
            s.finished[k].startTime + s.finished[k].job.dur <= s.finished[k].finishTime)
      && (forall j, k :: 0 <= j <= k < |s.finished| ==>
            s.finished[j].startTime + TotalDur(s.finished, j, k) <= s.finished[k].startTime)
      && (s.current.Some? ==>
            && (forall j :: 0 <= j < |s.finished| ==>
                  s.finished[j].startTime + TotalDur(s.finished, j, |s.finished|) <= s.current.value.startTime)
            && s.wait.AtMost? && (s.clock - s.current.value.startTime) + s.wait.dur == s.current.value.job.dur)
  {
    hide Line, Told, OneOn, RunAll, Possible;
    InitInvariant(start);
    ExecutionsKeepInvariant(Init(start), events);
    var s := RunAll(Init(start), events);
    forall j, k | 0 <= j <= k < |s.finished|
      ensures s.finished[j].startTime + TotalDur(s.finished, j, k) <= s.finished[k].startTime
    {
      StartsAreSpaced(s, j, k);
    }
    forall j | s.current.Some? && 0 <= j < |s.finished|
      ensures s.finished[j].startTime + TotalDur(s.finished, j, |s.finished|) <= s.current.value.startTime
    {
      StartsAreSpaced(s, j, |s.finished| - 1);
    }
  }

  // ---- Stopping ----

  lemma {:induction false} RunAllAppend(s: State, events: seq<Event>, more: seq<Event>)
    ensures RunAll(s, events + more) == RunAll(RunAll(s, events), more)
    decreases |events|
  {
    if events == [] {
      assert events + more == more;
    } else {
      assert (events + more)[1..] == events[1..] + more;
      RunAllAppend(Step(s, events[0]), events[1..], more);
    }
  }

  /** Until the thread wakes, clients only add to the end of the queue; once told to quit it stays told. */
  lemma {:induction false} WaitingChangesNothing(s: State, waiting: seq<Event>)
    requires forall e <- waiting :: !e.Wake?
    ensures var s' := RunAll(s, waiting);
      && s'.current == s.current && s'.finished == s.finished && s'.exited == s.exited
      && (s.quit || Event.Stop in waiting <==> s'.quit)
    decreases |waiting|
  {
    if waiting != [] {
      assert forall e <- waiting :: e == waiting[0] || e in waiting[1..];
      assert forall e <- waiting[1..] :: e in waiting;
      WaitingChangesNothing(Step(s, waiting[0]), waiting[1..]);
    }
  }

  /** Nothing happens after the exit, except that clients may go on queueing runs that nobody will look at. */
  lemma {:induction false} ExitIsFinal(s: State, rest: seq<Event>)
    requires s.exited
    ensures var s' := RunAll(s, rest);
      && s'.exited && s'.finished == s.finished && s'.interrupted == s.interrupted && s'.on == s.on
      && |s.sent| <= |s'.sent|
      && (forall k :: 0 <= k < |s'.sent| ==> s'.sent[k] == if k < |s.sent| then s.sent[k] else [])
    decreases |rest|
  {
    if rest != [] { ExitIsFinal(Step(s, rest[0]), rest[1..]); }
  }

  /**
   A stopped runner stops.  From any reachable state, once `Stop` has been called, the thread's next wake is
   its last: every section is off, nothing starts or finishes from then on, and if a run was current, it and
   every run queued by then has been told of the interruption, and otherwise nobody has.
   */
  lemma StoppedRunnerExits(start: int, before: seq<Event>, waiting: seq<Event>, now: int, rest: seq<Event>)
    requires Possible(Init(start), before) && !RunAll(Init(start), before).exited
    requires Event.Stop in waiting && forall e <- waiting :: !e.Wake?
    ensures var s := RunAll(Init(start), before + waiting);
      var s' := RunAll(Step(s, Event.Wake(now)), rest);
      && !s.exited && s.finished == RunAll(Init(start), before).finished
      && s'.exited && s'.on == {} && s'.finished == s.finished
      && |s.sent| <= |s'.sent|
      && (forall k :: 0 <= k < |s.sent| ==>
            s'.sent[k] == s.sent[k] + if s.current.Some? && |s.finished| <= k then [Interrupted] else [])
      && (forall k :: |s.sent| <= k < |s'.sent| ==> s'.sent[k] == [])
  {
    hide Told, Timed, Line;
    var told := RunAll(Init(start), before);
    InitInvariant(start);
    ExecutionsKeepInvariant(Init(start), before);
    RunAllAppend(Init(start), before, waiting);
    WaitingChangesNothing(told, waiting);
    WaitingIsPossible(told, waiting);
    ExecutionsKeepInvariant(told, waiting);
    var s := RunAll(told, waiting);
    ExitTells(s);
    ExitIsFinal(Exited(s), rest);
  }

  lemma {:induction false} WaitingIsPossible(s: State, waiting: seq<Event>)
    requires forall e <- waiting :: !e.Wake?
    ensures Possible(s, waiting)
    decreases |waiting|
  {
    if waiting != [] {
      assert waiting[0] in waiting && forall e <- waiting[1..] :: e in waiting;
      WaitingIsPossible(Step(s, waiting[0]), waiting[1..]);
    }
  }

  // ---- Sleep ----

  /**
   What the thread does next: it goes on at once exactly after finishing a run, it waits for the rest of a
   run exactly while there is one, and it sleeps without limit exactly when it found nothing to do.
   */
  lemma SleepAfterWake(s: State, now: int)
    requires Invariant(s) && !s.exited && !s.quit
    ensures var s' := Step(s, Event.Wake(now));
      && (s'.wait == NoWait <==> |s.finished| < |s'.finished|)
      && (s'.wait.AtMost? <==> s'.current.Some?)
      && (s'.wait == Wait <==> s.current == None && s.queue == [])
      && (s'.wait == Wait ==> s'.current == None && s'.queue == [])
  {
    hide Line;
  }

  /**
   The thread never sleeps without limit on unfinished business: if it is asleep with a run to start or
   finish, or after being told to quit, then a client has called, and so notified it, since it last woke.
   */
  lemma NeverAsleepOnWork(start: int, events: seq<Event>)
    requires Possible(Init(start), events)
    ensures var s := RunAll(Init(start), events);
      !s.exited && s.wait == Wait && (s.current.Some? || s.queue != [] || s.quit) ==>
        events != [] && !events[|events| - 1].Wake?
  {
    hide Invariant, Step, RunAll, Possible;
    InitInvariant(start);
    if events == [] {
      RunAllOnce(Init(start), []);
    } else {
      var (earlier, last) := (events[..|events| - 1], events[|events| - 1]);
      assert events == earlier + [last];
      PossiblePrefix(Init(start), earlier, [last]);
      ExecutionsKeepInvariant(Init(start), earlier);
      RunAllAppend(Init(start), earlier, [last]);
      RunAllOnce(RunAll(Init(start), earlier), [last]);
      if last.Wake? { IdleOnlyWithoutWork(RunAll(Init(start), earlier), last.now); }
    }
  }

  lemma RunAllOnce(s: State, events: seq<Event>)
    requires |events| <= 1
    ensures RunAll(s, events) == if events == [] then s else Step(s, events[0])
  {
  }

  lemma IdleOnlyWithoutWork(s: State, now: int)
    requires Invariant(s)
    ensures var s' := Step(s, Event.Wake(now));
      !s'.exited && s'.wait == Wait ==> s'.current == None && s'.queue == [] && !s'.quit
  {
    if !s.exited && !s.quit { SleepAfterWake(s, now); }
  }

  lemma {:induction false} PossiblePrefix(s: State, events: seq<Event>, more: seq<Event>)
    requires Possible(s, events + more)
    ensures Possible(s, events) && Possible(RunAll(s, events), more)
    decreases |events|
  {
    if events == [] {
      assert events + more == more;
    } else {
      assert (events + more)[1..] == events[1..] + more;
      PossiblePrefix(Step(s, events[0]), events[1..], more);
    }
  }

  // ---- Progress ----

  /** May the sleep have ended of itself when the clock reads `now`? */
  predicate SleepOver(s: State, now: int) {
    match s.wait
    case NoWait => true
    case AtMost(dur) => s.clock + dur <= now
    case Wait => false
  }

  /**
   The thread wakes only when its sleep is over or a client has called since it last woke; clients may
   queue more runs but do not stop it.
   */
  predicate Punctual(s: State, notified: bool, events: seq<Event>)
    decreases |events|
  {
    events != [] ==>
      && !events[0].Stop?
      && (events[0].Wake? ==> s.clock <= events[0].now && (notified || SleepOver(s, events[0].now)))
      && Punctual(Step(s, events[0]), !events[0].Wake?, events[1..])
  }

  /** A wake that comes during a run, when a client has called, finds nothing to do. */
  predicate Timely(s: State, e: Event) {
    e.Wake? && (s.wait.AtMost? ==> SleepOver(s, e.now))
  }

  function TimelyWakes(s: State, events: seq<Event>): nat
    decreases |events|
  {
    if events == [] then 0
    else (if Timely(s, events[0]) then 1 else 0) + TimelyWakes(Step(s, events[0]), events[1..])
  }

  /** How many wakes it takes to finish the first `n` runs: one to start each and one to finish it. */
  function WakesFor(s: State, n: nat): nat {
    if n <= |s.finished| then 0 else 2 * (n - |s.finished|) - |CurrentJob(s)|
  }

  /** A timely wake is never wasted while one of the first `n` runs is unfinished. */
  lemma PunctualStep(s: State, e: Event, n: nat)
    requires Invariant(s) && !s.quit && n <= |s.queued| && !e.Stop? && Enabled(s, e)
    ensures !Step(s, e).quit && n <= |Step(s, e).queued|
    ensures WakesFor(Step(s, e), n) <= if Timely(s, e) && WakesFor(s, n) > 0 then WakesFor(s, n) - 1 else WakesFor(s, n)
  {
    LineIds(s);
  }

  lemma {:induction false} PunctualWakesFinish(s: State, notified: bool, events: seq<Event>, n: nat)
    requires Invariant(s) && !s.quit && Punctual(s, notified, events)
    requires n <= |s.queued| && WakesFor(s, n) <= TimelyWakes(s, events)
    ensures n <= |RunAll(s, events).finished| && Invariant(RunAll(s, events))
    decreases |events|
  {
    hide Invariant, Step, WakesFor, Timely, SleepOver;
    if events == [] {
      NothingLeft(s, n);
    } else {
      PunctualStep(s, events[0], n);
      StepKeepsInvariant(s, events[0]);
      PunctualWakesFinish(Step(s, events[0]), !events[0].Wake?, events[1..], n);
    }
  }

  lemma NothingLeft(s: State, n: nat)
    requires WakesFor(s, n) == 0
    ensures n <= |s.finished|
  {
  }

  /**
   However many runs clients add meanwhile, two timely wakes for each waiting run and one for the current
   one finish everything that was in the line, in order.
   */
  lemma PunctualWakesServeAll(s: State, notified: bool, events: seq<Event>)
    requires Invariant(s) && !s.quit && Punctual(s, notified, events)
    requires 2 * |s.queue| + |CurrentJob(s)| <= TimelyWakes(s, events)
    ensures var s' := RunAll(s, events);
      && |s.queued| <= |s'.finished| && s.queued <= Jobs(s'.finished)
      && (s'.queued == s.queued ==> s'.current == None && s'.queue == [])
  {
    LineIds(s);
    PunctualWakesFinish(s, notified, events, |s.queued|);
    LineKeepsQueued(s, events);
    LineIds(RunAll(s, events));
    FinishedStartsLine(s.queued, RunAll(s, events));
  }

  /** Such a wake is always possible while there is work, so long as clients' calls are noticed. */
  lemma WorkWakesThread(start: int, events: seq<Event>)
    requires Possible(Init(start), events)
    ensures var (s, notified) := (RunAll(Init(start), events), events != [] && !events[|events| - 1].Wake?);
      !s.exited && !s.quit && (s.current.Some? || s.queue != []) ==>
        exists now :: Punctual(s, notified, [Event.Wake(now)]) && Timely(s, Event.Wake(now))
  {
    NeverAsleepOnWork(start, events);
    var s := RunAll(Init(start), events);
    var now := s.clock + if s.wait.AtMost? then s.wait.dur else 0;
    if !s.exited && !s.quit && (s.current.Some? || s.queue != []) {
      assert Punctual(s, events != [] && !events[|events| - 1].Wake?, [Event.Wake(now)]);
    }
  }

  lemma FinishedStartsLine(earlier: seq<SecRun>, s: State)
    requires Conserved(s) && earlier <= s.queued && |earlier| <= |s.finished|
    ensures earlier <= Jobs(s.finished)
  {
    assert Jobs(s.finished) <= s.queued;
  }

  /** What has been queued stays where it is in the line. */
  lemma {:induction false} LineKeepsQueued(s: State, events: seq<Event>)
    ensures s.queued <= RunAll(s, events).queued
    decreases |events|
  {
    if events != [] { LineKeepsQueued(Step(s, events[0]), events[1..]); }
  }
}
