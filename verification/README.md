# Verification of the rinklers sprinkler controller

A Dafny 4.11 model of the parts of rinklers that carry state: the slab that holds scheduled runs, the
search for a schedule's next run, the schedule runner and its guards, the section runner and the
programs queued on it, and the printing and parsing of durations. `dafny verify dfyconfig.toml` checks it.

| file | models | of |
|---|---|---|
| `IndexMap.dfy` | the free-list slab, its iterators, and its meaning as a map with a stack of freed indices | `src/schedule_runner.rs` |
| `Calendar.dfy` | instants, weekdays and the Gregorian calendar that the schedules rely on | chrono, as `src/schedule.rs` uses it |
| `Schedule.dfy` | bounds, windows, and the search for the next run | `src/schedule.rs` |
| `WaitPeriod.dfy` | the order of sleeps | `src/util.rs` |
| `ScheduleRunner.dfy` | the runner's critical sections and the pass of its thread | `src/schedule_runner.rs` |
| `ScheduleExecutions.dfy` | every interleaving of guards' owners with the thread | `src/schedule_runner.rs` |
| `Firings.dfy` | which runs those executions carry out, carry out twice, and skip | `src/schedule_runner.rs` |
| `SectionRunner.dfy` | the queue, the thread's loop and the notifications, and every execution of them | `src/section_runner.rs` |
| `Program.dfy` | queueing a program among other clients, and waiting for its end | `src/program.rs` |
| `Duration.dfy` | the duration printer and parser | `src/util.rs` |
| `TimeUnits.dfy`, `Options.dfy` | lengths of time and optional values | |

What the program changes in place is a class whose methods are proved equal to a function on its
meaning (`View`). The theorems are about those functions: over all inputs, all histories of operations,
or all interleavings of critical sections, each of which is one atomic step. Clock readings are inputs
that never go back; sets are iterated in an arbitrary order.

Facts about the code that a maintainer may not expect:

- `next_run_after` promises a run after the reference but also returns one at the reference
  (`SameRunNextIff`). So a run comes twice exactly when the clock has not moved past its due instant when
  it is rescheduled and it is in the window seen from that instant, as it always is with bounds that are
  not yearly or within one year (`SameRunAgainIff`; `MidnightRunsTwice` and `NewYearRunsOnce` are a case
  of each).
- A `from` bound that resolves before the `to` bound is moved one year on, which is not the window the
  comments describe. `BoundsHonouredIff` says exactly when the two agree, `DocumentedWindowMissed` is a
  case where they do not, and by `YearlyWindowIsEmpty` two yearly bounds in calendar order usually mean
  that the schedule never runs.
- The runner does not catch up: a run that falls between a due instant and the clock reading after its
  execution is skipped (`MinutePastSkipped` is a case). `EveryRunAccountedFor` says that every other run
  in the window is executed.
- Guards stay valid only because the runner's `retain` is commented out (`RetainWouldOrphanGuards`).
- When the section runner stops while idle, runs still queued are never told (`ExitTells`).
- The parser ignores a trailing number without a unit (`TokensParse`) and whitespace, even inside a number
  (`WhitespaceIgnored`), and the printer's output for a negative duration cannot be parsed (`RoundTrip`).

## Model

| member | source | states |
|---|---|---|
| IndexMaps.IndexMap.Insert | src/schedule_runner.rs:131-151 | the element goes to the most recently freed index, or to a new one when none is free; that index was not live, nothing else changes, and the free list stays one acyclic path through every empty cell, so the panic cannot happen |
| IndexMaps.IndexMap.RemoveEntry | src/schedule_runner.rs:153-168 | a live element is returned and its cell becomes the head of the free list; an empty cell is left alone; no other cell changes |
| IndexMaps.IndexMap.Remove | src/schedule_runner.rs:170-172 | removal refines removal from a map and pushes the index on the stack of freed ones |
| IndexMaps.IndexMap.Retain | src/schedule_runner.rs:174-187 | what is left is exactly the elements that pass the test, at unchanged indices, with the rest freed in visiting order; the answers may depend on the index, so a test with state of its own is covered |
| IndexMaps.IndexMap.IndexMut | src/schedule_runner.rs:229-236 | writing to a live index changes that element only |
| IndexMaps.IndexMap.FromIter | src/schedule_runner.rs:266-277 | iterating the result yields the input, numbered from 0 |
| IndexMaps.Iter.Next | src/schedule_runner.rs:298-308 | the next live pair at or after the position, or `None` when only dead cells are left |
| IndexMaps.ChainUnique | src/schedule_runner.rs:102-112 | the vector and `next_empty` determine the whole free list |
| IndexMaps.ThreadedIsWellFormed | src/schedule_runner.rs:108-112 | live and free indices are disjoint and together number the cells of the vector |
| IndexMaps.CapacityIsPeak | src/schedule_runner.rs:131-187 | after any history of insertions, removals, updates and retains, the vector is as long as the largest population there has been |
| IndexMaps.LastFreedFirstReused | src/schedule_runner.rs:131-168 | after removing several elements, inserting as many reuses their indices in reverse order and leaves the older free list as it was |
| IndexMaps.RetainedKeepsExactly | src/schedule_runner.rs:174-187 | filtering cell by cell equals filtering the map, whatever index it has reached |
| IndexMaps.ItemsAscend | src/schedule_runner.rs:298-308 | iteration yields only live pairs, in strictly ascending order of index |
| IndexMaps.ItemsComplete | src/schedule_runner.rs:298-308 | iteration misses no live pair |
| Calendar.DateRoundTrip | src/schedule.rs:43-49 | the conversion between dates and day numbers, on which `year` and `with_year` rest, is one-to-one |
| Calendar.WithYearExists | src/schedule.rs:43-49 | moving a date to another year keeps month, day and time, and fails only for 29 February in a common year |
| Calendar.MonthStarts | src/schedule.rs:43-49 | the days of the year before each month, in leap and common years, by a closed formula |
| Schedules.NextWeekday | src/schedule.rs:71-77 | the first day from the given one on that falls on the weekday |
| Schedules.DateFor | src/schedule.rs:113-119 | for one weekday and time, no matching instant lies between the start of the window and the date found |
| Schedules.Search | src/schedule.rs:110-132 | in whatever order the sets are iterated, the earliest match in the window, or none if there is none |
| Schedules.NextRunAfter | src/schedule.rs:100-133 | exactly the least instant that the times and weekdays ask for in the effective window, and `None` exactly when there is no such instant |
| Schedules.ExactWindow | src/schedule.rs:100-119 | for all bounds, which instants a schedule asks for, in dates and times: on its weekdays at its times, from the reference on, up to and including the end, and from the start on, or from the start a year later when it comes before the end, or without a start when that date does not exist |
| Schedules.ResolvesWhereItStands | src/schedule.rs:43-49 | a yearly bound resolves to its own month, day and time of day in the year of the reference, or to nothing when there is no such date; a definite bound to itself |
| Schedules.TestedYearlyBounds | src/schedule.rs:157-164 | 16 November 2016 10:30 seen from 2018 is 16 November 2018 10:30, and 29 February 2012 is no bound |
| Schedules.BoundsHonouredIff | src/schedule.rs:82-109 | the effective window equals the documented one for all times and weekdays iff the start is not moved, or the window is over, or the moved start is already past |
| Schedules.DocumentedWindowMissed | src/schedule.rs:82-109 | for the week from 14 November 2016, the documented first run is never found |
| Schedules.YearlyWindowIsEmpty | src/schedule.rs:101-109 | two yearly bounds in calendar order give no run for any times and weekdays if the start exists next year, and otherwise no start bound at all |
| Schedules.HitFromLaterReference | src/schedule.rs:100-109 | with bounds that are not yearly, a later reference only drops the runs before it |
| WaitPeriods.CmpIsTotalOrder | src/util.rs:30-40 | a total order, none before timed before unlimited, whose minimum wakes whenever either period would |
| ScheduleRunners.ScheduleRunner.Schedule | src/schedule_runner.rs:557-564 | the run is inserted with its next run computed from the clock |
| ScheduleRunners.ScheduleRunner.Remove | src/schedule_runner.rs:566-569 | the run at the index, if any, is taken out and returned |
| ScheduleRunners.ScheduleRunner.UpdateSchedule | src/schedule_runner.rs:571-574 | the schedule is replaced and the cached next run recomputed; data and other runs stay |
| ScheduleRunners.ScheduleRunner.UpdateData | src/schedule_runner.rs:576-579 | the data is replaced and the cached next run stays |
| ScheduleRunners.ScheduleRunner.Visit | src/schedule_runner.rs:601-615 | a due run is executed once and rescheduled, any other shortens the sleep |
| ScheduleRunners.ExecutedIsDue | src/schedule_runner.rs:600-609 | what a pass executes is each run whose next run is at or before its clock reading, however late that is, once, with its own data, in ascending order of slot, and nothing else |
| ScheduleRunners.PassReschedulesExecuted | src/schedule_runner.rs:603-609 | a pass gives exactly the runs that it executes a new next run, computed from the reading after the execution, and changes nothing else |
| ScheduleRunners.SleepIsExact | src/schedule_runner.rs:599-616 | there is no sleep iff something was executed, it is unlimited iff no run has a next run, and otherwise it is exactly the least time that any run has left |
| ScheduleRunners.ScheduleRunner.Pass | src/schedule_runner.rs:589-619 | every due run is executed in index order and rescheduled, no other changes, and the sleep is none iff some run was due, else exactly the least time left, else unlimited; a runner told to quit does nothing |
| ScheduleRunners.WaitForUnique | src/schedule_runner.rs:599-616 | the runs and clock readings determine the sleep |
| ScheduleRunners.WaitForNext | src/schedule_runner.rs:603-614 | looking at one more run keeps the sleep the minimum over those seen |
| ScheduleExecutions.GuardsAreSound | src/schedule_runner.rs:506-579 | in every interleaving, guards hold distinct live slots, no guard operation panics, and `stop` returns what was last set through that guard |
| ScheduleExecutions.PassExecutesWhatWasSet | src/schedule_runner.rs:600-609 | in every reachable state, a pass executes exactly the due runs, in order of slot, each with the data last set through the guard of its slot |
| ScheduleExecutions.RunsAreUndisturbed | src/schedule_runner.rs:506-579 | a run stays until its guard is stopped, even when the guard is dropped; a client changes no run but its guard's, and only what it sets |
| ScheduleExecutions.NoPassAfterQuit | src/schedule_runner.rs:594-597 | in every execution, once the runner has been dropped no further pass is made |
| ScheduleExecutions.RetainWouldOrphanGuards | src/schedule_runner.rs:617-618 | the disabled `retain` would take the slot of a guard exactly when its run has no next run |
| Firings.EveryRunAccountedFor | src/schedule_runner.rs:71-83 | of the runs asked for, exactly those that did not fall between a due instant and the reading after its execution were executed: for all bounds as seen from the reading last before the run, and with bounds that are not yearly as seen from the setting of the schedule, up to the cached next run |
| Firings.MinutePastSkipped | src/schedule_runner.rs:600-609 | an execution in which the thread wakes a minute late, executes the run that is due, and never executes another that fell in between |
| Firings.FiringsAreSound | src/schedule_runner.rs:600-616 | each execution was the next run as seen from the reading before it, was not early, and came no earlier than that reading; the cache is the next run from the last reading |
| Firings.SameRunNextIff | src/schedule.rs:97-119 | a run is the next run from a reading not before it iff the reading is that very instant and the run is in the window seen from there |
| Firings.SameRunAgainIff | src/schedule_runner.rs:600-609 | in every execution and for all bounds, each firing is due no earlier than the reading after any before it, and the same instant comes again iff that reading is still the due instant and it is in the window seen from itself, as it is with fixed bounds or within one year |
| Firings.MidnightRunsTwice | src/schedule_runner.rs:600-609 | an execution in which the same run is executed twice |
| Firings.NewYearRunsOnce | src/schedule.rs:46-46 | an execution with a yearly bound in which the clock stands still and the run does not come again, the window having moved with the year |
| SectionRunners.SectionRunner.RunSection | src/section_runner.rs:92-104 | the run joins the end of the queue with a channel of its own |
| SectionRunners.SectionRunner.Stop | src/section_runner.rs:113-121 | the original handle sets the quit flag and nothing else; a clone panics and leaves everything as it was |
| SectionRunners.SectionRunner.Quit | src/section_runner.rs:137-150 | the current run and then every queued run is told of the interruption, the section is switched off and the queue drained; without a current run only the thread ends |
| SectionRunners.SectionRunner.Wake | src/section_runner.rs:134-187 | one iteration of the loop: quit, finish, keep waiting, start the next run, or idle |
| SectionRunners.SleepAfterWake | src/section_runner.rs:154-183 | after a wake there is no sleep iff a run was finished, a limited one iff a run is current, and an unlimited one iff there was nothing to do |
| SectionRunners.NeverAsleepOnWork | src/section_runner.rs:134-187 | under any interleaving, if the thread sleeps without limit while there is a run to start or finish or it has been told to quit, then a client has called since it last woke |
| SectionRunners.ServedInOrder | src/section_runner.rs:90-104 | under any interleaving the runs asked for are exactly those finished, interrupted, current and queued, in the order they were asked for |
| SectionRunners.NotificationProtocol | src/section_runner.rs:28-37 | each run hears one of five histories, and which one says exactly where it stands |
| SectionRunners.ExitTells | src/section_runner.rs:137-150 | on exit, the interruption reaches the current run and all after it if there is a current run, and otherwise nobody |
| SectionRunners.StoppedRunnerExits | src/section_runner.rs:113-150 | in every execution, once the runner is stopped the thread's next wake is its last: all sections are off, no run starts or finishes any more, and the current run and all queued behind it are told, or nobody if there was no current run |
| SectionRunners.OneSectionOn | src/section_runner.rs:143-183 | the sections that are on are the current run's, and none once the thread has exited |
| SectionRunners.RunsTakeTheirTime | src/section_runner.rs:152-181 | no run finishes before its duration, runs do not overlap, starts are at least the sum of the durations between them apart, and a continuing run's sleep plus its elapsed time is its duration |
| SectionRunners.PunctualWakesServeAll | src/section_runner.rs:134-187 | if the thread wakes only when its sleep is over or a client has called, then two timely wakes for each waiting run and one for the current run finish everything in the line, in order, however many runs clients add meanwhile |
| SectionRunners.WorkWakesThread | src/section_runner.rs:154-183 | in every execution that has not been stopped, while a run is waiting or under way such a wake is possible, either at the end of the sleep or because a client has called |
| Programs.Program.QueueRun | src/program.rs:99-104 | the items are queued one by one in sequence order among whatever else happens, and the notifiers are theirs |
| Programs.Program.RunSync | src/program.rs:107-120 | the outcome is the first terminal notification of the last item; there is none exactly while that item's run is queued or under way, and otherwise it says whether the run finished or was interrupted |
| Programs.OutcomeMeansEnded | src/program.rs:107-120 | under any interleaving, waiting ends with a finish iff the last item's run finished, with an interruption iff it was interrupted, and goes on iff it is current or still queued |
| Programs.ItemsQueuedInOrder | src/program.rs:97-104 | the items take ascending places in the runner's line |
| Programs.FinishMeansAllFinished | src/program.rs:106-120 | if the last item is seen to finish, every item has finished, each before the next started |
| Programs.InterruptedMeansRestInterrupted | src/program.rs:106-120 | if the last item is seen to be interrupted, every item either finished or was interrupted |
| Durations.ChronoDurationString | src/util.rs:95-152 | the text is the sign and the non-zero parts, with the last two left out when their counts exceed 64 bits |
| Durations.PrintedAs | src/util.rs:95-152 | the text of any duration put together from counts of the eight units: the counts that are not zero, in order from weeks, each with its letters, and `-` before a negative one; nanoseconds and microseconds only while their totals fit in 64 bits |
| Durations.ChronoDurationFromStr | src/util.rs:172-202 | the loop computes the parser's specification, including where it would overflow |
| Durations.RoundTrip | src/util.rs:95-202 | parsing a printed duration gives it back exactly below 2^63 nanoseconds, rounded down to microseconds below 2^63 of those, and rounded down to milliseconds beyond, with no overflow; a negative one is refused at its sign |
| Durations.TokensParse | src/util.rs:172-202 | numbers with units, in any order and with repeats, parse to their sum when each number fits in 64 bits and the sum in that many milliseconds, and overflow otherwise; a trailing bare number counts for nothing |
| Durations.UnitsAsWritten | src/util.rs:187-198 | what a number followed by each of `w d h m s ms us ns` is in nanoseconds, and when it overflows |
| Durations.CaseIgnored | src/util.rs:176-178 | texts that differ only in upper and lower case parse alike |
| Durations.WhitespaceIgnored | src/util.rs:179-182 | whitespace may stand anywhere in a text without changing the result, unless it parts `m`, `u` or `n` from an `s` |
| Durations.ScanSuffix | src/util.rs:187-198 | one character of lookahead tells `m` from `ms`, and the letter read again adds no seconds |
| Durations.PartsTotal | src/util.rs:108-115 | the printed parts add up to the duration at the precision kept |
| Durations.AcceptsIff | src/util.rs:179-201 | short of overflow, a text is accepted iff every character is acceptable where it stands, and otherwise the first that is not is reported |

## Left out

- Firings.EveryRunAccountedFor: only for bounds that are not yearly is there one window to speak of over a whole execution, since the window of a yearly bound changes with the year of the reference; for those the statement is about the window seen from the reading last before the run.
- SectionRunners.SectionRunner.Stop: that the caller then waits for the thread to exit is not modelled; the exit itself is `Wake`.
- ScheduleRunner: a scheduled run is a value that is replaced in its slot, since the slab owns it and nothing else refers to it; the second clock reading that only feeds a trace message is not modelled.
- IndexMap: `values`, `indeces`, capacity and reservation, which add nothing to `Iter` and the vector; the mutable iterator is `Iter` followed by a write to the index it yielded, without the reference itself.
- Pass: what executing an event does is not modelled, only that it happens, with which data and in which order.
- ChronoDurationFromStr: text is ASCII; arithmetic out of range is one outcome, `Overflow`, whether the build panics or wraps. The conversion to the standard duration cannot fail on a parsed value, which is never negative.
- NextRunAfter: a fixed offset from UTC, so no gaps or repeats in local time, no leap seconds, and no limit on years.
- RunSync: what happens while it blocks is a given list of events; blocking itself is not modelled, and a channel that closes without a terminal notification counts as not yet ended.
- Wake-ups: the threads may wake at any time. That a client's call wakes a thread is not claimed, because the wait does not re-check the state and a notification sent before it is lost; `NeverAsleepOnWork` says that nothing else is needed to keep the section runner from oversleeping.
- Names, setters and update callbacks of programs are single assignments.
- Sections are an identity that is on or off; mutex poisoning, thread start and join, tracing and the MQTT interface, configuration and start-up are not part of this model.
