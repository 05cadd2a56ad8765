/**
 Schedules and the search for their next run (`src/schedule.rs`).

 A schedule asks for the times of day in `times` on the days of week in `weekdays`, inside a window
 set by two bounds.  `NextRunAfter` is the program's search; `IsNext` says what it searches for.
 */
module Schedules {
  import opened Options
  import opened TimeUnits
  import opened Calendar

  datatype DateTimeBound = Unbounded | Yearly(at: Instant) | Definite(at: Instant) {
    /** A yearly bound takes the year of `date`, and is no bound if that date does not exist. */
    function ResolveFrom(date: Instant): Option<Instant> {
      match this
      case Unbounded => None
      case Yearly(at) => WithYear(at, YearOf(date))
      case Definite(at) => Some(at)
    }
  }

  datatype Schedule = Schedule(times: set<TimeOfDay>, weekdays: set<Weekday>, from: DateTimeBound, to: DateTimeBound) {

    predicate Matches(t: Instant) {
      WeekdayOfDay(DayOf(t)) in weekdays && TimeOf(t) in times
    }

    predicate MatchesWithin(lo: Instant, hi: Option<Instant>, t: Instant) {
      Matches(t) && lo <= t && (hi.Some? ==> t <= hi.value)
    }

    /** `t` is a run the schedule asks for, in the window as seen from `reference`. */
    predicate Hit(reference: Instant, t: Instant) {
      MatchesWithin(WindowStart(from, to, reference), to.ResolveFrom(reference), t)
    }
  }

  /** The start of the window as the program computes it: a start before the end moves a year on. */
  function EffectiveFrom(from: DateTimeBound, to: DateTimeBound, reference: Instant): Option<Instant> {
    match (from.ResolveFrom(reference), to.ResolveFrom(reference))
    case (Some(f), Some(t)) => if f < t then WithYear(f, YearOf(f) + 1) else Some(f)
    case (f, _) => f
  }

  function WindowStart(from: DateTimeBound, to: DateTimeBound, reference: Instant): Instant {
    Later(EffectiveFrom(from, to, reference), reference)
  }

  function Later(bound: Option<Instant>, reference: Instant): Instant {
    match bound
    case Some(b) => if b > reference then b else reference
    case None => reference
  }

  /** `r` is the least hit, or `None` because there is no hit. */
  ghost predicate IsNext(s: Schedule, reference: Instant, r: Option<Instant>) {
    match r
    case Some(first) => s.Hit(reference, first) && forall t :: s.Hit(reference, t) ==> first <= t
    case None => forall t :: !s.Hit(reference, t)
  }

  lemma {:induction false} LeastHitExists(s: Schedule, reference: Instant, t: Instant)
    requires s.Hit(reference, t)
    ensures exists first :: IsNext(s, reference, Some(first))
    decreases t - WindowStart(s.from, s.to, reference)
  {
    if t' :| s.Hit(reference, t') && t' < t {
      LeastHitExists(s, reference, t');
    } else {
      assert IsNext(s, reference, Some(t));
    }
  }

  /** The next run as a value: what every search order must find. */
  ghost function NextRun(s: Schedule, reference: Instant): (r: Option<Instant>)
    ensures IsNext(s, reference, r)
  {
    if t :| s.Hit(reference, t) then
      LeastHitExists(s, reference, t);
      var first :| IsNext(s, reference, Some(first));
      Some(first)
    else None
  }

  lemma NextUnique(s: Schedule, reference: Instant, a: Option<Instant>, b: Option<Instant>)
    requires IsNext(s, reference, a) && IsNext(s, reference, b)
    ensures a == b
  {
    if a.Some? && b.Some? {
      assert a.value <= b.value && b.value <= a.value;
    }
  }

  // ---- The search ----

  /** The first day from `day` on that falls on `weekday`. */
  method NextWeekday(day: int, weekday: Weekday) returns (date: int)
    ensures day <= date < day + 7 && WeekdayOfDay(date) == weekday
  {
    date := day;
    ghost var target: int :| day <= target < day + 7 && target % 7 == weekday by {
      var target := day + (weekday - day) % 7;
      assert target % 7 == weekday;
    }
    while WeekdayOfDay(date) != weekday
      invariant day <= date <= target
      decreases target - date
    {
      date := date + 1;
    }
  }

  /** The program's date for one weekday and time is the first such instant not before `start`. */
  lemma FirstOnWeekday(start: Instant, date: int, time: TimeOfDay, t: Instant)
    requires DayOf(start) <= date < DayOf(start) + 7
    requires start <= t && DayOf(t) % 7 == date % 7 && TimeOf(t) == time
    ensures (if At(date, time) < start then At(date, time) + NANOS_PER_WEEK else At(date, time)) <= t
  {
    var k := (DayOf(t) - date) / 7;
    assert DayOf(t) == date + 7 * k;
    assert t == At(DayOf(t), time);
    assert DayOf(start) <= DayOf(t);
  }

  function KeyOf(t: Instant): (Weekday, TimeOfDay) {
    (WeekdayOfDay(DayOf(t)), TimeOf(t))
  }

  /** `c` is a match in the window, and no match on a weekday and time in `tried` is earlier. */
  ghost predicate EarliestTried(s: Schedule, lo: Instant, hi: Option<Instant>,
                                tried: set<(Weekday, TimeOfDay)>, c: Option<Instant>)
  {
    && (c.Some? ==> s.MatchesWithin(lo, hi, c.value))
    && forall t :: s.MatchesWithin(lo, hi, t) && KeyOf(t) in tried ==> c.Some? && c.value <= t
  }

  /** The date the program derives for one weekday and time, before the end of the window is applied. */
  method DateFor(start: Instant, weekday: Weekday, time: TimeOfDay) returns (at: Instant)
    ensures start <= at && KeyOf(at) == (weekday, time)
    ensures forall t | start <= t && KeyOf(t) == (weekday, time) :: at <= t
  {
    var date := NextWeekday(DayOf(start), weekday);
    at := At(date, time);
    if at < start {
      at := at + NANOS_PER_WEEK;
      assert at == At(date + 7, time);
    }
    forall t | start <= t && KeyOf(t) == (weekday, time)
      ensures at <= t
    {
      FirstOnWeekday(start, date, time, t);
    }
  }

  /**
   Tries every weekday with every time, in whatever order the sets are iterated, and keeps the
   earliest date that is not past the end of the window.
   */
  method Search(s: Schedule, start: Instant, to: Option<Instant>) returns (candidate: Option<Instant>)
    ensures candidate.Some? ==> s.MatchesWithin(start, to, candidate.value)
    ensures forall t :: s.MatchesWithin(start, to, t) ==> candidate.Some? && candidate.value <= t
  {
    candidate := None;
    ghost var tried := {};
    var weekdays := s.weekdays;
    while weekdays != {}
      invariant weekdays <= s.weekdays && EarliestTried(s, start, to, tried, candidate)
      invariant forall w, t :: w in s.weekdays - weekdays && t in s.times ==> (w, t) in tried
      decreases |weekdays|
    {
      var weekday :| weekday in weekdays;
      var times := s.times;
      while times != {}
        invariant times <= s.times && EarliestTried(s, start, to, tried, candidate)
        invariant forall w, t :: w in s.weekdays - weekdays && t in s.times ==> (w, t) in tried
        invariant forall t :: t in s.times - times ==> (weekday, t) in tried
        decreases |times|
      {
        var time :| time in times;
        var at := DateFor(start, weekday, time);
        var date := if to.Some? && at > to.value then None else Some(at);
        candidate := match (candidate, date)
          case (Some(d1), Some(d2)) => Some(if d1 <= d2 then d1 else d2)
          case (Some(d1), None) => Some(d1)
          case (None, d2) => d2;
        tried := tried + {(weekday, time)};
        times := times - {time};
      }
      weekdays := weekdays - {weekday};
    }
    assert forall t :: s.Matches(t) ==> KeyOf(t) in tried;
  }

  method NextRunAfter(s: Schedule, reference: Instant) returns (candidate: Option<Instant>)
    ensures IsNext(s, reference, candidate)
    ensures candidate == NextRun(s, reference)
  {
    hide WithYear, YearOf;
    var to := s.to.ResolveFrom(reference);
    var from := s.from.ResolveFrom(reference);
    if from.Some? && to.Some? && from.value < to.value {
      from := WithYear(from.value, YearOf(from.value) + 1);
    }
    var start := if from.Some? && from.value > reference then from.value else reference;
    candidate := Search(s, start, to);
    NextUnique(s, reference, candidate, NextRun(s, reference));
  }

  // ---- What the bounds do ----

  /**
   `m` is the date and time at which `bound` stands, seen from `reference`: none if there is no bound, its
   own if it is definite, and if it is yearly the same in the year of `reference`, if the date exists there.
   */
  ghost predicate StandsAt(bound: DateTimeBound, reference: Instant, m: Option<(Date, TimeOfDay)>) {
    match bound
    case Unbounded => m == None
    case Definite(at) => m.Some? && ValidDate(m.value.0) && At(DaysOf(m.value.0), m.value.1) == at
    case Yearly(at) => exists d: Date, time: TimeOfDay ::
        ValidDate(d) && At(DaysOf(d), time) == at && m == SameDateIn(d, time, YearOf(reference))
  }

  function SameDateIn(d: Date, time: TimeOfDay, y: int): Option<(Date, TimeOfDay)> {
    if ValidDate(d.(year := y)) then Some((d.(year := y), time)) else None
  }

  lemma ResolvesWhereItStands(bound: DateTimeBound, reference: Instant, m: Option<(Date, TimeOfDay)>)
    requires StandsAt(bound, reference, m)
    ensures bound.ResolveFrom(reference) == if m.Some? then Some(At(DaysOf(m.value.0), m.value.1)) else None
    ensures m.Some? ==> ValidDate(m.value.0)
  {
    if bound.Yearly? {
      var d: Date, time: TimeOfDay :| ValidDate(d) && At(DaysOf(d), time) == bound.at &&
        m == SameDateIn(d, time, YearOf(reference));
      WithYearOfDate(d, time, YearOf(reference));
    }
  }

  /** The yearly bounds of the program's tests: one keeps its date and its time of day, a leap day is lost. */
  lemma TestedYearlyBounds(reference: Instant, d: Date, leapDay: Date)
    requires YearOf(reference) == 2018 && d == Date(2016, 11, 16) && leapDay == Date(2012, 2, 29)
    ensures var time := 10 * NANOS_PER_HOUR + 30 * NANOS_PER_MINUTE;
      Yearly(At(DaysOf(d), time)).ResolveFrom(reference) == Some(At(DaysOf(Date(2018, 11, 16)), time))
    ensures Yearly(Midnight(leapDay)).ResolveFrom(reference) == None
  {
    hide WithYear, YearOf, DaysOf;
    WithYearOfDate(d, 10 * NANOS_PER_HOUR + 30 * NANOS_PER_MINUTE, 2018);
    WithYearOfDate(leapDay, 0, 2018);
  }

  /** Every bound stands somewhere, or nowhere. */
  lemma EveryBoundStands(bound: DateTimeBound, reference: Instant) returns (m: Option<(Date, TimeOfDay)>)
    ensures StandsAt(bound, reference, m)
  {
    match bound
    case Unbounded => m := None;
    case _ =>
      var d, time := DateOfDay(DayOf(bound.at)), TimeOf(bound.at);
      DayRoundTrip(DayOf(bound.at));
      assert ValidDate(d) && At(DaysOf(d), time) == bound.at;
      m := SameDateIn(d, time, if bound.Yearly? then YearOf(reference) else d.year);
  }

  /**
   Exactly which instants a schedule asks for, seen from `reference`: its weekdays and times of day, from
   the reference on, up to and including the end, and from the start on, where a start before the end
   counts from a year later, if its date exists then, and otherwise not at all.
   */
  lemma ExactWindow(s: Schedule, reference: Instant, from: Option<(Date, TimeOfDay)>, to: Option<(Date, TimeOfDay)>,
                    t: Instant)
    requires StandsAt(s.from, reference, from) && StandsAt(s.to, reference, to)
    ensures s.Hit(reference, t) <==>
      && t / NANOS_PER_DAY % 7 in s.weekdays && t % NANOS_PER_DAY in s.times
      && reference <= t
      && (to.Some? ==> t <= At(DaysOf(to.value.0), to.value.1))
      && (from.Some? ==>
            var (d, time) := from.value;
            if to.Some? && At(DaysOf(d), time) < At(DaysOf(to.value.0), to.value.1)
            then ValidDate(d.(year := d.year + 1)) ==> At(DaysOf(d.(year := d.year + 1)), time) <= t
            else At(DaysOf(d), time) <= t)
  {
    hide DaysOf, WithYear, YearOf, ValidDate, StandsAt;
    MovedStart(s, reference, from, to);
    ResolvesWhereItStands(s.to, reference, to);
  }

  lemma MovedStart(s: Schedule, reference: Instant, from: Option<(Date, TimeOfDay)>, to: Option<(Date, TimeOfDay)>)
    requires StandsAt(s.from, reference, from) && StandsAt(s.to, reference, to)
    ensures EffectiveFrom(s.from, s.to, reference) ==
              if from == None then None
              else
                var (d, time) := from.value;
                if to.Some? && At(DaysOf(d), time) < At(DaysOf(to.value.0), to.value.1)
                then
                  if ValidDate(d.(year := d.year + 1)) then Some(At(DaysOf(d.(year := d.year + 1)), time)) else None
                else Some(At(DaysOf(d), time))
  {
    hide DaysOf, WithYear, YearOf, ValidDate, StandsAt;
    ResolvesWhereItStands(s.from, reference, from);
    ResolvesWhereItStands(s.to, reference, to);
    if from.Some? {
      var (d, time) := from.value;
      YearOfDate(d, time);
      WithYearOfDate(d, time, d.year + 1);
    }
  }

  predicate FixedBounds(s: Schedule) {
    !s.from.Yearly? && !s.to.Yearly?
  }

  /** With fixed bounds, moving the reference forward only discards the runs it has passed. */
  lemma HitFromLaterReference(s: Schedule, earlier: Instant, later: Instant, t: Instant)
    requires FixedBounds(s) && earlier <= later <= t
    ensures s.Hit(earlier, t) <==> s.Hit(later, t)
  {
    hide WithYear, YearOf;
  }

  /** The start of the window the documentation describes: the bound as it resolves. */
  function DocumentedStart(from: DateTimeBound, reference: Instant): Instant {
    Later(from.ResolveFrom(reference), reference)
  }

  /** What a caller can check beforehand: the start is not moved, or moving it cannot be noticed. */
  predicate BoundsHonoured(from: DateTimeBound, to: DateTimeBound, reference: Instant) {
    match (from.ResolveFrom(reference), to.ResolveFrom(reference))
    case (Some(f), Some(t)) =>
      || t <= f
      || t < reference
      || (match WithYear(f, YearOf(f) + 1) case Some(moved) => moved <= reference case None => f <= reference)
    case _ => true
  }

  lemma NextYearIsLater(t: Instant)
    ensures var moved := WithYear(t, YearOf(t) + 1);
      moved.Some? ==> t < moved.value && YearOf(moved.value) == YearOf(t) + 1
  {
    WithYearExists(t, YearOf(t) + 1);
    var moved := WithYear(t, YearOf(t) + 1);
    if moved.Some? { LaterYearIsLater(t, moved.value); }
  }

  lemma StartMovesOneYear(from: DateTimeBound, to: DateTimeBound, reference: Instant, f: Instant, t: Instant)
    requires from.ResolveFrom(reference) == Some(f) && to.ResolveFrom(reference) == Some(t) && f < t
    ensures WindowStart(from, to, reference) == Later(WithYear(f, YearOf(f) + 1), reference)
  {
    hide WithYear, YearOf;
  }

  lemma HonouredWhenStartStays(from: DateTimeBound, to: DateTimeBound, reference: Instant)
    requires var (f, t) := (from.ResolveFrom(reference), to.ResolveFrom(reference));
      f.None? || t.None? || t.value <= f.value
    ensures BoundsHonoured(from, to, reference)
    ensures WindowStart(from, to, reference) == DocumentedStart(from, reference)
  {
    hide WithYear, YearOf;
  }

  lemma HonouredWhenStartMoves(from: DateTimeBound, to: DateTimeBound, reference: Instant, f: Instant, t: Instant)
    requires from.ResolveFrom(reference) == Some(f) && to.ResolveFrom(reference) == Some(t) && f < t
    ensures BoundsHonoured(from, to, reference) <==>
            var code, documented := WindowStart(from, to, reference), DocumentedStart(from, reference);
            code == documented || (t < code && t < documented)
  {
    hide WithYear, YearOf;
    StartMovesOneYear(from, to, reference, f, t);
    NextYearIsLater(f);
  }

  /** The program's window agrees with the documented one for every schedule iff `BoundsHonoured`. */
  lemma BoundsHonouredIff(from: DateTimeBound, to: DateTimeBound, reference: Instant)
    ensures BoundsHonoured(from, to, reference) <==>
            forall times, weekdays, t :: HitAsDocumented(Schedule(times, weekdays, from, to), reference, t)
  {
    hide WithYear, YearOf;
    var f, hi := from.ResolveFrom(reference), to.ResolveFrom(reference);
    if f.None? || hi.None? || hi.value <= f.value {
      HonouredWhenStartStays(from, to, reference);
    } else {
      HonouredWhenStartMoves(from, to, reference, f.value, hi.value);
    }
    var code, documented := WindowStart(from, to, reference), DocumentedStart(from, reference);
    if BoundsHonoured(from, to, reference) {
      forall times, weekdays, t
        ensures HitAsDocumented(Schedule(times, weekdays, from, to), reference, t)
      {
      }
    } else {
      var t := if code < documented then code else documented;
      WindowsDiffer(from, to, code, documented, hi, t);
      assert !HitAsDocumented(Schedule({TimeOf(t)}, {WeekdayOfDay(DayOf(t))}, from, to), reference, t);
    }
  }

  /** An instant between two starts is itself a run that only one window admits. */
  lemma WindowsDiffer(from: DateTimeBound, to: DateTimeBound, a: Instant, b: Instant, hi: Option<Instant>, t: Instant)
    requires (a <= t) != (b <= t) && (hi.Some? ==> t <= hi.value)
    ensures var s := Schedule({TimeOf(t)}, {WeekdayOfDay(DayOf(t))}, from, to);
      s.MatchesWithin(a, hi, t) != s.MatchesWithin(b, hi, t)
  {
  }

  predicate HitAsDocumented(s: Schedule, reference: Instant, t: Instant) {
    s.Hit(reference, t) == s.MatchesWithin(DocumentedStart(s.from, reference), s.to.ResolveFrom(reference), t)
  }

  /**
   A concrete case: the week from Monday, 14 November 2016 is documented to have a run at its very start,
   and the program finds none in it.
   */
  lemma DocumentedWindowMissed(monday: Date, s: Schedule)
    requires monday == Date(2016, 11, 14)
    requires s == Schedule({0}, {0}, Definite(Midnight(monday)), Definite(Midnight(monday) + NANOS_PER_WEEK))
    ensures s.MatchesWithin(DocumentedStart(s.from, Midnight(monday)), s.to.ResolveFrom(Midnight(monday)), Midnight(monday))
    ensures NextRun(s, Midnight(monday)) == None
  {
    hide WithYear, YearOf;
    var start, end := Midnight(monday), Midnight(monday) + NANOS_PER_WEEK;
    assert WeekdayOfDay(DaysOf(monday)) == 0 by { KnownWeekdays(); }
    YearOfDate(monday, 0);
    YearOfDate(monday.(day := 21), 0);
    assert end == At(DaysOf(monday.(day := 21)), 0);
    WithYearOfDate(monday, 0, 2017);
    StartMovesOneYear(s.from, s.to, start, start, end);
    NextYearPassesEnd(start, end, WithYear(start, 2017).value);
    EmptyWindow(s, start, end);
  }

  lemma YearlyResolvesInYear(bound: DateTimeBound, reference: Instant, t: Instant)
    requires bound.Yearly? && bound.ResolveFrom(reference) == Some(t)
    ensures YearOf(t) == YearOf(reference)
  {
    WithYearExists(bound.at, YearOf(reference));
  }

  /** Two bounds of one year: moving the first a year on puts it after the second. */
  lemma NextYearPassesEnd(f: Instant, t: Instant, moved: Instant)
    requires YearOf(f) == YearOf(t) && WithYear(f, YearOf(f) + 1) == Some(moved)
    ensures t < moved
  {
    NextYearIsLater(f);
    LaterYearIsLater(t, moved);
  }

  lemma EmptyWindow(s: Schedule, reference: Instant, end: Instant)
    requires s.to.ResolveFrom(reference) == Some(end) && end < WindowStart(s.from, s.to, reference)
    ensures NextRun(s, reference) == None
  {
    hide WithYear, YearOf;
    assert forall t :: !s.Hit(reference, t);
  }

  /**
   With two yearly bounds that resolve in calendar order the schedule never runs, whatever its times
   and weekdays, provided that the date of the start exists in the following year.  Otherwise (the
   start is a 29 February) the start is ignored altogether.
   */
  lemma YearlyWindowIsEmpty(s: Schedule, reference: Instant, f: Instant, t: Instant)
    requires s.from.Yearly? && s.to.Yearly? && f < t
    requires s.from.ResolveFrom(reference) == Some(f) && s.to.ResolveFrom(reference) == Some(t)
    ensures WithYear(f, YearOf(f) + 1).Some? ==> NextRun(s, reference) == None
    ensures WithYear(f, YearOf(f) + 1).None? ==> WindowStart(s.from, s.to, reference) == reference
  {
    StartMovesOneYear(s.from, s.to, reference, f, t);
    var moved := WithYear(f, YearOf(f) + 1);
    if moved.Some? {
      YearlyResolvesInYear(s.from, reference, f);
      YearlyResolvesInYear(s.to, reference, t);
      NextYearPassesEnd(f, t, moved.value);
      EmptyWindow(s, reference, t);
    }
  }
}
