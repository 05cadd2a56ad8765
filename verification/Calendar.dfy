/**
 Instants as nanoseconds of local time at a fixed offset, and the proleptic Gregorian calendar that
 `with_year` needs.  Instant 0 is midnight at the start of Monday, 1 January of year 1.
 */
module Calendar {
  import opened Options
  import opened TimeUnits

  type Instant = int
  type Weekday = w: nat | w < 7               // 0 is Monday
  type TimeOfDay = t: nat | t < NANOS_PER_DAY

  function DayOf(t: Instant): int {
    t / NANOS_PER_DAY
  }

  function TimeOf(t: Instant): TimeOfDay {
    t % NANOS_PER_DAY
  }

  function WeekdayOfDay(day: int): Weekday {
    day % 7
  }

  function At(day: int, time: TimeOfDay): (t: Instant)
    ensures DayOf(t) == day && TimeOf(t) == time
  {
    day * NANOS_PER_DAY + time
  }

  // ---- Years ----

  predicate IsLeap(y: int) {
    y % 4 == 0 && (y % 100 != 0 || y % 400 == 0)
  }

  /** Days from the epoch to 1 January of year `y`. */
  function DaysBeforeYear(y: int): int {
    365 * (y - 1) + (y - 1) / 4 - (y - 1) / 100 + (y - 1) / 400
  }

  lemma YearLength(y: int)
    ensures DaysBeforeYear(y + 1) - DaysBeforeYear(y) == if IsLeap(y) then 366 else 365
  {
    FourthYear(y);
    HundredthYear(y);
    FourHundredthYear(y);
  }

  lemma FourthYear(y: int)
    ensures y / 4 - (y - 1) / 4 == if y % 4 == 0 then 1 else 0
    ensures y % 100 == 0 ==> y % 4 == 0
  {
    assert y % 100 == 0 ==> y == 4 * (25 * (y / 100));
  }

  lemma HundredthYear(y: int)
    ensures y / 100 - (y - 1) / 100 == if y % 100 == 0 then 1 else 0
    ensures y % 400 == 0 ==> y % 100 == 0
  {
    assert y % 400 == 0 ==> y == 100 * (4 * (y / 400));
  }

  lemma FourHundredthYear(y: int)
    ensures y / 400 - (y - 1) / 400 == if y % 400 == 0 then 1 else 0
  {
  }

  lemma {:induction false} YearsAscend(a: int, b: int)
    requires a <= b
    ensures DaysBeforeYear(a) + 365 * (b - a) <= DaysBeforeYear(b)
    decreases b - a
  {
    if a < b {
      YearLength(a);
      YearsAscend(a + 1, b);
    }
  }

  predicate ContainsDay(y: int, day: int) {
    DaysBeforeYear(y) <= day < DaysBeforeYear(y + 1)
  }

  /** Walks from `guess` to the year that contains `day`. */
  function YearFrom(day: int, guess: int): int
    decreases if day < DaysBeforeYear(guess) then DaysBeforeYear(guess) - day
              else if DaysBeforeYear(guess + 1) <= day then day - DaysBeforeYear(guess + 1) + 1 else 0
  {
    if day < DaysBeforeYear(guess) then YearLength(guess - 1); YearFrom(day, guess - 1)
    else if DaysBeforeYear(guess + 1) <= day then YearLength(guess + 1); YearFrom(day, guess + 1)
    else guess
  }

  function YearOfDay(day: int): int {
    YearFrom(day, 1)
  }

  lemma {:induction false} YearFromContains(day: int, guess: int)
    ensures ContainsDay(YearFrom(day, guess), day)
    decreases if day < DaysBeforeYear(guess) then DaysBeforeYear(guess) - day
              else if DaysBeforeYear(guess + 1) <= day then day - DaysBeforeYear(guess + 1) + 1 else 0
  {
    if day < DaysBeforeYear(guess) {
      YearLength(guess - 1);
      YearFromContains(day, guess - 1);
    } else if DaysBeforeYear(guess + 1) <= day {
      YearLength(guess + 1);
      YearFromContains(day, guess + 1);
    }
  }

  lemma YearUnique(day: int, y: int)
    ensures YearOfDay(day) == y <==> ContainsDay(y, day)
  {
    var z := YearOfDay(day);
    YearFromContains(day, 1);
    if z < y { YearsAscend(z + 1, y); }
    if y < z { YearsAscend(y + 1, z); }
  }

  // ---- Months and dates ----

  type Month = m: nat | 1 <= m <= 12 witness 1

  datatype Date = Date(year: int, month: Month, day: nat)

  function DaysInMonth(y: int, m: Month): nat {
    if m == 2 then (if IsLeap(y) then 29 else 28)
    else if m == 4 || m == 6 || m == 9 || m == 11 then 30
    else 31
  }

  predicate ValidDate(d: Date) {
    1 <= d.day <= DaysInMonth(d.year, d.month)
  }

  /** Days of year `y` that come before month `m`. */
  function DaysBeforeMonth(y: int, m: Month): nat {
    if m == 1 then 0 else DaysBeforeMonth(y, m - 1) + DaysInMonth(y, m - 1)
  }

  lemma DaysInYear(y: int)
    ensures DaysBeforeMonth(y, 12) + 31 == if IsLeap(y) then 366 else 365
  {
    var leap := if IsLeap(y) then 1 else 0;
    assert DaysBeforeMonth(y, 2) == 31;
    assert DaysBeforeMonth(y, 3) == 59 + leap;
    assert DaysBeforeMonth(y, 5) == 120 + leap;
    assert DaysBeforeMonth(y, 7) == 181 + leap;
    assert DaysBeforeMonth(y, 9) == 243 + leap;
    assert DaysBeforeMonth(y, 11) == 304 + leap;
  }

  /** From March on, months follow the pattern 31, 30, 31, 30, 31, which a division by five reproduces. */
  lemma {:induction false} MonthStarts(y: int, m: Month)
    ensures DaysBeforeMonth(y, m) ==
            if m == 1 then 0 else if m == 2 then 31
            else (if IsLeap(y) then 60 else 59) + (153 * (m - 3) + 2) / 5
  {
    if m > 1 { MonthStarts(y, m - 1); }
  }

  /** The calendar repeats after four centuries. */
  lemma FourCenturies(y: int)
    ensures DaysBeforeYear(y + 400) == DaysBeforeYear(y) + 146_097
    ensures IsLeap(y + 400) == IsLeap(y)
  {
    assert (y + 399) / 4 == (y - 1) / 4 + 100 && (y + 399) / 100 == (y - 1) / 100 + 4;
  }

  lemma {:induction false} MonthsAscend(y: int, m: Month, n: Month)
    requires m < n
    ensures DaysBeforeMonth(y, m) + DaysInMonth(y, m) <= DaysBeforeMonth(y, n)
  {
    if m < n - 1 {
      MonthsAscend(y, m, n - 1);
    }
  }

  function DaysOf(d: Date): int {
    DaysBeforeYear(d.year) + DaysBeforeMonth(d.year, d.month) + d.day - 1
  }

  /** Walks from month `m` to the month that contains the zero-based `ordinal` day of year `y`. */
  function MonthFrom(y: int, ordinal: nat, m: Month): (r: Month)
    requires DaysBeforeMonth(y, m) <= ordinal < DaysBeforeMonth(y, 12) + 31
    ensures DaysBeforeMonth(y, r) <= ordinal < DaysBeforeMonth(y, r) + DaysInMonth(y, r)
    decreases 12 - m
  {
    if ordinal < DaysBeforeMonth(y, m) + DaysInMonth(y, m) then m
    else
      assert m < 12;
      MonthFrom(y, ordinal, m + 1)
  }

  function DateOfDay(day: int): Date {
    var y := YearOfDay(day);
    YearUnique(day, y); YearLength(y); DaysInYear(y);
    var ordinal := day - DaysBeforeYear(y);
    var m := MonthFrom(y, ordinal, 1);
    Date(y, m, ordinal - DaysBeforeMonth(y, m) + 1)
  }

  lemma DayRoundTrip(day: int)
    ensures ValidDate(DateOfDay(day)) && DaysOf(DateOfDay(day)) == day
  {
    var y := YearOfDay(day);
    YearUnique(day, y); YearLength(y); DaysInYear(y);
  }

  lemma DateWithinYear(d: Date)
    requires ValidDate(d)
    ensures ContainsDay(d.year, DaysOf(d))
  {
    YearLength(d.year); DaysInYear(d.year);
    if d.month < 12 { MonthsAscend(d.year, d.month, 12); }
  }

  /** A valid date is the only one with its day number. */
  lemma DateRoundTrip(d: Date)
    requires ValidDate(d)
    ensures DateOfDay(DaysOf(d)) == d
  {
    var e := DateOfDay(DaysOf(d));
    DateWithinYear(d);
    YearUnique(DaysOf(d), d.year);
    DayRoundTrip(DaysOf(d));
    SameDaySameDate(d, e);
  }

  lemma SameDaySameDate(d: Date, e: Date)
    requires ValidDate(d) && ValidDate(e) && d.year == e.year && DaysOf(d) == DaysOf(e)
    ensures d == e
  {
    if e.month < d.month { MonthsAscend(d.year, e.month, d.month); }
    if d.month < e.month { MonthsAscend(d.year, d.month, e.month); }
  }

  function YearOf(t: Instant): int {
    YearOfDay(DayOf(t))
  }

  /** The same month, day and time in year `y`, unless that date does not exist. */
  function WithYear(t: Instant, y: int): (r: Option<Instant>) {
    var d := DateOfDay(DayOf(t)).(year := y);
    if ValidDate(d) then Some(At(DaysOf(d), TimeOf(t))) else None
  }

  /** Only 29 February can be missing, and only from a common year. */
  lemma WithYearExists(t: Instant, y: int)
    ensures WithYear(t, y).None? <==>
              DateOfDay(DayOf(t)).month == 2 && DateOfDay(DayOf(t)).day == 29 && !IsLeap(y)
    ensures WithYear(t, y).Some? ==>
              && DateOfDay(DayOf(WithYear(t, y).value)) == DateOfDay(DayOf(t)).(year := y)
              && TimeOf(WithYear(t, y).value) == TimeOf(t)
  {
    var d := DateOfDay(DayOf(t)).(year := y);
    if ValidDate(d) { DateRoundTrip(d); }
  }

  /** The instant at which a date begins. */
  function Midnight(d: Date): Instant {
    At(DaysOf(d), 0)
  }

  lemma YearOfDate(d: Date, time: TimeOfDay)
    requires ValidDate(d)
    ensures YearOf(At(DaysOf(d), time)) == d.year
  {
    DateWithinYear(d);
    YearUnique(DaysOf(d), d.year);
  }

  /** Moving a date and time to another year moves the date, if it exists there, and keeps the time. */
  lemma WithYearOfDate(d: Date, time: TimeOfDay, y: int)
    requires ValidDate(d)
    ensures WithYear(At(DaysOf(d), time), y) ==
            if ValidDate(d.(year := y)) then Some(At(DaysOf(d.(year := y)), time)) else None
  {
    DateRoundTrip(d);
  }

  /** Whatever lies in a later year is later. */
  lemma LaterYearIsLater(s: Instant, t: Instant)
    requires YearOf(s) < YearOf(t)
    ensures s < t
  {
    YearsAscend(YearOf(s) + 1, YearOf(t));
    YearUnique(DayOf(s), YearOf(s)); YearUnique(DayOf(t), YearOf(t));
  }

  /** The dates that the program's tests name fall on the weekdays they name. */
  lemma KnownWeekdays()
    ensures WeekdayOfDay(DaysOf(Date(2016, 11, 16))) == 2    // a Wednesday
    ensures WeekdayOfDay(DaysOf(Date(2017, 1, 3))) == 1      // a Tuesday
    ensures DaysOf(Date(2017, 1, 3)) == DaysOf(Date(2016, 12, 30)) + 4
  {
    DaysInYear(2016);
    assert DaysBeforeMonth(2016, 11) == 305 && DaysBeforeMonth(2016, 12) == 335;
  }
}
