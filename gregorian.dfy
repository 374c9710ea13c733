/** Proleptic Gregorian dates as Python's `datetime` module represents them:
    years 1 through 9999, a day number ("ordinal") counted from 0001-01-01,
    and the one-day steps that `+ timedelta(days=1)` and `- timedelta(days=1)`
    perform, including the `OverflowError` at either end of the range. */
module Gregorian {
  import opened Wrappers

  /** `datetime.MINYEAR` and `datetime.MAXYEAR`. */
  const MinYear := 1
  const MaxYear := 9999

  datatype Date = Date(year: int, month: int, day: int)

  /** The first and last dates `datetime` can represent. */
  const FirstDate := Date(MinYear, 1, 1)
  const LastDate := Date(MaxYear, 12, 31)

  predicate IsLeapYear(y: int) {
    y % 4 == 0 && (y % 100 != 0 || y % 400 == 0)
  }

  function DaysInYear(y: int): int {
    if IsLeapYear(y) then 366 else 365
  }

  function DaysInMonth(y: int, m: int): int
    requires 1 <= m <= 12
  {
    if m == 2 then (if IsLeapYear(y) then 29 else 28)
    else if m == 4 || m == 6 || m == 9 || m == 11 then 30
    else 31
  }

  /** The dates `datetime(year, month, day)` accepts without a `ValueError`. */
  predicate ValidDate(d: Date) {
    MinYear <= d.year <= MaxYear && 1 <= d.month <= 12 && 1 <= d.day <= DaysInMonth(d.year, d.month)
  }

  /** Days in the years before `y`, in the closed form Python uses. */
  function DaysBeforeYear(y: int): int
    requires y >= 1
  {
    var p := y - 1;
    p * 365 + p / 4 - p / 100 + p / 400
  }

  /** Days in the months of year `y` before month `m`: a cumulative table
      plus the leap day once February is past. */
  function DaysBeforeMonth(y: int, m: int): int
    requires 1 <= m <= 12
  {
    [0, 31, 59, 90, 120, 151, 181, 212, 243, 273, 304, 334][m - 1]
      + (if m > 2 && IsLeapYear(y) then 1 else 0)
  }

  /** `date.toordinal()`: 0001-01-01 is day 1. */
  function Ordinal(d: Date): int
    requires ValidDate(d)
  {
    DaysBeforeYear(d.year) + DaysBeforeMonth(d.year, d.month) + d.day
  }

  /** Calendar order of dates: by year, then month, then day. */
  predicate Before(a: Date, b: Date) {
    a.year < b.year
    || (a.year == b.year && a.month < b.month)
    || (a.year == b.year && a.month == b.month && a.day < b.day)
  }

  /** `d + timedelta(days=1)`; `None` where Python raises `OverflowError`. */
  function NextDay(d: Date): (r: Option<Date>)
    requires ValidDate(d)
    ensures r.None? <==> d == LastDate
    ensures r.Some? ==> ValidDate(r.value)
  {
    if d.day < DaysInMonth(d.year, d.month) then Some(Date(d.year, d.month, d.day + 1))
    else if d.month < 12 then Some(Date(d.year, d.month + 1, 1))
    else if d.year < MaxYear then Some(Date(d.year + 1, 1, 1))
    else None
  }

  /** `d - timedelta(days=1)`; `None` where Python raises `OverflowError`. */
  function PrevDay(d: Date): (r: Option<Date>)
    requires ValidDate(d)
    ensures r.None? <==> d == FirstDate
    ensures r.Some? ==> ValidDate(r.value)
  {
    if d.day > 1 then Some(Date(d.year, d.month, d.day - 1))
    else if d.month > 1 then Some(Date(d.year, d.month - 1, DaysInMonth(d.year, d.month - 1)))
    else if d.year > MinYear then Some(Date(d.year - 1, 12, 31))
    else None
  }

  /** A year contributes exactly its length to the day count. */
  lemma YearStep(y: int)
    requires y >= 1
    ensures DaysBeforeYear(y + 1) == DaysBeforeYear(y) + DaysInYear(y)
  {
    var p := y - 1;
    assert y / 4 - p / 4 == (if y % 4 == 0 then 1 else 0);
    assert y / 100 - p / 100 == (if y % 100 == 0 then 1 else 0);
    assert y / 400 - p / 400 == (if y % 400 == 0 then 1 else 0);
  }

  /** A month contributes exactly its length to the day count of its year. */
  lemma MonthStep(y: int, m: int)
    requires 1 <= m <= 12
    ensures m < 12 ==> DaysBeforeMonth(y, m + 1) == DaysBeforeMonth(y, m) + DaysInMonth(y, m)
    ensures m == 12 ==> DaysBeforeMonth(y, m) + DaysInMonth(y, m) == DaysInYear(y)
  {
  }

  /** Every valid date lies inside the block of day numbers of its year. */
  lemma OrdinalWithinYear(d: Date)
    requires ValidDate(d)
    ensures DaysBeforeYear(d.year) < Ordinal(d) <= DaysBeforeYear(d.year) + DaysInYear(d.year)
  {
  }

  /** Later years start after earlier years end. */
  lemma {:induction false} YearsAscend(a: int, b: int)
    requires 1 <= a < b
    ensures DaysBeforeYear(a) + DaysInYear(a) <= DaysBeforeYear(b)
    decreases b - a
  {
    YearStep(a);
    if a + 1 < b {
      YearsAscend(a + 1, b);
      YearStep(a + 1);
    }
  }

  /** Later months of a year start after earlier months end. */
  lemma MonthsAscend(y: int, m1: int, m2: int)
    requires 1 <= m1 < m2 <= 12
    ensures DaysBeforeMonth(y, m1) + DaysInMonth(y, m1) <= DaysBeforeMonth(y, m2)
  {
  }

  /** The day number agrees with calendar order, so it is also one-to-one:
      two valid dates are equal exactly when their day numbers are. */
  lemma OrdinalOrder(a: Date, b: Date)
    requires ValidDate(a) && ValidDate(b)
    ensures Before(a, b) <==> Ordinal(a) < Ordinal(b)
    ensures a == b <==> Ordinal(a) == Ordinal(b)
  {
    OrdinalBefore(a, b);
    OrdinalBefore(b, a);
  }

  lemma OrdinalBefore(a: Date, b: Date)
    requires ValidDate(a) && ValidDate(b)
    ensures Before(a, b) ==> Ordinal(a) < Ordinal(b)
  {
    if a.year < b.year {
      OrdinalWithinYear(a);
      OrdinalWithinYear(b);
      YearsAscend(a.year, b.year);
    } else if a.year == b.year && a.month < b.month {
      MonthsAscend(a.year, a.month, b.month);
    }
  }

  /** `+ timedelta(days=1)` moves exactly one day forward. */
  lemma NextDayOrdinal(d: Date)
    requires ValidDate(d) && d != LastDate
    ensures Ordinal(NextDay(d).value) == Ordinal(d) + 1
    ensures Before(d, NextDay(d).value)
  {
    if d.day == DaysInMonth(d.year, d.month) {
      MonthStep(d.year, d.month);
      if d.month == 12 {
        YearStep(d.year);
      }
    }
  }

  /** `- timedelta(days=1)` moves exactly one day back. */
  lemma PrevDayOrdinal(d: Date)
    requires ValidDate(d) && d != FirstDate
    ensures Ordinal(PrevDay(d).value) + 1 == Ordinal(d)
    ensures Before(PrevDay(d).value, d)
  {
    if d.day == 1 {
      if d.month > 1 {
        MonthStep(d.year, d.month - 1);
      } else {
        MonthStep(d.year - 1, 12);
        YearStep(d.year - 1);
      }
    }
  }

  /** Stepping forward then back, or back then forward, returns the same date. */
  lemma NextPrevInverse(d: Date)
    requires ValidDate(d)
    ensures d != LastDate ==> PrevDay(NextDay(d).value) == Some(d)
    ensures d != FirstDate ==> NextDay(PrevDay(d).value) == Some(d)
  {
    if d != LastDate {
      var n := NextDay(d).value;
      NextDayOrdinal(d);
      PrevDayOrdinal(n);
      OrdinalOrder(PrevDay(n).value, d);
    }
    if d != FirstDate {
      var p := PrevDay(d).value;
      PrevDayOrdinal(d);
      NextDayOrdinal(p);
      OrdinalOrder(NextDay(p).value, d);
    }
  }
}
