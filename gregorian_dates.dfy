/**
  Integer Gregorian calendar standing in for the JavaScript `Date` operations the
  calendar view relies on: month lengths, the day after a date, adding days with
  carry into the next month and year, `setMonth` normalisation and `getDay`.

  Months are numbered from 0 (January) to 11 (December), as `Date.getMonth()`
  numbers them. The calendar is proleptic: the leap-year rule applies to every
  year, including negative ones.
 */
module GregorianDates {

  datatype Date = Date(year: int, month: int, day: int)

  predicate IsLeapYear(year: int) {
    year % 4 == 0 && (year % 100 != 0 || year % 400 == 0)
  }

  /** Number of days of a month (`new Date(year, month + 1, 0).getDate()`). */
  function DaysInMonth(year: int, month: int): (n: int)
    requires 0 <= month < 12
    ensures 28 <= n <= 31
    ensures month == 1 ==> (n == 29 <==> IsLeapYear(year))
    ensures month != 1 ==> n >= 30
  {
    if month == 1 then (if IsLeapYear(year) then 29 else 28)
    else if month == 3 || month == 5 || month == 8 || month == 10 then 30
    else 31
  }

  predicate ValidDate(d: Date) {
    0 <= d.month < 12 && 1 <= d.day <= DaysInMonth(d.year, d.month)
  }

  /** Lexicographic order on (year, month, day): the order of full calendar dates. */
  predicate Before(a: Date, b: Date) {
    a.year < b.year ||
    (a.year == b.year && (a.month < b.month || (a.month == b.month && a.day < b.day)))
  }

  /** The date that follows `d`, carrying into the next month and the next year. */
  function NextDay(d: Date): (r: Date)
    requires ValidDate(d)
    ensures ValidDate(r) && Before(d, r)
  {
    if d.day < DaysInMonth(d.year, d.month) then Date(d.year, d.month, d.day + 1)
    else if d.month < 11 then Date(d.year, d.month + 1, 1)
    else Date(d.year + 1, 0, 1)
  }

  /** `d` moved `n` days forward (`date.setDate(date.getDate() + n)`). */
  function AddDays(d: Date, n: nat): (r: Date)
    requires ValidDate(d)
    ensures ValidDate(r)
    ensures n > 0 ==> Before(d, r)
  {
    if n == 0 then d
    else
      var prev := AddDays(d, n - 1);
      BeforeTransitive(d, prev, NextDay(prev));
      NextDay(prev)
  }

  lemma BeforeTransitive(a: Date, b: Date, c: Date)
    requires (a == b || Before(a, b)) && Before(b, c)
    ensures Before(a, c)
  {
  }

  /** Days from 1 January of year 0 to 1 January of `year`. */
  function DaysBeforeYear(year: int): int {
    365 * year + (year + 3) / 4 - (year + 99) / 100 + (year + 399) / 400
  }

  function YearLength(year: int): int {
    if IsLeapYear(year) then 366 else 365
  }

  /** Days from 1 January to the first day of `month` (12 gives the whole year). */
  function DaysBeforeMonth(year: int, month: int): int
    requires 0 <= month <= 12
  {
    var common :=
      if month < 6 then
        (if month == 0 then 0 else if month == 1 then 31 else if month == 2 then 59
         else if month == 3 then 90 else if month == 4 then 120 else 151)
      else
        (if month == 6 then 181 else if month == 7 then 212 else if month == 8 then 243
         else if month == 9 then 273 else if month == 10 then 304 else if month == 11 then 334 else 365);
    common + (if month >= 2 && IsLeapYear(year) then 1 else 0)
  }

  /**
    Days from 1 January of year 0 to `d`: a linear count of days that plays the
    part of a JavaScript time value, so that comparing two dates is comparing
    their indices.
   */
  function DayIndex(d: Date): int
    requires 0 <= d.month < 12
  {
    DaysBeforeYear(d.year) + DaysBeforeMonth(d.year, d.month) + d.day - 1
  }

  lemma DaysBeforeMonthStep(year: int, month: int)
    requires 0 <= month < 12
    ensures DaysBeforeMonth(year, month + 1) == DaysBeforeMonth(year, month) + DaysInMonth(year, month)
  {
  }

  lemma DaysBeforeYearStep(year: int)
    ensures DaysBeforeYear(year + 1) == DaysBeforeYear(year) + YearLength(year)
    ensures DaysBeforeMonth(year, 12) == YearLength(year)
  {
    FloorStep4(year + 3);
    FloorStep100(year + 99);
    FloorStep400(year + 399);
    ModShift(year);
    var leaps := (if year % 4 == 0 then 1 else 0) - (if year % 100 == 0 then 1 else 0)
      + (if year % 400 == 0 then 1 else 0);
    assert DaysBeforeYear(year + 1) == DaysBeforeYear(year) + 365 + leaps;
    assert leaps == (if IsLeapYear(year) then 1 else 0);
  }

  lemma ModShift(x: int)
    ensures (x + 4) % 4 == x % 4 && (x + 100) % 100 == x % 100 && (x + 400) % 400 == x % 400
    ensures x % 100 == 0 ==> x % 4 == 0
    ensures x % 400 == 0 ==> x % 100 == 0
  {
    if x % 100 == 0 {
      CenturyDivisibleByFour(x);
    }
    if x % 400 == 0 {
      QuadricentennialDivisibleByHundred(x);
    }
  }

  lemma CenturyDivisibleByFour(x: int)
    requires x % 100 == 0
    ensures x % 4 == 0
  {
    var q := x / 100;
    assert x == 4 * (25 * q);
  }

  lemma QuadricentennialDivisibleByHundred(x: int)
    requires x % 400 == 0
    ensures x % 100 == 0
  {
    var q := x / 400;
    assert x == 100 * (4 * q);
  }

  lemma FloorStep4(x: int)
    ensures (x + 1) / 4 == x / 4 + (if (x + 1) % 4 == 0 then 1 else 0)
  {
  }

  lemma FloorStep100(x: int)
    ensures (x + 1) / 100 == x / 100 + (if (x + 1) % 100 == 0 then 1 else 0)
  {
  }

  lemma FloorStep400(x: int)
    ensures (x + 1) / 400 == x / 400 + (if (x + 1) % 400 == 0 then 1 else 0)
  {
  }

  lemma {:induction false} DaysBeforeMonthMonotone(year: int, a: int, b: int)
    requires 0 <= a <= b <= 12
    ensures DaysBeforeMonth(year, a) <= DaysBeforeMonth(year, b)
    decreases b - a
  {
    if a < b {
      DaysBeforeMonthStep(year, a);
      DaysBeforeMonthMonotone(year, a + 1, b);
    }
  }

  lemma {:induction false} DaysBeforeYearMonotone(a: int, b: int)
    requires a <= b
    ensures DaysBeforeYear(a) <= DaysBeforeYear(b)
    decreases b - a
  {
    if a < b {
      DaysBeforeYearStep(a);
      DaysBeforeYearMonotone(a + 1, b);
    }
  }

  /** A valid date's index lies inside its month and therefore inside its year. */
  lemma DayIndexBounds(d: Date)
    requires ValidDate(d)
    ensures DaysBeforeYear(d.year) + DaysBeforeMonth(d.year, d.month) <= DayIndex(d)
    ensures DayIndex(d) < DaysBeforeYear(d.year) + DaysBeforeMonth(d.year, d.month + 1)
    ensures DayIndex(d) < DaysBeforeYear(d.year + 1)
  {
    DaysBeforeMonthStep(d.year, d.month);
    DaysBeforeMonthMonotone(d.year, d.month + 1, 12);
    DaysBeforeYearStep(d.year);
  }

  lemma BeforeHasSmallerIndex(a: Date, b: Date)
    requires ValidDate(a) && ValidDate(b) && Before(a, b)
    ensures DayIndex(a) < DayIndex(b)
  {
    DayIndexBounds(a);
    DayIndexBounds(b);
    if a.year < b.year {
      DaysBeforeYearMonotone(a.year + 1, b.year);
    } else if a.month < b.month {
      DaysBeforeMonthMonotone(a.year, a.month + 1, b.month);
    }
  }

  /**
    Comparing day indices is comparing full dates: year first, then month, then
    day. This is what makes a time-value comparison respect month and year carry.
   */
  lemma DateOrder(a: Date, b: Date)
    requires ValidDate(a) && ValidDate(b)
    ensures DayIndex(a) <= DayIndex(b) <==> (a == b || Before(a, b))
    ensures DayIndex(a) == DayIndex(b) <==> a == b
  {
    if a != b {
      if Before(a, b) {
        BeforeHasSmallerIndex(a, b);
      } else {
        assert Before(b, a);
        BeforeHasSmallerIndex(b, a);
      }
    }
  }

  /** `NextDay` moves exactly one day forward on the linear day count. */
  lemma DayIndexNext(d: Date)
    requires ValidDate(d)
    ensures DayIndex(NextDay(d)) == DayIndex(d) + 1
  {
    DaysBeforeMonthStep(d.year, d.month);
    if d.day == DaysInMonth(d.year, d.month) && d.month == 11 {
      DaysBeforeYearStep(d.year);
    }
  }

  lemma {:induction false} AddDaysIndex(d: Date, n: nat)
    requires ValidDate(d)
    ensures DayIndex(AddDays(d, n)) == DayIndex(d) + n
  {
    if n > 0 {
      AddDaysIndex(d, n - 1);
      DayIndexNext(AddDays(d, n - 1));
    }
  }

  /**
    The last day of a month is the day before the first of the following month:
    the JavaScript idiom "day 0 of the next month" gives the month's length.
   */
  lemma LastDayPrecedesNextMonth(year: int, month: int)
    requires 0 <= month < 12
    ensures ValidDate(Date(year, month, DaysInMonth(year, month)))
    ensures NextDay(Date(year, month, DaysInMonth(year, month))) == FirstOfNextMonth(year, month)
    ensures DaysInMonth(year, month) == DayIndex(FirstOfNextMonth(year, month)) - DayIndex(Date(year, month, 1))
  {
    DayIndexNext(Date(year, month, DaysInMonth(year, month)));
  }

  /**
    Day 0 of a month counts as the last day of the month before, and day 0 of
    January as 31 December of the year before, as JavaScript normalises them.
   */
  lemma DayZeroIsPreviousMonthEnd(year: int, month: int)
    requires 0 < month < 12
    ensures DayIndex(Date(year, month, 0)) == DayIndex(Date(year, month - 1, DaysInMonth(year, month - 1)))
    ensures DayIndex(Date(year, 0, 0)) == DayIndex(Date(year - 1, 11, 31))
  {
    DaysBeforeMonthStep(year, month - 1);
    DaysBeforeYearStep(year - 1);
  }

  function FirstOfNextMonth(year: int, month: int): Date {
    if month < 11 then Date(year, month + 1, 1) else Date(year + 1, 0, 1)
  }

  /**
    `Date.prototype.setMonth`: a month outside 0..11 is carried into the year,
    with floor division, so that -1 is December of the year before and 12 is
    January of the year after. The day of month is kept.
   */
  function SetMonth(d: Date, month: int): (r: Date)
    ensures 0 <= r.month < 12 && r.day == d.day
    ensures 12 * r.year + r.month == 12 * d.year + month
  {
    Date(d.year + month / 12, month % 12, d.day)
  }

  /** `Date.prototype.getDay`: 0 for Sunday, 1 for Monday, ..., 6 for Saturday. */
  function WeekDay(d: Date): (w: int)
    requires 0 <= d.month < 12
    ensures 0 <= w < 7
  {
    // 1 January of year 0 (proleptic Gregorian) was a Saturday.
    (DayIndex(d) + 6) % 7
  }

  lemma WeekDayNext(d: Date)
    requires ValidDate(d)
    ensures WeekDay(NextDay(d)) == (WeekDay(d) + 1) % 7
  {
    DayIndexNext(d);
    ModSevenStep(DayIndex(d) + 6);
  }

  lemma ModSevenStep(x: int)
    ensures (x + 1) % 7 == (x % 7 + 1) % 7
  {
  }

  /** Two fixed points of the Gregorian calendar pin the weekday count. */
  lemma WeekDayAnchors()
    ensures WeekDay(Date(2000, 0, 1)) == 6  // 1 January 2000 was a Saturday
    ensures WeekDay(Date(2024, 7, 1)) == 4  // 1 August 2024 was a Thursday
  {
  }
}
