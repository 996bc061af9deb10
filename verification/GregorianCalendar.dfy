/** The calendar that periods are resolved in is the proleptic Gregorian one: the sum of its month
    lengths agrees with the closed form of the days before a year and the table of the days before a
    month. */
module GregorianCalendar {
  import opened Common
  import opened PeriodResolving

  /** Days from 0001-01-01 to the first of January of a year. */
  function DaysBeforeYear(year: int): int {
    365 * (year - 1) + (year - 1) / 4 - (year - 1) / 100 + (year - 1) / 400
  }

  /** Days from the first of January to the first of a month. */
  function DaysBeforeMonth(month: int, leap: bool): int {
    var extra := if leap then 1 else 0;
    if month == 1 then 0
    else if month == 2 then 31
    else if month == 3 then 59 + extra
    else if month == 4 then 90 + extra
    else if month == 5 then 120 + extra
    else if month == 6 then 151 + extra
    else if month == 7 then 181 + extra
    else if month == 8 then 212 + extra
    else if month == 9 then 243 + extra
    else if month == 10 then 273 + extra
    else if month == 11 then 304 + extra
    else 334 + extra
  }

  /** A year has a day more exactly when the closed form has. */
  lemma LeapYears(year: int)
    requires year >= 1
    ensures DaysBeforeYear(year + 1) == DaysBeforeYear(year) + if IsLeap(year) then 366 else 365
  {
    QuotientStep(year, 4);
    QuotientStep(year, 100);
    QuotientStep(year, 400);
    CenturiesDivide(year);
    LeapSum(year, year % 4 == 0, year % 100 == 0, year % 400 == 0,
            (year - 1) / 4, (year - 1) / 100, (year - 1) / 400);
    assert DaysBeforeYear(year + 1) == 365 * year + year / 4 - year / 100 + year / 400;
  }

  lemma CenturiesDivide(year: int)
    ensures year % 400 == 0 ==> year % 100 == 0
    ensures year % 100 == 0 ==> year % 4 == 0
  {
    if year % 400 == 0 {
      WholeCentury(year, year / 400);
    }
    if year % 100 == 0 {
      WholeFourth(year, year / 100);
    }
  }

  lemma WholeCentury(year: int, n: int)
    requires year == 400 * n
    ensures year % 100 == 0
  {
    assert year == 100 * (4 * n);
  }

  lemma WholeFourth(year: int, n: int)
    requires year == 100 * n
    ensures year % 4 == 0
  {
    assert year == 4 * (25 * n);
  }

  function One(b: bool): int {
    if b then 1 else 0
  }

  lemma LeapSum(year: int, fourth: bool, hundredth: bool, fourHundredth: bool, a: int, b: int, c: int)
    requires (fourHundredth ==> hundredth) && (hundredth ==> fourth)
    ensures 365 * year + (a + One(fourth)) - (b + One(hundredth)) + (c + One(fourHundredth))
         == 365 * (year - 1) + a - b + c + if fourth && (!hundredth || fourHundredth) then 366 else 365
  {
  }

  lemma QuotientStep(year: int, n: int)
    requires year >= 1 && (n == 4 || n == 100 || n == 400)
    ensures year / n == (year - 1) / n + One(year % n == 0)
  {
  }

  lemma {:induction false} MonthOffset(year: int, month: int)
    requires year >= 1 && 1 <= month <= 12
    ensures MonthStart(MonthIndex(year, month))
            == MonthStart(MonthIndex(year, 1)) + DaysBeforeMonth(month, IsLeap(year))
  {
    if month > 1 {
      MonthOffset(year, month - 1);
      NextMonthStart(year, month - 1);
    }
  }

  lemma {:induction false} YearLength(year: int)
    requires year >= 1
    ensures MonthStart(MonthIndex(year + 1, 1)) == MonthStart(MonthIndex(year, 1)) + if IsLeap(year) then 366 else 365
  {
    var leap := IsLeap(year);
    MonthOffset(year, 12);
    DecemberEnds(year);
    Lengths(leap);
  }

  lemma {:induction false} DecemberEnds(year: int)
    requires year >= 1
    ensures MonthStart(MonthIndex(year + 1, 1)) == MonthStart(MonthIndex(year, 12)) + 31
  {
    NextMonthStart(year, 12);
  }

  lemma Lengths(leap: bool)
    ensures DaysBeforeMonth(12, leap) + 31 == if leap then 366 else 365
  {
  }

  lemma {:induction false} YearStart(year: int)
    requires year >= 1
    ensures MonthStart(MonthIndex(year, 1)) == DaysBeforeYear(year)
  {
    if year == 1 {
      assert MonthIndex(1, 1) == 12;
    } else {
      YearStart(year - 1);
      NextYearStart(year - 1, year);
    }
  }

  lemma {:induction false} NextYearStart(year: int, next: int)
    requires year >= 1 && next == year + 1
    requires MonthStart(MonthIndex(year, 1)) == DaysBeforeYear(year)
    ensures MonthStart(MonthIndex(next, 1)) == DaysBeforeYear(next)
  {
    YearLength(year);
    StartOf(next, MonthStart(MonthIndex(next, 1)));
  }

  /** The start of a year from that of the year before. */
  lemma StartOf(year: int, start: int)
    requires year >= 2 && start == DaysBeforeYear(year - 1) + if IsLeap(year - 1) then 366 else 365
    ensures start == DaysBeforeYear(year)
  {
    LeapYears(year - 1);
  }

  /** The number of a day in closed form, and its weekday: day 0 is a Monday. */
  lemma {:induction false} DayNumberIsGregorian(date: DateTime)
    requires date.Valid()
    ensures date.DayNumber()
            == DaysBeforeYear(date.year) + DaysBeforeMonth(date.month, IsLeap(date.year)) + date.day - 1
    ensures IsLeap(date.year) <==> DaysBeforeYear(date.year + 1) - DaysBeforeYear(date.year) == 366
  {
    YearStart(date.year);
    MonthOffset(date.year, date.month);
    LeapYears(date.year);
  }

  /** The first of January 2024 was a Monday, and 2024 a leap year. */
  lemma AMonday()
    ensures DateTime(2024, 1, 1, 0).DayNumber() % 7 == 0 && IsLeap(2024) && !IsLeap(1900) && IsLeap(2000)
  {
    DayNumberIsGregorian(DateTime(2024, 1, 1, 0));
  }
}
