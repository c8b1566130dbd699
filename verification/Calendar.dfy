/** The proleptic Gregorian calendar as Python's `datetime.date` and `calendar.Calendar`
    present it to the cron engine: dates, ordinals, weekdays and the padded month grid. */
module Calendar {

  const MIN_YEAR := 1
  const MAX_YEAR := 9999

  datatype Date = Date(year: int, month: int, day: int)

  predicate IsLeap(year: int) {
    year % 4 == 0 && (year % 100 != 0 || year % 400 == 0)
  }

  function DaysInMonth(year: int, month: int): (n: int)
    requires 1 <= month <= 12
    ensures 28 <= n <= 31
    ensures n == 28 <==> month == 2 && !IsLeap(year)
    ensures n == 29 <==> month == 2 && IsLeap(year)
  {
    if month == 2 then (if IsLeap(year) then 29 else 28)
    else if month == 4 || month == 6 || month == 9 || month == 11 then 30
    else 31
  }

  predicate ValidDate(d: Date) {
    && MIN_YEAR <= d.year <= MAX_YEAR
    && 1 <= d.month <= 12
    && 1 <= d.day <= DaysInMonth(d.year, d.month)
  }

  /** Calendar order, component by component. */
  predicate DateBefore(a: Date, b: Date) {
    || a.year < b.year
    || (a.year == b.year && (a.month < b.month || (a.month == b.month && a.day < b.day)))
  }

  // ---------------------------------------------------------------------------------
  // Ordinals (`date.toordinal`): day 1 is January 1 of year 1
  // ---------------------------------------------------------------------------------

  function DaysBeforeYear(year: int): int {
    var y := year - 1;
    y * 365 + y / 4 - y / 100 + y / 400
  }

  function DaysBeforeMonth(year: int, month: int): int
    requires 1 <= month <= 12
  {
    if month == 1 then 0 else DaysBeforeMonth(year, month - 1) + DaysInMonth(year, month - 1)
  }

  function Ordinal(d: Date): int
    requires 1 <= d.month <= 12
  {
    DaysBeforeYear(d.year) + DaysBeforeMonth(d.year, d.month) + d.day
  }

  /** `date.weekday()`: Monday is 0. */
  function Weekday(d: Date): (w: int)
    requires 1 <= d.month <= 12
    ensures 0 <= w < 7
  {
    (Ordinal(d) + 6) % 7
  }

  lemma YearLength(year: int)
    ensures DaysBeforeYear(year + 1) == DaysBeforeYear(year) + (if IsLeap(year) then 366 else 365)
  {
    var y := year - 1;
    QuotientStep(y, 4);
    QuotientStep(y, 100);
    QuotientStep(y, 400);
    CenturiesDivide(year);
  }

  lemma CenturiesDivide(year: int)
    ensures year % 400 == 0 ==> year % 100 == 0
    ensures year % 100 == 0 ==> year % 4 == 0
  {
    FourHundreds(year);
    Hundreds(year);
  }

  lemma FourHundreds(year: int)
    ensures year % 400 == 0 ==> year % 100 == 0
  {
    var q := year / 400;
    assert (100 * (4 * q)) % 100 == 0;
  }

  lemma Hundreds(year: int)
    ensures year % 100 == 0 ==> year % 4 == 0
  {
    var q := year / 100;
    assert (4 * (25 * q)) % 4 == 0;
  }

  lemma QuotientStep(y: int, k: int)
    requires k == 4 || k == 100 || k == 400
    ensures (y + 1) / k == y / k + (if (y + 1) % k == 0 then 1 else 0)
  {
    var q, m := y / k, y % k;
    assert y + 1 == k * q + (m + 1);
    if m + 1 == k {
      assert y + 1 == k * (q + 1);
    }
  }

  lemma {:induction false} DaysBeforeYearMonotone(a: int, b: int)
    requires a < b
    ensures DaysBeforeYear(a) + (if IsLeap(a) then 366 else 365) <= DaysBeforeYear(b)
    decreases b - a
  {
    if a + 1 == b {
      YearLength(a);
    } else {
      DaysBeforeYearMonotone(a, b - 1);
      YearLength(b - 1);
    }
  }

  lemma {:induction false} DaysBeforeMonthMonotone(year: int, a: int, b: int)
    requires 1 <= a < b <= 12
    ensures DaysBeforeMonth(year, a) + DaysInMonth(year, a) <= DaysBeforeMonth(year, b)
    decreases b
  {
    if a + 1 < b {
      DaysBeforeMonthMonotone(year, a, b - 1);
    }
  }

  lemma MonthsFillYear(year: int)
    ensures DaysBeforeMonth(year, 12) + 31 == if IsLeap(year) then 366 else 365
  {
    assert DaysBeforeMonth(year, 2) == 31;
    assert DaysBeforeMonth(year, 3) == 31 + DaysInMonth(year, 2);
    assert DaysBeforeMonth(year, 5) == DaysBeforeMonth(year, 3) + 61;
    assert DaysBeforeMonth(year, 7) == DaysBeforeMonth(year, 5) + 61;
    assert DaysBeforeMonth(year, 9) == DaysBeforeMonth(year, 7) + 62;
    assert DaysBeforeMonth(year, 11) == DaysBeforeMonth(year, 9) + 61;
  }

  lemma OrdinalIncreases(a: Date, b: Date)
    requires ValidDate(a) && ValidDate(b) && DateBefore(a, b)
    ensures Ordinal(a) < Ordinal(b)
  {
    if a.year < b.year {
      DaysBeforeYearMonotone(a.year, b.year);
      MonthsFillYear(a.year);
      if a.month < 12 {
        DaysBeforeMonthMonotone(a.year, a.month, 12);
      }
      if 1 < b.month {
        DaysBeforeMonthMonotone(b.year, 1, b.month);
      }
    } else if a.month < b.month {
      DaysBeforeMonthMonotone(a.year, a.month, b.month);
    }
  }

  /** The component order and the day count agree, so "least" means the same in both. */
  lemma OrdinalOrder(a: Date, b: Date)
    requires ValidDate(a) && ValidDate(b)
    ensures DateBefore(a, b) <==> Ordinal(a) < Ordinal(b)
    ensures a == b <==> Ordinal(a) == Ordinal(b)
  {
    if DateBefore(a, b) {
      OrdinalIncreases(a, b);
    } else if DateBefore(b, a) {
      OrdinalIncreases(b, a);
    } else {
      assert a == b;
    }
  }

  // ---------------------------------------------------------------------------------
  // The following day
  // ---------------------------------------------------------------------------------

  predicate IsLastDate(d: Date) {
    d == Date(MAX_YEAR, 12, 31)
  }

  function NextDate(d: Date): (r: Date)
    requires ValidDate(d) && !IsLastDate(d)
    ensures ValidDate(r) && DateBefore(d, r)
  {
    if d.day < DaysInMonth(d.year, d.month) then Date(d.year, d.month, d.day + 1)
    else if d.month < 12 then Date(d.year, d.month + 1, 1)
    else Date(d.year + 1, 1, 1)
  }

  lemma NextDateIsNextOrdinal(d: Date)
    requires ValidDate(d) && !IsLastDate(d)
    ensures Ordinal(NextDate(d)) == Ordinal(d) + 1
  {
    if d.day == DaysInMonth(d.year, d.month) && d.month == 12 {
      YearLength(d.year);
      MonthsFillYear(d.year);
    }
  }

  // ---------------------------------------------------------------------------------
  // `Calendar().itermonthdays2`: whole weeks, days outside the month reported as 0
  // ---------------------------------------------------------------------------------

  datatype GridDay = GridDay(day: int, weekday: int)

  function MonthGrid(year: int, month: int): (grid: seq<GridDay>)
    requires 1 <= month <= 12
  {
    var before := Weekday(Date(year, month, 1));
    var n := DaysInMonth(year, month);
    var after := (0 - before - n) % 7;
    seq(before + n + after, i requires 0 <= i < before + n + after =>
      GridDay(if before <= i < before + n then i - before + 1 else 0, i % 7))
  }

  /** Position of a day of the month in the grid. */
  function GridIndex(year: int, month: int, day: int): int
    requires 1 <= month <= 12
  {
    Weekday(Date(year, month, 1)) + day - 1
  }

  /** The grid lists exactly the days of the month, in order and with their true weekdays;
      every other cell is the 0 the caller skips. */
  lemma MonthGridLists(year: int, month: int, i: int)
    requires 1 <= month <= 12
    requires 0 <= i < |MonthGrid(year, month)|
    ensures var g := MonthGrid(year, month)[i];
            g.day != 0 ==>
              && 1 <= g.day <= DaysInMonth(year, month)
              && i == GridIndex(year, month, g.day)
              && g.weekday == Weekday(Date(year, month, g.day))
  {
    var first := Ordinal(Date(year, month, 1));
    var g := MonthGrid(year, month)[i];
    if g.day != 0 {
      assert i == (first + 6) % 7 + g.day - 1;
      ModShift(first + 6, g.day - 1);
    }
  }

  lemma MonthGridComplete(year: int, month: int, day: int)
    requires 1 <= month <= 12
    requires 1 <= day <= DaysInMonth(year, month)
    ensures var i := GridIndex(year, month, day);
            0 <= i < |MonthGrid(year, month)| && MonthGrid(year, month)[i].day == day
  {
  }

  lemma ModShift(a: int, k: int)
    ensures (a % 7 + k) % 7 == (a + k) % 7
  {
  }

  /** Every weekday falls in the first seven days of every month. */
  lemma WeekdayInFirstWeek(year: int, month: int, weekday: int) returns (day: int)
    requires 1 <= month <= 12
    requires 0 <= weekday < 7
    ensures 1 <= day <= 7
    ensures Weekday(Date(year, month, day)) == weekday
  {
    var first := Ordinal(Date(year, month, 1)) + 6;
    day := 1 + (weekday - first) % 7;
    ModShift(weekday - first, first);
    assert Ordinal(Date(year, month, day)) + 6 == first + (weekday - first) % 7;
  }

  /** Two leap years are never more than eight years apart. */
  lemma LeapWithinEight(year: int) returns (leap: int)
    ensures year < leap <= year + 8
    ensures IsLeap(leap)
  {
    leap := year + 4 - year % 4;
    if !IsLeap(leap) {
      leap := leap + 4;
    }
  }

  lemma DaysBefore1970(year: int)
    requires year == 1970
    ensures DaysBeforeYear(year) == 719162
  {
    var y := year - 1;
    assert y / 4 == 492 && y / 100 == 19 && y / 400 == 4;
  }

  /** Day numbers are anchored at known dates: January 1 of year 1 is day 1, and January 4, 1970, a Sunday, is
      day 719166. */
  lemma KnownDays(first: Date, sunday: Date)
    requires first.year == 1 && first.month == 1 && first.day == 1
    requires sunday.year == 1970 && sunday.month == 1 && sunday.day == 4
    ensures Ordinal(first) == 1 && Ordinal(sunday) == 719166 && Weekday(sunday) == 6
  {
    DaysBefore1970(sunday.year);
    var n := Ordinal(sunday);
    assert n == 719162 + DaysBeforeMonth(sunday.year, sunday.month) + 4;
    assert (n + 6) % 7 == 6 by { assert n + 6 == 7 * 102738 + 6; }
  }

  lemma KnownLength(year: int, month: int)
    requires 1 <= month <= 12
    ensures DaysInMonth(year, month) ==
            [31, if year % 4 == 0 && (year % 100 != 0 || year % 400 == 0) then 29 else 28, 31, 30, 31, 30, 31, 31, 30, 31, 30, 31][month - 1]
  {
  }

  /** The months follow each other at the lengths everybody knows, with the leap years of the Gregorian rule. */
  lemma KnownMonthLengths(year: int, month: int)
    requires 1 <= month <= 11
    ensures Ordinal(Date(year, month + 1, 1)) - Ordinal(Date(year, month, 1)) ==
            [31, if year % 4 == 0 && (year % 100 != 0 || year % 400 == 0) then 29 else 28, 31, 30, 31, 30, 31, 31, 30, 31, 30, 31][month - 1]
  {
    KnownLength(year, month);
    assert DaysBeforeMonth(year, month + 1) == DaysBeforeMonth(year, month) + DaysInMonth(year, month);
  }
}
