/** Proleptic Gregorian civil dates and the month arithmetic of
    `Date.prototype.setMonth(getMonth() + n)`: the MakeDay rule of section 21.4 of
    ECMA-262 keeps the day of the month and lets an overflowing day roll into the
    following month (2024-01-31 plus one month is 2024-03-02). */
module CivilDate {

  datatype Date = Date(year: int, month: int, day: int)

  predicate IsLeapYear(y: int) {
    y % 4 == 0 && (y % 100 != 0 || y % 400 == 0)
  }

  function DaysInYear(y: int): int {
    if IsLeapYear(y) then 366 else 365
  }

  function DaysInMonth(y: int, m: int): int
    requires 1 <= m <= 12
  {
    if m == 2 then (if IsLeapYear(y) then 29 else 28)
    else if m == 4 || m == 6 || m == 9 || m == 11 then 30
    else 31
  }

  predicate IsValid(d: Date) {
    1 <= d.month <= 12 && 1 <= d.day <= DaysInMonth(d.year, d.month)
  }

  /** Days from 0000-01-01 to the first of January of year `y` (`/` on a positive
      divisor rounds down, as the leap-year count needs). */
  function DaysBeforeYear(y: int): int {
    365 * y + (y + 3) / 4 - (y + 99) / 100 + (y + 399) / 400
  }

  /** Days from the first of January to the first of month `m` of year `y`. */
  function DaysBeforeMonth(y: int, m: int): int
    requires 1 <= m <= 12
  {
    var leap := if IsLeapYear(y) then 1 else 0;
    match m
    case 1 => 0
    case 2 => 31
    case 3 => 59 + leap
    case 4 => 90 + leap
    case 5 => 120 + leap
    case 6 => 151 + leap
    case 7 => 181 + leap
    case 8 => 212 + leap
    case 9 => 243 + leap
    case 10 => 273 + leap
    case 11 => 304 + leap
    case _ => 334 + leap
  }

  /** The day count of the date since 0000-01-01: the time-value day of ECMA-262 up to a constant. */
  function DayNumber(d: Date): int
    requires 1 <= d.month <= 12
  {
    DaysBeforeYear(d.year) + DaysBeforeMonth(d.year, d.month) + d.day - 1
  }

  const UnixEpoch := Date(1970, 1, 1)

  /** Days since 1970-01-01, the scale on which timestamps in seconds are compared. */
  function EpochDay(d: Date): int
    requires 1 <= d.month <= 12
  {
    DayNumber(d) - DayNumber(UnixEpoch)
  }

  /** A year has as many days as the leap-year rule says. */
  lemma YearLength(y: int)
    ensures DaysBeforeYear(y + 1) == DaysBeforeYear(y) + DaysInYear(y)
  {
    FourYearStep(y);
    CenturyStep(y);
    QuadricentennialStep(y);
  }

  lemma FourYearStep(y: int)
    ensures (y + 4) / 4 == (y + 3) / 4 + (if y % 4 == 0 then 1 else 0)
  {
  }

  lemma CenturyStep(y: int)
    ensures (y + 100) / 100 == (y + 99) / 100 + (if y % 100 == 0 then 1 else 0)
  {
  }

  lemma QuadricentennialStep(y: int)
    ensures (y + 400) / 400 == (y + 399) / 400 + (if y % 400 == 0 then 1 else 0)
  {
  }

  /** The first day of the month that follows month `m` of year `y`. */
  function NextMonthStart(y: int, m: int): Date
    requires 1 <= m <= 12
  {
    if m == 12 then Date(y + 1, 1, 1) else Date(y, m + 1, 1)
  }

  /** The month after `m` starts exactly `DaysInMonth(y, m)` days after the first of `m`. */
  lemma MonthLength(y: int, m: int)
    requires 1 <= m <= 12
    ensures DayNumber(NextMonthStart(y, m)) == DayNumber(Date(y, m, 1)) + DaysInMonth(y, m)
  {
    if m == 12 {
      YearLength(y);
    }
  }

  /** Year and month reached by adding `n` months to month `m` of year `y` (MakeDay's
      `ym = y + floor(mn / 12)`, `mn modulo 12`). */
  function TargetYear(y: int, m: int, n: int): int {
    y + (m - 1 + n) / 12
  }

  function TargetMonth(m: int, n: int): (r: int)
    ensures 1 <= r <= 12
  {
    (m - 1 + n) % 12 + 1
  }

  /** `end.setMonth(end.getMonth() + n)` on a valid date. The result is a valid date
      whose day number is the first of the target month plus `day - 1` days: the
      MakeDay rule, so an overflowing day spills into the following month. */
  function AddMonths(d: Date, n: int): (r: Date)
    requires IsValid(d)
    ensures IsValid(r)
    ensures DayNumber(r) == DayNumber(Date(TargetYear(d.year, d.month, n), TargetMonth(d.month, n), 1)) + d.day - 1
  {
    var y := TargetYear(d.year, d.month, n);
    var m := TargetMonth(d.month, n);
    var len := DaysInMonth(y, m);
    if d.day <= len then Date(y, m, d.day)
    else
      MonthLength(y, m);
      var next := NextMonthStart(y, m);
      Date(next.year, next.month, d.day - len)
  }

  /** A valid date lies inside its own year on the day-number scale. */
  lemma DayNumberInYear(d: Date)
    requires IsValid(d)
    ensures DaysBeforeYear(d.year) <= DayNumber(d) < DaysBeforeYear(d.year + 1)
  {
    YearLength(d.year);
  }

  lemma YearsAreOrdered(y1: int, y2: int)
    requires y1 < y2
    ensures DaysBeforeYear(y1 + 1) <= DaysBeforeYear(y2)
  {
    var k := y2 - y1 - 1;
    assert (y2 + 3) / 4 >= (y1 + 4) / 4 + k / 4;
    assert (y2 + 99) / 100 <= (y1 + 100) / 100 + k / 100 + 1;
    assert (y2 + 399) / 400 >= (y1 + 400) / 400 + k / 400;
  }

  /** Distinct valid dates have distinct day numbers, so the day number that
      AddMonths promises determines its result. */
  lemma DayNumberInjective(a: Date, b: Date)
    requires IsValid(a) && IsValid(b) && DayNumber(a) == DayNumber(b)
    ensures a == b
  {
    DayNumberInYear(a);
    DayNumberInYear(b);
    if a.year < b.year {
      YearsAreOrdered(a.year, b.year);
    } else if b.year < a.year {
      YearsAreOrdered(b.year, a.year);
    }
  }

  /** The example the ECMA-262 rule is known for. */
  lemma EndOfJanuaryPlusOneMonth()
    ensures AddMonths(Date(2024, 1, 31), 1) == Date(2024, 3, 2)
    ensures AddMonths(Date(2023, 1, 31), 1) == Date(2023, 3, 3)
    ensures AddMonths(Date(2024, 11, 30), 3) == Date(2025, 3, 2)
  {
  }
}
