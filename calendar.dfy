/**
 * Calendar dates of the proleptic Gregorian calendar, as date-fns and the JavaScript `Date`
 * constructor use them for local dates. `DayNumber` counts days from 0001-01-01 and is a
 * bijection between valid dates and the integers, so adding days and taking differences of
 * dates become integer arithmetic.
 */
module Calendar {

  datatype Date = Date(year: int, month: int, day: int)

  predicate IsLeapYear(y: int) {
    y % 4 == 0 && (y % 100 != 0 || y % 400 == 0)
  }

  function DaysInMonth(y: int, m: int): int {
    if m == 2 then (if IsLeapYear(y) then 29 else 28)
    else if m == 4 || m == 6 || m == 9 || m == 11 then 30
    else 31
  }

  /** A date that exists: month 1 to 12, day within that month of that year. */
  predicate Valid(d: Date) {
    1 <= d.month <= 12 && 1 <= d.day <= DaysInMonth(d.year, d.month)
  }

  function YearLength(y: int): int {
    if IsLeapYear(y) then 366 else 365
  }

  /** Days from 0001-01-01 to January 1 of year `y` (negative before year 1). */
  function DaysBeforeYear(y: int): int {
    var p := y - 1;
    365 * p + p / 4 - p / 100 + p / 400
  }

  /** Days from January 1 to the first day of month `m` of year `y`. */
  function DaysBeforeMonth(y: int, m: int): int
    requires 1 <= m <= 12
  {
    var table := [0, 31, 59, 90, 120, 151, 181, 212, 243, 273, 304, 334];
    table[m - 1] + (if m > 2 && IsLeapYear(y) then 1 else 0)
  }

  /** Days from 0001-01-01 to `d`: the days-from-civil count. */
  function DayNumber(d: Date): int
    requires Valid(d)
  {
    DaysBeforeYear(d.year) + DaysBeforeMonth(d.year, d.month) + d.day - 1
  }

  lemma FloorStep4(y: int)
    ensures y / 4 - (y - 1) / 4 == if y % 4 == 0 then 1 else 0
  {
    var q, r := (y - 1) / 4, (y - 1) % 4;
    if r == 3 {
      assert y == 4 * (q + 1);
    } else {
      assert y == 4 * q + (r + 1);
    }
  }

  lemma FloorStep100(y: int)
    ensures y / 100 - (y - 1) / 100 == if y % 100 == 0 then 1 else 0
  {
    var q, r := (y - 1) / 100, (y - 1) % 100;
    if r == 99 {
      assert y == 100 * (q + 1);
    } else {
      assert y == 100 * q + (r + 1);
    }
  }

  lemma FloorStep400(y: int)
    ensures y / 400 - (y - 1) / 400 == if y % 400 == 0 then 1 else 0
  {
    var q, r := (y - 1) / 400, (y - 1) % 400;
    if r == 399 {
      assert y == 400 * (q + 1);
    } else {
      assert y == 400 * q + (r + 1);
    }
  }

  /** Each year contributes exactly its length to the count. */
  lemma YearStep(y: int)
    ensures DaysBeforeYear(y + 1) == DaysBeforeYear(y) + YearLength(y)
  {
    FloorStep4(y);
    FloorStep100(y);
    FloorStep400(y);
    if y % 400 == 0 {
      assert y == 100 * (4 * (y / 400));
    }
    if y % 100 == 0 {
      assert y == 4 * (25 * (y / 100));
    }
  }

  lemma MonthStep(y: int, m: int)
    requires 1 <= m < 12
    ensures DaysBeforeMonth(y, m + 1) == DaysBeforeMonth(y, m) + DaysInMonth(y, m)
  {
  }

  lemma YearEnd(y: int)
    ensures DaysBeforeMonth(y, 12) + 31 == YearLength(y)
  {
  }

  lemma {:induction false} DaysBeforeYearMonotone(a: int, b: int)
    requires a <= b
    ensures DaysBeforeYear(a) <= DaysBeforeYear(b)
    decreases b - a
  {
    if a < b {
      DaysBeforeYearMonotone(a, b - 1);
      YearStep(b - 1);
    }
  }

  lemma MonthsOrdered(y: int, m1: int, m2: int)
    requires 1 <= m1 < m2 <= 12
    ensures DaysBeforeMonth(y, m1) + DaysInMonth(y, m1) <= DaysBeforeMonth(y, m2)
  {
  }

  lemma DayNumberWithinYear(d: Date)
    requires Valid(d)
    ensures DaysBeforeYear(d.year) <= DayNumber(d) < DaysBeforeYear(d.year) + YearLength(d.year)
  {
  }

  /** `a` comes before `b` in calendar order. */
  predicate Before(a: Date, b: Date) {
    a.year < b.year
    || (a.year == b.year && (a.month < b.month || (a.month == b.month && a.day < b.day)))
  }

  /** The day count follows calendar order. */
  lemma {:induction false} DayNumberOrdered(a: Date, b: Date)
    requires Valid(a) && Valid(b) && Before(a, b)
    ensures DayNumber(a) < DayNumber(b)
  {
    if a.year < b.year {
      DayNumberWithinYear(a);
      DayNumberWithinYear(b);
      YearStep(a.year);
      DaysBeforeYearMonotone(a.year + 1, b.year);
    } else if a.month < b.month {
      MonthsOrdered(a.year, a.month, b.month);
    }
  }

  lemma DayNumberInjective(a: Date, b: Date)
    requires Valid(a) && Valid(b) && DayNumber(a) == DayNumber(b)
    ensures a == b
  {
    if Before(a, b) {
      DayNumberOrdered(a, b);
    } else if Before(b, a) {
      DayNumberOrdered(b, a);
    }
  }

  /** The day after `d`. */
  function NextDay(d: Date): (r: Date)
    requires Valid(d)
    ensures Valid(r) && DayNumber(r) == DayNumber(d) + 1
  {
    if d.day < DaysInMonth(d.year, d.month) then Date(d.year, d.month, d.day + 1)
    else if d.month < 12 then MonthStep(d.year, d.month); Date(d.year, d.month + 1, 1)
    else YearStep(d.year); YearEnd(d.year); Date(d.year + 1, 1, 1)
  }

  /** The day before `d`. */
  function PrevDay(d: Date): (r: Date)
    requires Valid(d)
    ensures Valid(r) && DayNumber(r) == DayNumber(d) - 1
  {
    if d.day > 1 then Date(d.year, d.month, d.day - 1)
    else if d.month > 1 then
      MonthStep(d.year, d.month - 1);
      Date(d.year, d.month - 1, DaysInMonth(d.year, d.month - 1))
    else YearStep(d.year - 1); YearEnd(d.year - 1); Date(d.year - 1, 12, 31)
  }

  /** The civil-from-days direction: the date `n` days after 0001-01-01. */
  function FromDayNumber(n: int): (d: Date)
    ensures Valid(d) && DayNumber(d) == n
    decreases if n < 0 then -n else n
  {
    if n == 0 then Date(1, 1, 1)
    else if n > 0 then NextDay(FromDayNumber(n - 1))
    else PrevDay(FromDayNumber(n + 1))
  }

  /** The other half of the bijection. */
  lemma FromDayNumberOfDayNumber(d: Date)
    requires Valid(d)
    ensures FromDayNumber(DayNumber(d)) == d
  {
    DayNumberInjective(FromDayNumber(DayNumber(d)), d);
  }

  /** date-fns `addDays`: `n` calendar days later (earlier when `n` is negative). */
  function AddDays(d: Date, n: int): (r: Date)
    requires Valid(d)
    ensures Valid(r) && DayNumber(r) == DayNumber(d) + n
  {
    FromDayNumber(DayNumber(d) + n)
  }

  /** date-fns `differenceInDays(later, earlier)` on local midnights: whole days between them. */
  function DifferenceInDays(later: Date, earlier: Date): int
    requires Valid(later) && Valid(earlier)
  {
    DayNumber(later) - DayNumber(earlier)
  }

  /** Adding the difference of two dates to the earlier one gives the later one. */
  lemma AddDaysDifference(d: Date, e: Date)
    requires Valid(d) && Valid(e)
    ensures AddDays(d, DifferenceInDays(e, d)) == e
  {
    DayNumberInjective(AddDays(d, DifferenceInDays(e, d)), e);
  }

  lemma AddDaysZero(d: Date)
    requires Valid(d)
    ensures AddDays(d, 0) == d
  {
    DayNumberInjective(AddDays(d, 0), d);
  }

  lemma AddDaysCompose(d: Date, a: int, b: int)
    requires Valid(d)
    ensures AddDays(AddDays(d, a), b) == AddDays(d, a + b)
  {
    DayNumberInjective(AddDays(AddDays(d, a), b), AddDays(d, a + b));
  }

  lemma AddOneDayIsNextDay(d: Date)
    requires Valid(d)
    ensures AddDays(d, 1) == NextDay(d)
  {
    DayNumberInjective(AddDays(d, 1), NextDay(d));
  }

  /** A later date lies a positive number of days ahead. */
  lemma DifferencePositiveIffBefore(a: Date, b: Date)
    requires Valid(a) && Valid(b)
    ensures DifferenceInDays(b, a) > 0 <==> Before(a, b)
  {
    if Before(a, b) {
      DayNumberOrdered(a, b);
    } else if Before(b, a) {
      DayNumberOrdered(b, a);
    } else {
      DayNumberInjective(a, b);
    }
  }

  /** 2024-01-15 plus 30 days is 2024-02-14. */
  lemma ThirtyDaysFromJanuaryFifteenth(d: Date)
    requires d == Date(2024, 1, 15)
    ensures AddDays(d, 30) == Date(2024, 2, 14)
  {
    assert DaysBeforeYear(2024) == 738885;
    assert DayNumber(d) == 738899;
    assert DayNumber(Date(2024, 2, 14)) == 738929;
    DayNumberInjective(AddDays(d, 30), Date(2024, 2, 14));
  }

  /** date-fns `startOfMonth`. */
  function FirstOfMonth(d: Date): Date {
    Date(d.year, d.month, 1)
  }

  /** date-fns `endOfMonth`, at day granularity. */
  function LastOfMonth(d: Date): Date {
    Date(d.year, d.month, DaysInMonth(d.year, d.month))
  }

  /**
   * The first and last day of `d`'s month are valid, enclose `d`, and the day after the last
   * is the first of the following month.
   */
  lemma MonthBounds(d: Date)
    requires Valid(d)
    ensures Valid(FirstOfMonth(d)) && Valid(LastOfMonth(d))
    ensures DayNumber(FirstOfMonth(d)) <= DayNumber(d) <= DayNumber(LastOfMonth(d))
    ensures AddDays(LastOfMonth(d), 1)
            == if d.month < 12 then Date(d.year, d.month + 1, 1) else Date(d.year + 1, 1, 1)
  {
    AddOneDayIsNextDay(LastOfMonth(d));
  }

  lemma LeapYearExamples()
    ensures DaysInMonth(2024, 2) == 29 && DaysInMonth(2023, 2) == 28
    ensures DaysInMonth(2000, 2) == 29 && DaysInMonth(1900, 2) == 28
  {
  }
}
