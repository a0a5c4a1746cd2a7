// The local calendar at day granularity, standing in for JavaScript `Date`
// objects: a day is a number of days counted from 0001-01-01 of the
// proleptic Gregorian calendar (day 0, a Monday), and `Civil` recovers the
// year, month (1-12) and day of the month that `getFullYear`, `getMonth() + 1`
// and `getDate` read from it.

module Calendar {

  /** A calendar day, counted from 0001-01-01 (day 0). */
  type Day = int

  datatype CivilDate = CivilDate(year: int, month: int, day: int)

  predicate IsLeapYear(y: int) {
    y % 4 == 0 && (y % 100 != 0 || y % 400 == 0)
  }

  function DaysInYear(y: int): int {
    if IsLeapYear(y) then 366 else 365
  }

  function DaysInMonth(y: int, m: int): int
    requires 1 <= m <= 12
  {
    if m == 2 then (if IsLeapYear(y) then 29 else 28)
    else if m == 4 || m == 6 || m == 9 || m == 11 then 30
    else 31
  }

  predicate IsValid(c: CivilDate) {
    1 <= c.month <= 12 && 1 <= c.day <= DaysInMonth(c.year, c.month)
  }

  /** The number of days of year `y` that lie before the first of month `m` (13 stands for the year's end). */
  function DaysBeforeMonth(y: int, m: int): int
    requires 1 <= m <= 13
  {
    var leap := if IsLeapYear(y) then 1 else 0;
    if m == 1 then 0
    else if m == 2 then 31
    else [59, 90, 120, 151, 181, 212, 243, 273, 304, 334, 365][m - 3] + leap
  }

  lemma MonthSpan(y: int, m: int)
    requires 1 <= m <= 12
    ensures DaysBeforeMonth(y, m + 1) == DaysBeforeMonth(y, m) + DaysInMonth(y, m)
    ensures DaysBeforeMonth(y, 13) == DaysInYear(y)
  {
    if m == 1 {} else if m == 2 {} else if m == 3 {} else if m == 4 {} else if m == 5 {} else if m == 6 {}
    else if m == 7 {} else if m == 8 {} else if m == 9 {} else if m == 10 {} else if m == 11 {} else {}
  }

  /** The day number of 1 January of year `y`: each year starts where the one before it ends. */
  function YearStart(y: int): Day
    decreases if y >= 1 then y - 1 else 1 - y
  {
    if y == 1 then 0
    else if y > 1 then YearStart(y - 1) + DaysInYear(y - 1)
    else YearStart(y + 1) - DaysInYear(y)
  }

  lemma YearStartStep(y: int)
    ensures YearStart(y + 1) == YearStart(y) + DaysInYear(y)
  {
  }

  /** The closed form of `YearStart`: 365 days a year, plus one for each leap year already past. */
  lemma {:induction false} YearStartFormula(y: int)
    requires y >= 1
    ensures YearStart(y) == 365 * (y - 1) + (y - 1) / 4 - (y - 1) / 100 + (y - 1) / 400
    decreases y
  {
    if y > 1 {
      YearStartFormula(y - 1);
      LeapDays(y - 1);
    }
  }

  /** Passing year `y` adds exactly its leap day to the count of leap years. */
  lemma LeapDays(y: int)
    ensures DaysInYear(y) - 365
         == (y / 4 - (y - 1) / 4) - (y / 100 - (y - 1) / 100) + (y / 400 - (y - 1) / 400)
  {
    if y % 400 == 0 {
      Multiple400(y);
    }
    if y % 100 == 0 {
      Multiple100(y);
    }
    LeapCount4(y - 1);
    LeapCount100(y - 1);
    LeapCount400(y - 1);
  }

  /** A multiple of 400 is a multiple of 100. */
  lemma Multiple400(y: int)
    requires y % 400 == 0
    ensures y % 100 == 0
  {
    var q := y / 400;
    assert y == 100 * (4 * q) + 0;
  }

  /** A multiple of 100 is a multiple of 4. */
  lemma Multiple100(y: int)
    requires y % 100 == 0
    ensures y % 4 == 0
  {
    var q := y / 100;
    assert y == 4 * (25 * q) + 0;
  }

  // Counting the multiples of 4, 100 and 400 up to `k + 1` adds one exactly when `k + 1` is one.

  lemma LeapCount4(k: int)
    ensures (k + 1) / 4 - k / 4 == if (k + 1) % 4 == 0 then 1 else 0
  {
  }

  lemma LeapCount100(k: int)
    ensures (k + 1) / 100 - k / 100 == if (k + 1) % 100 == 0 then 1 else 0
  {
  }

  lemma LeapCount400(k: int)
    ensures (k + 1) / 400 - k / 400 == if (k + 1) % 400 == 0 then 1 else 0
  {
  }

  lemma {:induction false} YearStartMonotone(a: int, b: int)
    requires a <= b
    ensures YearStart(a) <= YearStart(b)
    decreases b - a
  {
    if a < b {
      YearStartMonotone(a, b - 1);
      YearStartStep(b - 1);
    }
  }

  /** The day number of a valid civil date. */
  function DayNumber(c: CivilDate): Day
    requires IsValid(c)
  {
    YearStart(c.year) + DaysBeforeMonth(c.year, c.month) + c.day - 1
  }

  function YearUp(n: Day, y: int): (r: int)
    requires YearStart(y) <= n
    ensures YearStart(r) <= n < YearStart(r + 1)
    decreases n - YearStart(y)
  {
    YearStartStep(y);
    if n < YearStart(y + 1) then y else YearUp(n, y + 1)
  }

  function YearDown(n: Day, y: int): (r: int)
    requires n < YearStart(y + 1)
    ensures YearStart(r) <= n < YearStart(r + 1)
    decreases YearStart(y + 1) - n
  {
    YearStartStep(y - 1);
    if YearStart(y) <= n then y else YearDown(n, y - 1)
  }

  /** The year in which day `n` falls. */
  function YearOf(n: Day): (y: int)
    ensures YearStart(y) <= n < YearStart(y + 1)
  {
    if n >= 0 then YearUp(n, 1) else YearDown(n, 0)
  }

  /** The month of year `y` holding its `k`-th day (from 0), searching from month `m`. */
  function MonthFrom(y: int, k: int, m: int): (r: int)
    requires 1 <= m <= 12 && DaysBeforeMonth(y, m) <= k < DaysInYear(y)
    ensures 1 <= r <= 12 && DaysBeforeMonth(y, r) <= k < DaysBeforeMonth(y, r + 1)
    decreases 12 - m
  {
    MonthSpan(y, m);
    if k < DaysBeforeMonth(y, m + 1) then m else MonthFrom(y, k, m + 1)
  }

  /** The civil date of day `n`: what `getFullYear`, `getMonth() + 1` and `getDate` read. */
  function Civil(n: Day): (c: CivilDate)
    ensures IsValid(c) && DayNumber(c) == n
  {
    var y := YearOf(n);
    YearStartStep(y);
    var k := n - YearStart(y);
    var m := MonthFrom(y, k, 1);
    MonthSpan(y, m);
    CivilDate(y, m, k - DaysBeforeMonth(y, m) + 1)
  }

  lemma YearUnique(n: Day, a: int, b: int)
    requires YearStart(a) <= n < YearStart(a + 1)
    requires YearStart(b) <= n < YearStart(b + 1)
    ensures a == b
  {
    if a < b {
      YearStartMonotone(a + 1, b);
    } else if b < a {
      YearStartMonotone(b + 1, a);
    }
  }

  /** Later months start later in the year. */
  lemma {:induction false} DaysBeforeMonthMonotone(y: int, a: int, b: int)
    requires 1 <= a <= b <= 13
    ensures DaysBeforeMonth(y, a) <= DaysBeforeMonth(y, b)
    decreases b - a
  {
    if a < b {
      DaysBeforeMonthMonotone(y, a, b - 1);
      MonthSpan(y, b - 1);
    }
  }

  lemma MonthUnique(y: int, k: int, a: int, b: int)
    requires 1 <= a <= 12 && DaysBeforeMonth(y, a) <= k < DaysBeforeMonth(y, a + 1)
    requires 1 <= b <= 12 && DaysBeforeMonth(y, b) <= k < DaysBeforeMonth(y, b + 1)
    ensures a == b
  {
    if a < b {
      DaysBeforeMonthMonotone(y, a + 1, b);
    } else if b < a {
      DaysBeforeMonthMonotone(y, b + 1, a);
    }
  }

  /** Where a valid date lies: within its year, and within its month of that year. */
  lemma Placement(c: CivilDate)
    requires IsValid(c)
    ensures YearStart(c.year) <= DayNumber(c) < YearStart(c.year + 1)
    ensures DaysBeforeMonth(c.year, c.month) <= DayNumber(c) - YearStart(c.year) < DaysBeforeMonth(c.year, c.month + 1)
  {
    MonthSpan(c.year, c.month);
    DaysBeforeMonthMonotone(c.year, c.month + 1, 13);
    MonthSpan(c.year, 12);
  }

  /** Distinct valid dates have distinct day numbers. */
  lemma DayNumberInjective(a: CivilDate, b: CivilDate)
    requires IsValid(a) && IsValid(b) && DayNumber(a) == DayNumber(b)
    ensures a == b
  {
    var n := DayNumber(a);
    Placement(a);
    Placement(b);
    YearUnique(n, a.year, b.year);
    MonthUnique(a.year, n - YearStart(a.year), a.month, b.month);
    SameMonthSameDay(a, b);
  }

  /** Every valid civil date is the civil date of its own day number. */
  lemma CivilOfDayNumber(c: CivilDate)
    requires IsValid(c)
    ensures Civil(DayNumber(c)) == c
  {
    DayNumberInjective(Civil(DayNumber(c)), c);
  }

  lemma SameMonthSameDay(a: CivilDate, b: CivilDate)
    requires IsValid(a) && IsValid(b) && a.year == b.year && a.month == b.month
    requires DayNumber(a) == DayNumber(b)
    ensures a == b
  {
  }

  /** `getDay()`: 0 for Sunday through 6 for Saturday. */
  function Weekday(n: Day): int {
    (n + 1) % 7
  }

  /** The day numbering agrees with the calendar: 1 January 1970 was a Thursday. */
  lemma EpochIsThursday()
    ensures Weekday(DayNumber(CivilDate(1970, 1, 1))) == 4
  {
    YearStartFormula(1970);
    assert DayNumber(CivilDate(1970, 1, 1)) == 719162;
  }

  /** `d.setDate(d.getDate() - d.getDay())`: the Sunday that starts the week of day `n`. */
  function WeekStart(n: Day): (r: Day)
    ensures Weekday(r) == 0
    ensures r <= n < r + 7
  {
    n - Weekday(n)
  }

  /** Two days share a Sunday-started week exactly when one lies in the seven days from the other's Sunday. */
  lemma SameWeek(d: Day, t: Day)
    ensures WeekStart(d) == WeekStart(t) <==> WeekStart(t) <= d <= WeekStart(t) + 6
  {
  }

  /** The first of the month of a valid date lies `day - 1` days before it. */
  lemma SameMonthFirst(c: CivilDate)
    requires IsValid(c)
    ensures Civil(DayNumber(c) - (c.day - 1)) == CivilDate(c.year, c.month, 1)
  {
    var first := CivilDate(c.year, c.month, 1);
    FirstIsValid(c);
    assert DayNumber(first) == DayNumber(c) - (c.day - 1);
    CivilOfDayNumber(first);
  }

  lemma FirstIsValid(c: CivilDate)
    requires IsValid(c)
    ensures IsValid(CivilDate(c.year, c.month, 1))
  {
  }

  /** The first of the month of day `n` is its own civil date with day 1. */
  lemma FirstOfMonth(n: Day)
    ensures var c := Civil(n);
            Civil(n - (c.day - 1)) == CivilDate(c.year, c.month, 1)
  {
    SameMonthFirst(Civil(n));
  }

  /** A valid date lies in the first 366 days from 1 January of its year. */
  lemma WithinYear(c: CivilDate)
    requires IsValid(c)
    ensures YearStart(c.year) <= DayNumber(c) < YearStart(c.year) + 366
  {
    MonthSpan(c.year, c.month);
    MonthSpan(c.year, 12);
    DaysBeforeMonthMonotone(c.year, c.month + 1, 13);
  }

  /** 1 January of year `y` is the day `YearStart(y)`. */
  lemma NewYearsDay(y: int)
    ensures Civil(YearStart(y)) == CivilDate(y, 1, 1)
  {
    var first := CivilDate(y, 1, 1);
    assert DayNumber(first) == YearStart(y);
    CivilOfDayNumber(first);
  }

  /** A day lies less than 366 days after 1 January of its year, which is its year's first day. */
  lemma NewYear(n: Day)
    ensures var y := Civil(n).year;
            YearStart(y) <= n < YearStart(y) + 366 && Civil(YearStart(y)) == CivilDate(y, 1, 1)
  {
    var c := Civil(n);
    WithinYear(c);
    NewYearsDay(c.year);
  }

  /** `new Date(year, month, 1)`: the first day of the month of day `n`. */
  function MonthStart(n: Day): (r: Day)
    ensures r <= n < r + 31
    ensures Civil(r) == CivilDate(Civil(n).year, Civil(n).month, 1)
  {
    FirstOfMonth(n);
    n - (Civil(n).day - 1)
  }

  /** `new Date(year, 0, 1)`: 1 January of the year of day `n`. */
  function YearStartOf(n: Day): (r: Day)
    ensures r <= n < r + 366
    ensures Civil(r) == CivilDate(Civil(n).year, 1, 1)
  {
    NewYear(n);
    YearStart(Civil(n).year)
  }
}
