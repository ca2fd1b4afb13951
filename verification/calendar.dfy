/** Proleptic-Gregorian civil dates and their day numbers.

    The application manipulates JavaScript `Date` values only through their
    local calendar fields (`getFullYear`, `getMonth`, `getDate`,
    `setDate`). With the UTC offset fixed at zero and no daylight-saving
    shifts, such a value at day granularity is a civil date `(y, m, d)`, and
    civil dates correspond one to one with integer day numbers. */
module Calendar {

  datatype Date = Date(year: int, month: int, day: int)

  predicate IsLeapYear(y: int) {
    y % 4 == 0 && (y % 100 != 0 || y % 400 == 0)
  }

  function DaysInMonth(y: int, m: int): (n: int)
    requires 1 <= m <= 12
    ensures 28 <= n <= 31
  {
    if m == 2 then (if IsLeapYear(y) then 29 else 28)
    else if m == 4 || m == 6 || m == 9 || m == 11 then 30
    else 31
  }

  /** A date that exists in the calendar. */
  predicate Valid(d: Date) {
    1 <= d.month <= 12 && 1 <= d.day <= DaysInMonth(d.year, d.month)
  }

  type CivilDate = d: Date | Valid(d) witness Date(1970, 1, 1)

  /** 1970-01-01, the date of JavaScript time value 0 (`new Date(null)`). */
  const Epoch: CivilDate := Date(1970, 1, 1)

  /** Days from 0001-01-01 to the first day of year `y`. */
  function DaysBeforeYear(y: int): int {
    var p := y - 1;
    365 * p + p / 4 - p / 100 + p / 400
  }

  /** Days from the first of the year to the first of month `m`. */
  function DaysBeforeMonth(y: int, m: int): int
    requires 1 <= m <= 12
  {
    var leap := if m > 2 && IsLeapYear(y) then 1 else 0;
    leap + (
      if m == 1 then 0 else if m == 2 then 31 else if m == 3 then 59
      else if m == 4 then 90 else if m == 5 then 120 else if m == 6 then 151
      else if m == 7 then 181 else if m == 8 then 212 else if m == 9 then 243
      else if m == 10 then 273 else if m == 11 then 304 else 334)
  }

  /** Day number of day-of-month `dd` of month `m` of year `y`, where `dd`
      may lie outside the month (JavaScript's MakeDay counts such a day
      from the first of the month). 0001-01-01 is day 0. */
  function Serial(y: int, m: int, dd: int): int
    requires 1 <= m <= 12
  {
    DaysBeforeYear(y) + DaysBeforeMonth(y, m) + dd - 1
  }

  function DayNumber(d: Date): int
    requires 1 <= d.month <= 12
  {
    Serial(d.year, d.month, d.day)
  }

  /** Calendar order: earlier year, else earlier month, else earlier day. */
  predicate Before(a: Date, b: Date) {
    a.year < b.year
    || (a.year == b.year && (a.month < b.month || (a.month == b.month && a.day < b.day)))
  }

  // ---------------------------------------------------------------------
  // Month and year lengths in day numbers
  // ---------------------------------------------------------------------

  /** A year is 366 days long when it is a leap year and 365 otherwise. */
  lemma YearLength(y: int)
    ensures DaysBeforeYear(y + 1) - DaysBeforeYear(y) == if IsLeapYear(y) then 366 else 365
  {
    StepsAt(y);
    MultiplesNest(y);
  }

  /** Going from year `y - 1` to `y`, each of the counts `y / k` of the
      leap-year rule grows by one exactly when `k` divides `y`. */
  lemma StepsAt(y: int)
    ensures y / 4 - (y - 1) / 4 == if y % 4 == 0 then 1 else 0
    ensures y / 100 - (y - 1) / 100 == if y % 100 == 0 then 1 else 0
    ensures y / 400 - (y - 1) / 400 == if y % 400 == 0 then 1 else 0
  {
    Step4(y);
    Step100(y);
    Step400(y);
  }

  lemma Step4(y: int)
    ensures y / 4 - (y - 1) / 4 == if y % 4 == 0 then 1 else 0
  {
  }

  lemma Step100(y: int)
    ensures y / 100 - (y - 1) / 100 == if y % 100 == 0 then 1 else 0
  {
  }

  lemma Step400(y: int)
    ensures y / 400 - (y - 1) / 400 == if y % 400 == 0 then 1 else 0
  {
  }

  /** Multiples of 400 are multiples of 100, and those of 100 are multiples
      of 4. */
  lemma MultiplesNest(y: int)
    ensures y % 400 == 0 ==> y % 100 == 0
    ensures y % 100 == 0 ==> y % 4 == 0
  {
    if y % 400 == 0 {
      Multiple400(y);
    }
    if y % 100 == 0 {
      Multiple100(y);
    }
  }

  lemma Multiple400(y: int)
    requires y % 400 == 0
    ensures y % 100 == 0
  {
    var q := y / 400;
    assert y == 100 * (4 * q);
  }

  lemma Multiple100(y: int)
    requires y % 100 == 0
    ensures y % 4 == 0
  {
    var q := y / 100;
    assert y == 4 * (25 * q);
  }

  /** The first of the month after `(y, m)` comes `DaysInMonth(y, m)` days
      after the first of `(y, m)`, across the year end too. */
  lemma MonthLength(y: int, m: int)
    requires 1 <= m <= 12
    ensures m < 12 ==> DaysBeforeMonth(y, m + 1) == DaysBeforeMonth(y, m) + DaysInMonth(y, m)
    ensures m == 12 ==> DaysBeforeYear(y + 1) == DaysBeforeYear(y) + DaysBeforeMonth(y, m) + DaysInMonth(y, m)
  {
    YearLength(y);
  }

  function NextMonth(y: int, m: int): (r: (int, int))
    requires 1 <= m <= 12
    ensures 1 <= r.1 <= 12
  {
    if m == 12 then (y + 1, 1) else (y, m + 1)
  }

  function PrevMonth(y: int, m: int): (r: (int, int))
    requires 1 <= m <= 12
    ensures 1 <= r.1 <= 12
  {
    if m == 1 then (y - 1, 12) else (y, m - 1)
  }

  /** Counting `dd` days from the first of the next month is counting
      `DaysInMonth + dd` days from the first of this one. */
  lemma SerialNextMonth(y: int, m: int, dd: int)
    requires 1 <= m <= 12
    ensures var (ny, nm) := NextMonth(y, m);
            Serial(ny, nm, dd) == Serial(y, m, dd + DaysInMonth(y, m))
  {
    MonthLength(y, m);
  }

  // ---------------------------------------------------------------------
  // setDate normalisation and addDays
  // ---------------------------------------------------------------------

  /** The date `Date.prototype.setDate(dd)` lands on for a date in month
      `(y, m)`: a day-of-month beyond the month's end rolls into the
      following months, and one below 1 rolls back into the preceding
      months, one month at a time. */
  function Normalize(y: int, m: int, dd: int): (r: CivilDate)
    requires 1 <= m <= 12
    ensures DayNumber(r) == Serial(y, m, dd)
    decreases if dd < 1 then 1 else 0, if dd < 1 then -dd else dd
  {
    if dd < 1 then
      var (py, pm) := PrevMonth(y, m);
      SerialNextMonth(py, pm, dd);
      Normalize(py, pm, dd + DaysInMonth(py, pm))
    else if dd > DaysInMonth(y, m) then
      var (ny, nm) := NextMonth(y, m);
      SerialNextMonth(y, m, dd - DaysInMonth(y, m));
      Normalize(ny, nm, dd - DaysInMonth(y, m))
    else
      Date(y, m, dd)
  }

  /** `addDays(date, n)`: `setDate(getDate() + n)` on a copy. The result is
      exactly `n` days after `d` (before it when `n < 0`). */
  function AddDays(d: CivilDate, n: int): (r: CivilDate)
    ensures DayNumber(r) == DayNumber(d) + n
  {
    Normalize(d.year, d.month, d.day + n)
  }

  // ---------------------------------------------------------------------
  // The day number is an order-preserving bijection
  // ---------------------------------------------------------------------

  /** Day numbers of one year's dates lie in that year's range. */
  lemma WithinYear(d: CivilDate)
    ensures DaysBeforeYear(d.year) <= DayNumber(d) < DaysBeforeYear(d.year + 1)
  {
    YearLength(d.year);
  }

  lemma {:induction false} YearsIncrease(y1: int, y2: int)
    requires y1 <= y2
    ensures DaysBeforeYear(y1) <= DaysBeforeYear(y2)
    decreases y2 - y1
  {
    if y1 < y2 {
      YearLength(y1);
      YearsIncrease(y1 + 1, y2);
    }
  }

  /** A later month of the same year starts after this month ends. */
  lemma MonthsIncrease(y: int, m1: int, m2: int)
    requires 1 <= m1 < m2 <= 12
    ensures DaysBeforeMonth(y, m1) + DaysInMonth(y, m1) <= DaysBeforeMonth(y, m2)
  {
  }

  /** The day number orders dates as the calendar does. */
  lemma DayNumberOrder(a: CivilDate, b: CivilDate)
    ensures Before(a, b) <==> DayNumber(a) < DayNumber(b)
  {
    if a.year < b.year {
      WithinYear(a);
      WithinYear(b);
      YearsIncrease(a.year + 1, b.year);
    } else if b.year < a.year {
      WithinYear(a);
      WithinYear(b);
      YearsIncrease(b.year + 1, a.year);
    } else if a.month < b.month {
      MonthsIncrease(a.year, a.month, b.month);
    } else if b.month < a.month {
      MonthsIncrease(a.year, b.month, a.month);
    }
  }

  /** Distinct dates have distinct day numbers. */
  lemma DayNumberInjective(a: CivilDate, b: CivilDate)
    requires DayNumber(a) == DayNumber(b)
    ensures a == b
  {
    DayNumberOrder(a, b);
    DayNumberOrder(b, a);
  }

  /** The date with day number `n`: every integer is the day number of
      some date. */
  function FromDayNumber(n: int): (r: CivilDate)
    ensures DayNumber(r) == n
  {
    AddDays(Date(1, 1, 1), n)
  }

  /** `FromDayNumber` undoes `DayNumber`. */
  lemma FromDayNumberRoundTrip(d: CivilDate)
    ensures FromDayNumber(DayNumber(d)) == d
  {
    DayNumberInjective(FromDayNumber(DayNumber(d)), d);
  }

  /** Shifting by `a` days and then by `b` days is shifting by `a + b`. */
  lemma AddDaysCompose(d: CivilDate, a: int, b: int)
    ensures AddDays(AddDays(d, a), b) == AddDays(d, a + b)
  {
    DayNumberInjective(AddDays(AddDays(d, a), b), AddDays(d, a + b));
  }

  /** Shifting by zero days changes nothing, and shifting by `n` is undone
      by shifting by `-n`. */
  lemma AddDaysInverse(d: CivilDate, n: int)
    ensures AddDays(d, 0) == d
    ensures AddDays(AddDays(d, n), -n) == d
  {
    DayNumberInjective(AddDays(d, 0), d);
    DayNumberInjective(AddDays(AddDays(d, n), -n), d);
  }

  /** A shift moves a date forward exactly when `n` is positive. */
  lemma AddDaysOrder(d: CivilDate, n: int)
    ensures Before(d, AddDays(d, n)) <==> n > 0
  {
    DayNumberOrder(d, AddDays(d, n));
  }
}
