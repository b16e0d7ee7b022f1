/**
 * The calendar arithmetic of JavaScript's built-in `Date`, restricted to the
 * local calendar day (no time of day, no time zone): the proleptic Gregorian
 * calendar, `getDay`, `setDate` with its normalisation of out-of-range days,
 * and the constructor `new Date(year, monthIndex, day)`.
 */
module JsDate {

  /** A calendar day; `month` is 1-based (JavaScript's `getMonth() + 1`). */
  datatype Date = Date(year: int, month: int, day: int) {
    predicate Valid() {
      1 <= month <= 12 && 1 <= day <= DaysInMonth(year, month)
    }
  }

  /** What a `Date` object denotes once its fields are normalised. */
  type CalendarDay = d: Date | d.Valid() witness Date(1970, 1, 1)

  /** The Gregorian leap-year rule. */
  predicate IsLeapYear(y: int) {
    (y % 4 == 0 && y % 100 != 0) || y % 400 == 0
  }

  function DaysInMonth(y: int, m: int): (n: int)
    requires 1 <= m <= 12
    ensures 28 <= n <= 31
    ensures n == 29 <==> m == 2 && IsLeapYear(y)
  {
    if m == 2 then (if IsLeapYear(y) then 29 else 28)
    else if m == 4 || m == 6 || m == 9 || m == 11 then 30
    else 31
  }

  function DaysInYear(y: int): int {
    if IsLeapYear(y) then 366 else 365
  }

  /** Days from 0001-01-01 to the first day of year `y` (negative before year 1). */
  function DaysBeforeYear(y: int): int {
    var n := y - 1;
    365 * n + n / 4 - n / 100 + n / 400
  }

  /** Days from the first of January of year `y` to the first day of month `m`. */
  function DaysBeforeMonth(y: int, m: int): int
    requires 1 <= m <= 12
  {
    var table := [0, 31, 59, 90, 120, 151, 181, 212, 243, 273, 304, 334];
    table[m - 1] + (if m > 2 && IsLeapYear(y) then 1 else 0)
  }

  /** Consecutive days get consecutive numbers; 0001-01-01 is day 0. */
  function DayNumber(d: CalendarDay): int {
    DaysBeforeYear(d.year) + DaysBeforeMonth(d.year, d.month) + d.day - 1
  }

  /** `getDay()`: 0 is Sunday, 1 Monday, ..., 6 Saturday (0001-01-01 was a Monday). */
  function Weekday(d: CalendarDay): (w: int)
    ensures 0 <= w < 7
  {
    (DayNumber(d) + 1) % 7
  }

  lemma MonthStep(y: int, m: int)
    requires 1 <= m < 12
    ensures DaysBeforeMonth(y, m + 1) == DaysBeforeMonth(y, m) + DaysInMonth(y, m)
  {
  }

  lemma YearEnd(y: int)
    ensures DaysBeforeMonth(y, 12) + DaysInMonth(y, 12) == DaysInYear(y)
  {
  }

  lemma YearStep(y: int)
    ensures DaysBeforeYear(y + 1) == DaysBeforeYear(y) + DaysInYear(y)
  {
    DivStep4(y);
    DivStep100(y);
    DivStep400(y);
    Multiples(y);
  }

  lemma DivStep4(y: int)
    ensures y / 4 - (y - 1) / 4 == if y % 4 == 0 then 1 else 0
  {
  }

  lemma DivStep100(y: int)
    ensures y / 100 - (y - 1) / 100 == if y % 100 == 0 then 1 else 0
  {
  }

  lemma DivStep400(y: int)
    ensures y / 400 - (y - 1) / 400 == if y % 400 == 0 then 1 else 0
  {
  }

  lemma MultipleMod100(k: int)
    ensures (100 * k) % 100 == 0
  {
  }

  lemma MultipleMod4(k: int)
    ensures (4 * k) % 4 == 0
  {
  }

  /** A multiple of 400 is one of 100, and a multiple of 100 one of 4. */
  lemma Multiples(y: int)
    ensures y % 400 == 0 ==> y % 100 == 0
    ensures y % 100 == 0 ==> y % 4 == 0
  {
    if y % 400 == 0 {
      assert y == 100 * (4 * (y / 400));
      MultipleMod100(4 * (y / 400));
    }
    if y % 100 == 0 {
      assert y == 4 * (25 * (y / 100));
      MultipleMod4(25 * (y / 100));
    }
  }

  /** The first of January follows the last day of December of the year before. */
  lemma YearBoundary(y: int)
    ensures DaysBeforeYear(y) + DaysBeforeMonth(y, 12) + DaysInMonth(y, 12) == DaysBeforeYear(y + 1) + DaysBeforeMonth(y + 1, 1)
  {
    YearStep(y);
    YearEnd(y);
  }

  /** Each year starts after the whole of every earlier year. */
  lemma {:induction false} YearsMonotone(a: int, b: int)
    requires a < b
    ensures DaysBeforeYear(a) + DaysInYear(a) <= DaysBeforeYear(b)
    decreases b - a
  {
    YearStep(a);
    if a + 1 < b {
      YearsMonotone(a + 1, b);
    }
  }

  /**
   * The field normalisation that `setDate` and the constructor perform: day
   * `day` of month `m` of year `y`, where `day` may lie before the first or
   * after the last day of that month and then rolls into earlier or later months.
   */
  function Normalize(y: int, m: int, day: int): (r: CalendarDay)
    requires 1 <= m <= 12
    ensures DayNumber(r) == DaysBeforeYear(y) + DaysBeforeMonth(y, m) + day - 1
    decreases day < 1, if day < 1 then 1 - day else day
  {
    if day < 1 then
      var r := if m == 1 then Normalize(y - 1, 12, day + DaysInMonth(y - 1, 12))
               else Normalize(y, m - 1, day + DaysInMonth(y, m - 1));
      StepBack(r, y, m, day);
      r
    else if day > DaysInMonth(y, m) then
      var r := if m == 12 then Normalize(y + 1, 1, day - DaysInMonth(y, 12))
               else Normalize(y, m + 1, day - DaysInMonth(y, m));
      StepForward(r, y, m, day);
      r
    else
      Date(y, m, day)
  }

  /** Day `day` of a month is day `day` plus the length of the month before, counted in that month. */
  lemma StepBack(r: CalendarDay, y: int, m: int, day: int)
    requires 1 <= m <= 12
    requires m == 1 ==> DayNumber(r) == DaysBeforeYear(y - 1) + DaysBeforeMonth(y - 1, 12) + (day + DaysInMonth(y - 1, 12)) - 1
    requires m > 1 ==> DayNumber(r) == DaysBeforeYear(y) + DaysBeforeMonth(y, m - 1) + (day + DaysInMonth(y, m - 1)) - 1
    ensures DayNumber(r) == DaysBeforeYear(y) + DaysBeforeMonth(y, m) + day - 1
  {
    if m == 1 {
      YearBoundary(y - 1);
    } else {
      MonthStep(y, m - 1);
    }
  }

  /** Day `day` of a month is day `day` minus its length, counted in the month after. */
  lemma StepForward(r: CalendarDay, y: int, m: int, day: int)
    requires 1 <= m <= 12
    requires m == 12 ==> DayNumber(r) == DaysBeforeYear(y + 1) + DaysBeforeMonth(y + 1, 1) + (day - DaysInMonth(y, 12)) - 1
    requires m < 12 ==> DayNumber(r) == DaysBeforeYear(y) + DaysBeforeMonth(y, m + 1) + (day - DaysInMonth(y, m)) - 1
    ensures DayNumber(r) == DaysBeforeYear(y) + DaysBeforeMonth(y, m) + day - 1
  {
    if m == 12 {
      YearBoundary(y);
    } else {
      MonthStep(y, m);
    }
  }

  /** `d.setDate(dd)`: day `dd` of d's month, normalised; it moves the date by `dd - d.day` days. */
  function SetDate(d: CalendarDay, dd: int): (r: CalendarDay)
    ensures DayNumber(r) == DayNumber(d) + (dd - d.day)
  {
    Normalize(d.year, d.month, dd)
  }

  /** The constructor maps a year from 0 to 99 to 1900 + year. */
  function ConstructorYear(y: int): int {
    if 0 <= y <= 99 then 1900 + y else y
  }

  /** `new Date(y, monthIndex, dd)`: `monthIndex` is 0-based and rolls over into other years. */
  function Construct(y: int, monthIndex: int, dd: int): (r: CalendarDay)
    ensures DayNumber(r) == DaysBeforeYear(ConstructorYear(y) + monthIndex / 12)
                           + DaysBeforeMonth(ConstructorYear(y) + monthIndex / 12, monthIndex % 12 + 1) + dd - 1
  {
    Normalize(ConstructorYear(y) + monthIndex / 12, monthIndex % 12 + 1, dd)
  }

  /** Lexicographic order on (year, month, day). */
  predicate DateLess(a: Date, b: Date) {
    a.year < b.year || (a.year == b.year && (a.month < b.month || (a.month == b.month && a.day < b.day)))
  }

  lemma MonthsMonotone(y: int, m1: int, m2: int)
    requires 1 <= m1 < m2 <= 12
    ensures DaysBeforeMonth(y, m1) + DaysInMonth(y, m1) <= DaysBeforeMonth(y, m2)
  {
  }

  /** Calendar order and day-number order agree. */
  lemma DayNumberMonotone(a: CalendarDay, b: CalendarDay)
    requires DateLess(a, b)
    ensures DayNumber(a) < DayNumber(b)
  {
    if a.year < b.year {
      YearsMonotone(a.year, b.year);
      if a.month < 12 {
        MonthsMonotone(a.year, a.month, 12);
      }
      YearEnd(a.year);
    } else if a.month < b.month {
      MonthsMonotone(a.year, a.month, b.month);
    }
  }

  /** Day numbers identify calendar days and order them as the calendar does. */
  lemma DayNumberOrder(a: CalendarDay, b: CalendarDay)
    ensures DayNumber(a) < DayNumber(b) <==> DateLess(a, b)
    ensures DayNumber(a) == DayNumber(b) <==> a == b
  {
    if DateLess(a, b) {
      DayNumberMonotone(a, b);
    } else if DateLess(b, a) {
      DayNumberMonotone(b, a);
    }
  }

  /** Moving a date by `k` days moves its weekday by `k` modulo 7. */
  lemma WeekdayShift(d: CalendarDay, e: CalendarDay, k: int)
    requires DayNumber(e) == DayNumber(d) + k
    ensures Weekday(e) == (Weekday(d) + k) % 7
  {
    var x := DayNumber(d) + 1;
    assert x + k == 7 * (x / 7) + (x % 7 + k);
    ModSeven(x / 7, x % 7 + k);
  }

  lemma ModSeven(q: int, r: int)
    ensures (7 * q + r) % 7 == r % 7
  {
  }

  /** Normalising a day that already lies in its month changes nothing. */
  lemma NormalizeValid(d: CalendarDay)
    ensures Normalize(d.year, d.month, d.day) == d
  {
  }
}
