/**
 * lib/dateUtils.ts: the ISO calendar-date string of a day, and the
 * "today", "this week" (Monday to Friday) and "this month" windows of a
 * reference day. The reference day stands for `new Date()`.
 */
module DateUtils {
  import opened Strings
  import opened JsDate

  /** A pair of ISO dates as the date helpers return it. */
  datatype Window = Window(start: string, end: string)

  /** The three preset windows a screen computes on a render. */
  datatype Presets = Presets(today: string, week: Window, month: Window)

  /**
   * `getISODate`: the year as `String` writes it, then the 1-based month and the
   * day, each padded to two digits, separated by '-'.
   */
  function GetISODate(d: CalendarDay): (s: string)
    ensures s == IntToString(d.year) + "-" + Digits(d.month, 2) + "-" + Digits(d.day, 2)
  {
    PadTwoDigits(d.month);
    PadTwoDigits(d.day);
    IntToString(d.year) + "-" + PadStart(NatToString(d.month), 2, '0') + "-" + PadStart(NatToString(d.day), 2, '0')
  }

  /** `getTodayISO`, with the clock read replaced by the reference day. */
  function GetTodayISO(today: CalendarDay): (s: string)
    ensures s == GetISODate(today)
  {
    GetISODate(today)
  }

  /** For a year of four digits the ISO date is the ten characters YYYY-MM-DD. */
  lemma IsoFourDigitYear(d: CalendarDay)
    requires 1000 <= d.year <= 9999
    ensures GetISODate(d) == Digits(d.year, 4) + ("-" + (Digits(d.month, 2) + ("-" + Digits(d.day, 2))))
    ensures |GetISODate(d)| == 10 && GetISODate(d)[4] == '-' && GetISODate(d)[7] == '-'
  {
    NatToStringIsDigits(d.year, 4);
    var y, m, dd := Digits(d.year, 4), Digits(d.month, 2), Digits(d.day, 2);
    assert IntToString(d.year) == y;
    assert y + "-" + m + "-" + dd == y + ("-" + (m + ("-" + dd)));
  }

  /** Different days have different ISO dates. */
  lemma IsoInjective(a: CalendarDay, b: CalendarDay)
    requires GetISODate(a) == GetISODate(b)
    ensures a == b
  {
    var ya, ma, da := IntToString(a.year), Digits(a.month, 2), Digits(a.day, 2);
    var yb, mb, db := IntToString(b.year), Digits(b.month, 2), Digits(b.day, 2);
    ConcatCancel(ya + "-" + ma + "-", da, yb + "-" + mb + "-", db);
    ConcatCancel(ya + "-" + ma, "-", yb + "-" + mb, "-");
    ConcatCancel(ya + "-", ma, yb + "-", mb);
    ConcatCancel(ya, "-", yb, "-");
    IntToStringInjective(a.year, b.year);
    DigitsInjective(a.month, b.month, 2);
    DigitsInjective(a.day, b.day, 2);
  }

  /** Different days are written differently. */
  lemma IsoDistinct(a: CalendarDay, b: CalendarDay)
    requires a != b
    ensures GetISODate(a) != GetISODate(b)
  {
    if GetISODate(a) == GetISODate(b) {
      IsoInjective(a, b);
    }
  }

  /** For four-digit years, string order of ISO dates is calendar order. */
  lemma IsoOrder(a: CalendarDay, b: CalendarDay)
    requires 1000 <= a.year <= 9999 && 1000 <= b.year <= 9999
    ensures LexLess(GetISODate(a), GetISODate(b)) <==> DayNumber(a) < DayNumber(b)
    ensures LexLe(GetISODate(a), GetISODate(b)) <==> DayNumber(a) <= DayNumber(b)
  {
    IsoFourDigitYear(a);
    IsoFourDigitYear(b);
    var ya, yb := Digits(a.year, 4), Digits(b.year, 4);
    var ma, mb := Digits(a.month, 2), Digits(b.month, 2);
    var da, db := Digits(a.day, 2), Digits(b.day, 2);
    LexLessConcat(ya, "-" + (ma + ("-" + da)), yb, "-" + (mb + ("-" + db)));
    LexLessConcat("-", ma + ("-" + da), "-", mb + ("-" + db));
    LexLessConcat(ma, "-" + da, mb, "-" + db);
    LexLessConcat("-", da, "-", db);
    LexLessIrreflexive("-");
    DigitsOrder(a.year, b.year, 4);
    DigitsOrder(a.month, b.month, 2);
    DigitsOrder(a.day, b.day, 2);
    if ya == yb { DigitsInjective(a.year, b.year, 4); }
    if ma == mb { DigitsInjective(a.month, b.month, 2); }
    DayNumberOrder(a, b);
    LexTrichotomy(GetISODate(a), GetISODate(b));
    if GetISODate(a) == GetISODate(b) {
      IsoInjective(a, b);
    }
  }

  // ---------------------------------------------------------------- week

  /** The shift from the reference day to its Monday: back 6 days on Sunday, else `1 - dow`. */
  function MondayOffset(dow: int): int {
    if dow == 0 then -6 else 1 - dow
  }

  /** The Monday of the reference day's week, reached with `setDate(getDate() + mondayOffset)`. */
  function WeekStart(today: CalendarDay): (monday: CalendarDay)
    ensures Weekday(monday) == 1
    ensures DayNumber(today) - 6 <= DayNumber(monday) <= DayNumber(today)
    ensures DayNumber(monday) == DayNumber(today) - (if Weekday(today) == 0 then 6 else Weekday(today) - 1)
  {
    var w := Weekday(today);
    var offset := MondayOffset(w);
    var monday := SetDate(today, today.day + offset);
    WeekdayShift(today, monday, offset);
    MondayOffsetLandsOnMonday(w);
    monday
  }

  lemma MondayOffsetLandsOnMonday(w: int)
    requires 0 <= w < 7
    ensures (w + MondayOffset(w)) % 7 == 1
    ensures -6 <= MondayOffset(w) <= 0
  {
  }

  /** The Friday four days after the week's Monday, reached with a second `setDate`. */
  function WeekEnd(today: CalendarDay): (friday: CalendarDay)
    ensures Weekday(friday) == 5
    ensures DayNumber(friday) == DayNumber(WeekStart(today)) + 4
  {
    var monday := WeekStart(today);
    var friday := SetDate(monday, monday.day + 4);
    WeekdayShift(monday, friday, 4);
    assert (Weekday(monday) + 4) % 7 == 5 by {
      assert Weekday(monday) == 1;
    }
    friday
  }

  /** The week preset: the ISO dates of the Monday and the Friday, never the same day. */
  function WeekWindow(today: CalendarDay): (w: Window)
    ensures w.start != w.end
  {
    IsoDistinct(WeekStart(today), WeekEnd(today));
    Window(GetISODate(WeekStart(today)), GetISODate(WeekEnd(today)))
  }

  /** `getWeekStartEndISO`: one local date moved twice with `setDate`. */
  method GetWeekStartEndISO(today: CalendarDay) returns (w: Window)
    ensures w == WeekWindow(today)
  {
    var d := today;
    var day := Weekday(d);
    var mondayOffset := if day == 0 then -6 else 1 - day;
    d := SetDate(d, d.day + mondayOffset);
    WeekSteps(today, d);
    var start := GetISODate(d);
    d := SetDate(d, d.day + 4);
    var end := GetISODate(d);
    w := Window(start, end);
  }

  /** The two `setDate` steps reach the Monday and then the Friday. */
  lemma WeekSteps(today: CalendarDay, monday: CalendarDay)
    requires monday == SetDate(today, today.day + (if Weekday(today) == 0 then -6 else 1 - Weekday(today)))
    ensures monday == WeekStart(today)
    ensures SetDate(monday, monday.day + 4) == WeekEnd(today)
    ensures WeekWindow(today) == Window(GetISODate(monday), GetISODate(SetDate(monday, monday.day + 4)))
  {
  }

  /** The reference day lies in its own Monday-to-Friday window exactly on a weekday. */
  lemma WeekContainsReference(today: CalendarDay)
    ensures DayNumber(WeekStart(today)) <= DayNumber(today) <= DayNumber(WeekEnd(today))
            <==> 1 <= Weekday(today) <= 5
  {
  }

  /** With four-digit years the week window is ordered as strings, and holds the reference day iff it is a weekday. */
  lemma WeekWindowAsStrings(today: CalendarDay)
    requires 1001 <= today.year <= 9998
    ensures LexLe(WeekWindow(today).start, WeekWindow(today).end)
    ensures LexLess(WeekWindow(today).start, WeekWindow(today).end)
    ensures (LexLe(WeekWindow(today).start, GetISODate(today)) && LexLe(GetISODate(today), WeekWindow(today).end))
            <==> 1 <= Weekday(today) <= 5
  {
    var monday, friday := WeekStart(today), WeekEnd(today);
    NearbyYear(today, monday);
    NearbyYear(today, friday);
    IsoOrder(monday, friday);
    IsoOrder(monday, today);
    IsoOrder(today, friday);
  }

  /** A day less than a week away from another lies in the same year or a neighbouring one. */
  lemma NearbyYear(a: CalendarDay, b: CalendarDay)
    requires -6 <= DayNumber(b) - DayNumber(a) <= 6
    ensures a.year - 1 <= b.year <= a.year + 1
  {
    if b.year < a.year - 1 {
      DayNumberMonotone(b, Date(a.year - 1, 1, 1));
      YearsMonotone(a.year - 1, a.year);
    } else if b.year > a.year + 1 {
      DayNumberMonotone(Date(a.year + 1, 12, 31), b);
      YearsMonotone(a.year, a.year + 1);
      YearEnd(a.year + 1);
    }
  }

  // ---------------------------------------------------------------- month

  /** `new Date(now.getFullYear(), now.getMonth(), 1)`. */
  function MonthStart(today: CalendarDay): (first: CalendarDay)
    ensures first == Date(ConstructorYear(today.year), today.month, 1)
  {
    assert (today.month - 1) / 12 == 0 && (today.month - 1) % 12 + 1 == today.month;
    NormalizeValid(Date(ConstructorYear(today.year), today.month, 1));
    Construct(today.year, today.month - 1, 1)
  }

  /** `new Date(now.getFullYear(), now.getMonth() + 1, 0)`: day 0 of the next month is the last of this one. */
  function MonthEnd(today: CalendarDay): (last: CalendarDay)
    ensures last == Date(ConstructorYear(today.year), today.month,
                         DaysInMonth(ConstructorYear(today.year), today.month))
  {
    Construct(today.year, today.month, 0)
  }

  /**
   * `getMonthStartEndISO`: the 1st and the last day of the reference month,
   * in the year as the constructor reads it; never the same day.
   */
  function GetMonthStartEndISO(today: CalendarDay): (w: Window)
    ensures var y := ConstructorYear(today.year);
            && w.start == GetISODate(Date(y, today.month, 1))
            && w.end == GetISODate(Date(y, today.month, DaysInMonth(y, today.month)))
    ensures w.start != w.end
  {
    IsoDistinct(MonthStart(today), MonthEnd(today));
    Window(GetISODate(MonthStart(today)), GetISODate(MonthEnd(today)))
  }

  /** Outside the constructor's two-digit-year range, the month window is day 01 to the last day of the reference month. */
  lemma MonthWindowOfReference(today: CalendarDay)
    requires !(0 <= today.year <= 99)
    ensures GetMonthStartEndISO(today).start == GetISODate(Date(today.year, today.month, 1))
    ensures GetMonthStartEndISO(today).end == GetISODate(Date(today.year, today.month, DaysInMonth(today.year, today.month)))
  {
  }

  /** With a four-digit year the month window is ordered as strings and holds the reference day. */
  lemma MonthWindowAsStrings(today: CalendarDay)
    requires 1000 <= today.year <= 9999
    ensures LexLess(GetMonthStartEndISO(today).start, GetMonthStartEndISO(today).end)
    ensures LexLe(GetMonthStartEndISO(today).start, GetISODate(today))
    ensures LexLe(GetISODate(today), GetMonthStartEndISO(today).end)
  {
    IsoOrder(MonthStart(today), MonthEnd(today));
    IsoOrder(MonthStart(today), today);
    IsoOrder(today, MonthEnd(today));
  }

  // ---------------------------------------------------------------- presets

  function PresetsOf(today: CalendarDay): Presets {
    Presets(GetTodayISO(today), WeekWindow(today), GetMonthStartEndISO(today))
  }

  /**
   * What the screens need of the presets to tell them apart: all ISO dates
   * non-empty, neither window a single day, and the week window not the month window.
   */
  predicate Distinguishable(p: Presets) {
    p.today != "" && p.week.start != "" && p.week.end != "" && p.month.start != "" && p.month.end != ""
    && p.week.start != p.week.end && p.month.start != p.month.end
    && (p.week.start != p.month.start || p.week.end != p.month.end)
  }

  /** The presets of every reference day can be told apart. */
  lemma PresetsDistinguishable(today: CalendarDay)
    ensures Distinguishable(PresetsOf(today))
  {
    var p := PresetsOf(today);
    var monday, friday := WeekStart(today), WeekEnd(today);
    var first, last := MonthStart(today), MonthEnd(today);
    if p.week.start == p.week.end {
      IsoInjective(monday, friday);
    }
    if p.month.start == p.month.end {
      IsoInjective(first, last);
    }
    if p.week.start == p.month.start && p.week.end == p.month.end {
      IsoInjective(monday, first);
      IsoInjective(friday, last);
    }
  }

  // ---------------------------------------------------------------- examples

  /** The four digits of 2024. */
  lemma Digits2024()
    ensures Digits(2024, 4) == "2024"
  {
  }

  /** May is written "05". */
  lemma DigitsOfMay()
    ensures Digits(5, 2) == "05"
  {
  }

  /** The two digits of a day number below 100. */
  lemma TwoDigits(n: nat)
    requires n < 100
    ensures Digits(n, 2) == [DigitChar(n / 10), DigitChar(n % 10)]
  {
    var t := n / 10;
    assert t < 10 && t % 10 == t;
    assert Digits(t, 1) == Digits(t / 10, 0) + [DigitChar(t % 10)] == [DigitChar(t)];
    assert Digits(n, 2) == Digits(t, 1) + [DigitChar(n % 10)];
  }

  /** The ISO date of a day of May 2024. */
  lemma IsoOfMay2024(day: int)
    requires 1 <= day <= 31
    ensures GetISODate(Date(2024, 5, day)) == ['2', '0', '2', '4', '-', '0', '5', '-', DigitChar(day / 10), DigitChar(day % 10)]
  {
    Digits2024();
    DigitsOfMay();
    IsoOfDigits(Date(2024, 5, day), "2024", "05");
  }

  /** The ISO date of a day in a four-digit year, given the digits of its year and month. */
  lemma IsoOfDigits(d: CalendarDay, y: string, m: string)
    requires 1000 <= d.year <= 9999 && Digits(d.year, 4) == y && Digits(d.month, 2) == m
    ensures GetISODate(d) == y + "-" + m + "-" + [DigitChar(d.day / 10), DigitChar(d.day % 10)]
  {
    IsoFourDigitYear(d);
    TwoDigits(d.day);
  }

  /** Wednesday 2024-05-15 as `getTodayISO` writes it. */
  lemma WednesdayIso()
    ensures GetISODate(Date(2024, 5, 15)) == "2024-05-15"
  {
    IsoOfMay2024(15);
  }

  /** 2024-05-15 was a Wednesday. */
  lemma WednesdayWeekday()
    ensures Weekday(Date(2024, 5, 15)) == 3
  {
  }

  /** Its Monday is the 13th and its Friday the 17th. */
  lemma WednesdayWeek()
    ensures WeekStart(Date(2024, 5, 15)) == Date(2024, 5, 13) && WeekEnd(Date(2024, 5, 15)) == Date(2024, 5, 17)
  {
    WednesdayWeekday();
  }

  /** May 2024 runs from the 1st to the 31st. */
  lemma MayBounds()
    ensures MonthStart(Date(2024, 5, 15)) == Date(2024, 5, 1) && MonthEnd(Date(2024, 5, 15)) == Date(2024, 5, 31)
  {
  }

  /** 2024-05-12 was a Sunday; its week is the one before, Monday the 6th to Friday the 10th. */
  lemma SundayDates()
    ensures Weekday(Date(2024, 5, 12)) == 0
    ensures WeekStart(Date(2024, 5, 12)) == Date(2024, 5, 6) && WeekEnd(Date(2024, 5, 12)) == Date(2024, 5, 10)
  {
    assert Weekday(Date(2024, 5, 12)) == 0;
  }

  /** The week window of Wednesday 2024-05-15. */
  lemma ExampleWednesdayWeek()
    ensures WeekWindow(Date(2024, 5, 15)) == Window("2024-05-13", "2024-05-17")
  {
    WednesdayWeek();
    WeekWindowOfDays(Date(2024, 5, 15), Date(2024, 5, 13), Date(2024, 5, 17));
    IsoOfMay2024(13);
    IsoOfMay2024(17);
  }

  /** The week window is read off the Monday and the Friday. */
  lemma WeekWindowOfDays(today: CalendarDay, monday: CalendarDay, friday: CalendarDay)
    requires WeekStart(today) == monday && WeekEnd(today) == friday
    ensures WeekWindow(today) == Window(GetISODate(monday), GetISODate(friday))
  {
  }

  /** The month window of Wednesday 2024-05-15. */
  lemma ExampleWednesdayMonth()
    ensures GetMonthStartEndISO(Date(2024, 5, 15)) == Window("2024-05-01", "2024-05-31")
  {
    MayBounds();
    IsoOfMay2024(1);
    IsoOfMay2024(31);
  }

  /** Sunday 2024-05-12 rolls back six days: week 2024-05-06 to 2024-05-10. */
  lemma ExampleSunday()
    ensures Weekday(Date(2024, 5, 12)) == 0
    ensures WeekWindow(Date(2024, 5, 12)) == Window("2024-05-06", "2024-05-10")
  {
    SundayDates();
    IsoOfMay2024(6);
    IsoOfMay2024(10);
  }
}
