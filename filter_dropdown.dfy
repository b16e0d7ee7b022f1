/**
 * components/FilterDropdown.tsx: the filter popover. On each render it works
 * out its own today, week and month windows (its own copy of the date
 * helpers, with the week end found by parsing the week start back), and its
 * handlers update one field of the current `Filter` each. The range select
 * shows a value classified from the filter's window.
 */
module FilterDropdown {
  import opened Wrappers
  import opened Strings
  import opened JsDate
  import opened DateUtils
  import opened FilterButtons

  // ---------------------------------------------------------------- presets

  /** `s.split("-").map(Number)` destructured into `[y, m, dd]`; `None` when one of them is NaN or missing. */
  function ParseIsoTriple(s: string): (r: Option<(nat, nat, nat)>)
    ensures var parts := Split(s, '-');
            r.Some? <==> |parts| >= 3 && AllDigits(parts[0]) && AllDigits(parts[1]) && AllDigits(parts[2])
  {
    var parts := Split(s, '-');
    if |parts| < 3 then None
    else
      match (Number(parts[0]), Number(parts[1]), Number(parts[2]))
      case (Some(y), Some(m), Some(dd)) => Some((y, m, dd))
      case _ => None
  }

  lemma NoDashInDigits(s: string)
    requires AllDigits(s)
    ensures '-' !in s
  {
  }

  /** Splitting three digit strings joined by '-' gives them back. */
  lemma SplitThree(ys: string, ms: string, ds: string)
    requires AllDigits(ys) && AllDigits(ms) && AllDigits(ds)
    ensures Split(ys + "-" + ms + "-" + ds, '-') == [ys, ms, ds]
  {
    assert ys + "-" + ms + "-" + ds == ys + ['-'] + (ms + ['-'] + ds);
    NoDashInDigits(ys);
    NoDashInDigits(ms);
    NoDashInDigits(ds);
    SplitAtSeparator(ys, ms + ['-'] + ds, '-');
    SplitAtSeparator(ms, ds, '-');
    SplitWithoutSeparator(ds, '-');
  }

  /** Parsing the ISO date of a day of year 0 or later recovers its year, month and day. */
  lemma ParseIsoOfDay(d: CalendarDay)
    requires 0 <= d.year
    ensures ParseIsoTriple(GetISODate(d)) == Some((d.year, d.month, d.day))
  {
    var ys, ms, ds := NatToString(d.year), Digits(d.month, 2), Digits(d.day, 2);
    SplitThree(ys, ms, ds);
    assert Split(GetISODate(d), '-') == [ys, ms, ds];
    assert Pow10(2) == 100;
    NumberOfNatToString(d.year);
    NumberOfDigits(d.month, 2);
    NumberOfDigits(d.day, 2);
  }

  /** Outside the two-digit-year range the constructor rebuilds a day from its own parts. */
  lemma ConstructOfParts(d: CalendarDay)
    requires 100 <= d.year
    ensures Construct(d.year, d.month - 1, d.day) == d
  {
    assert (d.month - 1) / 12 == 0 && (d.month - 1) % 12 + 1 == d.month;
    NormalizeValid(d);
  }

  /**
   * From year 101 on, the Monday lies in year 100 or later, the Friday is the
   * Monday moved four days on and the first of the month keeps the year.
   */
  lemma LaterYears(today: CalendarDay)
    requires 101 <= today.year
    ensures 100 <= WeekStart(today).year
    ensures WeekEnd(today) == SetDate(WeekStart(today), WeekStart(today).day + 4)
    ensures MonthStart(today) == Date(today.year, today.month, 1)
  {
    NearbyYear(today, WeekStart(today));
  }

  /** The `weekStartISO` closure: one local date moved back to its Monday. */
  method WeekStartClosure(today: CalendarDay) returns (s: string)
    ensures s == WeekWindow(today).start
  {
    var d := today;
    var day := Weekday(d);
    var mondayOffset := if day == 0 then -6 else 1 - day;
    d := SetDate(d, d.day + mondayOffset);
    assert d == WeekStart(today);
    s := GetISODate(d);
  }

  /** `new Date(y, m - 1, dd)` on the parts of an ISO date; `None` stands for the invalid date NaN parts give. */
  function ParsedDate(iso: string): (r: Option<CalendarDay>)
    ensures r.Some? <==> ParseIsoTriple(iso).Some?
  {
    match ParseIsoTriple(iso)
    case None => None
    case Some((y, m, dd)) => Some(Construct(y, m as int - 1, dd))
  }

  /** From year 100 on, parsing a day's ISO date and building a date from it gives the day back. */
  lemma ParsedDateOfDay(d: CalendarDay)
    requires 100 <= d.year
    ensures ParsedDate(GetISODate(d)) == Some(d)
  {
    ParseIsoOfDay(d);
    BuildOfParts(GetISODate(d), d);
  }

  lemma BuildOfParts(iso: string, d: CalendarDay)
    requires 100 <= d.year
    requires ParseIsoTriple(iso) == Some((d.year, d.month, d.day))
    ensures ParsedDate(iso) == Some(d)
  {
    ConstructOfParts(d);
  }

  /**
   * The `weekEndISO` closure: it parses the week start back, builds a date
   * from the parts and moves it four days on. When the start is the ISO date
   * of a day of year 100 or later, the result is that day plus four days.
   */
  method WeekEndClosure(weekStartISO: string, ghost monday: CalendarDay) returns (s: string)
    ensures weekStartISO == GetISODate(monday) && 100 <= monday.year
            ==> s == GetISODate(SetDate(monday, monday.day + 4))
  {
    var start := ParsedDate(weekStartISO);
    if weekStartISO == GetISODate(monday) && 100 <= monday.year {
      ParsedDateOfDay(monday);
    }
    if start.None? {
      s := "NaN-NaN-NaN";
    } else {
      var e := start.value;
      e := SetDate(e, e.day + 4);
      s := GetISODate(e);
    }
  }

  /** The `monthStartISO` closure: `setDate(1)` on the reference day. */
  method MonthStartClosure(today: CalendarDay) returns (s: string)
    ensures s == GetISODate(Date(today.year, today.month, 1))
  {
    var d := today;
    d := SetDate(d, 1);
    DayNumberOrder(d, Date(today.year, today.month, 1));
    s := GetISODate(d);
  }

  /** The `monthEndISO` closure: the first of the next month, moved back one day. */
  method MonthEndClosure(today: CalendarDay) returns (s: string)
    ensures s == GetMonthStartEndISO(today).end
  {
    var nm := Construct(today.year, today.month - 1 + 1, 1);
    nm := SetDate(nm, nm.day - 1);
    DayNumberOrder(nm, MonthEnd(today));
    s := GetISODate(nm);
  }

  /**
   * The ISO strings the popover computes on a render, with `today` standing
   * for every `new Date()` there. From year 101 on they are the presets of
   * the date helpers; before that the week end can differ, because the
   * constructor reads a parsed year 0 to 99 as 1900 to 1999 and a negative
   * year's leading '-' is split off, and the month start keeps the year while
   * the month end is built with the constructor.
   */
  method DropdownPresets(today: CalendarDay) returns (p: Presets)
    ensures p.today == GetISODate(today)
    ensures p.week.start == WeekWindow(today).start
    ensures p.month.start == GetISODate(Date(today.year, today.month, 1))
    ensures p.month.end == GetMonthStartEndISO(today).end
    ensures 101 <= today.year ==> p == PresetsOf(today)
  {
    var todayISO := GetISODate(today);
    var weekStartISO := WeekStartClosure(today);
    var weekEndISO := WeekEndClosure(weekStartISO, WeekStart(today));
    var monthStartISO := MonthStartClosure(today);
    var monthEndISO := MonthEndClosure(today);
    p := Presets(todayISO, Window(weekStartISO, weekEndISO), Window(monthStartISO, monthEndISO));
    if 101 <= today.year {
      LaterYears(today);
      assert p.week == WeekWindow(today) && p.month == GetMonthStartEndISO(today);
    }
  }

  // ---------------------------------------------------------------- handlers

  /** `handleCategoryChange`: the selected options become the categories; nothing else changes. */
  function HandleCategoryChange(filter: Filter, selected: seq<string>): (r: Filter)
    ensures r.categories == selected
    ensures r.start == filter.start && r.end == filter.end && r.client == filter.client
  {
    filter.(categories := selected)
  }

  /** `handleRangeChange`: a preset choice becomes the window; nothing else changes. */
  function HandleRangeChange(filter: Filter, value: string, p: Presets): (r: Filter)
    ensures r.categories == filter.categories && r.client == filter.client
    ensures value == "heute" ==> r.start == Some(p.today) && r.end == Some(p.today)
    ensures value == "woche" ==> r.start == Some(p.week.start) && r.end == Some(p.week.end)
    ensures value == "monat" ==> r.start == Some(p.month.start) && r.end == Some(p.month.end)
    ensures value !in {"heute", "woche", "monat"} ==> r.start.None? && r.end.None?
  {
    if value == "heute" then filter.(start := Some(p.today), end := Some(p.today))
    else if value == "woche" then filter.(start := Some(p.week.start), end := Some(p.week.end))
    else if value == "monat" then filter.(start := Some(p.month.start), end := Some(p.month.end))
    else filter.(start := None, end := None)
  }

  /** `handleClientChange`: the typed text becomes the client, an empty text an absent one. */
  function HandleClientChange(filter: Filter, text: string): (r: Filter)
    ensures r.client.None? <==> text == ""
    ensures r.client.Some? ==> r.client.value == text
    ensures r.categories == filter.categories && r.start == filter.start && r.end == filter.end
  {
    filter.(client := OrAbsent(text))
  }

  // ---------------------------------------------------------------- classifier

  /** The range select's `value`: which choice the filter's window shows as. */
  function SelectValue(filter: Filter, p: Presets): (v: string)
    ensures v in {"heute", "woche", "monat", "alles"}
  {
    if Truthy(filter.start) && Truthy(filter.end) then
      if filter.start == filter.end then "heute"
      else if filter.start == Some(p.week.start) && filter.end == Some(p.week.end) then "woche"
      else if filter.start == Some(p.month.start) && filter.end == Some(p.month.end) then "monat"
      else "alles"
    else "alles"
  }

  /**
   * What each shown value means: "heute" for every one-day window, today or
   * not; "woche" and "monat" only on exact equality of both ends with a
   * window of more than one day; "alles" for everything else, in particular
   * a missing or empty end.
   */
  lemma SelectValueMeaning(filter: Filter, p: Presets)
    ensures SelectValue(filter, p) == "heute"
            <==> Truthy(filter.start) && filter.start == filter.end
    ensures SelectValue(filter, p) == "woche"
            <==> Truthy(filter.start) && Truthy(filter.end) && filter.start != filter.end
                 && filter.start == Some(p.week.start) && filter.end == Some(p.week.end)
    ensures SelectValue(filter, p) == "monat"
            ==> filter.start == Some(p.month.start) && filter.end == Some(p.month.end)
    ensures !Truthy(filter.start) || !Truthy(filter.end) ==> SelectValue(filter, p) == "alles"
  {
  }

  /** Choosing a preset and classifying the resulting window gives the choice back; any other choice shows as "alles". */
  lemma RangeRoundTrip(filter: Filter, value: string, p: Presets)
    requires Distinguishable(p)
    ensures value in {"heute", "woche", "monat"} ==> SelectValue(HandleRangeChange(filter, value, p), p) == value
    ensures value !in {"heute", "woche", "monat"} ==> SelectValue(HandleRangeChange(filter, value, p), p) == "alles"
  {
  }

  /** The round trip holds for the presets of every reference day. */
  lemma RangeRoundTripToday(filter: Filter, value: string, today: CalendarDay)
    requires value in {"heute", "woche", "monat"}
    ensures SelectValue(HandleRangeChange(filter, value, PresetsOf(today)), PresetsOf(today)) == value
  {
    PresetsDistinguishable(today);
    RangeRoundTrip(filter, value, PresetsOf(today));
  }

  /**
   * The select and the panel's buttons agree on a window: the week and month
   * choices show exactly when their buttons are highlighted, "heute" shows
   * whenever the "Heute" button is, and "alles" whenever the "Alles" button is.
   */
  lemma SelectAgreesWithHighlights(filter: Filter, p: Presets)
    requires Distinguishable(p)
    ensures var r := Range(filter.start, filter.end);
            && (SelectValue(filter, p) == "woche" <==> WeekHighlighted(r, p))
            && (SelectValue(filter, p) == "monat" <==> MonthHighlighted(r, p))
            && (TodayHighlighted(r, p) ==> SelectValue(filter, p) == "heute")
            && (EverythingHighlighted(r) ==> SelectValue(filter, p) == "alles")
  {
  }
}
