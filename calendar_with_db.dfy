/**
 * components/CalendarWithDB.tsx: the main screen. When a new filter arrives
 * it stores it, picks the calendar view that fits the filter's window and
 * asks the calendar to fetch again; the event source sends the filter as
 * query parameters; the client list holds each patient of the loaded events
 * once.
 */
module CalendarWithDB {
  import opened Wrappers
  import opened JsDate
  import opened DateUtils
  import opened FilterButtons
  import opened FilterDropdown
  import opened Types

  // ---------------------------------------------------------------- view choice

  datatype View = TimeGridDay | TimeGridWeek | DayGridMonth

  /** A `changeView(view, anchor?)` call on the calendar. */
  datatype ViewDirective = ViewDirective(view: View, anchor: Option<string>)

  /** The view a filter's window calls for, given the current week and month windows. */
  function ChooseView(f: Filter, week: Window, month: Window): (d: ViewDirective)
    ensures d.anchor.Some? ==> d.anchor == f.start
    ensures d.view == TimeGridDay <==> Truthy(f.start) && Truthy(f.end) && f.start == f.end
  {
    if Truthy(f.start) && Truthy(f.end) then
      if f.start == f.end then ViewDirective(TimeGridDay, f.start)
      else if f.start == Some(week.start) && f.end == Some(week.end) then ViewDirective(TimeGridWeek, f.start)
      else if f.start == Some(month.start) && f.end == Some(month.end) then ViewDirective(DayGridMonth, f.start)
      else ViewDirective(DayGridMonth, None)
    else ViewDirective(DayGridMonth, None)
  }

  /**
   * The four outcomes: a one-day window opens that day (checked before the
   * week and month), the exact week window the week, the exact month window
   * the month at its start, and every other window, or a missing or empty
   * end, the month view without an anchor.
   */
  lemma ChooseViewCases(f: Filter, week: Window, month: Window)
    ensures Truthy(f.start) && f.start == f.end
            ==> ChooseView(f, week, month) == ViewDirective(TimeGridDay, f.start)
    ensures ChooseView(f, week, month).view == TimeGridWeek
            <==> Truthy(f.start) && Truthy(f.end) && f.start != f.end
                 && f.start == Some(week.start) && f.end == Some(week.end)
    ensures ChooseView(f, week, month) == ViewDirective(DayGridMonth, None)
            <==> !Truthy(f.start) || !Truthy(f.end)
                 || (f.start != f.end && !(f.start == Some(week.start) && f.end == Some(week.end))
                     && !(f.start == Some(month.start) && f.end == Some(month.end)))
  {
  }

  /**
   * The screen and the popover read a window alike: the view is the day,
   * week or month view exactly when the select shows "heute", "woche" or
   * "monat", anchored at the window's start, and the unanchored month view
   * when it shows "alles".
   */
  lemma ViewFollowsSelectValue(f: Filter, p: Presets)
    ensures var d := ChooseView(f, p.week, p.month);
            && (SelectValue(f, p) == "heute" <==> d.view == TimeGridDay)
            && (SelectValue(f, p) == "woche" <==> d.view == TimeGridWeek)
            && (SelectValue(f, p) == "monat" <==> d.view == DayGridMonth && d.anchor.Some?)
            && (SelectValue(f, p) == "alles" <==> d == ViewDirective(DayGridMonth, None))
            && (d.anchor.None? <==> SelectValue(f, p) == "alles")
  {
  }

  /**
   * Choosing a preset in the popover opens the matching view at the preset's
   * first day; clearing the range shows the month.
   */
  lemma PresetOpensItsView(f: Filter, value: string, p: Presets)
    requires Distinguishable(p)
    ensures var d := ChooseView(HandleRangeChange(f, value, p), p.week, p.month);
            && (value == "heute" ==> d == ViewDirective(TimeGridDay, Some(p.today)))
            && (value == "woche" ==> d == ViewDirective(TimeGridWeek, Some(p.week.start)))
            && (value == "monat" ==> d == ViewDirective(DayGridMonth, Some(p.month.start)))
            && (value !in {"heute", "woche", "monat"} ==> d == ViewDirective(DayGridMonth, None))
  {
  }

  /** In particular with the presets of any reference day, which the screen and the popover share from year 101 on. */
  lemma PresetOpensItsViewToday(f: Filter, today: CalendarDay)
    ensures var p := PresetsOf(today);
            ChooseView(HandleRangeChange(f, "woche", p), WeekWindow(today), GetMonthStartEndISO(today))
            == ViewDirective(TimeGridWeek, Some(WeekWindow(today).start))
    ensures var p := PresetsOf(today);
            ChooseView(HandleRangeChange(f, "monat", p), WeekWindow(today), GetMonthStartEndISO(today))
            == ViewDirective(DayGridMonth, Some(GetMonthStartEndISO(today).start))
  {
    PresetsDistinguishable(today);
    PresetOpensItsView(f, "woche", PresetsOf(today));
    PresetOpensItsView(f, "monat", PresetsOf(today));
  }

  // ---------------------------------------------------------------- query

  /** The `extraParams` object: each key present or absent. */
  datatype QueryParams = QueryParams(category: Option<seq<string>>, start: Option<string>,
                                     end: Option<string>, client: Option<string>)

  /**
   * `extraParams`: the categories unless none or "all" is selected, and each
   * of start, end and client only when present and non-empty, as they are.
   */
  function ExtraParams(f: Filter): (q: QueryParams)
    ensures q.category.None? <==> |f.categories| == 0 || "all" in f.categories
    ensures q.category.Some? ==> q.category.value == f.categories
    ensures q.start.Some? <==> Truthy(f.start)
    ensures q.end.Some? <==> Truthy(f.end)
    ensures q.client.Some? <==> Truthy(f.client)
    ensures q.start.Some? ==> q.start == f.start
    ensures q.end.Some? ==> q.end == f.end
    ensures q.client.Some? ==> q.client == f.client
  {
    QueryParams(
      if |f.categories| > 0 && "all" !in f.categories then Some(f.categories) else None,
      if Truthy(f.start) then f.start else None,
      if Truthy(f.end) then f.end else None,
      if Truthy(f.client) then f.client else None)
  }

  /** The initial filter, and the one a reset panel would emit, asks for everything. */
  lemma EmptyFilterSendsNothing()
    ensures ExtraParams(Filter([], None, None, OrAbsent(""))) == QueryParams(None, None, None, None)
  {
  }

  /** The popover's range choices reach the query unchanged; any other choice drops both ends. */
  lemma RangeChoiceReachesQuery(f: Filter, value: string, p: Presets)
    requires Distinguishable(p)
    ensures var q := ExtraParams(HandleRangeChange(f, value, p));
            && (value == "heute" ==> q.start == Some(p.today) && q.end == Some(p.today))
            && (value == "woche" ==> q.start == Some(p.week.start) && q.end == Some(p.week.end))
            && (value == "monat" ==> q.start == Some(p.month.start) && q.end == Some(p.month.end))
            && (value !in {"heute", "woche", "monat"} ==> q.start.None? && q.end.None?)
            && q.category == ExtraParams(f).category && q.client == ExtraParams(f).client
  {
  }

  // ---------------------------------------------------------------- client list

  function Ids(ps: seq<Patient>): (ids: set<string>)
    ensures forall i :: 0 <= i < |ps| ==> ps[i].id in ids
  {
    if ps == [] then {} else Ids(ps[..|ps| - 1]) + {ps[|ps| - 1].id}
  }

  /** The ids of the patients joined to some event. */
  function PatientIds(events: seq<Appointment>): set<string> {
    if events == [] then {}
    else
      var p := events[|events| - 1].patient;
      PatientIds(events[..|events| - 1]) + (if p.Some? then {p.value.id} else {})
  }

  /** An id is among the patient ids exactly when some event's patient has it. */
  lemma {:induction false} PatientIdsMembers(events: seq<Appointment>, id: string)
    ensures id in PatientIds(events)
            <==> exists i :: 0 <= i < |events| && events[i].patient.Some? && events[i].patient.value.id == id
  {
    if events != [] {
      var init := events[..|events| - 1];
      PatientIdsMembers(init, id);
      assert forall i :: 0 <= i < |init| ==> init[i] == events[i];
    }
  }

  /**
   * `clientList`: the patients of the events in order, skipping absent ones
   * and any whose id an earlier kept patient already has.
   */
  function Dedupe(events: seq<Appointment>): (clients: seq<Patient>)
    ensures |clients| <= |events|
    ensures forall i :: 0 <= i < |clients| ==> clients[i].id in PatientIds(events)
  {
    if events == [] then []
    else
      var prev := Dedupe(events[..|events| - 1]);
      var p := events[|events| - 1].patient;
      if p.Some? && p.value.id !in Ids(prev) then prev + [p.value] else prev
  }

  /** The `useMemo` pass: a filter over the events with a growing `seen` set of ids. */
  method ClientList(events: seq<Appointment>) returns (clients: seq<Patient>)
    ensures clients == Dedupe(events)
  {
    var seen: set<string> := {};
    clients := [];
    var i := 0;
    while i < |events|
      invariant 0 <= i <= |events|
      invariant clients == Dedupe(events[..i])
      invariant seen == Ids(clients)
    {
      assert events[..i + 1][..i] == events[..i];
      var p := events[i].patient;
      if p.Some? && p.value.id !in seen {
        assert (clients + [p.value])[..|clients|] == clients;
        seen := seen + {p.value.id};
        clients := clients + [p.value];
      }
      i := i + 1;
    }
    assert events[..|events|] == events;
  }

  /** Every patient of an event has its id in the client list, and no other id is there. */
  lemma {:induction false} DedupeIds(events: seq<Appointment>)
    ensures Ids(Dedupe(events)) == PatientIds(events)
  {
    if events != [] {
      var init := events[..|events| - 1];
      DedupeIds(init);
      var prev := Dedupe(init);
      var p := events[|events| - 1].patient;
      if p.Some? && p.value.id !in Ids(prev) {
        assert (prev + [p.value])[..|prev|] == prev;
      }
    }
  }

  predicate DistinctIds(c: seq<Patient>) {
    forall i, j :: 0 <= i < j < |c| ==> c[i].id != c[j].id
  }

  /** No two clients share an id. */
  lemma {:induction false} DedupeDistinct(events: seq<Appointment>)
    ensures DistinctIds(Dedupe(events))
  {
    if events != [] {
      var init := events[..|events| - 1];
      DedupeDistinct(init);
      var prev := Dedupe(init);
      var p := events[|events| - 1].patient;
      if p.Some? && p.value.id !in Ids(prev) {
        var c := prev + [p.value];
        assert Dedupe(events) == c;
        forall i, j | 0 <= i < j < |c|
          ensures c[i].id != c[j].id
        {
          assert c[i] == prev[i];
          if j == |prev| {
            assert c[j] == p.value && prev[i].id in Ids(prev);
          } else {
            assert c[j] == prev[j];
          }
        }
      }
    }
  }

  /** Event `i` carries the first patient with its id. */
  predicate FirstOfItsId(events: seq<Appointment>, i: int)
    requires 0 <= i < |events|
  {
    events[i].patient.Some?
    && forall j :: 0 <= j < i ==> !(events[j].patient.Some? && events[j].patient.value.id == events[i].patient.value.id)
  }

  /** The patients of the events that carry the first patient with its id, in event order. */
  function FirstOccurrences(events: seq<Appointment>, n: nat): seq<Patient>
    requires n <= |events|
  {
    if n == 0 then []
    else FirstOccurrences(events, n - 1) + (if FirstOfItsId(events, n - 1) then [events[n - 1].patient.value] else [])
  }

  /** The client list keeps the first patient of each id, in the order of the events. */
  lemma {:induction false} DedupeKeepsFirstOccurrences(events: seq<Appointment>, n: nat)
    requires n <= |events|
    ensures Dedupe(events[..n]) == FirstOccurrences(events, n)
  {
    if n > 0 {
      var init := events[..n - 1];
      assert events[..n][..n - 1] == init;
      DedupeKeepsFirstOccurrences(events, n - 1);
      DedupeIds(init);
      var p := events[n - 1].patient;
      if p.Some? {
        PatientIdsMembers(init, p.value.id);
        assert forall i :: 0 <= i < |init| ==> init[i] == events[i];
      }
    }
  }

  // ---------------------------------------------------------------- screen

  /** The screen's filter state. */
  class CalendarScreen {
    var filter: Filter

    /** Starts with no category, no window and no client. */
    constructor ()
      ensures filter == Filter([], None, None, None)
    {
      filter := Filter([], None, None, None);
    }

    /**
     * `handleFilterChangeAction`: the new filter replaces the old one; when
     * the calendar is mounted it gets the view for the filter's window,
     * measured against the week and month of `today`, and a refetch.
     */
    method HandleFilterChange(f: Filter, today: CalendarDay, mounted: bool)
      returns (directive: Option<ViewDirective>, refetch: bool)
      modifies this
      ensures filter == f
      ensures mounted ==> directive == Some(ChooseView(f, WeekWindow(today), GetMonthStartEndISO(today)))
      ensures !mounted ==> directive.None?
      ensures refetch == mounted
    {
      filter := f;
      var week := GetWeekStartEndISO(today);
      var month := GetMonthStartEndISO(today);
      if mounted {
        directive := Some(ChooseView(f, week, month));
      } else {
        directive := None;
      }
      refetch := mounted;
    }
  }
}
