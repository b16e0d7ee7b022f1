/**
 * components/FilterButtons.tsx: the `Filter` value every screen exchanges,
 * and the button panel that edits a category selection, a date range and a
 * client name before it emits a `Filter`.
 */
module FilterButtons {
  import opened Wrappers
  import opened DateUtils

  /** `Filter`: selected category ids and optional start, end and client. */
  datatype Filter = Filter(categories: seq<string>, start: Option<string>, end: Option<string>, client: Option<string>)

  /** The panel's `range` state, `{ start?, end? }`. */
  datatype Range = Range(start: Option<string>, end: Option<string>)

  /** JavaScript truthiness of an optional string: `undefined` and `""` are falsy, every other string is truthy. */
  function Truthy(o: Option<string>): (r: bool)
    ensures !r <==> o == None || o == Some("")
  {
    o.Some? && o.value != ""
  }

  /** `text || undefined`: the empty string becomes absent. */
  function OrAbsent(text: string): (r: Option<string>)
    ensures r.None? <==> text == ""
    ensures r.Some? ==> r.value == text
  {
    if text == "" then None else Some(text)
  }

  // ---------------------------------------------------------------- categories

  /** `prev.filter((x) => x !== id)`. */
  function Remove(s: seq<string>, id: string): (r: seq<string>)
    ensures forall x :: x in r <==> x in s && x != id
    ensures |r| <= |s|
    ensures multiset(r) == multiset(s)[id := 0]
  {
    if s == [] then []
    else
      assert s == [s[0]] + s[1..];
      if s[0] == id then Remove(s[1..], id)
      else [s[0]] + Remove(s[1..], id)
  }

  /**
   * `toggleCat`: remove every occurrence of a selected id, keeping every
   * other id with its multiplicity (and, by `RemoveConcat`, its order), or
   * append an unselected one once at the end.
   */
  function Toggled(s: seq<string>, id: string): (r: seq<string>)
    ensures id in r <==> id !in s
    ensures forall x :: x != id ==> (x in r <==> x in s)
    ensures id !in s ==> r == s + [id]
    ensures id in s ==> multiset(r) == multiset(s)[id := 0]
  {
    if id in s then Remove(s, id) else s + [id]
  }

  predicate NoDuplicates(s: seq<string>) {
    forall i, j :: 0 <= i < j < |s| ==> s[i] != s[j]
  }

  /** Filtering keeps the relative order: it distributes over concatenation. */
  lemma {:induction false} RemoveConcat(a: seq<string>, b: seq<string>, id: string)
    ensures Remove(a + b, id) == Remove(a, id) + Remove(b, id)
  {
    if a != [] {
      assert (a + b)[1..] == a[1..] + b;
      RemoveConcat(a[1..], b, id);
    } else {
      assert a + b == b;
    }
  }

  /** Removing an id that does not occur changes nothing. */
  lemma {:induction false} RemoveAbsent(s: seq<string>, id: string)
    requires id !in s
    ensures Remove(s, id) == s
  {
    if s != [] {
      RemoveAbsent(s[1..], id);
    }
  }

  lemma {:induction false} RemoveKeepsNoDuplicates(s: seq<string>, id: string)
    requires NoDuplicates(s)
    ensures NoDuplicates(Remove(s, id))
  {
    if s != [] {
      RemoveKeepsNoDuplicates(s[1..], id);
      assert s[0] !in s[1..];
    }
  }

  /** Toggling keeps a duplicate-free selection duplicate-free. */
  lemma ToggleKeepsNoDuplicates(s: seq<string>, id: string)
    requires NoDuplicates(s)
    ensures NoDuplicates(Toggled(s, id))
  {
    if id in s {
      RemoveKeepsNoDuplicates(s, id);
    }
  }

  /** Toggling an unselected id twice restores the selection. */
  lemma ToggleTwice(s: seq<string>, id: string)
    requires id !in s
    ensures Toggled(Toggled(s, id), id) == s
  {
    RemoveConcat(s, [id], id);
    RemoveAbsent(s, id);
  }

  // ---------------------------------------------------------------- highlights

  /** "Alle" is highlighted while no category is selected, and then no category button is. */
  predicate AllCategoriesHighlighted(selCats: seq<string>)
    ensures AllCategoriesHighlighted(selCats) <==> forall id :: !CategoryHighlighted(selCats, id)
  {
    assert |selCats| > 0 ==> CategoryHighlighted(selCats, selCats[0]);
    |selCats| == 0
  }

  /** A category button is highlighted while its id is selected, and then "Alle" is not. */
  predicate CategoryHighlighted(selCats: seq<string>, id: string)
    ensures CategoryHighlighted(selCats, id) ==> |selCats| > 0
  {
    id in selCats
  }

  /** "Heute" is highlighted for the one-day window of today. */
  predicate TodayHighlighted(r: Range, p: Presets)
    ensures TodayHighlighted(r, p) ==> r.start == r.end && r == Range(Some(p.today), Some(p.today))
  {
    r.start == Some(p.today) && r.end == Some(p.today)
  }

  /** "Diese Woche" is highlighted for exactly the week window, which is never a single day. */
  predicate WeekHighlighted(r: Range, p: Presets)
    ensures WeekHighlighted(r, p) <==> r == Range(Some(p.week.start), Some(p.week.end))
    ensures WeekHighlighted(r, p) && Distinguishable(p) ==> r.start != r.end
  {
    r.start == Some(p.week.start) && r.end == Some(p.week.end)
  }

  /** "Diesen Monat" is highlighted for exactly the month window, which is never a single day. */
  predicate MonthHighlighted(r: Range, p: Presets)
    ensures MonthHighlighted(r, p) <==> r == Range(Some(p.month.start), Some(p.month.end))
    ensures MonthHighlighted(r, p) && Distinguishable(p) ==> r.start != r.end
  {
    r.start == Some(p.month.start) && r.end == Some(p.month.end)
  }

  /** "Alles": `!range.start && !range.end`, each end absent or empty. */
  predicate EverythingHighlighted(r: Range)
    ensures EverythingHighlighted(r) <==> (r.start.None? || r.start == Some("")) && (r.end.None? || r.end == Some(""))
  {
    !Truthy(r.start) && !Truthy(r.end)
  }

  function HighlightCount(r: Range, p: Presets): nat {
    (if TodayHighlighted(r, p) then 1 else 0) + (if WeekHighlighted(r, p) then 1 else 0)
    + (if MonthHighlighted(r, p) then 1 else 0) + (if EverythingHighlighted(r) then 1 else 0)
  }

  /** With presets that can be told apart, at most one range button is highlighted. */
  lemma AtMostOneRangeHighlight(r: Range, p: Presets)
    requires Distinguishable(p)
    ensures HighlightCount(r, p) <= 1
  {
  }

  /** In particular for the presets of any reference day. */
  lemma AtMostOneRangeHighlightToday(r: Range, today: JsDate.CalendarDay)
    ensures HighlightCount(r, PresetsOf(today)) <= 1
  {
    PresetsDistinguishable(today);
    AtMostOneRangeHighlight(r, PresetsOf(today));
  }

  // ---------------------------------------------------------------- the panel

  /** The panel's component state: `selCats`, `range` and `client`. */
  class FilterPanel {
    var selCats: seq<string>
    var range: Range
    var client: string

    /** Initial state: nothing selected, no range, empty client. */
    constructor ()
      ensures selCats == [] && range == Range(None, None) && client == ""
    {
      selCats := [];
      range := Range(None, None);
      client := "";
    }

    method ToggleCat(id: string)
      modifies this
      ensures selCats == Toggled(old(selCats), id)
      ensures CategoryHighlighted(selCats, id) <==> !CategoryHighlighted(old(selCats), id)
      ensures range == old(range) && client == old(client)
    {
      selCats := Toggled(selCats, id);
    }

    /** The "Alle" button clears the category selection. */
    method SelectAllCategories()
      modifies this
      ensures selCats == [] && AllCategoriesHighlighted(selCats)
      ensures range == old(range) && client == old(client)
    {
      selCats := [];
    }

    /** The "Heute" button; `p` holds the ISO dates computed on this render. */
    method ChooseToday(p: Presets)
      modifies this
      ensures range == Range(Some(p.today), Some(p.today))
      ensures TodayHighlighted(range, p) && (Distinguishable(p) ==> HighlightCount(range, p) == 1)
      ensures selCats == old(selCats) && client == old(client)
    {
      range := Range(Some(p.today), Some(p.today));
    }

    /** The "Diese Woche" button. */
    method ChooseWeek(p: Presets)
      modifies this
      ensures range == Range(Some(p.week.start), Some(p.week.end))
      ensures WeekHighlighted(range, p) && (Distinguishable(p) ==> HighlightCount(range, p) == 1)
      ensures selCats == old(selCats) && client == old(client)
    {
      range := Range(Some(p.week.start), Some(p.week.end));
    }

    /** The "Diesen Monat" button. */
    method ChooseMonth(p: Presets)
      modifies this
      ensures range == Range(Some(p.month.start), Some(p.month.end))
      ensures MonthHighlighted(range, p) && (Distinguishable(p) ==> HighlightCount(range, p) == 1)
      ensures selCats == old(selCats) && client == old(client)
    {
      range := Range(Some(p.month.start), Some(p.month.end));
    }

    /** The "Alles" button: `setRange({})`. */
    method ChooseEverything(p: Presets)
      modifies this
      ensures range == Range(None, None)
      ensures EverythingHighlighted(range) && (Distinguishable(p) ==> HighlightCount(range, p) == 1)
      ensures selCats == old(selCats) && client == old(client)
    {
      range := Range(None, None);
    }

    /** The client input's `onChange`. */
    method SetClient(text: string)
      modifies this
      ensures client == text
      ensures selCats == old(selCats) && range == old(range)
    {
      client := text;
    }

    /** `resetFilter`: clears the state and emits nothing. */
    method Reset()
      modifies this
      ensures selCats == [] && range == Range(None, None) && client == ""
    {
      selCats := [];
      range := Range(None, None);
      client := "";
    }

    /** `applyFilter`: the emitted filter; the state is left as it is. */
    method Apply() returns (f: Filter)
      ensures f.categories == selCats
      ensures f.start == range.start && f.end == range.end
      ensures f.client.None? <==> client == ""
      ensures f.client.Some? ==> f.client.value == client
    {
      f := Filter(selCats, range.start, range.end, OrAbsent(client));
    }
  }
}
