/**
 * components/DashboardSidebar.tsx: the summary beside the calendar. It
 * counts the loaded events, counts the "important" ones and shows the next
 * event: the first of the events after `now` once they are sorted by start.
 */
module DashboardSidebar {
  import opened Wrappers
  import opened Types

  /** `activeCount`: one per loaded event, zero exactly when none is loaded. */
  function ActiveCount(events: seq<Appointment>): (n: nat)
    ensures n == 0 <==> events == []
    ensures n == |events|
  {
    |events|
  }

  // ---------------------------------------------------------------- next event

  /** `events.filter((e) => new Date(e.start) > now)`: a copy holding the later events in order. */
  function Upcoming(events: seq<Appointment>, now: int): (r: seq<Appointment>)
    ensures |r| <= |events|
    ensures forall e :: e in r <==> e in events && e.start > now
  {
    if events == [] then []
    else
      var last := events[|events| - 1];
      Upcoming(events[..|events| - 1], now) + (if last.start > now then [last] else [])
  }

  predicate SortedByStart(s: seq<Appointment>) {
    forall i, j :: 0 <= i < j < |s| ==> s[i].start <= s[j].start
  }

  /** Puts `x` after every element that does not start later, so equal starts keep their order. */
  function Insert(x: Appointment, s: seq<Appointment>): (r: seq<Appointment>)
    requires SortedByStart(s)
    ensures |r| == |s| + 1
    ensures r[0] == x || (|s| > 0 && r[0] == s[0])
    ensures SortedByStart(r)
    ensures multiset(r) == multiset(s) + multiset{x}
  {
    if s == [] then [x]
    else if x.start < s[0].start then [x] + s
    else
      var rest := Insert(x, s[1..]);
      assert s == [s[0]] + s[1..];
      SortedCons(s[0], rest);
      [s[0]] + rest
  }

  lemma SortedCons(h: Appointment, rest: seq<Appointment>)
    requires SortedByStart(rest) && |rest| > 0 && h.start <= rest[0].start
    ensures SortedByStart([h] + rest)
  {
    var r := [h] + rest;
    forall i, j | 0 <= i < j < |r|
      ensures r[i].start <= r[j].start
    {
      if i == 0 {
        assert r[j] == rest[j - 1];
      } else {
        assert r[i] == rest[i - 1] && r[j] == rest[j - 1];
      }
    }
  }

  /**
   * `.sort((a, b) => a.start - b.start)`: a stable sort by start, written as
   * an insertion sort that adds the events in input order.
   */
  function SortByStart(s: seq<Appointment>): (r: seq<Appointment>)
    ensures SortedByStart(r)
    ensures multiset(r) == multiset(s)
  {
    if s == [] then []
    else
      assert s == s[..|s| - 1] + [s[|s| - 1]];
      Insert(s[|s| - 1], SortByStart(s[..|s| - 1]))
  }

  /**
   * `sort(...)[0] || null`: the head of the sorted copy of the later events;
   * null exactly when no event starts after `now`, otherwise one that does.
   * `NextEventSpec` adds that it has the smallest start.
   */
  function NextEvent(events: seq<Appointment>, now: int): (r: Option<Appointment>)
    ensures r.None? <==> forall e :: e in events ==> e.start <= now
    ensures r.Some? ==> r.value in events && r.value.start > now
  {
    var u := Upcoming(events, now);
    var sorted := SortByStart(u);
    assert |sorted| == |u| by {
      assert |multiset(sorted)| == |multiset(u)|;
    }
    assert |u| > 0 ==> u[0] in u;
    assert |sorted| > 0 ==> sorted[0] in multiset(u);
    if |sorted| == 0 then None else Some(sorted[0])
  }

  /** The first element of `s` with the smallest start. */
  function EarliestFirst(s: seq<Appointment>): (r: Appointment)
    requires |s| > 0
    ensures r in s
    ensures forall i :: 0 <= i < |s| ==> r.start <= s[i].start
  {
    if |s| == 1 then s[0]
    else
      var h := EarliestFirst(s[..|s| - 1]);
      if s[|s| - 1].start < h.start then s[|s| - 1] else h
  }

  /** The head of the stable sort is the first element with the smallest start. */
  lemma {:induction false} SortHead(s: seq<Appointment>)
    requires |s| > 0
    ensures SortByStart(s)[0] == EarliestFirst(s)
  {
    if |s| > 1 {
      var init := s[..|s| - 1];
      SortHead(init);
      var sorted := SortByStart(init);
      assert |sorted| == |init| by {
        assert |multiset(sorted)| == |multiset(init)|;
      }
    }
  }

  /**
   * Event `i` is the earliest event after `now`, and every event after `now`
   * before it in the list starts strictly after it.
   */
  predicate EarliestAt(events: seq<Appointment>, now: int, i: nat) {
    i < |events| && |Upcoming(events, now)| > 0 && events[i] == EarliestFirst(Upcoming(events, now))
    && forall j :: 0 <= j < i && events[j].start > now ==> events[j].start > events[i].start
  }

  /** The earliest later event is the first event with its start among the events after `now`. */
  lemma {:induction false} EarliestIsFirst(events: seq<Appointment>, now: int) returns (i: nat)
    requires |Upcoming(events, now)| > 0
    ensures EarliestAt(events, now, i)
    decreases |events|, 1
  {
    var init := events[..|events| - 1];
    var last := events[|events| - 1];
    var u := Upcoming(init, now);
    if last.start > now && (|u| == 0 || last.start < EarliestFirst(u).start) {
      i := |events| - 1;
      EarliestIsLast(events, now);
    } else {
      i := EarliestInInit(events, now);
    }
  }

  /** When the last event is not a new earliest one, the earliest later event is found among the others. */
  lemma {:induction false} EarliestInInit(events: seq<Appointment>, now: int) returns (i: nat)
    requires |Upcoming(events, now)| > 0
    requires var u := Upcoming(events[..|events| - 1], now);
             events[|events| - 1].start <= now || (|u| > 0 && events[|events| - 1].start >= EarliestFirst(u).start)
    ensures EarliestAt(events, now, i)
    decreases |events|, 0
  {
    var init := events[..|events| - 1];
    EarliestUnchanged(events, now);
    i := EarliestIsFirst(init, now);
    EarliestAtPrefix(events, now, i);
  }

  /** Under the same condition, the earliest later event of all the events is that of the others. */
  lemma EarliestUnchanged(events: seq<Appointment>, now: int)
    requires |Upcoming(events, now)| > 0
    requires var u := Upcoming(events[..|events| - 1], now);
             events[|events| - 1].start <= now || (|u| > 0 && events[|events| - 1].start >= EarliestFirst(u).start)
    ensures |Upcoming(events[..|events| - 1], now)| > 0
    ensures EarliestFirst(Upcoming(events, now)) == EarliestFirst(Upcoming(events[..|events| - 1], now))
  {
    var u := Upcoming(events[..|events| - 1], now);
    var last := events[|events| - 1];
    if last.start > now {
      var all := u + [last];
      assert Upcoming(events, now) == all;
      assert |all| > 1 && all[..|all| - 1] == u && all[|all| - 1] == last;
      assert !(last.start < EarliestFirst(u).start);
      assert EarliestFirst(all) == EarliestFirst(u);
    } else {
      assert Upcoming(events, now) == u + [];
      assert Upcoming(events, now) == u;
    }
  }

  /** An earliest position among the others stays one once the last event is added, if the earliest event is unchanged. */
  lemma EarliestAtPrefix(events: seq<Appointment>, now: int, i: nat)
    requires |events| > 0 && |Upcoming(events, now)| > 0
    requires EarliestAt(events[..|events| - 1], now, i)
    requires EarliestFirst(Upcoming(events, now)) == EarliestFirst(Upcoming(events[..|events| - 1], now))
    ensures EarliestAt(events, now, i)
  {
    var init := events[..|events| - 1];
    assert events[i] == init[i];
    assert forall j :: 0 <= j < i ==> events[j] == init[j];
  }

  /** When the last event starts after `now` and before every other later event, it is the earliest one. */
  lemma EarliestIsLast(events: seq<Appointment>, now: int)
    requires |events| > 0
    requires var u := Upcoming(events[..|events| - 1], now);
             events[|events| - 1].start > now && (|u| == 0 || events[|events| - 1].start < EarliestFirst(u).start)
    ensures EarliestAt(events, now, |events| - 1)
  {
    var init := events[..|events| - 1];
    var last := events[|events| - 1];
    var u := Upcoming(init, now);
    var all := u + [last];
    assert Upcoming(events, now) == all;
    assert all[..|all| - 1] == u;
    forall j | 0 <= j < |events| - 1 && events[j].start > now
      ensures events[j].start > last.start
    {
      assert init[j] in u;
    }
  }

  /**
   * `nextEvent` is null exactly when no event starts after `now`; otherwise
   * it is an event after `now` with the smallest start among those, and the
   * first such event in input order.
   */
  lemma NextEventSpec(events: seq<Appointment>, now: int)
    ensures NextEvent(events, now).None? <==> forall e :: e in events ==> e.start <= now
    ensures NextEvent(events, now).Some? ==>
              var e := NextEvent(events, now).value;
              && e in events && e.start > now
              && (forall j :: 0 <= j < |events| && events[j].start > now ==> e.start <= events[j].start)
              && exists i :: 0 <= i < |events| && events[i] == e
                             && forall j :: 0 <= j < i && events[j].start > now ==> events[j].start > e.start
  {
    var u := Upcoming(events, now);
    var sorted := SortByStart(u);
    assert |sorted| == |u| by {
      assert |multiset(sorted)| == |multiset(u)|;
    }
    if |u| > 0 {
      SortHead(u);
      var i := EarliestIsFirst(events, now);
      assert EarliestAt(events, now, i);
      forall j | 0 <= j < |events| && events[j].start > now
        ensures sorted[0].start <= events[j].start
      {
        assert events[j] in u;
      }
    } else {
      assert forall e :: e in events ==> e.start <= now;
    }
  }

  // ---------------------------------------------------------------- important

  predicate IsImportant(e: Appointment) {
    e.category == Some("important")
  }

  /** `events.filter((e) => e.category === "important")`: each important event once per occurrence, in order. */
  function Important(events: seq<Appointment>): (r: seq<Appointment>)
    ensures |r| <= |events|
    ensures forall e :: e in r <==> e in events && IsImportant(e)
    ensures forall e :: multiset(r)[e] == if IsImportant(e) then multiset(events)[e] else 0
  {
    if events == [] then []
    else
      var init, last := events[..|events| - 1], events[|events| - 1];
      assert events == init + [last];
      Important(init) + (if IsImportant(last) then [last] else [])
  }

  /** The positions of the important events. */
  function ImportantIndices(events: seq<Appointment>): set<nat> {
    set i: nat | i < |events| && IsImportant(events[i])
  }

  /** `importantCount`: the number of positions holding an important event; zero exactly when there is none. */
  function ImportantCount(events: seq<Appointment>): (n: nat)
    ensures n == |ImportantIndices(events)|
    ensures n == 0 <==> forall e :: e in events ==> !IsImportant(e)
  {
    var imp := Important(events);
    assert |imp| > 0 ==> imp[0] in imp;
    ImportantLength(events);
    |imp|
  }

  /** The filtered list has one element per important position. */
  lemma {:induction false} ImportantLength(events: seq<Appointment>)
    ensures |Important(events)| == |ImportantIndices(events)|
  {
    if events != [] {
      var init, k := events[..|events| - 1], |events| - 1;
      ImportantLength(init);
      IndicesStep(events);
    }
  }

  /** Dropping the last event drops its position from the important positions, if it held one. */
  lemma IndicesStep(events: seq<Appointment>)
    requires events != []
    ensures var k := |events| - 1;
            ImportantIndices(events)
            == ImportantIndices(events[..k]) + (if IsImportant(events[k]) then {k} else {})
  {
    var k := |events| - 1;
    var init := events[..k];
    forall i: nat | i < k
      ensures i in ImportantIndices(events) <==> i in ImportantIndices(init)
    {
      assert init[i] == events[i];
    }
  }

  /** The count of important events never exceeds the count of all events, and equals it only when all are important. */
  lemma ImportantWithinActive(events: seq<Appointment>)
    ensures ImportantCount(events) <= ActiveCount(events)
    ensures ImportantCount(events) == ActiveCount(events)
            <==> forall i :: 0 <= i < |events| ==> IsImportant(events[i])
  {
    IndicesWithin(events);
  }

  /** There are at most as many important positions as positions, and as many only when every event is important. */
  lemma {:induction false} IndicesWithin(events: seq<Appointment>)
    ensures |ImportantIndices(events)| <= |events|
    ensures |ImportantIndices(events)| == |events|
            <==> forall i :: 0 <= i < |events| ==> IsImportant(events[i])
  {
    if events != [] {
      var init, k := events[..|events| - 1], |events| - 1;
      IndicesWithin(init);
      IndicesStep(events);
      var before := ImportantIndices(init);
      assert k !in before;
      assert |ImportantIndices(events)| == |before| + (if IsImportant(events[k]) then 1 else 0);
      if |ImportantIndices(events)| == |events| {
        assert IsImportant(events[k]) && |before| == |init|;
        forall i | 0 <= i < k
          ensures IsImportant(events[i])
        {
          assert init[i] == events[i];
        }
      } else if IsImportant(events[k]) {
        assert |before| != |init|;
        var j :| 0 <= j < k && !IsImportant(init[j]);
        assert events[j] == init[j];
      }
    }
  }
}
