# Calendar filter and dashboard logic, modelled in Dafny

This project models the client-side logic of a practice calendar (Next.js /
React, German user interface). It covers five parts:

- **Date helpers** (`lib/dateUtils.ts`): today's ISO date `YYYY-MM-DD`, the
  Monday-to-Friday window of the current week and the first-to-last-day
  window of the current month. They are built on JavaScript's `Date`
  (`getDay`, `setDate`, the constructor `new Date(y, monthIndex, day)`).
  The `Date` arithmetic itself is modelled explicitly, in module `JsDate`,
  over the proleptic Gregorian calendar with day numbers.
- **The filter** (`components/FilterButtons.tsx`):
  - `Filter` holds category ids plus an optional start, end and client.
  - The button panel keeps `selCats`, `range` and `client` as component
    state and edits them before it emits a `Filter`.
  - It also decides which buttons are highlighted.
- **The filter popover** (`components/FilterDropdown.tsx`):
  - It keeps its own copy of the date helpers. Its week end is found by
    parsing the week start back with `split("-").map(Number)`.
  - It has three handlers, one per filter field.
  - It classifies a filter's window as the select value "heute", "woche",
    "monat" or "alles".
- **The calendar screen** (`components/CalendarWithDB.tsx`):
  - On a new filter it stores it, picks the calendar view and anchor that
    fit the window, and asks for a refetch.
  - It sends the filter as query parameters (`extraParams`).
  - It builds the list of clients: each patient of the loaded events once,
    first occurrence kept.
- **The new-appointment form and the sidebar**:
  - `components/EventModal.tsx`: seven text fields. The name fields are
    letters only. "Hinzufügen" runs the required-field check, then the
    start/end order check. Closing the modal clears the form.
  - `components/DashboardSidebar.tsx`: the number of events, the number of
    "important" events, and the next event (the head of the later events
    sorted by start).

The clock (`new Date()`) is a parameter `today`/`now` everywhere. State that
the components update in place is modelled as classes: `FilterPanel`,
`CalendarScreen` and `NewAppointmentForm`. Their methods change their fields.
The local `Date` that `getWeekStartEndISO` and the popover's closures mutate
is modelled in methods. `GetWeekStartEndISO`, `WeekStartClosure`,
`MonthStartClosure` and `MonthEndClosure` are proved equal to a specification
function for every reference day. `WeekEndClosure` is proved equal to the
Monday plus four days only when its input is the ISO date of a day from
year 100 on. `DropdownPresets` is proved equal to the date helpers' presets
only from year 101 on.

Modules: `Wrappers` (Option), `Strings` (`String(n)`, `padStart`, `split`,
`Number`, string `<`), `JsDate`, `DateUtils`, `Types`, `FilterButtons`,
`FilterDropdown`, `CalendarWithDB`, `EventModal`, `DashboardSidebar`.

## Model

| member | source | states |
|---|---|---|
| JsDate.SetDate | lib/dateUtils.ts:16-18 | `setDate(dd)` moves the date by exactly `dd - getDate()` days, across month and year ends |
| JsDate.Normalize | lib/dateUtils.ts:16-18 | an out-of-range day of a month rolls into earlier or later months; the result is a valid calendar day whose day number is the month's first day plus `day - 1` |
| JsDate.Construct | lib/dateUtils.ts:26-27 | `new Date(y, monthIndex, dd)` denotes the valid day `dd - 1` days after the first of the month; the month index rolls over into other years, and years 0 to 99 are read as 1900 to 1999 |
| JsDate.DayNumberOrder | lib/dateUtils.ts:13-18 | day numbers identify calendar days, and their order is calendar order |
| JsDate.WeekdayShift | lib/dateUtils.ts:13-16 | moving a date by `k` days moves `getDay()` by `k` modulo 7 |
| JsDate.NormalizeValid | lib/dateUtils.ts:26 | normalising a day that lies in its month changes nothing |
| JsDate.Weekday | lib/dateUtils.ts:13 | `getDay()` lies in 0 to 6; WeekdayShift states how it moves with the date |
| Strings.PadStart | lib/dateUtils.ts:3 | `padStart` yields the target width, keeps the string as the suffix and fills the front with the pad character |
| Strings.PadTwoDigits | lib/dateUtils.ts:3 | `String(n).padStart(2, "0")` is the last two digits of a month or day number |
| Strings.NatToString | lib/dateUtils.ts:3 | `String(n)` of a natural number is a non-empty string of decimal digits |
| Strings.NatToStringNoLeadingZero | lib/dateUtils.ts:3 | `String(n)` starts with '0' only for 0 |
| Strings.IntToString | lib/dateUtils.ts:3 | the template literal's `${getFullYear()}` is non-empty and starts with '-' exactly for a negative year |
| Strings.Number | components/FilterDropdown.tsx:41 | `Number` gives a number exactly for a string of decimal digits, the empty string included |
| Strings.Split | components/FilterDropdown.tsx:41 | `split("-")` gives at least one part, no part contains the separator, and a string without it comes back whole |
| Strings.NumberOfNatToString | components/FilterDropdown.tsx:41 | `Number(String(n))` gives back `n` |
| Strings.SplitAtSeparator | components/FilterDropdown.tsx:41 | `split` cuts at the first separator when the first part holds none |
| Strings.IntToStringInjective | lib/dateUtils.ts:3 | different years are written differently |
| Strings.LexTrichotomy | components/EventModal.tsx:78 | exactly one of `a < b`, `a == b`, `b < a` holds, and `<=` is `<` or equal |
| Strings.LexLess | components/EventModal.tsx:78 | string `<` never holds between equal strings, and a proper prefix is smaller |
| Strings.LexTransitive | components/EventModal.tsx:78 | string `<` is transitive, so with LexTrichotomy it is a strict total order |
| DateUtils.GetISODate | lib/dateUtils.ts:2-3 | the ISO date is `String(year)`, '-', the two-digit month, '-', the two-digit day |
| DateUtils.GetTodayISO | lib/dateUtils.ts:6-8 | today's ISO date is the ISO date of the reference day |
| DateUtils.IsoFourDigitYear | lib/dateUtils.ts:2-3 | for a four-digit year the ISO date is ten characters with '-' at positions 4 and 7 |
| DateUtils.IsoInjective | lib/dateUtils.ts:2-3 | different days have different ISO dates |
| DateUtils.IsoOrder | lib/dateUtils.ts:2-3 | for four-digit years, string `<` and `<=` on ISO dates are calendar order |
| DateUtils.MondayOffsetLandsOnMonday | lib/dateUtils.ts:15 | the offset `day === 0 ? -6 : 1 - day` lands on a Monday and never moves forward |
| DateUtils.WeekStart | lib/dateUtils.ts:12-16 | the week start is a Monday 0 to 6 days before the reference day: 6 back on Sunday, `getDay() - 1` back otherwise |
| DateUtils.WeekEnd | lib/dateUtils.ts:18 | the week end is a Friday exactly four days after the week start |
| DateUtils.GetWeekStartEndISO | lib/dateUtils.ts:11-21 | the mutating computation returns the ISO dates of that Monday and Friday |
| DateUtils.WeekWindow | lib/dateUtils.ts:11-21 | the week preset's start and end are never the same date |
| DateUtils.WeekContainsReference | lib/dateUtils.ts:11-21 | the reference day lies within its Monday-to-Friday window exactly when it is a weekday |
| DateUtils.WeekWindowAsStrings | lib/dateUtils.ts:11-21 | for reference years 1001 to 9998, start < end as strings, and start <= today <= end as strings exactly on weekdays |
| DateUtils.MonthStart | lib/dateUtils.ts:26 | the month start is the 1st of the reference month, in the year as the constructor reads it |
| DateUtils.MonthEnd | lib/dateUtils.ts:27 | day 0 of the next month is the last day of the reference month (year as the constructor reads it), leap Februaries included |
| DateUtils.MonthWindowOfReference | lib/dateUtils.ts:24-29 | outside years 0 to 99 the month window is the 1st to the last day of the reference month's own year |
| DateUtils.GetMonthStartEndISO | lib/dateUtils.ts:24-29 | the month window is the ISO dates of the 1st and the last day of the reference month, in the year as the constructor reads it, and never a single day |
| DateUtils.MonthWindowAsStrings | lib/dateUtils.ts:24-29 | with four-digit years, start < end as strings and the reference day lies between them |
| DateUtils.PresetsDistinguishable | components/FilterButtons.tsx:30-32 | the presets are non-empty; neither window is a single day; the week window is never the month window |
| DateUtils.WednesdayIso | lib/dateUtils.ts:6-8 | 2024-05-15 is written "2024-05-15" |
| DateUtils.ExampleWednesdayWeek | lib/dateUtils.ts:11-21 | the week of Wednesday 2024-05-15 is 2024-05-13 to 2024-05-17 |
| DateUtils.ExampleWednesdayMonth | lib/dateUtils.ts:24-29 | the month of 2024-05-15 is 2024-05-01 to 2024-05-31 |
| DateUtils.ExampleSunday | lib/dateUtils.ts:11-21 | Sunday 2024-05-12 belongs to the week 2024-05-06 to 2024-05-10 |
| FilterButtons.OrAbsent | components/FilterButtons.tsx:44 | `client \|\| undefined` is absent exactly for the empty text and the text otherwise |
| FilterButtons.Truthy | components/FilterButtons.tsx:130 | an optional string is falsy exactly when it is `undefined` or empty |
| FilterButtons.Remove | components/FilterButtons.tsx:36 | the filtered selection holds exactly the other ids |
| FilterButtons.Toggled | components/FilterButtons.tsx:34-37 | after a toggle the id is selected iff it was not; an unselected id is appended once at the end; a selected id loses every occurrence while every other id keeps its multiplicity |
| FilterButtons.RemoveConcat | components/FilterButtons.tsx:36 | filtering keeps relative order: it distributes over concatenation |
| FilterButtons.ToggleKeepsNoDuplicates | components/FilterButtons.tsx:34-37 | toggling keeps a duplicate-free selection duplicate-free |
| FilterButtons.ToggleTwice | components/FilterButtons.tsx:34-37 | toggling an unselected id twice restores the selection, order included |
| FilterButtons.AllCategoriesHighlighted | components/FilterButtons.tsx:68 | "Alle" is highlighted iff no category button is |
| FilterButtons.CategoryHighlighted | components/FilterButtons.tsx:81 | a highlighted category button means the selection is not empty |
| FilterButtons.TodayHighlighted | components/FilterButtons.tsx:97 | "Heute" is highlighted only for the one-day window of today |
| FilterButtons.WeekHighlighted | components/FilterButtons.tsx:108 | "Diese Woche" is highlighted iff the range is the week window, which with distinguishable presets is never one day |
| FilterButtons.MonthHighlighted | components/FilterButtons.tsx:119 | "Diesen Monat" is highlighted iff the range is the month window, which with distinguishable presets is never one day |
| FilterButtons.EverythingHighlighted | components/FilterButtons.tsx:130 | "Alles" is highlighted iff each end is absent or empty |
| FilterButtons.AtMostOneRangeHighlight | components/FilterButtons.tsx:97-130 | with distinguishable presets at most one of the four range buttons is highlighted |
| FilterButtons.AtMostOneRangeHighlightToday | components/FilterButtons.tsx:97-130 | the same for the presets of every reference day |
| FilterButtons.FilterPanel.constructor | components/FilterButtons.tsx:26-28 | the panel starts with no category, no range and an empty client |
| FilterButtons.FilterPanel.ToggleCat | components/FilterButtons.tsx:34-37 | the selection becomes the toggled one, so the category's button (line 81) flips its highlight; range and client are unchanged |
| FilterButtons.FilterPanel.SelectAllCategories | components/FilterButtons.tsx:65-68 | "Alle" empties the selection and is then highlighted |
| FilterButtons.FilterPanel.ChooseToday | components/FilterButtons.tsx:94-97 | "Heute" sets both ends to today and is then the only highlighted range button |
| FilterButtons.FilterPanel.ChooseWeek | components/FilterButtons.tsx:105-108 | "Diese Woche" sets the week window and is then the only highlighted range button |
| FilterButtons.FilterPanel.ChooseMonth | components/FilterButtons.tsx:116-119 | "Diesen Monat" sets the month window and is then the only highlighted range button |
| FilterButtons.FilterPanel.ChooseEverything | components/FilterButtons.tsx:127-130 | "Alles" clears the range and is then the only highlighted range button |
| FilterButtons.FilterPanel.SetClient | components/FilterButtons.tsx:145 | the client input replaces the client text only |
| FilterButtons.FilterPanel.Reset | components/FilterButtons.tsx:48-52 | reset restores the initial state |
| FilterButtons.FilterPanel.Apply | components/FilterButtons.tsx:39-46 | the emitted filter carries the selection and range unchanged, and the client unless it is empty |
| FilterDropdown.ParseIsoOfDay | components/FilterDropdown.tsx:41 | splitting an ISO date of a year from 0 on at '-' and reading the parts as numbers gives back year, month and day |
| FilterDropdown.ParseIsoTriple | components/FilterDropdown.tsx:41 | the destructured `[y, m, dd]` are all numbers iff the split gives at least three parts whose first three are digit strings |
| FilterDropdown.ParsedDate | components/FilterDropdown.tsx:41-42 | a date is built exactly when the three parts are numbers |
| FilterDropdown.ParsedDateOfDay | components/FilterDropdown.tsx:41-42 | from year 100 on, parsing a day's ISO date and building a date from the parts gives the day back |
| FilterDropdown.WeekStartClosure | components/FilterDropdown.tsx:33-39 | the popover's week start equals the date helpers' week start |
| FilterDropdown.WeekEndClosure | components/FilterDropdown.tsx:40-45 | given the ISO date of a Monday of year 100 or later, the week end is the ISO date four days after that Monday |
| FilterDropdown.MonthStartClosure | components/FilterDropdown.tsx:48-52 | `setDate(1)` gives the 1st of the reference month, year kept |
| FilterDropdown.MonthEndClosure | components/FilterDropdown.tsx:53-58 | the first of the next month moved back one day equals the date helpers' month end |
| FilterDropdown.DropdownPresets | components/FilterDropdown.tsx:29-58 | the popover's five ISO dates; from year 101 on they are exactly the date helpers' presets |
| FilterDropdown.HandleCategoryChange | components/FilterDropdown.tsx:61-66 | the selected options become the categories; nothing else changes |
| FilterDropdown.HandleRangeChange | components/FilterDropdown.tsx:67-86 | each choice sets its preset window; any other value clears both ends; categories and client are kept |
| FilterDropdown.HandleClientChange | components/FilterDropdown.tsx:87-91 | the client becomes the text, or absent for the empty text; nothing else changes |
| FilterDropdown.SelectValue | components/FilterDropdown.tsx:132-142 | the shown value is one of the four choices |
| FilterDropdown.SelectValueMeaning | components/FilterDropdown.tsx:132-142 | "heute" iff a non-empty one-day window (today or not); "woche" iff exactly the week window of more than one day; "monat" only for the month window; "alles" whenever an end is missing or empty |
| FilterDropdown.RangeRoundTrip | components/FilterDropdown.tsx:67-142 | choosing a preset and classifying the resulting filter gives the choice back; any other value shows as "alles" |
| FilterDropdown.RangeRoundTripToday | components/FilterDropdown.tsx:67-142 | the round trip holds for the presets of every reference day |
| FilterDropdown.SelectAgreesWithHighlights | components/FilterDropdown.tsx:132-142 | the popover and the panel agree: "woche"/"monat" shown iff their buttons are highlighted; "Heute" highlighted implies "heute"; "Alles" highlighted implies "alles" |
| CalendarWithDB.ChooseView | components/CalendarWithDB.tsx:143-152 | a view's anchor is always the filter's start; the day view is chosen iff the window is one non-empty day |
| CalendarWithDB.ChooseViewCases | components/CalendarWithDB.tsx:143-152 | the four outcomes: day view at the day, week view iff the exact week window of more than one day, month view at the start for the exact month window, unanchored month view otherwise |
| CalendarWithDB.ViewFollowsSelectValue | components/CalendarWithDB.tsx:143-152 | the screen's view and the popover's select value classify every window alike |
| CalendarWithDB.PresetOpensItsView | components/CalendarWithDB.tsx:143-152 | a popover preset opens its view at the preset's first day; clearing the range opens the month without an anchor |
| CalendarWithDB.PresetOpensItsViewToday | components/CalendarWithDB.tsx:37-38 | with the screen's own week and month windows, the week and month presets open the week and month views |
| CalendarWithDB.ExtraParams | components/CalendarWithDB.tsx:272-279 | categories are sent unless none or "all" is selected; start, end and client are sent exactly when non-empty, unchanged |
| CalendarWithDB.EmptyFilterSendsNothing | components/CalendarWithDB.tsx:29 | the initial filter sends no parameter |
| CalendarWithDB.RangeChoiceReachesQuery | components/CalendarWithDB.tsx:272-279 | a popover range choice reaches the query unchanged; categories and client parameters are unaffected |
| CalendarWithDB.ClientList | components/CalendarWithDB.tsx:96-105 | the loop with its `seen` set computes the deduplicated client list |
| CalendarWithDB.Dedupe | components/CalendarWithDB.tsx:96-105 | never more clients than events, each client carrying the id of some event's patient |
| CalendarWithDB.DedupeIds | components/CalendarWithDB.tsx:96-105 | the client list's ids are exactly the ids of the events' patients |
| CalendarWithDB.PatientIdsMembers | components/CalendarWithDB.tsx:100-103 | an id is a patient id iff some event's patient has it |
| CalendarWithDB.DedupeDistinct | components/CalendarWithDB.tsx:96-105 | no two clients share an id |
| CalendarWithDB.DedupeKeepsFirstOccurrences | components/CalendarWithDB.tsx:96-105 | the list holds the first patient of each id, in event order |
| CalendarWithDB.CalendarScreen.constructor | components/CalendarWithDB.tsx:29 | the screen starts with the empty filter |
| CalendarWithDB.CalendarScreen.HandleFilterChange | components/CalendarWithDB.tsx:139-156 | the filter is replaced; a mounted calendar gets the chosen view for the current week and month and a refetch; an unmounted one gets neither |
| EventModal.Validate | components/EventModal.tsx:70-81 | no error exactly when all five required fields are filled and the end, if given, is not before the start (both directions); any error is the required-field or the order message |
| EventModal.IsAsciiLetters | components/EventModal.tsx:49 | `/^[A-Za-z]*$/` accepts a string iff each of its characters is one of the 52 ASCII letters, so no digit or space passes |
| EventModal.StartAfterEnd | components/EventModal.tsx:78 | for two values in the input's format, the start is after the end iff it neither equals nor precedes it; a start after the end is never equal to it |
| EventModal.EndAndNotesOptional | components/EventModal.tsx:73-78 | end and notes may be empty |
| EventModal.OrderCheck | components/EventModal.tsx:78-80 | with both times in the input's format, the form is accepted iff the end equals or follows the start, and the order error is raised iff the end lies before the start |
| EventModal.RequiredFirst | components/EventModal.tsx:73-76 | a missing required field is reported before the order is checked |
| EventModal.NewAppointmentForm.constructor | components/EventModal.tsx:23-30 | the form starts empty, without an error |
| EventModal.NewAppointmentForm.ChangeFirstname | components/EventModal.tsx:47-56 | a letters-only value is taken; any other keeps the name and sets the name error; names stay letters only |
| EventModal.NewAppointmentForm.ChangeLastname | components/EventModal.tsx:58-67 | the same for the last name |
| EventModal.NewAppointmentForm.SetTitle | components/EventModal.tsx:115 | the title takes any text; nothing else changes |
| EventModal.NewAppointmentForm.SetStart | components/EventModal.tsx:137 | the start takes any text; nothing else changes |
| EventModal.NewAppointmentForm.SetEnd | components/EventModal.tsx:144 | the end takes any text; nothing else changes |
| EventModal.NewAppointmentForm.SetNotes | components/EventModal.tsx:151 | the notes take any text; nothing else changes |
| EventModal.NewAppointmentForm.SetCategory | components/EventModal.tsx:157 | the category takes any text; nothing else changes |
| EventModal.NewAppointmentForm.Add | components/EventModal.tsx:70-84 | the error becomes the validation outcome; when valid, all seven fields are handed on and closing is requested; the handed-on names are letters only |
| EventModal.NewAppointmentForm.SyncOpen | components/EventModal.tsx:33-44 | closing the modal empties every field and clears the error |
| DashboardSidebar.Upcoming | components/DashboardSidebar.tsx:24 | the later events are exactly the events that start after `now` |
| DashboardSidebar.NextEvent | components/DashboardSidebar.tsx:21-31 | null iff no event starts after `now`; otherwise an event that starts after `now` |
| DashboardSidebar.Insert | components/DashboardSidebar.tsx:25-29 | inserting keeps the list sorted by start and is a permutation plus the new event |
| DashboardSidebar.SortByStart | components/DashboardSidebar.tsx:25-29 | the sort is sorted by start and a permutation of its input |
| DashboardSidebar.EarliestFirst | components/DashboardSidebar.tsx:25-29 | the first earliest element is in the list and starts no later than any other |
| DashboardSidebar.SortHead | components/DashboardSidebar.tsx:25-29 | the stable sort's head is the first element with the smallest start |
| DashboardSidebar.EarliestIsFirst | components/DashboardSidebar.tsx:21-31 | the earliest later event sits at an index before which every later event starts strictly after it |
| DashboardSidebar.NextEventSpec | components/DashboardSidebar.tsx:21-31 | `nextEvent` is null iff no event starts after `now`; otherwise it is an event after `now` with the smallest start, the first such in input order |
| DashboardSidebar.Important | components/DashboardSidebar.tsx:34 | each event whose category is "important" is kept once per occurrence, and no other event is kept |
| DashboardSidebar.ActiveCount | components/DashboardSidebar.tsx:19 | the number of loaded events; zero iff no event is loaded |
| DashboardSidebar.ImportantCount | components/DashboardSidebar.tsx:33-36 | the number of positions whose event is important; zero iff no event is important |
| DashboardSidebar.ImportantWithinActive | components/DashboardSidebar.tsx:19-36 | `importantCount <= activeCount`, with equality iff every event is important |
| DashboardSidebar.ImportantLength | components/DashboardSidebar.tsx:34-35 | the filtered list is exactly as long as the number of important positions |

## Left out

- Rendering, styling, the theme toggle, the modals' open/close wiring, FullCalendar itself, and all network requests (the Supabase-backed API routes and the holiday calendar source). The calendar's `changeView` and `refetchEvents` calls become the returned directive and flag of `CalendarScreen.HandleFilterChange`.
- CalendarWithDB.CalendarScreen.HandleFilterChange: the optional chaining `api?.` is modelled as the parameter `mounted`.
- The clock: every `new Date()` is the parameter `today` (or `now`). Time of day, time zones and daylight saving are not modelled; a `Date` is its local calendar day.
- `Number` is modelled only on digit strings, the only strings the date code hands it. Other strings give NaN (`None`).
- DateUtils.IsoOrder: proved for four-digit years only. Other years are written with other widths, and there string order and calendar order differ.
- DateUtils.WeekWindowAsStrings: proved for reference years 1001 to 9998 only, so that the Monday and the Friday also have four-digit years; other widths break the string order as above.
- DateUtils.MonthWindowAsStrings: proved for four-digit years only, for the same reason.
- FilterDropdown.DropdownPresets: agreement with the date helpers is proved from year 101 on only. Before that, the constructor reads a parsed year 0 to 99 as 1900 to 1999, and a negative year's leading '-' is split off. In years 0 to 99 the popover's month start also keeps the year while its month end does not.
- EventModal.StartAfterEnd: `new Date(start) > new Date(end)` is modelled for values of the `datetime-local` shape `YYYY-MM-DDTHH:MM`, compared as strings. Shape-conforming values out of range (a 13th month, say), which the input does not produce, are compared too; any other value counts as an invalid date, so the comparison is false. Because local time zones are not modelled, a start that falls into a daylight-saving gap is not shifted. For example, `new Date("…T02:30")` on a spring-forward day resolves to 03:30, so the code rejects an end of `…T03:15` that the string order accepts.
- DashboardSidebar: appointment starts are modelled as integer timestamps. Parsing the ISO strings with `new Date(e.start)` is not part of this model, and an unparseable start, which `>` would drop, is not represented.
- DashboardSidebar: the comparator sort is modelled as a stable insertion sort. Only its head is used, and any correct sort yields a head with the smallest start. The proved "first in input order" relies on the sort being stable, which JavaScript guarantees.
- No check rejects a filter whose start lies after its end; none is modelled.
- Strings.LexLess: compares characters as Unicode scalar values, while JavaScript's `<` compares UTF-16 code units. The two orders differ only above U+FFFF; every string compared here is ASCII.
- The editing modals, the category and patient fetches, and the API route handlers are not part of this model.
