# Daily planner, attendance, steps and CSR register — a verified model

This project models the list, date and time logic of a small React planner
application in Dafny. It covers five parts of the application:

- **The daily planner** (`src/pages/Index.tsx`, with the event type of
  `src/types/daily.ts`). Events are added with a supplied id, updated by id,
  rescheduled in place, and deleted by id. Its statistics panel counts events
  for today, for this week, per status and per category.
- **The trip schedule grid** (`src/components/CalendarGrid.tsx`, with the
  event type of `src/types/travel.ts`). It lists every day from the trip's
  start through its end, and each day lists that day's events in the order
  the event list holds them.
- **The attendance register** (`src/pages/AttendancePage.tsx`). It covers:
  - the worked time computed from check-in and check-out clock times;
  - the `"Nh Mm"` total and the sum over the shown records;
  - the `YYYY-MM` month key and the month options;
  - the one-record-per-date submit guard;
  - the month and status filters;
  - deletion.
- **The step tracker** (`src/pages/DailySteps.tsx`). It covers the add guard,
  deletion, and the start of the current week, month or year. It also covers
  the cumulative steps of that period and the trend table: by day for a
  week, by week of the month, by month of the year.
- **The CSR register** (`src/pages/CSRPage.tsx`). It covers loading with a
  per-field migration and appending the form. It also covers an editing
  session of one record, deletion by position, and a filter on financial
  year and NGO.

How the model is laid out:

- **Dates are day numbers.** Day 0 is Monday 0001-01-01 of the proleptic
  Gregorian calendar. `Calendar.Civil` recovers year, month and day, and
  `Calendar.Weekday` counts Sunday as 0, as `getDay()` does.
- **Clock times are minutes since midnight**, parsed from `HH:MM`.
- **"Now" and ids are parameters.** The current day, the current time of day
  and the `Date.now()` id are passed in.
- **Shared helpers live in two modules.** `Seqs` holds the sequence helpers:
  `Filter`, removal and replacement at a position, and the n-th match.
  `Text` holds decimal strings, `padStart`, and JavaScript's string order.
- **One module per page**, shaped like its source:
  - list updaters that return a new array are functions;
  - loops and in-place updates are methods, each proved equal to a
    specification function. The loops (`SumTotalMinutes`, `GetDaysInTrip`,
    `FindSteps`, `WeekTable`, `GroupTable`) carry loop invariants. The
    in-place updates of a local variable (`CalculateTotalTime`,
    `GetPeriodStart`) and the panel that calls the loops (`Trend`) have none;
  - the CSR page's editing state is the class `Csr.CsrSession`.

The trip grid's day bucket is only a filter (`src/components/CalendarGrid.tsx:34-36`):
no sort by start time is applied. `TripCalendar.EventsForDate` therefore
keeps input order, and `TripCalendar.EventsForDateKeepsOrder` proves it.

## Model

| member | source | states |
|---|---|---|
| DailyEvents.WithId | src/types/daily.ts:2-15 | The event built from a draft carries the supplied id and every field of the draft. |
| DailyEvents.AddEvent | src/pages/Index.tsx:26-31 | Adding appends exactly one event at the end. It carries the draft's fields and the supplied id, and the earlier events are unchanged. A fresh id keeps ids unique. |
| DailyEvents.UpdateEvent | src/pages/Index.tsx:39-42 | Updating keeps the length. Each event whose id equals the updated event's id becomes the updated event, and every other event is unchanged. |
| DailyEvents.UpdateKeepsIds | src/pages/Index.tsx:39-42 | Updating keeps the id list and so unique ids. It is a no-op when the id is absent, and otherwise the updated event is in the list. |
| DailyEvents.RescheduleEvent | src/pages/Index.tsx:49-64 | Matching events get the new date, start time and end time and status `scheduled`. Their lineage is recorded in `originalEventId`. Id, title, description, location, category, priority and notes are kept. Other events and the length are unchanged. |
| DailyEvents.RescheduleTwiceKeepsLineage | src/pages/Index.tsx:58 | A second reschedule leaves `originalEventId` equal to the value the first set. That value is the earlier non-empty `originalEventId`, or else the event's own id. |
| DailyEvents.RescheduleNeverSetsRescheduled | src/pages/Index.tsx:57 | After a reschedule, every event with status `rescheduled` is one the reschedule did not touch. A moved completed or cancelled event comes back `scheduled`. |
| DailyEvents.RescheduleKeepsIds | src/pages/Index.tsx:49-64 | Rescheduling keeps the id list. |
| DailyEvents.DeleteEvent | src/pages/Index.tsx:72-73 | No event with the id remains, and the length drops by the number of matches. An absent id changes nothing. |
| DailyEvents.DeleteAbsentIsNoop | src/pages/Index.tsx:72-73 | Deleting an id that no event has returns the list unchanged. |
| DailyEvents.DeleteKeepsOthers | src/pages/Index.tsx:72-73 | An event is in the result exactly when it was in the list and has a different id. |
| DailyEvents.DeleteKeepsOrder | src/pages/Index.tsx:72-73 | Deletion distributes over concatenation, so the survivors keep their relative order. |
| DailyEvents.Stats | src/pages/Index.tsx:86-97 | Each count is the number of events that are on today's day, in the Sunday-to-Saturday week of today, `scheduled`, or `completed`. It follows that today ≤ this week ≤ total and scheduled + completed ≤ total. |
| DailyEvents.ThisWeekIsSameWeek | src/pages/Index.tsx:91-94 | An event is in this week's window exactly when its week starts on the same Sunday as today's. |
| DailyEvents.CategoryCounts | src/pages/Index.tsx:159-160 | There is one count per listed category, each the number of events of that category. The six counts plus the unlisted `other` events make up the total. |
| DailyEvents.CategoryPartition | src/pages/Index.tsx:159-160 | The seven categories partition the events: their counts sum to the number of events. |
| DailyEvents.AsWrittenWindowSkipsSunday | src/pages/Index.tsx:20-24 | With the window's bounds at the current time of day, and that time past midnight, the window as written holds only Monday to Saturday. An event on the week's Sunday is outside it but inside the intended week. |
| DailyEvents.SundayEventMissedAsWritten | src/pages/Index.tsx:86-94 | Take a Sunday at 10:00 and an event on that day. The event is counted for today and for the intended week, but the as-written week count is 0. |
| Calendar.WeekStart | src/pages/Index.tsx:21-22 | `today - getDay()`: the result is a Sunday, on or before the day and less than 7 days before it. |
| Calendar.SameWeek | src/pages/Index.tsx:21-24 | Two days share a week start exactly when the first lies in the seven days from the second's week start. |
| TripCalendar.TripDays | src/components/CalendarGrid.tsx:22-32 | The trip has end − start + 1 days when start ≤ end and none otherwise; entry i is start + i. |
| TripCalendar.TripDaysShape | src/components/CalendarGrid.tsx:24-29 | The list is empty when the start is after the end. Otherwise it starts at the start day and ends at the end day, and each entry is one day after the previous. |
| TripCalendar.GetDaysInTrip | src/components/CalendarGrid.tsx:22-32 | The inclusive `while` loop returns exactly `TripDays`. |
| TripCalendar.EventsForDate | src/components/CalendarGrid.tsx:34-36 | The bucket holds exactly the events of the day: every entry is on that day, and an event is in it iff it is in the list and on that day. |
| TripCalendar.EventsForDateKeepsOrder | src/components/CalendarGrid.tsx:34-36 | The bucket distributes over concatenation, so it keeps input order and applies no sort. |
| TripCalendar.EventInOneBucket | src/components/CalendarGrid.tsx:22-36 | An event inside the trip appears in the bucket of exactly one trip day. An event outside the trip appears in none. |
| TripCalendar.BucketsPartitionTrip | src/components/CalendarGrid.tsx:34-45 | The bucket sizes over all trip days sum to the number of events inside the trip, and so to at most the number of events. |
| TripCalendar.SplitFirstDay | src/components/CalendarGrid.tsx:26-29 | The events inside the trip are those of its first day plus those of the rest of the trip. |
| Attendance.ClockMinutes | src/pages/AttendancePage.tsx:38-41 | An `HH:MM` time is a minute of the day, below 1440. |
| Attendance.CalculateTotalTime | src/pages/AttendancePage.tsx:36-47 | The result is empty when either time is empty. Otherwise it is `"Nh Mm"` for the minutes from check-in to check-out, with 1440 added when that is negative. |
| Attendance.ElapsedBounds | src/pages/AttendancePage.tsx:42-46 | The elapsed minutes lie in 0..1439: `out − in`, or `out − in + 1440` overnight. Hours are at most 23 and minutes at most 59, and equal times give `"0h 0m"`. |
| Attendance.DigitRunEnd | src/pages/AttendancePage.tsx:63 | `\d+` consumes exactly the maximal run of digits. |
| Attendance.SpaceRunEnd | src/pages/AttendancePage.tsx:63 | `\s*` consumes exactly the maximal run of white space. |
| Attendance.MatchJoined | src/pages/AttendancePage.tsx:63-65 | `MatchDuration` models the regular expression `(\d+)h\s*(\d+)m`. A string `<digits>h <digits>m` matches it with exactly those hours and minutes. |
| Attendance.FormatThenMatch | src/pages/AttendancePage.tsx:63-76 | `FormatHoursMinutes` models `formatMinutesToHhMm`. Parsing its output for `t` with `MatchDuration` gives back `t / 60` hours and `t % 60` minutes. |
| Attendance.SumTotalMinutes | src/pages/AttendancePage.tsx:59-70 | The `for` loop returns `TotalMinutes`, the sum of `h*60 + m` over the matching totals. Records whose total is empty or does not match add 0, and the sum is never negative. |
| Attendance.TotalMinutesAppend | src/pages/AttendancePage.tsx:59-70 | The total of two lists joined is the sum of their totals. |
| Attendance.SingleRecordRoundTrip | src/pages/AttendancePage.tsx:63-76 | A record whose total is `formatMinutesToHhMm(t)` sums to `t`. |
| Attendance.ShiftRoundTrip | src/pages/AttendancePage.tsx:36-70 | A record holding the total computed from its own clock times sums to the wrapped difference of those times. |
| Attendance.TwoDigits | src/pages/AttendancePage.tsx:51 | The month is written with exactly two digits. |
| Attendance.TwoDigitsIsPadded | src/pages/AttendancePage.tsx:51 | The two-digit month is `String(m).padStart(2, "0")`. |
| Attendance.TwoDigitsValue | src/pages/AttendancePage.tsx:51 | The two digits read back as the month number. |
| Attendance.JoinInjective | src/pages/AttendancePage.tsx:51 | When the second part has two characters, `a + "-" + b` determines a and b. |
| Attendance.MonthLabelInjective | src/pages/AttendancePage.tsx:49-52 | Two month labels are equal iff they have the same year and the same month. |
| Attendance.MonthLabelShape | src/pages/AttendancePage.tsx:49-52 | A label is the decimal year, a dash, then two digits. |
| Attendance.MonthKeyShape | src/pages/AttendancePage.tsx:49-52 | `MonthKey` models `getMonthYear`. A record's month key ends in a dash and two digits, which are its calendar month. |
| Attendance.MonthKeySameMonth | src/pages/AttendancePage.tsx:49-52 | Two dates have the same month key iff they are in the same calendar year and month. |
| Attendance.DescendingPairs | src/pages/AttendancePage.tsx:56 | In a list that is descending step by step, every earlier entry is greater than every later one. |
| Attendance.InsertDescending | src/pages/AttendancePage.tsx:55-56 | Inserting a key keeps the list strictly descending. Its members are the old ones plus the key. |
| Attendance.DistinctDescending | src/pages/AttendancePage.tsx:55-56 | The result is strictly descending and has exactly the members of the input. |
| Attendance.MonthOptions | src/pages/AttendancePage.tsx:54-57 | The options are exactly the records' month keys, each once, in descending string order. |
| Attendance.MonthChoices | src/pages/AttendancePage.tsx:116 | With no records the only option is today's month. Otherwise the options are the records' months. |
| Attendance.Submit | src/pages/AttendancePage.tsx:151-157 | A submit for a date that already has a record changes nothing. Otherwise the new record goes in front of the others. |
| Attendance.SubmitKeepsDatesUnique | src/pages/AttendancePage.tsx:151-157 | Submitting keeps one record per date, and afterwards the date has a record. |
| Attendance.FilteredRecords | src/pages/AttendancePage.tsx:118-121 | Every shown record matches the selected month (unless `"all"`) and status (unless `"all"`). A record is shown iff it is in the list and matches. With both filters `"all"` the list is unchanged. |
| Attendance.FilteredRecordsKeepsOrder | src/pages/AttendancePage.tsx:118-121 | The filter distributes over concatenation, so it keeps record order. |
| Attendance.MonthFilterIsCalendarMonth | src/pages/AttendancePage.tsx:118-121 | Filtering by a date's month key shows exactly the records of that calendar month that match the status filter. |
| Seqs.RemoveAt | src/pages/AttendancePage.tsx:129-131 | `handleDelete(idx)` of the attendance and step pages, `filter((_, i) => i !== idx)`. An in-range index removes exactly that element: the length drops by one and the others keep their order. An out-of-range index changes nothing. |
| Seqs.RemoveAtMultiset | src/pages/DailySteps.tsx:46-48 | Deleting at an in-range index takes exactly one occurrence of that record out of the multiset of records. |
| Attendance.DeleteAsWrittenRemovesHiddenRecord | src/pages/AttendancePage.tsx:129-131 | With a status filter active, deleting shown row 0 removes a hidden record and leaves the shown one. |
| Attendance.DeleteShown | src/pages/AttendancePage.tsx:129-131 | Deleting shown row `idx` removes exactly that row from the filtered table. The records the filters hide are unchanged, and the list shrinks by one iff `idx` is a shown row. |
| Attendance.DeleteKeepsDatesUnique | src/pages/AttendancePage.tsx:129-131 | Deleting by position of the full list (`RemoveAt`, as written) and deleting a shown row (`DeleteShown`) both keep one record per date. |
| Steps.Add | src/pages/DailySteps.tsx:34-44 | An entry is refused when the date is marked or the steps are blank or negative, and then nothing changes. Otherwise exactly one record `{date, steps}` is put in front. |
| Steps.AddKeepsInvariant | src/pages/DailySteps.tsx:34-44 | Adding keeps one record per date and no negative steps. An accepted entry marks its date. |
| Steps.DeleteKeepsInvariant | src/pages/DailySteps.tsx:46-48 | Deleting keeps one record per date and no negative steps, and it frees the deleted date. |
| Steps.PeriodStart | src/pages/DailySteps.tsx:54-69 | The result is never after the day. For a week it is the Sunday of the day's week. For a month it is day 1 of the day's month, and for a year 1 January of the day's year. |
| Steps.GetPeriodStart | src/pages/DailySteps.tsx:54-69 | The method that steps a date back returns `PeriodStart`. |
| Steps.SumAppend | src/pages/DailySteps.tsx:80 | The sum over two lists joined is the sum of their sums. |
| Steps.SumNonNegative | src/pages/DailySteps.tsx:80 | With no negative steps stored, the sum is never negative. |
| Steps.CumulativeSteps | src/pages/DailySteps.tsx:72-80 | `CumulativeSteps` is the sum over the records that `InPeriod` keeps, those dated from the period start through today. It is never negative when no stored steps are negative. |
| Steps.CumulativeAfterAdd | src/pages/DailySteps.tsx:34-80 | An accepted entry raises the cumulative steps by its steps exactly when its date lies in the period. |
| Steps.CumulativeAfterDelete | src/pages/DailySteps.tsx:46-80 | Deleting a record lowers the cumulative steps by its steps exactly when its date lies in the period. |
| Steps.StepsOnRecorded | src/pages/DailySteps.tsx:90-93 | `StepsOn` models `records.find(r => r.date === dateStr)` read as `rec ? rec.steps : 0`. With one record per date, a recorded date shows that record's steps. |
| Steps.StepsOnMissing | src/pages/DailySteps.tsx:90-93 | A date without a record shows 0. |
| Steps.FindSteps | src/pages/DailySteps.tsx:90-93 | The search loop returns the first matching record's steps, or 0. |
| Steps.WeekTable | src/pages/DailySteps.tsx:84-95 | The week table has exactly 7 rows. Row i is for day periodStart + i and shows `StepsOn` for that day. |
| Steps.Tally | src/pages/DailySteps.tsx:105 | Adding steps under a label keeps the labels in first-insertion order, appending a new label at the end. It raises the grand total by the steps. |
| Steps.TallyPerLabel | src/pages/DailySteps.tsx:105 | Adding steps under a label raises that label's total by the steps and leaves every other label's total unchanged. |
| Steps.GroupTable | src/pages/DailySteps.tsx:96-119 | The `forEach` loop over the records returns `Grouping` of the records that `InPeriod` keeps. `Grouping` tallies the records in list order into `{label: steps}` buckets. |
| Steps.GroupingStep | src/pages/DailySteps.tsx:99-107 | One step of the loop: the grouping of a longer prefix is the previous grouping with the next record tallied, if it is in the period. |
| Steps.GroupingTotal | src/pages/DailySteps.tsx:96-119 | The bucket totals sum to the total steps of the grouped records. |
| Steps.GroupingKeys | src/pages/DailySteps.tsx:96-119 | A label has a bucket iff some grouped record's date has that label. |
| Steps.GroupingDistinct | src/pages/DailySteps.tsx:105-108 | No label has two buckets. |
| Steps.GroupingPerLabel | src/pages/DailySteps.tsx:105 | Each bucket's total is the sum of the steps of the records with its label. |
| Steps.GroupingLast | src/pages/DailySteps.tsx:105 | Grouping a list adds the last record's steps to its label's total and no other. |
| Steps.SumFilterLast | src/pages/DailySteps.tsx:74-80 | The sum over a filtered list grows by the last record's steps exactly when that record passes the filter. |
| Steps.WeekOfMonth | src/pages/DailySteps.tsx:103 | `floor((day-1)/7)+1` lies in 1..5. |
| Steps.MonthOf | src/pages/DailySteps.tsx:115 | A date's month lies in 1..12. |
| Steps.MonthTableTotals | src/pages/DailySteps.tsx:80-108 | The month table's totals sum to the month's cumulative steps, and its labels are weeks 1 to 5. |
| Steps.YearTableTotals | src/pages/DailySteps.tsx:109-119 | The year table's totals sum to the year's cumulative steps, and its labels are months 1 to 12. |
| Steps.Trend | src/pages/DailySteps.tsx:72-120 | The trend panel holds the period's cumulative steps and the table for that period. A week gives seven day rows, a month its weeks' buckets, and a year its months' buckets. |
| Calendar.MonthStart | src/pages/DailySteps.tsx:63 | `new Date(year, month, 1)`: the first of the day's month, at most 30 days earlier. |
| Calendar.YearStartOf | src/pages/DailySteps.tsx:66 | `new Date(year, 0, 1)`: 1 January of the day's year, at most 365 days earlier. |
| Csr.Migrate | src/pages/CSRPage.tsx:63-76 | A migrated record always has a truthy phase and project. Location and the three dates are each truthy or the empty string. |
| Csr.MigrateRoundTrip | src/pages/CSRPage.tsx:63-76 | A migrated record, stored and migrated again, is unchanged. |
| Csr.MigrateIdempotent | src/pages/CSRPage.tsx:63-76 | Migrating twice, with a store in between, is the same as migrating once. |
| Csr.DefaultFormIsMigrated | src/pages/CSRPage.tsx:43-56 | The form's default record already has the migrated shape, and migration leaves it unchanged. |
| Csr.Load | src/pages/CSRPage.tsx:57-80 | No entry, unparsable text or a non-array value loads as the empty list. An element whose properties cannot be read empties the list too. Otherwise every stored element is migrated, in order, with the count kept. |
| Csr.Save | src/pages/CSRPage.tsx:93-95 | Storing writes an array with one element per record. |
| Csr.LoadAfterSave | src/pages/CSRPage.tsx:57-95 | A saved list of migrated records loads back unchanged. |
| Csr.LoadIdempotent | src/pages/CSRPage.tsx:57-95 | Saving what was loaded and loading again gives the same list. |
| Csr.FilteredEvents | src/pages/CSRPage.tsx:172-175 | Every shown record matches the year (unless `"all"`) and the NGO (unless `"all"`). A record is shown iff it is in the list and matches. With both `"all"` the list is unchanged. |
| Csr.FilteredEventsKeepsOrder | src/pages/CSRPage.tsx:172-175 | The filter distributes over concatenation, so it keeps record order. |
| Csr.CsrSession.constructor | src/pages/CSRPage.tsx:43-87 | The page starts with the loaded list and the default form, with nothing being edited and no delete pending. |
| Csr.CsrSession.Add | src/pages/CSRPage.tsx:122-139 | The form's record is appended at the end and the form is reset to its defaults (financial year `"25-26"`). The session is otherwise untouched. |
| Csr.CsrSession.Edit | src/pages/CSRPage.tsx:141-144 | Editing starts on the position with a copy of its record; the list is unchanged. |
| Csr.CsrSession.EditSave | src/pages/CSRPage.tsx:146-153 | With no copy held nothing changes. Otherwise the copy replaces the record at the position and the session ends. |
| Csr.CsrSession.EditCancel | src/pages/CSRPage.tsx:155-158 | The session ends and the list is left as it was. |
| Csr.CsrSession.Delete | src/pages/CSRPage.tsx:160-167 | The record at the position is removed. The session ends only if it was editing that position. The pending delete is cleared. |
| Csr.EditSaveReplacesOne | src/pages/CSRPage.tsx:148-150 | Saving an edit changes only the record at the position and keeps the length. |
| Csr.DeleteBeforeEditedShifts | src/pages/CSRPage.tsx:160-167 | Delete a record before the one being edited. Because the edit position is not shifted, it then holds the record that followed the edited one. |
| Text.NatToStringRoundTrip | src/pages/AttendancePage.tsx:65 | The decimal digits of a number read back as that number. |
| Text.PadStartOnce | src/pages/AttendancePage.tsx:51 | Padding a string one character short of the width puts one pad character in front. |
| Text.LexTransitive | src/pages/AttendancePage.tsx:56 | The string order used by `sort()` is transitive. |
| Text.LexTotal | src/pages/AttendancePage.tsx:56 | Any two different strings are ordered one way or the other by `sort()`'s order. |

## Left out

- **Time zones and `toISOString`.** Record dates are parsed as UTC midnight
  but read with local getters, so a day can shift by one depending on the
  zone. Dates are day numbers here and every day is a whole calendar day.
- **Locale labels.** The step tracker's `toLocaleDateString` labels are
  locale text. The model keeps the numbers they are derived from: the day,
  the week of the month (1..5) and the month (1..12). `Object.entries`
  lists non-numeric keys in insertion order, and so does `Steps.Tally`.
- **Floating point.** `Number(value)`, decimal `totalCost` and `NaN` are not
  modelled; step counts and CSR numbers are integers. As a result, the CSR
  form's `handleChange` and `handleEditChange` (`src/pages/CSRPage.tsx:97-120`),
  which only copy typed input into the form, are not modelled.
- **The planner's week window.** `DailyEvents.Stats` counts the intended
  Sunday-to-Saturday week at day granularity. The as-written window, whose
  bounds carry the current time of day, is modelled separately and recorded
  under Findings.
- **Storage is an abstract value.** Reading and writing `localStorage` and
  the JSON text itself are not modelled. `Csr.Stored` stands for the three
  outcomes of reading (no entry, unparsable text, a parsed value), and the
  empty string counts as no entry, as `if (!saved)` has it. The attendance
  and step lists are taken as already loaded.
- **`Csr.CsrSession.Edit`** requires the position to be inside the list. Its
  only callers are the table rows, which are outside this model
  (`src/pages/CSRPage.tsx` from line 180 on, the rendering).
- **Everything around the core.** The Slack panel (a network call), the
  Profile and About pages, the event form, the event card and notes, the
  trip header, dialogs, navigation, toasts and date pickers are not part of
  this model. The form fixes `status` to `scheduled` before
  `handleAddEvent`; `DailyEvents.AddEvent` accepts any draft.
- **Events without a category.** The event form
  (`src/components/EventForm.tsx:21-40`) supplies no `category` and no
  `priority`, and adds a `person` field. At run time a form-made event
  therefore matches none of the categories counted at
  `src/pages/Index.tsx:159-160`. The model's `Category` type is closed, so
  `DailyEvents.CategoryPartition` assumes every event has one of the seven
  categories; events with a missing category are not modelled.
- **Time zones in the planner's week window.** Event dates are UTC midnight
  read with local getters. Outside UTC the window's edges move by the zone
  offset (in UTC+5:30, for example, the Sunday drops out only after 05:30,
  and Saturday events fall out before that time). The as-written window
  is modelled for a UTC zone only.
- **The date picker's guard against future dates** (`maxDate`) is UI input
  validation and is not modelled; submit and add take the chosen day as
  given.
- **`DailyEvents.UpdateEvent`** and **`Seqs.RemoveAt`** state their results
  over all positions, including repeated ids and dates. The uniqueness they
  keep is proved separately: `DailyEvents.UpdateKeepsIds`,
  `Steps.DeleteKeepsInvariant` and `Attendance.DeleteKeepsDatesUnique`.

## Findings

| source | as written | input that shows it | evidently intended | confidence | as-written member | corrected member |
|---|---|---|---|---|---|---|
| src/pages/Index.tsx:20-24 | `startOfWeek` and `endOfWeek` are copies of `new Date()` moved by whole days, so they keep the current time of day, while an event's date is UTC midnight (`new Date("yyyy-MM-dd")` in the event form). In a UTC zone, past midnight the window misses the week's Sunday; the model shows a UTC zone. | On Sunday at 10:00, an event dated that Sunday counts for "today" (1) but not for "this week" (0). | The seven calendar days from the Sunday of today's week, so that today ≤ this week. | not executed | DailyEvents.AsWrittenWindowSkipsSunday, DailyEvents.SundayEventMissedAsWritten | DailyEvents.Stats, DailyEvents.ThisWeekIsSameWeek |
| src/pages/AttendancePage.tsx:129-131 | The table passes `idx`, a position in `filteredRecords`, to `handleDelete`, which removes position `idx` of the full list. | Two records, a Present one first and then an Absent one, with the status filter on "Absent". Deleting the only shown row (idx 0) removes the hidden Present record, and the shown record stays. | Remove the record shown at row `idx` and leave hidden records alone. | not executed | Seqs.RemoveAt, Attendance.DeleteAsWrittenRemovesHiddenRecord | Attendance.DeleteShown |
