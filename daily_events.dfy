// The daily planner (src/pages/Index.tsx over src/types/daily.ts): every
// handler is an updater that returns a new event list, and the statistics
// panel counts events by day, week, status and category.

module DailyEvents {
  import opened Seqs
  import opened Calendar

  datatype Category = Work | Personal | Health | Meeting | Appointment | Social | Other

  datatype Priority = Low | Medium | High

  /** `rescheduled` is part of the type, but no handler ever sets it. */
  datatype Status = Scheduled | Completed | Cancelled | Rescheduled

  datatype DailyEvent = DailyEvent(
    id: string,
    title: string,
    description: string,
    date: Day,
    startTime: string,
    endTime: string,
    location: string,
    category: Category,
    priority: Priority,
    notes: string,
    status: Status,
    originalEventId: Option<string>)

  /** `Omit<DailyEvent, 'id'>`: what the event form hands to `handleAddEvent`. */
  datatype EventDraft = EventDraft(
    title: string,
    description: string,
    date: Day,
    startTime: string,
    endTime: string,
    location: string,
    category: Category,
    priority: Priority,
    notes: string,
    status: Status,
    originalEventId: Option<string>)

  /** The fields of an event other than its id. */
  function Draft(e: DailyEvent): EventDraft {
    EventDraft(e.title, e.description, e.date, e.startTime, e.endTime, e.location,
               e.category, e.priority, e.notes, e.status, e.originalEventId)
  }

  /** `{ ...eventData, id }`: a draft completed with an id. */
  function WithId(d: EventDraft, id: string): (e: DailyEvent)
    ensures e.id == id && Draft(e) == d
  {
    DailyEvent(id, d.title, d.description, d.date, d.startTime, d.endTime, d.location,
               d.category, d.priority, d.notes, d.status, d.originalEventId)
  }

  predicate UniqueIds(events: seq<DailyEvent>) {
    forall i, j :: 0 <= i < j < |events| ==> events[i].id != events[j].id
  }

  /** The ids of the events, in list order. */
  function Ids(events: seq<DailyEvent>): (r: seq<string>)
    ensures |r| == |events| && forall i :: 0 <= i < |events| ==> r[i] == events[i].id
  {
    seq(|events|, i requires 0 <= i < |events| => events[i].id)
  }

  // ---------------------------------------------------------------- handlers

  /** `handleAddEvent`: the draft, given the id the caller supplies (`Date.now()`), goes at the end. */
  function AddEvent(events: seq<DailyEvent>, draft: EventDraft, id: string): (r: seq<DailyEvent>)
    ensures |r| == |events| + 1 && r[..|events|] == events
    ensures r[|events|].id == id && Draft(r[|events|]) == draft
    ensures UniqueIds(events) && id !in Ids(events) ==> UniqueIds(r)
  {
    var r := events + [WithId(draft, id)];
    assert forall i :: 0 <= i < |events| ==> r[i].id == Ids(events)[i];
    r
  }

  /** `handleUpdateEvent`: every event carrying the updated event's id is replaced by it. */
  function UpdateEvent(events: seq<DailyEvent>, updated: DailyEvent): (r: seq<DailyEvent>)
    ensures |r| == |events|
    ensures forall i :: 0 <= i < |r| ==> r[i] == if events[i].id == updated.id then updated else events[i]
  {
    seq(|events|, i requires 0 <= i < |events| => if events[i].id == updated.id then updated else events[i])
  }

  /** Updating never changes an id, so the ids stay unique; an absent id changes nothing. */
  lemma UpdateKeepsIds(events: seq<DailyEvent>, updated: DailyEvent)
    ensures Ids(UpdateEvent(events, updated)) == Ids(events)
    ensures UniqueIds(events) ==> UniqueIds(UpdateEvent(events, updated))
    ensures updated.id !in Ids(events) ==> UpdateEvent(events, updated) == events
    ensures updated.id in Ids(events) ==> updated in UpdateEvent(events, updated)
  {
    var r := UpdateEvent(events, updated);
    assert Ids(r) == Ids(events);
    if updated.id in Ids(events) {
      var i :| 0 <= i < |events| && Ids(events)[i] == updated.id;
      assert r[i] == updated;
    }
  }

  /** `event.originalEventId || event.id`: the lineage a reschedule records (an empty string counts as unset). */
  function Lineage(e: DailyEvent): string {
    match e.originalEventId
    case Some(o) => if o != "" then o else e.id
    case None => e.id
  }

  /** One event moved to a new date and time, back in status `scheduled`. */
  function Reschedule(e: DailyEvent, newDate: Day, newStartTime: string, newEndTime: string): DailyEvent {
    e.(date := newDate, startTime := newStartTime, endTime := newEndTime,
       status := Scheduled, originalEventId := Some(Lineage(e)))
  }

  /** `handleRescheduleEvent`: every event with the id is moved in place; the list keeps its shape. */
  function RescheduleEvent(events: seq<DailyEvent>, id: string, newDate: Day, newStartTime: string, newEndTime: string)
    : (r: seq<DailyEvent>)
    ensures |r| == |events|
    ensures forall i :: 0 <= i < |r| && events[i].id != id ==> r[i] == events[i]
    ensures forall i :: 0 <= i < |r| && events[i].id == id ==>
      && r[i].date == newDate && r[i].startTime == newStartTime && r[i].endTime == newEndTime
      && r[i].status == Scheduled
      && r[i].originalEventId == Some(Lineage(events[i]))
      && r[i].id == events[i].id && r[i].title == events[i].title
      && r[i].description == events[i].description && r[i].location == events[i].location
      && r[i].category == events[i].category && r[i].priority == events[i].priority
      && r[i].notes == events[i].notes
  {
    seq(|events|, i requires 0 <= i < |events| =>
      if events[i].id == id then Reschedule(events[i], newDate, newStartTime, newEndTime) else events[i])
  }

  /** Lineage is set by the first reschedule and kept by every later one. */
  lemma {:induction false} RescheduleTwiceKeepsLineage(events: seq<DailyEvent>, id: string,
      d1: Day, s1: string, e1: string, d2: Day, s2: string, e2: string)
    ensures var once := RescheduleEvent(events, id, d1, s1, e1);
            var twice := RescheduleEvent(once, id, d2, s2, e2);
            forall i :: 0 <= i < |events| && events[i].id == id ==>
              twice[i].originalEventId == once[i].originalEventId == Some(Lineage(events[i]))
  {
    var once := RescheduleEvent(events, id, d1, s1, e1);
    forall i | 0 <= i < |events| && events[i].id == id
      ensures Lineage(once[i]) == Lineage(events[i])
    {
      assert once[i].id == events[i].id;
    }
  }

  /** A reschedule never produces status `rescheduled`: every moved event comes back `scheduled`, even a
      completed or cancelled one, and the only `rescheduled` events afterwards are untouched ones. */
  lemma RescheduleNeverSetsRescheduled(events: seq<DailyEvent>, id: string, newDate: Day, newStartTime: string, newEndTime: string)
    ensures var r := RescheduleEvent(events, id, newDate, newStartTime, newEndTime);
            forall i :: 0 <= i < |r| && r[i].status == Rescheduled ==> events[i].id != id && r[i] == events[i]
  {
  }

  /** Rescheduling keeps every id, so unique ids stay unique. */
  lemma RescheduleKeepsIds(events: seq<DailyEvent>, id: string, newDate: Day, newStartTime: string, newEndTime: string)
    ensures Ids(RescheduleEvent(events, id, newDate, newStartTime, newEndTime)) == Ids(events)
  {
  }

  function IdIsNot(id: string): DailyEvent -> bool { (e: DailyEvent) => e.id != id }

  function IdIs(id: string): DailyEvent -> bool { (e: DailyEvent) => e.id == id }

  /** `handleDeleteEvent`: every event with the id is removed; the rest keep their order. */
  function DeleteEvent(events: seq<DailyEvent>, id: string): (r: seq<DailyEvent>)
    ensures forall i :: 0 <= i < |r| ==> r[i].id != id
    ensures |r| == |events| - |Filter(events, IdIs(id))|
    ensures id !in Ids(events) ==> r == events
  {
    FilterComplement(events, IdIs(id), IdIsNot(id));
    DeleteAbsentIsNoop(events, id);
    Filter(events, IdIsNot(id))
  }

  lemma DeleteAbsentIsNoop(events: seq<DailyEvent>, id: string)
    ensures id !in Ids(events) ==> Filter(events, IdIsNot(id)) == events
  {
    if id !in Ids(events) {
      assert forall i :: 0 <= i < |events| ==> Ids(events)[i] == events[i].id;
      FilterKeepsAll(events, IdIsNot(id));
    }
  }

  /** Deleting keeps every event with another id, and nothing that was not there. */
  lemma DeleteKeepsOthers(events: seq<DailyEvent>, id: string, e: DailyEvent)
    ensures e in DeleteEvent(events, id) <==> e in events && e.id != id
  {
    FilterMembers(events, IdIsNot(id), e);
  }

  /** Deleting works segment by segment, so the surviving events keep their relative order. */
  lemma DeleteKeepsOrder(a: seq<DailyEvent>, b: seq<DailyEvent>, id: string)
    ensures DeleteEvent(a + b, id) == DeleteEvent(a, id) + DeleteEvent(b, id)
  {
    FilterAppend(a, b, IdIsNot(id));
  }

  // -------------------------------------------------------------- statistics

  function OnDay(d: Day): DailyEvent -> bool { (e: DailyEvent) => e.date == d }

  /** The seven days Sunday through Saturday of the week of `today`. */
  function InWeekOf(today: Day): DailyEvent -> bool { (e: DailyEvent) => WeekStart(today) <= e.date <= WeekStart(today) + 6 }

  function HasStatus(s: Status): DailyEvent -> bool { (e: DailyEvent) => e.status == s }

  function HasCategory(c: Category): DailyEvent -> bool { (e: DailyEvent) => e.category == c }

  datatype EventStats = EventStats(today: nat, thisWeek: nat, scheduled: nat, completed: nat)

  /** `eventStats`, at day granularity: each figure is the number of events passing one `filter`. */
  function Stats(events: seq<DailyEvent>, today: Day): (r: EventStats)
    ensures r.today <= r.thisWeek <= |events|
    ensures r.scheduled + r.completed <= |events|
  {
    FilterMonotone(events, OnDay(today), InWeekOf(today));
    FilterDisjoint(events, HasStatus(Scheduled), HasStatus(Completed));
    EventStats(
      |Filter(events, OnDay(today))|,
      |Filter(events, InWeekOf(today))|,
      |Filter(events, HasStatus(Scheduled))|,
      |Filter(events, HasStatus(Completed))|)
  }

  /** An event counts for "this week" exactly when its day lies in the same Sunday-started week as today. */
  lemma ThisWeekIsSameWeek(today: Day, e: DailyEvent)
    ensures InWeekOf(today)(e) <==> WeekStart(e.date) == WeekStart(today)
  {
    SameWeek(e.date, today);
  }

  /** The categories the panel lists, in display order; `other` is not among them. */
  const ListedCategories: seq<Category> := [Work, Personal, Health, Meeting, Appointment, Social]

  /** The per-category counts of the panel, one per listed category. */
  function CategoryCounts(events: seq<DailyEvent>): (r: seq<nat>)
    ensures |r| == |ListedCategories|
    ensures forall i :: 0 <= i < |r| ==> r[i] == |Filter(events, HasCategory(ListedCategories[i]))|
    ensures r[0] + r[1] + r[2] + r[3] + r[4] + r[5] + |Filter(events, HasCategory(Other))| == |events|
  {
    CategoryPartition(events);
    seq(|ListedCategories|, i requires 0 <= i < |ListedCategories| => |Filter(events, HasCategory(ListedCategories[i]))|)
  }

  /** Every event has exactly one category, so the seven category counts add up to the number of events. */
  lemma {:induction false} CategoryPartition(events: seq<DailyEvent>)
    ensures |Filter(events, HasCategory(Work))| + |Filter(events, HasCategory(Personal))|
          + |Filter(events, HasCategory(Health))| + |Filter(events, HasCategory(Meeting))|
          + |Filter(events, HasCategory(Appointment))| + |Filter(events, HasCategory(Social))|
          + |Filter(events, HasCategory(Other))| == |events|
  {
    if events != [] {
      CategoryPartition(events[1..]);
    }
  }

  // ---------------------------------------------------- week window as written

  const MinutesPerDay := 24 * 60

  /** The `thisWeek` test as written: `startOfWeek` and `endOfWeek` are copies of `new Date()` and keep the
      current time of day `nowMinute`, while an event's date is taken at midnight of its day. */
  function InWeekWindowAsWritten(today: Day, nowMinute: int): DailyEvent -> bool {
    (e: DailyEvent) => WeekStart(today) * MinutesPerDay + nowMinute <= e.date * MinutesPerDay <= (WeekStart(today) + 6) * MinutesPerDay + nowMinute
  }

  function ThisWeekAsWritten(events: seq<DailyEvent>, today: Day, nowMinute: int): nat
    requires 0 <= nowMinute < MinutesPerDay
  {
    |Filter(events, InWeekWindowAsWritten(today, nowMinute))|
  }

  /** Past midnight, the window as written runs from Monday through Saturday: the week's Sunday is left out. */
  lemma AsWrittenWindowSkipsSunday(today: Day, nowMinute: int, e: DailyEvent)
    requires 0 < nowMinute < MinutesPerDay
    ensures InWeekWindowAsWritten(today, nowMinute)(e) <==> WeekStart(today) < e.date <= WeekStart(today) + 6
    ensures e.date == WeekStart(today) ==> InWeekOf(today)(e) && !InWeekWindowAsWritten(today, nowMinute)(e)
  {
  }

  /** On a Sunday at 10:00, an event of that day is counted for today but not for this week. */
  lemma SundayEventMissedAsWritten()
    ensures var e := DailyEvent("1", "Standup", "", 6, "09:00", "09:15", "", Work, Medium, "", Scheduled, None);
            && Weekday(6) == 0
            && ThisWeekAsWritten([e], 6, 600) == 0
            && Stats([e], 6).today == 1
            && Stats([e], 6).thisWeek == 1
  {
    var e := DailyEvent("1", "Standup", "", 6, "09:00", "09:15", "", Work, Medium, "", Scheduled, None);
    assert Filter([e], InWeekWindowAsWritten(6, 600)) == [];
    assert Filter([e], OnDay(6)) == [e];
    assert Filter([e], InWeekOf(6)) == [e];
  }
}
