// The trip schedule grid (src/components/CalendarGrid.tsx over
// src/types/travel.ts): the days of the trip, each with the events of that
// day in the order the event list has them.

module TripCalendar {
  import opened Seqs
  import opened Calendar

  datatype TravelCategory = Flight | Hotel | Activity | Meeting | Meal | Transport | Other

  datatype Priority = Low | Medium | High

  datatype TravelEvent = TravelEvent(
    id: string,
    title: string,
    description: string,
    date: Day,
    startTime: string,
    endTime: string,
    location: string,
    category: TravelCategory,
    priority: Priority)

  /** The days from `start` through `end`, one per calendar day. */
  function TripDays(start: Day, end: Day): (r: seq<Day>)
    ensures |r| == if start <= end then end - start + 1 else 0
    ensures forall i :: 0 <= i < |r| ==> r[i] == start + i
    decreases end - start
  {
    if start > end then [] else [start] + TripDays(start + 1, end)
  }

  /** The shape of the trip: empty when it starts after it ends; otherwise from the first day to the last, one
      day apart. */
  lemma TripDaysShape(start: Day, end: Day)
    ensures start > end ==> TripDays(start, end) == []
    ensures start <= end ==> TripDays(start, end)[0] == start && TripDays(start, end)[end - start] == end
    ensures forall i :: 0 < i < |TripDays(start, end)| ==> TripDays(start, end)[i] == TripDays(start, end)[i - 1] + 1
  {
  }

  /** `getDaysInTrip`: step a copy of the start day forward one day at a time while it is not past the end. */
  method GetDaysInTrip(tripStartDate: Day, tripEndDate: Day) returns (days: seq<Day>)
    ensures days == TripDays(tripStartDate, tripEndDate)
  {
    days := [];
    var currentDate := tripStartDate;
    while currentDate <= tripEndDate
      invariant tripStartDate <= tripEndDate + 1 ==> currentDate <= tripEndDate + 1
      invariant tripStartDate > tripEndDate ==> currentDate == tripStartDate
      invariant |days| == currentDate - tripStartDate
      invariant forall i :: 0 <= i < |days| ==> days[i] == tripStartDate + i
      decreases tripEndDate - currentDate
    {
      days := days + [currentDate];
      currentDate := currentDate + 1;
    }
  }

  function OnDay(d: Day): TravelEvent -> bool { (e: TravelEvent) => e.date == d }

  /** `getEventsForDate`: the events of day `d`, in list order; there is no sorting by start time. */
  function EventsForDate(events: seq<TravelEvent>, d: Day): (r: seq<TravelEvent>)
    ensures forall i :: 0 <= i < |r| ==> r[i].date == d
    ensures forall e :: e in r <==> e in events && e.date == d
  {
    forall e ensures e in Filter(events, OnDay(d)) <==> e in events && e.date == d {
      FilterMembers(events, OnDay(d), e);
    }
    Filter(events, OnDay(d))
  }

  /** Bucketing works segment by segment: a day's events appear in the order the list has them. */
  lemma EventsForDateKeepsOrder(a: seq<TravelEvent>, b: seq<TravelEvent>, d: Day)
    ensures EventsForDate(a + b, d) == EventsForDate(a, d) + EventsForDate(b, d)
  {
    FilterAppend(a, b, OnDay(d));
  }

  /** An event of the trip lies in the bucket of its own day and in no other; an event outside the trip lies in
      none. */
  lemma EventInOneBucket(events: seq<TravelEvent>, start: Day, end: Day, e: TravelEvent)
    requires e in events
    ensures var days := TripDays(start, end);
            forall i :: 0 <= i < |days| ==> (e in EventsForDate(events, days[i]) <==> i == e.date - start)
    ensures start <= e.date <= end ==> 0 <= e.date - start < |TripDays(start, end)|
  {
  }

  function InTrip(start: Day, end: Day): TravelEvent -> bool { (e: TravelEvent) => start <= e.date <= end }

  /** The number of events over the buckets of `days`. */
  function BucketTotal(events: seq<TravelEvent>, days: seq<Day>): nat {
    if days == [] then 0 else |EventsForDate(events, days[0])| + BucketTotal(events, days[1..])
  }

  /** The buckets of the trip hold the trip's events exactly once each, so together no more than the list. */
  lemma {:induction false} BucketsPartitionTrip(events: seq<TravelEvent>, start: Day, end: Day)
    ensures BucketTotal(events, TripDays(start, end)) == |Filter(events, InTrip(start, end))|
    ensures BucketTotal(events, TripDays(start, end)) <= |events|
    decreases end - start
  {
    if start > end {
      FilterDropsAll(events, InTrip(start, end));
    } else {
      assert TripDays(start, end)[1..] == TripDays(start + 1, end);
      BucketsPartitionTrip(events, start + 1, end);
      SplitFirstDay(events, start, end);
    }
  }

  /** The events of the trip are those of its first day and those of the remaining days. */
  lemma {:induction false} SplitFirstDay(events: seq<TravelEvent>, start: Day, end: Day)
    requires start <= end
    ensures |Filter(events, InTrip(start, end))| == |Filter(events, OnDay(start))| + |Filter(events, InTrip(start + 1, end))|
  {
    if events != [] {
      SplitFirstDay(events[1..], start, end);
    }
  }
}
