// The step tracker (src/pages/DailySteps.tsx): a list of `{date, steps}`
// records, newest first, with an add guard, deletion by position, and a
// trend panel that sums the steps of the current week, month or year and
// tabulates them by day, by week of the month or by month.

module Steps {
  import opened Seqs
  import opened Calendar

  datatype StepRecord = StepRecord(date: Day, steps: int)

  /** The steps field of the form: left empty, or holding a number. */
  datatype StepsInput = Blank | Entered(value: int)

  /** The trend period selector. */
  datatype Period = Week | Month | Year

  predicate AlreadyMarked(records: seq<StepRecord>, date: Day) {
    exists i :: 0 <= i < |records| && records[i].date == date
  }

  predicate UniqueDates(records: seq<StepRecord>) {
    forall i, j :: 0 <= i < j < |records| ==> records[i].date != records[j].date
  }

  predicate NonNegative(records: seq<StepRecord>) {
    forall i :: 0 <= i < |records| ==> records[i].steps >= 0
  }

  // ---- Adding and deleting ----

  /** The add guard: the date already has a record, or the steps are empty or negative. */
  predicate Refused(records: seq<StepRecord>, date: Day, input: StepsInput) {
    AlreadyMarked(records, date) || input.Blank? || input.value < 0
  }

  /** `handleAdd`: a refused entry changes nothing; otherwise the new record goes in front of the others. */
  function Add(records: seq<StepRecord>, date: Day, input: StepsInput): (r: seq<StepRecord>)
    ensures Refused(records, date, input) ==> r == records
    ensures !Refused(records, date, input) ==>
              |r| == |records| + 1 && r[0] == StepRecord(date, input.value) && r[1..] == records
  {
    if Refused(records, date, input) then records
    else [StepRecord(date, input.value)] + records
  }

  /** Adding keeps one record per date and no negative counts, and afterwards the date is marked unless the
      entry was blank or negative. */
  lemma AddKeepsInvariant(records: seq<StepRecord>, date: Day, input: StepsInput)
    requires UniqueDates(records) && NonNegative(records)
    ensures UniqueDates(Add(records, date, input)) && NonNegative(Add(records, date, input))
    ensures input.Entered? && input.value >= 0 ==> AlreadyMarked(Add(records, date, input), date)
  {
    var r := Add(records, date, input);
    if !Refused(records, date, input) {
      forall i, j | 0 <= i < j < |r|
        ensures r[i].date != r[j].date
      {
        if i == 0 {
          assert r[j] == records[j - 1];
        } else {
          assert r[i] == records[i - 1] && r[j] == records[j - 1];
        }
      }
      forall i | 0 <= i < |r|
        ensures r[i].steps >= 0
      {
        if i > 0 {
          assert r[i] == records[i - 1];
        }
      }
      assert r[0].date == date;
    }
  }

  // `handleDelete(idx)` drops the record at position `idx` of the full list: it is `Seqs.RemoveAt`.

  /** Deleting keeps one record per date and no negative counts, and frees the deleted record's date. */
  lemma DeleteKeepsInvariant(records: seq<StepRecord>, idx: int)
    requires UniqueDates(records) && NonNegative(records)
    ensures UniqueDates(RemoveAt(records, idx)) && NonNegative(RemoveAt(records, idx))
    ensures 0 <= idx < |records| ==> !AlreadyMarked(RemoveAt(records, idx), records[idx].date)
  {
    var r := RemoveAt(records, idx);
    if 0 <= idx < |records| {
      forall i, j | 0 <= i < j < |r|
        ensures r[i].date != r[j].date
      {
        assert r[i] == records[if i < idx then i else i + 1];
        assert r[j] == records[if j < idx then j else j + 1];
      }
      forall i | 0 <= i < |r|
        ensures r[i].steps >= 0
      {
        assert r[i] == records[if i < idx then i else i + 1];
      }
      forall i | 0 <= i < |r|
        ensures r[i].date != records[idx].date
      {
        assert r[i] == records[if i < idx then i else i + 1];
      }
    }
  }

  // ---- The trend period ----

  /** `getPeriodStart`: the Sunday that starts the week, the first of the month or 1 January, never after
      `now`. */
  function PeriodStart(now: Day, period: Period): (r: Day)
    ensures r <= now
    ensures period == Week ==> Weekday(r) == 0 && now < r + 7
    ensures period == Month ==> now < r + 31 && Civil(r) == CivilDate(Civil(now).year, Civil(now).month, 1)
    ensures period == Year ==> now < r + 366 && Civil(r) == CivilDate(Civil(now).year, 1, 1)
  {
    match period
    case Week => WeekStart(now)
    case Month => MonthStart(now)
    case Year => YearStartOf(now)
  }

  /** `getPeriodStart` as written, moving a copy of the date back to its Sunday with `setDate`. */
  method GetPeriodStart(now: Day, period: Period) returns (start: Day)
    ensures start == PeriodStart(now, period)
  {
    if period == Week {
      var d := now;
      var day := Weekday(d);
      d := d - day;
      return d;
    }
    if period == Month {
      return MonthStart(now);
    }
    return YearStartOf(now);
  }

  /** `d >= periodStart && d <= now` for a record's date. */
  function InPeriod(start: Day, now: Day): StepRecord -> bool {
    (r: StepRecord) => start <= r.date <= now
  }

  function SumSteps(records: seq<StepRecord>): int {
    if |records| == 0 then 0 else records[0].steps + SumSteps(records[1..])
  }

  lemma {:induction false} SumAppend(a: seq<StepRecord>, b: seq<StepRecord>)
    ensures SumSteps(a + b) == SumSteps(a) + SumSteps(b)
    decreases |a|
  {
    if |a| > 0 {
      assert (a + b)[0] == a[0] && (a + b)[1..] == a[1..] + b;
      SumAppend(a[1..], b);
    } else {
      assert a + b == b;
    }
  }

  lemma {:induction false} SumNonNegative(records: seq<StepRecord>)
    requires NonNegative(records)
    ensures SumSteps(records) >= 0
    decreases |records|
  {
    if |records| > 0 {
      SumNonNegative(records[1..]);
    }
  }

  /** `cumulativeSteps`: the steps of the records dated from `start` to `now`; never negative when no
      stored count is. */
  function CumulativeSteps(records: seq<StepRecord>, start: Day, now: Day): (total: int)
    ensures NonNegative(records) ==> total >= 0
  {
    var shown := Filter(records, InPeriod(start, now));
    if NonNegative(records) then
      forall i | 0 <= i < |shown|
        ensures shown[i].steps >= 0
      {
        FilterMembers(records, InPeriod(start, now), shown[i]);
      }
      SumNonNegative(shown);
      SumSteps(shown)
    else SumSteps(shown)
  }

  /** An accepted entry adds its steps to the total exactly when its date lies in the period. */
  lemma CumulativeAfterAdd(records: seq<StepRecord>, date: Day, input: StepsInput, start: Day, now: Day)
    requires !Refused(records, date, input)
    ensures CumulativeSteps(Add(records, date, input), start, now)
         == CumulativeSteps(records, start, now) + (if start <= date <= now then input.value else 0)
  {
    var x := StepRecord(date, input.value);
    var p := InPeriod(start, now);
    FilterAppend([x], records, p);
    assert Filter([x], p) == if p(x) then [x] else [] by {
      assert [x][1..] == [];
    }
    SumAppend(Filter([x], p), Filter(records, p));
  }

  /** Deleting a record takes its steps off the total exactly when its date lies in the period. */
  lemma CumulativeAfterDelete(records: seq<StepRecord>, idx: int, start: Day, now: Day)
    requires 0 <= idx < |records|
    ensures CumulativeSteps(RemoveAt(records, idx), start, now)
         == CumulativeSteps(records, start, now) - (if start <= records[idx].date <= now then records[idx].steps else 0)
  {
    var p := InPeriod(start, now);
    var pre, post := Filter(records[..idx], p), Filter(records[idx + 1..], p);
    FilterWithout(records, idx, p);
    FilterAround(records, idx, p);
    SumAppend(pre, post);
    if p(records[idx]) {
      SumAppend(pre, [records[idx]]);
      SumAppend(pre + [records[idx]], post);
    }
  }

  // ---- The week table: one row per day ----

  datatype DayRow = DayRow(day: Day, steps: int)

  /** `records.find(r => r.date === dateStr)`, read as `rec ? rec.steps : 0`. */
  function StepsOn(records: seq<StepRecord>, d: Day): int {
    if |records| == 0 then 0
    else if records[0].date == d then records[0].steps
    else StepsOn(records[1..], d)
  }

  /** With one record per date, a day's row shows that record's steps. */
  lemma {:induction false} StepsOnRecorded(records: seq<StepRecord>, j: int)
    requires UniqueDates(records) && 0 <= j < |records|
    ensures StepsOn(records, records[j].date) == records[j].steps
    decreases j
  {
    if j > 0 {
      var rest := records[1..];
      assert rest[j - 1] == records[j];
      assert records[0].date != records[j].date;
      StepsOnRecorded(rest, j - 1);
    }
  }

  /** A day without a record shows 0. */
  lemma {:induction false} StepsOnMissing(records: seq<StepRecord>, d: Day)
    requires !AlreadyMarked(records, d)
    ensures StepsOn(records, d) == 0
    decreases |records|
  {
    if |records| > 0 {
      var rest := records[1..];
      assert !AlreadyMarked(rest, d) by {
        forall i | 0 <= i < |rest|
          ensures rest[i].date != d
        {
          assert rest[i] == records[i + 1];
        }
      }
      StepsOnMissing(rest, d);
    }
  }

  /** The linear search behind `records.find`. */
  method FindSteps(records: seq<StepRecord>, d: Day) returns (steps: int)
    ensures steps == StepsOn(records, d)
  {
    var i := 0;
    while i < |records|
      invariant 0 <= i <= |records|
      invariant StepsOn(records, d) == StepsOn(records[i..], d)
    {
      if records[i].date == d {
        return records[i].steps;
      }
      assert records[i..][1..] == records[i + 1..];
      i := i + 1;
    }
    return 0;
  }

  /** The week table: seven rows for the seven days from `start`, each with that day's steps or 0. */
  method WeekTable(records: seq<StepRecord>, start: Day) returns (table: seq<DayRow>)
    ensures |table| == 7
    ensures forall i :: 0 <= i < 7 ==> table[i] == DayRow(start + i, StepsOn(records, start + i))
  {
    table := [];
    for i := 0 to 7
      invariant |table| == i
      invariant forall k :: 0 <= k < i ==> table[k] == DayRow(start + k, StepsOn(records, start + k))
    {
      var d := start + i;
      var steps := FindSteps(records, d);
      table := table + [DayRow(d, steps)];
    }
  }

  // ---- The month and year tables: one bucket per label ----

  /** One entry of the `weeks` or `months` dictionary. */
  datatype Bucket = Bucket(key: int, total: int)

  function KeysOf(buckets: seq<Bucket>): seq<int> {
    if |buckets| == 0 then [] else [buckets[0].key] + KeysOf(buckets[1..])
  }

  function GrandTotal(buckets: seq<Bucket>): int {
    if |buckets| == 0 then 0 else buckets[0].total + GrandTotal(buckets[1..])
  }

  /** The steps the buckets hold under label `k`. */
  function TotalFor(buckets: seq<Bucket>, k: int): int {
    if |buckets| == 0 then 0
    else (if buckets[0].key == k then buckets[0].total else 0) + TotalFor(buckets[1..], k)
  }

  predicate Distinct(keys: seq<int>) {
    forall i, j :: 0 <= i < j < |keys| ==> keys[i] != keys[j]
  }

  /** `table[label] = (table[label] || 0) + steps`: a label seen before keeps its place and gains the steps;
      a new labelOf is added last, as `Object.entries` lists string keys in insertion order. */
  function Tally(buckets: seq<Bucket>, key: int, steps: int): (r: seq<Bucket>)
    ensures KeysOf(r) == if key in KeysOf(buckets) then KeysOf(buckets) else KeysOf(buckets) + [key]
    ensures GrandTotal(r) == GrandTotal(buckets) + steps
  {
    if |buckets| == 0 then [Bucket(key, steps)]
    else if buckets[0].key == key then [Bucket(key, buckets[0].total + steps)] + buckets[1..]
    else [buckets[0]] + Tally(buckets[1..], key, steps)
  }

  /** Tallying adds the steps under the tallied label and leaves every other label's total alone. */
  lemma {:induction false} TallyPerLabel(buckets: seq<Bucket>, key: int, steps: int, k: int)
    ensures TotalFor(Tally(buckets, key, steps), k) == TotalFor(buckets, k) + (if k == key then steps else 0)
    decreases |buckets|
  {
    if |buckets| > 0 && buckets[0].key != key {
      TallyPerLabel(buckets[1..], key, steps, k);
      assert Tally(buckets, key, steps)[1..] == Tally(buckets[1..], key, steps);
    }
  }

  /** The dictionary after the records, taken in order, have been tallied under their labels. */
  function Grouping(records: seq<StepRecord>, labelOf: Day -> int): seq<Bucket> {
    if |records| == 0 then []
    else
      var last := records[|records| - 1];
      Tally(Grouping(records[..|records| - 1], labelOf), labelOf(last.date), last.steps)
  }

  /** The `forEach` over all records that tallies those dated from `start` to `now`. */
  method GroupTable(records: seq<StepRecord>, start: Day, now: Day, labelOf: Day -> int) returns (table: seq<Bucket>)
    ensures table == Grouping(Filter(records, InPeriod(start, now)), labelOf)
  {
    var p := InPeriod(start, now);
    table := [];
    for i := 0 to |records|
      invariant table == Grouping(Filter(records[..i], p), labelOf)
    {
      var r := records[i];
      GroupingStep(records, i, p, labelOf);
      if start <= r.date <= now {
        table := Tally(table, labelOf(r.date), r.steps);
      }
    }
    assert records[..|records|] == records;
  }

  /** One more record either is tallied or, failing the filter, leaves the grouping as it was. */
  lemma GroupingStep(records: seq<StepRecord>, i: int, p: StepRecord -> bool, labelOf: Day -> int)
    requires 0 <= i < |records|
    ensures var before := Grouping(Filter(records[..i], p), labelOf);
            Grouping(Filter(records[..i + 1], p), labelOf)
            == if p(records[i]) then Tally(before, labelOf(records[i].date), records[i].steps) else before
  {
    var r := records[i];
    var shown := Filter(records[..i], p);
    assert records[..i + 1][..i] == records[..i];
    FilterLast(records[..i + 1], p);
    if p(r) {
      assert (shown + [r])[..|shown|] == shown;
    } else {
      assert shown + [] == shown;
    }
  }

  /** The bucket totals add up to the steps of the records tallied. */
  lemma {:induction false} GroupingTotal(records: seq<StepRecord>, labelOf: Day -> int)
    ensures GrandTotal(Grouping(records, labelOf)) == SumSteps(records)
    decreases |records|
  {
    if |records| > 0 {
      var n := |records| - 1;
      GroupingTotal(records[..n], labelOf);
      assert records == records[..n] + [records[n]];
      SumAppend(records[..n], [records[n]]);
    }
  }

  /** Some record's date has label `k`. */
  predicate Labelled(records: seq<StepRecord>, labelOf: Day -> int, k: int) {
    exists i :: 0 <= i < |records| && labelOf(records[i].date) == k
  }

  /** A label occurs in a list exactly when it occurs before the last record or is the last record's. */
  lemma LabelledLast(records: seq<StepRecord>, labelOf: Day -> int, k: int)
    requires |records| > 0
    ensures var n := |records| - 1;
            Labelled(records, labelOf, k) <==> Labelled(records[..n], labelOf, k) || labelOf(records[n].date) == k
  {
    var n := |records| - 1;
    if Labelled(records[..n], labelOf, k) {
      var i :| 0 <= i < n && labelOf(records[..n][i].date) == k;
      assert labelOf(records[i].date) == k;
    }
    if Labelled(records, labelOf, k) {
      var i :| 0 <= i < |records| && labelOf(records[i].date) == k;
      if i < n {
        assert labelOf(records[..n][i].date) == k;
      }
    }
  }

  /** There is a bucket for a label exactly when some tallied record has that label. */
  lemma {:induction false} GroupingKeys(records: seq<StepRecord>, labelOf: Day -> int, k: int)
    ensures k in KeysOf(Grouping(records, labelOf)) <==> Labelled(records, labelOf, k)
    decreases |records|
  {
    if |records| > 0 {
      var n := |records| - 1;
      GroupingKeys(records[..n], labelOf, k);
      LabelledLast(records, labelOf, k);
    }
  }

  /** Each label has one bucket. */
  lemma {:induction false} GroupingDistinct(records: seq<StepRecord>, labelOf: Day -> int)
    ensures Distinct(KeysOf(Grouping(records, labelOf)))
    decreases |records|
  {
    if |records| > 0 {
      var n := |records| - 1;
      GroupingDistinct(records[..n], labelOf);
      var keys := KeysOf(Grouping(records[..n], labelOf));
      var key := labelOf(records[n].date);
      if key !in keys {
        var grown := keys + [key];
        forall i, j | 0 <= i < j < |grown|
          ensures grown[i] != grown[j]
        {
          if j == |keys| {
            assert grown[i] == keys[i];
          }
        }
      }
    }
  }

  /** The records a bucket collects: those whose label is `k`. */
  function HasLabel(labelOf: Day -> int, k: int): StepRecord -> bool {
    (r: StepRecord) => labelOf(r.date) == k
  }

  /** A bucket holds the steps of exactly the tallied records carrying its label. */
  lemma {:induction false} GroupingPerLabel(records: seq<StepRecord>, labelOf: Day -> int, k: int)
    ensures TotalFor(Grouping(records, labelOf), k) == SumSteps(Filter(records, HasLabel(labelOf, k)))
    decreases |records|
  {
    if |records| > 0 {
      var n := |records| - 1;
      GroupingPerLabel(records[..n], labelOf, k);
      GroupingLast(records, labelOf, k);
      SumFilterLast(records, HasLabel(labelOf, k));
    }
  }

  /** The last record tallied adds its steps to its own label only. */
  lemma GroupingLast(records: seq<StepRecord>, labelOf: Day -> int, k: int)
    requires |records| > 0
    ensures var n := |records| - 1;
            TotalFor(Grouping(records, labelOf), k)
            == TotalFor(Grouping(records[..n], labelOf), k) + (if labelOf(records[n].date) == k then records[n].steps else 0)
  {
    var n := |records| - 1;
    TallyPerLabel(Grouping(records[..n], labelOf), labelOf(records[n].date), records[n].steps, k);
  }

  /** The last record adds its steps to the filtered sum exactly when it passes the filter. */
  lemma SumFilterLast(records: seq<StepRecord>, p: StepRecord -> bool)
    requires |records| > 0
    ensures var n := |records| - 1;
            SumSteps(Filter(records, p)) == SumSteps(Filter(records[..n], p)) + (if p(records[n]) then records[n].steps else 0)
  {
    var n := |records| - 1;
    var x := records[n];
    var last := if p(x) then [x] else [];
    FilterLast(records, p);
    SumAppend(Filter(records[..n], p), last);
    if p(x) {
      assert last[1..] == [];
    }
  }

  /** `Math.floor((d.getDate() - 1) / 7) + 1`: the week of the month, 1 to 5. */
  function WeekOfMonth(d: Day): (w: int)
    ensures 1 <= w <= 5
  {
    (Civil(d).day - 1) / 7 + 1
  }

  /** The month a record falls in, 1 to 12: what the year table's month label names. */
  function MonthOf(d: Day): (m: int)
    ensures 1 <= m <= 12
  {
    Civil(d).month
  }

  /** The month table's totals add up to the month's cumulative steps, and its labels are weeks 1 to 5. */
  lemma MonthTableTotals(records: seq<StepRecord>, now: Day)
    ensures var start := PeriodStart(now, Month);
            var table := Grouping(Filter(records, InPeriod(start, now)), WeekOfMonth);
            GrandTotal(table) == CumulativeSteps(records, start, now)
            && forall i :: 0 <= i < |KeysOf(table)| ==> 1 <= KeysOf(table)[i] <= 5
  {
    var start := PeriodStart(now, Month);
    var shown := Filter(records, InPeriod(start, now));
    GroupingTotal(shown, WeekOfMonth);
    forall i | 0 <= i < |KeysOf(Grouping(shown, WeekOfMonth))|
      ensures 1 <= KeysOf(Grouping(shown, WeekOfMonth))[i] <= 5
    {
      var k := KeysOf(Grouping(shown, WeekOfMonth))[i];
      GroupingKeys(shown, WeekOfMonth, k);
    }
  }

  /** The year table's totals add up to the year's cumulative steps, and its labels are months 1 to 12. */
  lemma YearTableTotals(records: seq<StepRecord>, now: Day)
    ensures var start := PeriodStart(now, Year);
            var table := Grouping(Filter(records, InPeriod(start, now)), MonthOf);
            GrandTotal(table) == CumulativeSteps(records, start, now)
            && forall i :: 0 <= i < |KeysOf(table)| ==> 1 <= KeysOf(table)[i] <= 12
  {
    var start := PeriodStart(now, Year);
    var shown := Filter(records, InPeriod(start, now));
    GroupingTotal(shown, MonthOf);
    forall i | 0 <= i < |KeysOf(Grouping(shown, MonthOf))|
      ensures 1 <= KeysOf(Grouping(shown, MonthOf))[i] <= 12
    {
      var k := KeysOf(Grouping(shown, MonthOf))[i];
      GroupingKeys(shown, MonthOf, k);
    }
  }

  // ---- The whole trend panel ----

  /** The trend table: day rows for a week, buckets for a month or a year. */
  datatype TrendTable = DayRows(rows: seq<DayRow>) | Buckets(buckets: seq<Bucket>)

  /** The trend panel for the selected period: its cumulative steps and its table. */
  method Trend(records: seq<StepRecord>, now: Day, period: Period) returns (cumulative: int, table: TrendTable)
    ensures var start := PeriodStart(now, period);
            cumulative == CumulativeSteps(records, start, now)
            && (period == Week ==>
                  table.DayRows? && |table.rows| == 7
                  && forall i :: 0 <= i < 7 ==> table.rows[i] == DayRow(start + i, StepsOn(records, start + i)))
            && (period == Month ==> table == Buckets(Grouping(Filter(records, InPeriod(start, now)), WeekOfMonth)))
            && (period == Year ==> table == Buckets(Grouping(Filter(records, InPeriod(start, now)), MonthOf)))
  {
    var start := GetPeriodStart(now, period);
    cumulative := CumulativeSteps(records, start, now);
    if period == Week {
      var rows := WeekTable(records, start);
      table := DayRows(rows);
    } else if period == Month {
      var buckets := GroupTable(records, start, now, WeekOfMonth);
      table := Buckets(buckets);
    } else {
      var buckets := GroupTable(records, start, now, MonthOf);
      table := Buckets(buckets);
    }
  }
}
