// The attendance register (src/pages/AttendancePage.tsx): one record per
// date with check-in and check-out clock times, the "Nh Mm" total the page
// computes from them, month keys "YYYY-MM", the month and status filters, and
// the sum of the shown totals.

module Attendance {
  import opened Seqs
  import opened Text
  import opened Calendar

  datatype AttendanceStatus = Present | Absent

  datatype AttendanceRecord = AttendanceRecord(
    date: Day,
    checkIn: string,
    checkOut: string,
    totalTime: string,
    status: AttendanceStatus,
    notes: string)

  const MinutesPerDay: int := 24 * 60

  /** A clock time "HH:MM" as a time input produces it. */
  predicate IsClock(s: string) {
    |s| == 5 && IsDigit(s[0]) && IsDigit(s[1]) && s[2] == ':' && IsDigit(s[3]) && IsDigit(s[4])
    && DigitsValue(s[..2]) <= 23 && DigitsValue(s[3..]) <= 59
  }

  /** Minutes since midnight of a clock time: `split(":").map(Number)`, hours times sixty plus minutes. */
  function ClockMinutes(s: string): (r: nat)
    requires IsClock(s)
    ensures r < MinutesPerDay
  {
    DigitsValue(s[..2]) * 60 + DigitsValue(s[3..])
  }

  /** The minutes from `start` to `end` on a 24-hour clock, going past midnight when `end` is earlier. */
  function ElapsedMinutes(start: nat, end: nat): int {
    (end - start) % MinutesPerDay
  }

  /** `formatMinutesToHhMm`: whole hours, then the remaining minutes. */
  function FormatHoursMinutes(total: nat): string {
    NatToString(total / 60) + "h " + NatToString(total % 60) + "m"
  }

  /** `calculateTotalTime`: empty when either time is missing; otherwise the difference in minutes, with a day
      added when it is negative (an overnight shift), as "Nh Mm". */
  method CalculateTotalTime(checkIn: string, checkOut: string) returns (r: string)
    requires checkIn == "" || IsClock(checkIn)
    requires checkOut == "" || IsClock(checkOut)
    ensures checkIn == "" || checkOut == "" ==> r == ""
    ensures checkIn != "" && checkOut != "" ==>
              r == FormatHoursMinutes(ElapsedMinutes(ClockMinutes(checkIn), ClockMinutes(checkOut)))
  {
    if checkIn == "" || checkOut == "" {
      return "";
    }
    var start: int := ClockMinutes(checkIn);
    var end: int := ClockMinutes(checkOut);
    var diff := end - start;
    if diff < 0 {
      diff := diff + MinutesPerDay;
    }
    ElapsedBounds(start, end);
    r := FormatHoursMinutes(diff);
  }

  /** The elapsed time of a shift is less than a day, and a check-out at the check-in time gives "0h 0m". */
  lemma ElapsedBounds(start: nat, end: nat)
    requires start < MinutesPerDay && end < MinutesPerDay
    ensures 0 <= ElapsedMinutes(start, end) < MinutesPerDay
    ensures end >= start ==> ElapsedMinutes(start, end) == end - start
    ensures end < start ==> ElapsedMinutes(start, end) == end - start + MinutesPerDay
    ensures ElapsedMinutes(start, end) / 60 <= 23 && ElapsedMinutes(start, end) % 60 <= 59
    ensures start == end ==> FormatHoursMinutes(ElapsedMinutes(start, end)) == "0h 0m"
  {
  }

  // ---- Reading a total back: the regular expression /(\d+)h\s*(\d+)m/ ----

  /** `\s` in a JavaScript regular expression. */
  predicate IsSpace(c: char) {
    c == ' ' || c == '\t' || c == '\n' || c == '\r' || c == '\U{B}' || c == '\U{C}' || c == '\U{A0}'
    || c == '\U{1680}' || ('\U{2000}' <= c <= '\U{200A}') || c == '\U{2028}' || c == '\U{2029}'
    || c == '\U{202F}' || c == '\U{205F}' || c == '\U{3000}' || c == '\U{FEFF}'
  }

  /** The end of the run of digits that starts at `i`. */
  function DigitRunEnd(s: string, i: nat): (j: nat)
    requires i <= |s|
    ensures i <= j <= |s|
    ensures forall k :: i <= k < j ==> IsDigit(s[k])
    ensures j < |s| ==> !IsDigit(s[j])
    decreases |s| - i
  {
    if i < |s| && IsDigit(s[i]) then DigitRunEnd(s, i + 1) else i
  }

  /** The end of the run of white space that starts at `i`. */
  function SpaceRunEnd(s: string, i: nat): (j: nat)
    requires i <= |s|
    ensures i <= j <= |s|
    ensures forall k :: i <= k < j ==> IsSpace(s[k])
    ensures j < |s| ==> !IsSpace(s[j])
    decreases |s| - i
  {
    if i < |s| && IsSpace(s[i]) then SpaceRunEnd(s, i + 1) else i
  }

  datatype Duration = Duration(hours: nat, minutes: nat)

  /** The pattern tried at position `i`. Greedy digit runs never need to give characters back here, because
      the characters that follow them ('h' and 'm') are not digits. */
  function MatchAt(s: string, i: nat): (r: Option<Duration>)
    requires i <= |s|
  {
    var j := DigitRunEnd(s, i);
    if j == i || j == |s| || s[j] != 'h' then None
    else
      var k := SpaceRunEnd(s, j + 1);
      var l := DigitRunEnd(s, k);
      if l == k || l == |s| || s[l] != 'm' then None
      else Some(Duration(DigitsValue(s[i..j]), DigitsValue(s[k..l])))
  }

  function MatchFrom(s: string, i: nat): Option<Duration>
    requires i <= |s|
    decreases |s| - i
  {
    if i == |s| then None
    else if MatchAt(s, i).Some? then MatchAt(s, i)
    else MatchFrom(s, i + 1)
  }

  /** `s.match(/(\d+)h\s*(\d+)m/)`: the leftmost match, its two groups read as numbers. */
  function MatchDuration(s: string): Option<Duration> {
    MatchFrom(s, 0)
  }

  lemma {:induction false} DigitRunOver(s: string, i: nat, j: nat)
    requires i <= j <= |s|
    requires forall k :: i <= k < j ==> IsDigit(s[k])
    requires j < |s| ==> !IsDigit(s[j])
    ensures DigitRunEnd(s, i) == j
    decreases j - i
  {
    if i < j {
      DigitRunOver(s, i + 1, j);
    }
  }

  /** The pattern matches "<digits>h <digits>m" at its first character and reads the two digit strings. */
  lemma MatchJoined(hs: string, ms: string)
    requires 1 <= |hs| && AllDigits(hs) && 1 <= |ms| && AllDigits(ms)
    ensures MatchDuration(hs + "h " + ms + "m") == Some(Duration(DigitsValue(hs), DigitsValue(ms)))
  {
    var s := hs + "h " + ms + "m";
    var a, b := |hs|, |ms|;
    assert forall k :: 0 <= k < a ==> s[k] == hs[k];
    assert s[a] == 'h' && s[a + 1] == ' ';
    assert forall k :: a + 2 <= k < a + 2 + b ==> s[k] == ms[k - a - 2];
    assert s[a + 2 + b] == 'm';
    DigitRunOver(s, 0, a);
    assert IsDigit(s[a + 2]);
    assert SpaceRunEnd(s, a + 1) == a + 2;
    DigitRunOver(s, a + 2, a + 2 + b);
    assert s[0..a] == hs;
    assert s[a + 2..a + 2 + b] == ms;
    assert MatchAt(s, 0) == Some(Duration(DigitsValue(hs), DigitsValue(ms)));
  }

  /** Reading back a formatted total gives its hours and minutes. */
  lemma FormatThenMatch(total: nat)
    ensures MatchDuration(FormatHoursMinutes(total)) == Some(Duration(total / 60, total % 60))
  {
    MatchJoined(NatToString(total / 60), NatToString(total % 60));
    NatToStringRoundTrip(total / 60);
    NatToStringRoundTrip(total % 60);
  }

  // ---- Summing the shown totals ----

  /** The minutes one record adds: its total read back, or 0 when it is empty or does not match. */
  function RecordMinutes(r: AttendanceRecord): nat {
    if r.totalTime == "" then 0
    else match MatchDuration(r.totalTime)
      case Some(d) => d.hours * 60 + d.minutes
      case None => 0
  }

  function TotalMinutes(records: seq<AttendanceRecord>): nat {
    if records == [] then 0 else TotalMinutes(records[..|records| - 1]) + RecordMinutes(records[|records| - 1])
  }

  /** `sumTotalMinutes`: the loop over the records accumulating `total`. */
  method SumTotalMinutes(records: seq<AttendanceRecord>) returns (total: int)
    ensures total == TotalMinutes(records)
    ensures total >= 0
  {
    total := 0;
    var i := 0;
    while i < |records|
      invariant 0 <= i <= |records|
      invariant total == TotalMinutes(records[..i])
    {
      var r := records[i];
      if r.totalTime != "" {
        var m := MatchDuration(r.totalTime);
        if m.Some? {
          total := total + m.value.hours * 60 + m.value.minutes;
        }
      }
      assert records[..i + 1][..i] == records[..i];
      i := i + 1;
    }
    assert records[..i] == records;
  }

  /** The sum over a concatenation is the sum of the two parts. */
  lemma {:induction false} TotalMinutesAppend(a: seq<AttendanceRecord>, b: seq<AttendanceRecord>)
    ensures TotalMinutes(a + b) == TotalMinutes(a) + TotalMinutes(b)
    decreases |b|
  {
    if b == [] {
      assert a + b == a;
    } else {
      assert (a + b)[..|a + b| - 1] == a + b[..|b| - 1];
      TotalMinutesAppend(a, b[..|b| - 1]);
    }
  }

  /** A record whose total was formatted from `t` minutes contributes exactly `t`. */
  lemma SingleRecordRoundTrip(r: AttendanceRecord, t: nat)
    requires r.totalTime == FormatHoursMinutes(t)
    ensures TotalMinutes([r]) == t
  {
    FormatThenMatch(t);
    assert [r][..0] == [];
  }

  /** A record saved with the computed total of its shift contributes the shift's elapsed minutes. */
  lemma ShiftRoundTrip(r: AttendanceRecord)
    requires IsClock(r.checkIn) && IsClock(r.checkOut)
    requires r.totalTime == FormatHoursMinutes(ElapsedMinutes(ClockMinutes(r.checkIn), ClockMinutes(r.checkOut)))
    ensures TotalMinutes([r]) == ElapsedMinutes(ClockMinutes(r.checkIn), ClockMinutes(r.checkOut))
  {
    SingleRecordRoundTrip(r, ElapsedMinutes(ClockMinutes(r.checkIn), ClockMinutes(r.checkOut)));
  }

  // ---- Month keys and month options ----

  /** A month in two digits, with a leading zero from January to September. */
  function TwoDigits(m: int): (r: string)
    requires 1 <= m <= 12
    ensures |r| == 2 && AllDigits(r)
  {
    [DigitChar(m / 10), DigitChar(m % 10)]
  }

  /** The two digits are `String(m).padStart(2, "0")`. */
  lemma TwoDigitsIsPadded(m: int)
    requires 1 <= m <= 12
    ensures TwoDigits(m) == PadStart(NatToString(m), 2, '0')
  {
    if m < 10 {
      OneDigitPadded(m);
    } else {
      TwoDigitPadded(m);
    }
  }

  lemma OneDigitPadded(m: int)
    requires 1 <= m < 10
    ensures TwoDigits(m) == PadStart(NatToString(m), 2, '0')
  {
    var s := NatToString(m);
    assert s == [DigitChar(m)];
    PadStartOnce(s, 2, '0');
  }

  lemma TwoDigitPadded(m: int)
    requires 10 <= m <= 12
    ensures TwoDigits(m) == PadStart(NatToString(m), 2, '0')
  {
    NatToStringTwoDigits(m);
    PadStartNothing(NatToString(m), 2, '0');
  }

  /** The two digits read back as the month. */
  lemma TwoDigitsValue(m: int)
    requires 1 <= m <= 12
    ensures DigitsValue(TwoDigits(m)) == m
  {
    var t := TwoDigits(m);
    var h := t[..1];
    assert h == [DigitChar(m / 10)];
    assert h[..0] == [];
    assert DigitsValue(h) == m / 10;
  }

  /** The label of month `m` of year `y`: the year as written, a dash, and the month in two digits. */
  function MonthLabel(y: int, m: int): string
    requires 1 <= m <= 12
  {
    IntToString(y) + "-" + TwoDigits(m)
  }

  /** A dash followed by two characters can be split off again. */
  lemma DashJoin(a: string, b: string)
    requires |b| == 2
    ensures var r := a + "-" + b;
            |r| == |a| + 3 && r[|r| - 3] == '-' && r[..|r| - 3] == a && r[|r| - 2..] == b
  {
    var r := a + "-" + b;
    assert r[..|r| - 3] == a;
    assert r[|r| - 2..] == b;
  }

  lemma JoinInjective(a1: string, b1: string, a2: string, b2: string)
    requires |b1| == 2 && |b2| == 2
    ensures a1 + "-" + b1 == a2 + "-" + b2 ==> a1 == a2 && b1 == b2
  {
    DashJoin(a1, b1);
    DashJoin(a2, b2);
  }

  /** Different months have different labels. */
  lemma MonthLabelInjective(y1: int, m1: int, y2: int, m2: int)
    requires 1 <= m1 <= 12 && 1 <= m2 <= 12
    ensures MonthLabel(y1, m1) == MonthLabel(y2, m2) <==> y1 == y2 && m1 == m2
  {
    var a1, b1, a2, b2 := IntToString(y1), TwoDigits(m1), IntToString(y2), TwoDigits(m2);
    TwoDigitsValue(m1);
    TwoDigitsValue(m2);
    JoinInjective(a1, b1, a2, b2);
    IntToStringInjective(y1, y2);
  }

  /** `getMonthYear`: "YYYY-MM" for the month in which `date` falls. */
  function MonthKey(date: Day): string {
    MonthLabel(Civil(date).year, Civil(date).month)
  }

  /** A label is the year as written, a dash, and the month in two digits. */
  lemma MonthLabelShape(y: int, m: int)
    requires 1 <= m <= 12
    ensures var k := MonthLabel(y, m);
            |k| >= 4 && k[|k| - 3] == '-' && k[..|k| - 3] == IntToString(y) && k[|k| - 2..] == TwoDigits(m)
  {
    DashJoin(IntToString(y), TwoDigits(m));
  }

  /** The key of a day is its year as written, a dash, and its month in two digits. */
  lemma MonthKeyShape(date: Day)
    ensures var k := MonthKey(date);
            |k| >= 4 && k[|k| - 3] == '-' && k[..|k| - 3] == IntToString(Civil(date).year)
            && k[|k| - 2..] == TwoDigits(Civil(date).month)
  {
    MonthLabelShape(Civil(date).year, Civil(date).month);
  }

  /** Two days have the same key exactly when they fall in the same month of the same year. */
  lemma MonthKeySameMonth(a: Day, b: Day)
    ensures MonthKey(a) == MonthKey(b) <==> Civil(a).year == Civil(b).year && Civil(a).month == Civil(b).month
  {
    var ca, cb := Civil(a), Civil(b);
    MonthLabelInjective(ca.year, ca.month, cb.year, cb.month);
  }

  /** Strictly decreasing in JavaScript's string order. */
  predicate Descending(s: seq<string>) {
    forall i :: 0 < i < |s| ==> LexLess(s[i], s[i - 1])
  }

  lemma {:induction false} DescendingPairs(s: seq<string>)
    requires Descending(s)
    ensures forall i, j :: 0 <= i < j < |s| ==> LexLess(s[j], s[i])
    decreases |s|
  {
    if |s| > 1 {
      DescendingPairs(s[1..]);
      forall j | 1 < j < |s|
        ensures LexLess(s[j], s[0])
      {
        assert LexLess(s[j], s[1]) by { assert s[j] == s[1..][j - 1] && s[1] == s[1..][0]; }
        LexTransitive(s[j], s[1], s[0]);
      }
    }
  }

  /** Insert `k` into a strictly descending list unless it is already there. */
  function InsertDescending(sorted: seq<string>, k: string): (r: seq<string>)
    requires Descending(sorted)
    ensures Descending(r)
    ensures forall x :: x in r <==> x in sorted || x == k
    ensures |r| > 0 && (r[0] == k || (sorted != [] && r[0] == sorted[0]))
  {
    if sorted == [] then [k]
    else if k == sorted[0] then sorted
    else if LexLess(sorted[0], k) then
      LexTotal(sorted[0], k);
      [k] + sorted
    else
      LexTotal(sorted[0], k);
      var rest := InsertDescending(sorted[1..], k);
      assert forall x :: x in sorted <==> x == sorted[0] || x in sorted[1..] by {
        assert sorted == [sorted[0]] + sorted[1..];
      }
      [sorted[0]] + rest
  }

  /** The month key of each record, in list order. */
  function MonthKeys(records: seq<AttendanceRecord>): seq<string> {
    seq(|records|, i requires 0 <= i < |records| => MonthKey(records[i].date))
  }

  function DistinctDescending(keys: seq<string>): (r: seq<string>)
    ensures Descending(r)
    ensures forall x :: x in r <==> x in keys
  {
    if keys == [] then []
    else
      var init := keys[..|keys| - 1];
      assert forall x :: x in keys <==> x in init || x == keys[|keys| - 1] by {
        assert keys == init + [keys[|keys| - 1]];
      }
      InsertDescending(DistinctDescending(init), keys[|keys| - 1])
  }

  /** `getMonthOptions`: the month keys of the records, each once, in descending string order. */
  function MonthOptions(records: seq<AttendanceRecord>): (r: seq<string>)
    ensures forall k :: k in r <==> k in MonthKeys(records)
    ensures forall i, j :: 0 <= i < j < |r| ==> LexLess(r[j], r[i]) && r[i] != r[j]
  {
    var keys := MonthKeys(records);
    var r := DistinctDescending(keys);
    DescendingPairs(r);
    forall i, j | 0 <= i < j < |r|
      ensures r[i] != r[j]
    {
      if r[i] == r[j] {
        LexIrreflexive(r[i]);
      }
    }
    r
  }

  /** The options the month selector shows: with no records, the current month alone. */
  function MonthChoices(records: seq<AttendanceRecord>, today: Day): (r: seq<string>)
    ensures records == [] ==> forall k :: k in r <==> k == MonthKey(today)
    ensures records != [] ==> forall k :: k in r <==> k in MonthKeys(records)
  {
    if records == [] then
      var placeholder := [AttendanceRecord(today, "", "", "", Present, "")];
      assert MonthKeys(placeholder) == [MonthKey(today)];
      MonthOptions(placeholder)
    else MonthOptions(records)
  }

  // ---- Submitting and filtering ----

  predicate AlreadyMarked(records: seq<AttendanceRecord>, today: Day) {
    exists i :: 0 <= i < |records| && records[i].date == today
  }

  predicate UniqueDates(records: seq<AttendanceRecord>) {
    forall i, j :: 0 <= i < j < |records| ==> records[i].date != records[j].date
  }

  /** Submitting the form: refused when the selected date is already marked; otherwise the new record is put
      in front of the others. */
  function Submit(records: seq<AttendanceRecord>, today: Day, checkIn: string, checkOut: string,
                  totalTime: string, status: AttendanceStatus, notes: string): (r: seq<AttendanceRecord>)
    ensures AlreadyMarked(records, today) ==> r == records
    ensures !AlreadyMarked(records, today) ==>
              |r| == |records| + 1 && r[0] == AttendanceRecord(today, checkIn, checkOut, totalTime, status, notes)
              && r[1..] == records
  {
    if AlreadyMarked(records, today) then records
    else [AttendanceRecord(today, checkIn, checkOut, totalTime, status, notes)] + records
  }

  /** Submitting never gives a date a second record, and afterwards the date is marked. */
  lemma SubmitKeepsDatesUnique(records: seq<AttendanceRecord>, today: Day, checkIn: string, checkOut: string,
                               totalTime: string, status: AttendanceStatus, notes: string)
    requires UniqueDates(records)
    ensures UniqueDates(Submit(records, today, checkIn, checkOut, totalTime, status, notes))
    ensures AlreadyMarked(Submit(records, today, checkIn, checkOut, totalTime, status, notes), today)
  {
    var r := Submit(records, today, checkIn, checkOut, totalTime, status, notes);
    if !AlreadyMarked(records, today) {
      forall i, j | 0 <= i < j < |r|
        ensures r[i].date != r[j].date
      {
        if i == 0 {
          assert r[j] == records[j - 1];
        } else {
          assert r[i] == records[i - 1] && r[j] == records[j - 1];
        }
      }
      assert r[0].date == today;
    }
  }

  datatype StatusFilter = AnyStatus | OnlyStatus(status: AttendanceStatus)

  /** The row test of `filteredRecords`: the month ("all" or a key) and the status filter. */
  function Shown(selectedMonth: string, statusFilter: StatusFilter): AttendanceRecord -> bool {
    (r: AttendanceRecord) =>
      (selectedMonth == "all" || MonthKey(r.date) == selectedMonth)
      && (statusFilter.AnyStatus? || r.status == statusFilter.status)
  }

  /** `filteredRecords`: the records that pass both filters, in list order. */
  function FilteredRecords(records: seq<AttendanceRecord>, selectedMonth: string, statusFilter: StatusFilter)
    : (r: seq<AttendanceRecord>)
    ensures forall i :: 0 <= i < |r| ==>
              (selectedMonth == "all" || MonthKey(r[i].date) == selectedMonth)
              && (statusFilter.AnyStatus? || r[i].status == statusFilter.status)
    ensures forall x :: x in r <==> x in records && Shown(selectedMonth, statusFilter)(x)
    ensures selectedMonth == "all" && statusFilter == AnyStatus ==> r == records
  {
    forall x ensures x in Filter(records, Shown(selectedMonth, statusFilter)) <==>
                     x in records && Shown(selectedMonth, statusFilter)(x) {
      FilterMembers(records, Shown(selectedMonth, statusFilter), x);
    }
    if selectedMonth == "all" && statusFilter == AnyStatus then
      FilterKeepsAll(records, Shown(selectedMonth, statusFilter));
      Filter(records, Shown(selectedMonth, statusFilter))
    else Filter(records, Shown(selectedMonth, statusFilter))
  }

  /** Filtering keeps the list order: it works segment by segment. */
  lemma FilteredRecordsKeepsOrder(a: seq<AttendanceRecord>, b: seq<AttendanceRecord>, selectedMonth: string,
                                  statusFilter: StatusFilter)
    ensures FilteredRecords(a + b, selectedMonth, statusFilter)
         == FilteredRecords(a, selectedMonth, statusFilter) + FilteredRecords(b, selectedMonth, statusFilter)
  {
    FilterAppend(a, b, Shown(selectedMonth, statusFilter));
  }

  /** Choosing the month of day `d` shows exactly the records dated in that calendar month. */
  lemma MonthFilterIsCalendarMonth(r: AttendanceRecord, d: Day, statusFilter: StatusFilter)
    ensures Shown(MonthKey(d), statusFilter)(r) <==>
              Civil(r.date).year == Civil(d).year && Civil(r.date).month == Civil(d).month
              && (statusFilter.AnyStatus? || r.status == statusFilter.status)
  {
    MonthKeySameMonth(r.date, d);
    MonthKeyShape(d);
  }

  // ---- Deleting a row ----

  /** `handleDelete(idx)` as written is `RemoveAt(records, idx)`: `idx` is the row's position in the filtered
      table, but the filter it applies to the full list drops the record at that position of the full list.
      Either way of deleting keeps one record per date. */
  lemma DeleteKeepsDatesUnique(records: seq<AttendanceRecord>, selectedMonth: string, statusFilter: StatusFilter,
                               idx: int)
    requires UniqueDates(records)
    ensures UniqueDates(RemoveAt(records, idx))
    ensures UniqueDates(DeleteShown(records, selectedMonth, statusFilter, idx))
  {
    RemoveKeepsDatesUnique(records, idx);
    var p := Shown(selectedMonth, statusFilter);
    if 0 <= idx < |Filter(records, p)| {
      RemoveKeepsDatesUnique(records, NthMatchIndex(records, p, idx));
    }
  }

  lemma RemoveKeepsDatesUnique(records: seq<AttendanceRecord>, idx: int)
    requires UniqueDates(records)
    ensures UniqueDates(RemoveAt(records, idx))
  {
    var r := RemoveAt(records, idx);
    if 0 <= idx < |records| {
      forall i, j | 0 <= i < j < |r|
        ensures r[i].date != r[j].date
      {
        assert r[i] == records[if i < idx then i else i + 1];
        assert r[j] == records[if j < idx then j else j + 1];
      }
    }
  }

  /** With a status filter on, deleting the only shown row removes a record that was not shown and keeps the
      one the user asked to delete. */
  lemma DeleteAsWrittenRemovesHiddenRecord()
    ensures var shown := AttendanceRecord(1, "", "", "", Absent, "");
            var hidden := AttendanceRecord(0, "09:00", "18:00", "9h 0m", Present, "");
            var records := [hidden, shown];
            FilteredRecords(records, "all", OnlyStatus(Absent)) == [shown]
            && RemoveAt(records, 0) == [shown]
            && DeleteShown(records, "all", OnlyStatus(Absent), 0) == [hidden]
  {
    var shown := AttendanceRecord(1, "", "", "", Absent, "");
    var hidden := AttendanceRecord(0, "09:00", "18:00", "9h 0m", Present, "");
    var records := [hidden, shown];
    var p := Shown("all", OnlyStatus(Absent));
    assert records[1..] == [shown];
    assert Filter(records, p) == [shown];
    assert NthMatchIndex(records, p, 0) == 1;
  }

  /** Deleting the `idx`-th shown row, as evidently intended: the record removed from the full list is the one
      at that row. The table loses exactly that row, and the records the filters hide are left alone. */
  function DeleteShown(records: seq<AttendanceRecord>, selectedMonth: string, statusFilter: StatusFilter,
                       idx: int): (r: seq<AttendanceRecord>)
    ensures FilteredRecords(r, selectedMonth, statusFilter)
         == RemoveAt(FilteredRecords(records, selectedMonth, statusFilter), idx)
    ensures Filter(r, Hidden(selectedMonth, statusFilter)) == Filter(records, Hidden(selectedMonth, statusFilter))
    ensures |r| == if 0 <= idx < |FilteredRecords(records, selectedMonth, statusFilter)| then |records| - 1
                   else |records|
  {
    var p := Shown(selectedMonth, statusFilter);
    if 0 <= idx < |Filter(records, p)| then
      var j := NthMatchIndex(records, p, idx);
      RemoveAtFilter(records, j, p);
      RemoveAtFilter(records, j, Hidden(selectedMonth, statusFilter));
      RemoveAt(records, j)
    else records
  }

  function Hidden(selectedMonth: string, statusFilter: StatusFilter): AttendanceRecord -> bool {
    (r: AttendanceRecord) => !Shown(selectedMonth, statusFilter)(r)
  }
}
