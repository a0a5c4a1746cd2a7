// The CSR event register (src/pages/CSRPage.tsx): records loaded from
// storage through a per-field migration, an add form that resets to its
// defaults, an editing session of one record at a time, deletion by
// position, and a filter on financial year and NGO.

module Csr {
  import opened Seqs

  /** A value as `JSON.parse` returns it, plus `undefined`, which reading an absent property gives. */
  datatype Value =
    | Undefined
    | Null
    | Bool(b: bool)
    | Num(n: int)
    | Str(s: string)
    | Arr(items: seq<Value>)
    | Obj(fields: map<string, Value>)

  /** JavaScript truthiness, as `x || fallback` tests it. */
  predicate Truthy(v: Value) {
    match v
    case Undefined => false
    case Null => false
    case Bool(b) => b
    case Num(n) => n != 0
    case Str(s) => s != ""
    case Arr(_) => true
    case Obj(_) => true
  }

  /** `e.name`: the property of an object, `undefined` when it is absent or `e` is not an object. */
  function Field(e: Value, name: string): Value {
    if e.Obj? && name in e.fields then e.fields[name] else Undefined
  }

  /** `x || fallback`. */
  function Or(x: Value, fallback: Value): Value {
    if Truthy(x) then x else fallback
  }

  /** A CSR record. The fields migrated with `||` keep whatever truthy value was stored, string or not. */
  datatype CsrEvent = CsrEvent(
    financialYear: string,
    ngoName: string,
    phase: Value,
    project: Value,
    location: Value,
    startDate: Value,
    endDate: Value,
    inaugurationDate: Value,
    participants: int,
    totalCost: int,
    googleLocation: string,
    status: string)

  /** The form's initial and reset state. */
  const DefaultForm := CsrEvent("25-26", "IndiaSudar", Str("Phase 1"), Str("Infrastructure"), Str(""), Str(""),
                                Str(""), Str(""), 0, 0, "", "Not started")

  /** The shape every migrated record has: `phase` and `project` truthy, the other `||` fields truthy or
      empty. */
  predicate Migrated(ev: CsrEvent) {
    Truthy(ev.phase) && Truthy(ev.project)
    && (Truthy(ev.location) || ev.location == Str(""))
    && (Truthy(ev.startDate) || ev.startDate == Str(""))
    && (Truthy(ev.endDate) || ev.endDate == Str(""))
    && (Truthy(ev.inaugurationDate) || ev.inaugurationDate == Str(""))
  }

  function StrOr(v: Value, fallback: string): string {
    if v.Str? then v.s else fallback
  }

  function NumOr(v: Value, fallback: int): int {
    if v.Num? then v.n else fallback
  }

  /** The load-time migration of one stored record: strings and numbers of the wrong type fall back to
      `"21-22"`, `"IndiaSudar"`, 0, `""` and `"Not started"`, falsy `||` fields to their defaults. */
  function Migrate(e: Value): (ev: CsrEvent)
    ensures Migrated(ev)
  {
    CsrEvent(
      StrOr(Field(e, "financialYear"), "21-22"),
      StrOr(Field(e, "ngoName"), "IndiaSudar"),
      Or(Field(e, "phase"), Str("Phase 1")),
      Or(Field(e, "project"), Str("Infrastructure")),
      Or(Field(e, "location"), Str("")),
      Or(Field(e, "startDate"), Str("")),
      Or(Field(e, "endDate"), Str("")),
      Or(Field(e, "inaugurationDate"), Str("")),
      NumOr(Field(e, "participants"), 0),
      NumOr(Field(e, "totalCost"), 0),
      StrOr(Field(e, "googleLocation"), ""),
      StrOr(Field(e, "status"), "Not started"))
  }

  /** `JSON.stringify` of a record, read back as a value. */
  function ToValue(ev: CsrEvent): Value {
    Obj(map[
      "financialYear" := Str(ev.financialYear),
      "ngoName" := Str(ev.ngoName),
      "phase" := ev.phase,
      "project" := ev.project,
      "location" := ev.location,
      "startDate" := ev.startDate,
      "endDate" := ev.endDate,
      "inaugurationDate" := ev.inaugurationDate,
      "participants" := Num(ev.participants),
      "totalCost" := Num(ev.totalCost),
      "googleLocation" := Str(ev.googleLocation),
      "status" := Str(ev.status)])
  }

  /** A stored migrated record migrates to itself. */
  lemma MigrateRoundTrip(ev: CsrEvent)
    requires Migrated(ev)
    ensures Migrate(ToValue(ev)) == ev
  {
    StoredTypedFields(ev);
    StoredOrFields(ev);
  }

  /** The stored record holds the typed fields under their own names. */
  lemma StoredTypedFields(ev: CsrEvent)
    ensures var v := ToValue(ev);
            Field(v, "financialYear") == Str(ev.financialYear) && Field(v, "ngoName") == Str(ev.ngoName)
            && Field(v, "participants") == Num(ev.participants) && Field(v, "totalCost") == Num(ev.totalCost)
            && Field(v, "googleLocation") == Str(ev.googleLocation) && Field(v, "status") == Str(ev.status)
  {
  }

  /** The stored record holds the `||` fields under their own names. */
  lemma StoredOrFields(ev: CsrEvent)
    ensures var v := ToValue(ev);
            Field(v, "phase") == ev.phase && Field(v, "project") == ev.project
            && Field(v, "location") == ev.location && Field(v, "startDate") == ev.startDate
            && Field(v, "endDate") == ev.endDate && Field(v, "inaugurationDate") == ev.inaugurationDate
  {
  }

  /** Migrating an already migrated record changes nothing. */
  lemma MigrateIdempotent(e: Value)
    ensures Migrate(ToValue(Migrate(e))) == Migrate(e)
  {
    MigrateRoundTrip(Migrate(e));
  }

  /** The form's defaults survive a save and reload unchanged. */
  lemma DefaultFormIsMigrated()
    ensures Migrated(DefaultForm) && Migrate(ToValue(DefaultForm)) == DefaultForm
  {
    MigrateRoundTrip(DefaultForm);
  }

  // ---- Loading and saving ----

  /** What `localStorage.getItem("csrEvents")` and `JSON.parse` give: no entry, text that does not parse, or
      a parsed value. */
  datatype Stored = NotStored | Unparsable | Parsed(value: Value)

  /** Reading a property of `null` or `undefined` throws. */
  predicate Nullish(v: Value) {
    v.Undefined? || v.Null?
  }

  /** The initial list: no entry, unparsable text, a value without `map`, or an element whose properties
      cannot be read all end in the empty list; otherwise each stored element is migrated, in order. */
  function Load(stored: Stored): (events: seq<CsrEvent>)
    ensures !(stored.Parsed? && stored.value.Arr?) ==> events == []
    ensures stored.Parsed? && stored.value.Arr? && (exists i :: 0 <= i < |stored.value.items| && Nullish(stored.value.items[i]))
            ==> events == []
    ensures stored.Parsed? && stored.value.Arr? && (forall i :: 0 <= i < |stored.value.items| ==> !Nullish(stored.value.items[i]))
            ==> |events| == |stored.value.items|
                && forall i :: 0 <= i < |events| ==> events[i] == Migrate(stored.value.items[i])
    ensures forall i :: 0 <= i < |events| ==> Migrated(events[i])
  {
    if stored.Parsed? && stored.value.Arr? then
      var items := stored.value.items;
      if exists i :: 0 <= i < |items| && Nullish(items[i]) then []
      else seq(|items|, i requires 0 <= i < |items| => Migrate(items[i]))
    else []
  }

  /** The `useEffect` that writes the list back. */
  function Save(events: seq<CsrEvent>): (stored: Stored)
    ensures stored.Parsed? && stored.value.Arr? && |stored.value.items| == |events|
  {
    Parsed(Arr(seq(|events|, i requires 0 <= i < |events| => ToValue(events[i]))))
  }

  /** A saved list of migrated records loads back unchanged. */
  lemma LoadAfterSave(events: seq<CsrEvent>)
    requires forall i :: 0 <= i < |events| ==> Migrated(events[i])
    ensures Load(Save(events)) == events
  {
    var items := Save(events).value.items;
    forall i | 0 <= i < |items|
      ensures !Nullish(items[i]) && Migrate(items[i]) == events[i]
    {
      assert items[i] == ToValue(events[i]);
      MigrateRoundTrip(events[i]);
    }
  }

  /** Loading, saving and loading again gives what the first load gave. */
  lemma LoadIdempotent(stored: Stored)
    ensures Load(Save(Load(stored))) == Load(stored)
  {
    LoadAfterSave(Load(stored));
  }

  // ---- The filter ----

  /** `(filterYear === "all" || e.financialYear === filterYear) && (filterNGO === "all" || e.ngoName === filterNGO)`. */
  function Matches(filterYear: string, filterNgo: string): CsrEvent -> bool {
    (e: CsrEvent) => (filterYear == "all" || e.financialYear == filterYear) && (filterNgo == "all" || e.ngoName == filterNgo)
  }

  /** `filteredEvents`: the events of the chosen year and NGO, in their original order. */
  function FilteredEvents(events: seq<CsrEvent>, filterYear: string, filterNgo: string): (r: seq<CsrEvent>)
    ensures forall i :: 0 <= i < |r| ==>
              (filterYear == "all" || r[i].financialYear == filterYear) && (filterNgo == "all" || r[i].ngoName == filterNgo)
    ensures forall x :: x in r <==> x in events && Matches(filterYear, filterNgo)(x)
    ensures filterYear == "all" && filterNgo == "all" ==> r == events
  {
    var p := Matches(filterYear, filterNgo);
    forall x ensures x in Filter(events, p) <==> x in events && p(x) {
      FilterMembers(events, p, x);
    }
    if filterYear == "all" && filterNgo == "all" then
      FilterKeepsAll(events, p);
      Filter(events, p)
    else Filter(events, p)
  }

  /** The filter works record by record, so it keeps the order of the list. */
  lemma FilteredEventsKeepsOrder(a: seq<CsrEvent>, b: seq<CsrEvent>, filterYear: string, filterNgo: string)
    ensures FilteredEvents(a + b, filterYear, filterNgo)
         == FilteredEvents(a, filterYear, filterNgo) + FilteredEvents(b, filterYear, filterNgo)
  {
    FilterAppend(a, b, Matches(filterYear, filterNgo));
  }

  // ---- The page's state ----

  /** The CSR page: the list, the add form, the editing session and the pending delete. */
  class CsrSession {
    var events: seq<CsrEvent>
    var form: CsrEvent
    var editIdx: Option<int>
    var editForm: Option<CsrEvent>
    var deleteIdx: Option<int>

    /** A record is being edited exactly when its copy is held. */
    predicate Valid()
      reads this
    {
      editIdx.Some? <==> editForm.Some?
    }

    /** The page as it mounts: the loaded list, the default form, nothing being edited or deleted. */
    constructor(stored: Stored)
      ensures Valid()
      ensures events == Load(stored) && form == DefaultForm
      ensures editIdx == None && editForm == None && deleteIdx == None
    {
      events := Load(stored);
      form := DefaultForm;
      editIdx := None;
      editForm := None;
      deleteIdx := None;
    }

    /** `handleAdd`: the form's record is appended and the form goes back to its defaults. */
    method Add()
      modifies this
      requires Valid()
      ensures Valid()
      ensures events == old(events) + [old(form)] && form == DefaultForm
      ensures editIdx == old(editIdx) && editForm == old(editForm) && deleteIdx == old(deleteIdx)
    {
      events := events + [form];
      form := DefaultForm;
    }

    /** `handleEdit(idx)`: start editing a copy of the record at `idx`. */
    method Edit(idx: int)
      modifies this
      requires 0 <= idx < |events|
      ensures Valid()
      ensures events == old(events) && form == old(form) && deleteIdx == old(deleteIdx)
      ensures editIdx == Some(idx) && editForm == Some(events[idx])
    {
      editIdx := Some(idx);
      editForm := Some(events[idx]);
    }

    /** `handleEditSave(idx)`: with no copy held nothing happens; otherwise the copy replaces the record at
        `idx` and the session ends. Either way no session is open afterwards: without a copy, `Valid()` says
        no position was being edited either. */
    method EditSave(idx: int)
      modifies this
      requires Valid()
      ensures Valid()
      ensures old(editForm).None? ==> events == old(events) && editIdx == old(editIdx) && editForm == old(editForm)
      ensures old(editForm).Some? ==>
                events == ReplaceAt(old(events), idx, old(editForm).value) && editIdx == None && editForm == None
      ensures editIdx == None && editForm == None
      ensures form == old(form) && deleteIdx == old(deleteIdx)
    {
      if editForm.None? {
        return;
      }
      events := ReplaceAt(events, idx, editForm.value);
      editIdx := None;
      editForm := None;
    }

    /** `handleEditCancel`: the session ends and the list is left as it was. */
    method EditCancel()
      modifies this
      ensures Valid()
      ensures editIdx == None && editForm == None
      ensures events == old(events) && form == old(form) && deleteIdx == old(deleteIdx)
    {
      editIdx := None;
      editForm := None;
    }

    /** `handleDelete(idx)`: the record at `idx` goes; the session ends only if it was editing that very
        position (a later position is not shifted down), and the pending delete is cleared. */
    method Delete(idx: int)
      modifies this
      requires Valid()
      ensures Valid()
      ensures events == RemoveAt(old(events), idx)
      ensures old(editIdx) == Some(idx) ==> editIdx == None && editForm == None
      ensures old(editIdx) != Some(idx) ==> editIdx == old(editIdx) && editForm == old(editForm)
      ensures deleteIdx == None && form == old(form)
    {
      events := RemoveAt(events, idx);
      if editIdx == Some(idx) {
        editIdx := None;
        editForm := None;
      }
      deleteIdx := None;
    }
  }

  /** Saving an edit changes the record at the position and no other, and keeps the length. */
  lemma EditSaveReplacesOne(events: seq<CsrEvent>, idx: int, edited: CsrEvent)
    requires 0 <= idx < |events|
    ensures var r := ReplaceAt(events, idx, edited);
            |r| == |events| && r[idx] == edited && r[..idx] == events[..idx] && r[idx + 1..] == events[idx + 1..]
  {
    var r := ReplaceAt(events, idx, edited);
    assert r[..idx] == events[..idx];
    assert r[idx + 1..] == events[idx + 1..];
  }

  /** Deleting an earlier record leaves the session pointing at the same position, which now holds the record
      that followed the one being edited. */
  lemma DeleteBeforeEditedShifts(events: seq<CsrEvent>, deleted: int, edited: int)
    requires 0 <= deleted < edited < |events|
    ensures edited - 1 < |RemoveAt(events, deleted)|
    ensures edited < |RemoveAt(events, deleted)| ==> RemoveAt(events, deleted)[edited] == events[edited + 1]
  {
  }
}
