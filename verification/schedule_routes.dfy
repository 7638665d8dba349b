/** The `/schedule` routes (backend/src/routes/schedule.js): reading a
    schedule by id, finding the latest id, building the weekly skeleton and
    merging an update. The `schedule` collection is a sequence of documents
    in natural order. */
module ScheduleRoutes {
  import opened Util
  import opened Js
  import opened TaSchemas
  import opened ScheduleSchemas
  import Mongo

  datatype Status = Ok200 | BadRequest400 | NotFound404 | ServerError500 | Crashed

  type Store = seq<JsValue>

  /** Reading a property. A missing property reads as undefined, which the
      database driver stores, and matches, as null. */
  function Field(v: JsValue, key: string): JsValue {
    if v.JObj? && key in v.fields then v.fields[key] else JNull
  }

  /** The equality filter `{schedule_id: x}` for a number x: an equal number,
      or an array holding one. */
  predicate MatchesNumber(v: JsValue, x: real) {
    v == JNum(x) || (v.JArr? && JNum(x) in v.items)
  }

  predicate HasScheduleId(doc: JsValue, x: real) {
    MatchesNumber(Field(doc, "schedule_id"), x)
  }

  // ---------------------------------------------------------------- getSchedule

  /** GET /getSchedule. `id` is `Number(req.query.schedule_id)`, None for
      NaN. A falsy id (NaN or 0) is a 400; otherwise the first document with
      that id is returned, or 404. */
  function GetSchedule(store: Store, id: Option<real>): (r: (Status, Option<JsValue>))
    ensures r.0 == BadRequest400 <==> id == None || id == Some(0.0)
    ensures r.0 == NotFound404 <==>
      id.Some? && id.value != 0.0 && forall k :: 0 <= k < |store| ==> !HasScheduleId(store[k], id.value)
    ensures r.0 == Ok200 ==> exists k :: 0 <= k < |store| && r.1 == Some(store[k]) && HasScheduleId(store[k], id.value)
    ensures r.0 != Ok200 ==> r.1 == None
    ensures r.0 in {Ok200, BadRequest400, NotFound404}
  {
    if id == None || id == Some(0.0) then (BadRequest400, None)
    else
      match FirstWhere(store, doc => HasScheduleId(doc, id.value))
      case None => (NotFound404, None)
      case Some(k) => (Ok200, Some(store[k]))
  }

  // ------------------------------------------------------- getLatestScheduleId

  /** Where a `schedule_id` value falls in a descending sort: an empty array
      below null, null and missing below every number, numbers by value,
      and every other type above the numbers. An array sorts as its
      largest item. */
  datatype SortKey = EmptyArray | NullKey | NumKey(n: real) | AboveNumbers

  function Rank(k: SortKey): int {
    match k
    case EmptyArray => 0
    case NullKey => 1
    case NumKey(_) => 2
    case AboveNumbers => 3
  }

  predicate KeyLe(a: SortKey, b: SortKey) {
    Rank(a) < Rank(b) || (Rank(a) == Rank(b) && (a.NumKey? ==> a.n <= b.n))
  }

  function MaxKey(a: SortKey, b: SortKey): (m: SortKey)
    ensures KeyLe(a, m) && KeyLe(b, m) && (m == a || m == b)
  {
    if KeyLe(a, b) then b else a
  }

  function ItemKey(v: JsValue): SortKey {
    match v
    case JNull => NullKey
    case JNum(n) => NumKey(n)
    case _ => AboveNumbers
  }

  function ArrayKey(items: seq<JsValue>): (k: SortKey)
    ensures |items| == 0 <==> k == EmptyArray
    ensures forall i :: 0 <= i < |items| ==> KeyLe(ItemKey(items[i]), k)
  {
    if |items| == 0 then EmptyArray
    else if |items| == 1 then ItemKey(items[0])
    else MaxKey(ArrayKey(items[..|items| - 1]), ItemKey(items[|items| - 1]))
  }

  function SortKeyOf(doc: JsValue): SortKey {
    var v := Field(doc, "schedule_id");
    if v.JArr? then ArrayKey(v.items) else ItemKey(v)
  }

  /** The first document whose key no other document exceeds. Documents
      with equal keys are taken in natural order. */
  function TopIndex(store: Store): (r: nat)
    requires |store| > 0
    ensures r < |store|
    ensures forall j :: 0 <= j < |store| ==> KeyLe(SortKeyOf(store[j]), SortKeyOf(store[r]))
  {
    if |store| == 1 then 0
    else
      var i := TopIndex(store[..|store| - 1]);
      assert forall j :: 0 <= j < |store| - 1 ==> store[..|store| - 1][j] == store[j];
      if KeyLe(SortKeyOf(store[i]), SortKeyOf(store[|store| - 1]))
         && SortKeyOf(store[i]) != SortKeyOf(store[|store| - 1])
      then |store| - 1
      else i
  }

  /** GET /getLatestScheduleId: the `schedule_id` of the top document of a
      descending sort, when it is an integer; otherwise, or when there is
      no document, 404. */
  function GetLatestScheduleId(store: Store): (r: (Status, Option<int>))
    ensures r.0 == Ok200 || r.0 == NotFound404
    ensures r.0 == Ok200 <==> r.1.Some?
    ensures r.0 == Ok200 ==>
      && (exists k :: 0 <= k < |store| && Field(store[k], "schedule_id") == JNum(r.1.value as real))
      && forall j :: 0 <= j < |store| ==> KeyLe(SortKeyOf(store[j]), NumKey(r.1.value as real))
    ensures |store| == 0 ==> r.0 == NotFound404
  {
    if |store| == 0 then (NotFound404, None)
    else
      var v := Field(store[TopIndex(store)], "schedule_id");
      if IsInteger(v) then (Ok200, Some(v.n.Floor)) else (NotFound404, None)
  }

  lemma KeyLeTrans(a: SortKey, b: SortKey, c: SortKey)
    requires KeyLe(a, b) && KeyLe(b, c)
    ensures KeyLe(a, c)
  {
  }

  /** When every document has an integer `schedule_id`, the latest id is
      the largest of them. */
  lemma LatestIsMaximum(store: Store, n: int)
    requires forall k :: 0 <= k < |store| ==>
      IsInteger(Field(store[k], "schedule_id")) && Field(store[k], "schedule_id").n <= n as real
    requires exists k :: 0 <= k < |store| && Field(store[k], "schedule_id") == JNum(n as real)
    ensures GetLatestScheduleId(store) == (Ok200, Some(n))
  {
    var t := TopIndex(store);
    var k :| 0 <= k < |store| && Field(store[k], "schedule_id") == JNum(n as real);
    assert SortKeyOf(store[k]) == NumKey(n as real);
    assert KeyLe(SortKeyOf(store[k]), SortKeyOf(store[t]));
  }

  // ---------------------------------------------------------------- initSchedule

  /** The start and end time of one slot, as the grid helper returns them;
      a missing value is JNull. */
  datatype ShiftTime = ShiftTime(start: JsValue, end: JsValue)

  const DayPrefixes: seq<string> := ["m", "tu", "w", "th", "f", "sa", "su"]

  /** The request body sent to the shift-creation route for slot i. */
  function ShiftBody(prefix: string, i: nat, t: ShiftTime, staffing: JsValue): JsValue {
    JObj(map["shift_id" := JStr(prefix + NatToString(i + 1)), "schedule_id" := JNum(1.0),
             "start_time" := t.start, "end_time" := t.end, "is_lab" := JBool(false),
             "is_empty" := JBool(false), "staffing_capacity" := staffing])
  }

  /** What the shift-creation route returns for a body it accepts: the body
      with an empty `tas_scheduled`. */
  function CreatedShift(body: JsValue): JsValue
    requires body.JObj?
  {
    JObj(body.fields["tas_scheduled" := JArr([])])
  }

  /** The shift-creation route accepts the body of slot i exactly when the
      slot's times are non-empty strings and the capacity is valid. */
  lemma ShiftBodyValidIff(prefix: string, i: nat, t: ShiftTime, staffing: JsValue)
    ensures ShiftSchema(ShiftBody(prefix, i, t, staffing)) <==>
            JoiString(t.start, false) && JoiString(t.end, false) && StaffCapacity(staffing)
  {
    var b := ShiftBody(prefix, i, t, staffing);
    assert b.fields["shift_id"] == JStr(prefix + NatToString(i + 1));
    assert b.fields["start_time"] == t.start && b.fields["end_time"] == t.end;
    assert b.fields["staffing_capacity"] == staffing;
    assert b.fields["is_lab"] == JBool(false) && b.fields["is_empty"] == JBool(false);
    assert b.fields["schedule_id"] == JNum(1.0);
  }

  /** Every slot below `count` has a time entry with non-empty string times,
      and the capacity is valid whenever at least one shift is created. */
  predicate SlotsUsable(count: int, times: seq<ShiftTime>, staffing: JsValue) {
    count <= 0 ||
      (&& count <= |times|
       && StaffCapacity(staffing)
       && forall i :: 0 <= i < count ==> JoiString(times[i].start, false) && JoiString(times[i].end, false))
  }

  /** The shifts of one day, slot by slot. */
  function DayShifts(prefix: string, count: int, times: seq<ShiftTime>, staffing: JsValue): (s: seq<JsValue>)
    requires count <= |times|
    ensures |s| == if count < 0 then 0 else count
    ensures forall i :: 0 <= i < |s| ==>
      && s[i].JObj? && s[i].fields.Keys == ShiftKeys
      && s[i].fields["shift_id"] == JStr(prefix + NatToString(i + 1))
      && s[i].fields["schedule_id"] == JNum(1.0)
      && s[i].fields["start_time"] == times[i].start && s[i].fields["end_time"] == times[i].end
      && s[i].fields["is_lab"] == JBool(false) && s[i].fields["is_empty"] == JBool(false)
      && s[i].fields["tas_scheduled"] == JArr([])
      && s[i].fields["staffing_capacity"] == staffing
  {
    var n := if count < 0 then 0 else count;
    seq(n, i requires 0 <= i < n => CreatedShift(ShiftBody(prefix, i, times[i], staffing)))
  }

  /** The inserted schedule document: the seven day arrays, id 1 and the
      three request fields. */
  function Entry(body: JsValue, count: int, times: seq<ShiftTime>): (e: JsValue)
    requires count <= |times|
    ensures e.JObj?
    ensures e.fields.Keys == (set d | d in DayKeys)
                             + {"schedule_id", "start_interval_time", "end_interval_time", "shift_duration"}
    ensures e.fields["schedule_id"] == JNum(1.0)
    ensures forall j :: 0 <= j < 7 ==>
      e.fields[DayKeys[j]] == JArr(DayShifts(DayPrefixes[j], count, times, Field(body, "staffing_capacity")))
    ensures e.fields["start_interval_time"] == Field(body, "start_interval_time")
    ensures e.fields["end_interval_time"] == Field(body, "end_interval_time")
    ensures e.fields["shift_duration"] == Field(body, "shift_duration")
  {
    var st := Field(body, "staffing_capacity");
    var days := DayFields(count, times, st);
    DayKeysShort();
    var start, end, duration := Field(body, "start_interval_time"), Field(body, "end_interval_time"),
                                Field(body, "shift_duration");
    HeaderUpdates(days, JNum(1.0), start, end, duration);
    JObj(days["schedule_id" := JNum(1.0)]["start_interval_time" := start]["end_interval_time" := end]
             ["shift_duration" := duration])
  }

  /** Writing the four header fields over short keys. */
  lemma HeaderUpdates(days: map<string, JsValue>, id: JsValue, start: JsValue, end: JsValue, duration: JsValue)
    ensures var m := days["schedule_id" := id]["start_interval_time" := start]["end_interval_time" := end]
                         ["shift_duration" := duration];
      && m.Keys == days.Keys + {"schedule_id", "start_interval_time", "end_interval_time", "shift_duration"}
      && m["schedule_id"] == id && m["start_interval_time"] == start
      && m["end_interval_time"] == end && m["shift_duration"] == duration
      && forall k :: k in days && |k| < 10 ==> m[k] == days[k]
  {
  }

  /** The seven day arrays of the inserted document. */
  function DayFields(count: int, times: seq<ShiftTime>, st: JsValue): (m: map<string, JsValue>)
    requires count <= |times|
    ensures m.Keys == set d | d in DayKeys
    ensures forall j :: 0 <= j < 7 ==> DayKeys[j] in m && m[DayKeys[j]] == JArr(DayShifts(DayPrefixes[j], count, times, st))
  {
    map[
      "monday" := JArr(DayShifts("m", count, times, st)),
      "tuesday" := JArr(DayShifts("tu", count, times, st)),
      "wednesday" := JArr(DayShifts("w", count, times, st)),
      "thursday" := JArr(DayShifts("th", count, times, st)),
      "friday" := JArr(DayShifts("f", count, times, st)),
      "saturday" := JArr(DayShifts("sa", count, times, st)),
      "sunday" := JArr(DayShifts("su", count, times, st))]
  }

  /** POST /initSchedule with the two grid helpers supplied: `count` is the
      number of shifts per day and `times` the slot times. Every existing
      schedule is deleted first; a slot without a usable time entry, or an
      invalid capacity, makes a shift creation fail, which is a 500 that
      leaves the collection empty. Otherwise exactly one schedule, with id
      1, is stored. */
  function InitSchedule(store: Store, body: JsValue, count: int, times: seq<ShiftTime>)
    : (r: (Status, Store))
    ensures r.0 == Ok200 || r.0 == ServerError500
    ensures r.0 == Ok200 <==> SlotsUsable(count, times, Field(body, "staffing_capacity"))
    ensures r.0 == ServerError500 ==> r.1 == []
    ensures r.0 == Ok200 ==> |r.1| == 1 && r.1[0] == Entry(body, count, times)
  {
    if SlotsUsable(count, times, Field(body, "staffing_capacity")) then (Ok200, [Entry(body, count, times)])
    else (ServerError500, [])
  }

  /** The route as written: the two grid helpers are imported from a module
      that does not export them, so the first call throws before the
      collection is touched, and the handler never responds. */
  function InitScheduleAsWritten(store: Store, body: JsValue): (r: (Status, Store))
    ensures r.0 == Crashed && r.1 == store
  {
    (Crashed, store)
  }

  /** The discrepancy: for every request the route as written fails, while
      the intended route succeeds for, among others, any request whose
      helpers report zero shifts. */
  lemma InitScheduleAsWrittenNeverSucceeds(store: Store, body: JsValue)
    ensures InitScheduleAsWritten(store, body).0 != Ok200
    ensures InitSchedule(store, body, 0, []).0 == Ok200
    ensures InitSchedule(store, body, 0, []).1 != store || store == [Entry(body, 0, [])]
  {
  }

  predicate IsLetter(c: char) {
    'a' <= c <= 'z'
  }

  /** Letters followed by digits split uniquely. */
  lemma LettersDigitsSplit(p1: string, n1: string, p2: string, n2: string)
    requires forall i :: 0 <= i < |p1| ==> IsLetter(p1[i])
    requires forall i :: 0 <= i < |p2| ==> IsLetter(p2[i])
    requires AllDigits(n1) && AllDigits(n2) && |n1| > 0 && |n2| > 0
    requires p1 + n1 == p2 + n2
    ensures p1 == p2 && n1 == n2
  {
    var s := p1 + n1;
    assert forall i :: 0 <= i < |p1| ==> !IsDigit(s[i]);
    assert forall i :: 0 <= i < |p2| ==> !IsDigit(s[i]);
    assert IsDigit(s[|p1|]) && IsDigit(s[|p2|]);
    assert |p1| == |p2|;
    assert p1 == s[..|p1|] == p2;
    assert n1 == s[|p1|..] == n2;
  }

  /** Shift ids are distinct across the whole week: the day prefix and the
      slot number can both be read back from an id. */
  lemma ShiftIdsDistinct(j1: nat, i1: nat, j2: nat, i2: nat)
    requires j1 < 7 && j2 < 7
    requires DayPrefixes[j1] + NatToString(i1 + 1) == DayPrefixes[j2] + NatToString(i2 + 1)
    ensures j1 == j2 && i1 == i2
  {
    var p1, p2 := DayPrefixes[j1], DayPrefixes[j2];
    assert forall j :: 0 <= j < 7 ==> forall i :: 0 <= i < |DayPrefixes[j]| ==> IsLetter(DayPrefixes[j][i]);
    LettersDigitsSplit(p1, NatToString(i1 + 1), p2, NatToString(i2 + 1));
    NatToStringInjective(i1 + 1, i2 + 1);
  }

  /** Each created shift of a day passes the shift schema. */
  lemma DayShiftsValid(prefix: string, count: int, times: seq<ShiftTime>, st: JsValue)
    requires count <= |times|
    requires SlotsUsable(count, times, st)
    ensures ArrayOf(JArr(DayShifts(prefix, count, times, st)), ShiftSchema)
  {
    var s := DayShifts(prefix, count, times, st);
    forall i | 0 <= i < |s| ensures ShiftSchema(s[i]) {
      assert s[i].fields["start_time"] == times[i].start;
      assert s[i].fields["end_time"] == times[i].end;
      assert s[i].fields["staffing_capacity"] == st;
    }
  }

  /** With valid request fields, the stored schedule passes the schedule
      schema, and so does each of its shifts. */
  lemma EntrySatisfiesSchema(body: JsValue, count: int, times: seq<ShiftTime>)
    requires count <= |times|
    requires SlotsUsable(count, times, Field(body, "staffing_capacity"))
    requires JoiString(Field(body, "start_interval_time"), false)
    requires JoiString(Field(body, "end_interval_time"), false)
    requires Field(body, "shift_duration").JNum?
    ensures ScheduleSchema(Entry(body, count, times))
  {
    var e := Entry(body, count, times);
    var st := Field(body, "staffing_capacity");
    forall d | d in DayKeys ensures OptionalField(e, d, x => ArrayOf(x, ShiftSchema)) {
      var j :| 0 <= j < 7 && DayKeys[j] == d;
      DayShiftsValid(DayPrefixes[j], count, times, st);
    }
  }

  // ---------------------------------------------------------------- update

  /** `{...s}` of the keys of a sequence: index i becomes key String(i). */
  function IndexFields(items: seq<JsValue>): (m: map<string, JsValue>)
    ensures forall k :: k in m ==> |k| > 0 && IsDigit(k[0])
    ensures forall i :: 0 <= i < |items| ==> NatToString(i) in m && m[NatToString(i)] == items[i]
  {
    if |items| == 0 then map[]
    else
      var n := |items| - 1;
      var init := items[..n];
      assert forall i :: 0 <= i < n ==> init[i] == items[i];
      DistinctFromLast(n);
      IndexFields(init)[NatToString(n) := items[n]]
  }

  lemma DistinctFromLast(n: nat)
    ensures forall i :: 0 <= i < n ==> NatToString(i) != NatToString(n)
  {
    forall i | 0 <= i < n ensures NatToString(i) != NatToString(n) {
      NatToStringDistinct(i, n);
    }
  }

  /** The fields `$set` receives: the rest of `schedule` once `_id` and
      `schedule_id` are taken out. An array or string spreads by index; a
      truthy number or boolean spreads to nothing. */
  function UpdateFields(schedule: JsValue): (m: map<string, JsValue>)
    ensures "_id" !in m && "schedule_id" !in m
    ensures schedule.JObj? ==> m == schedule.fields - {"_id", "schedule_id"}
  {
    match schedule
    case JObj(f) => f - {"_id", "schedule_id"}
    case JArr(items) => IndexFields(items)
    case JStr(s) => IndexFields(seq(|s|, i requires 0 <= i < |s| => JStr([s[i]])))
    case _ => map[]
  }

  /** The document `updateOne` acts on: the first one whose `schedule_id`
      matches. */
  predicate FirstWithId(store: Store, id: real, k: int) {
    0 <= k < |store| && HasScheduleId(store[k], id) && forall j :: 0 <= j < k ==> !HasScheduleId(store[j], id)
  }

  /** The index `updateOne` finds for an id, if any. */
  function FirstMatch(store: Store, id: real): (r: Option<nat>)
    ensures r.None? ==> forall k :: !FirstWithId(store, id, k)
    ensures r.Some? ==> FirstWithId(store, id, r.value) && forall k :: FirstWithId(store, id, k) ==> k == r.value
  {
    FirstWhere(store, doc => HasScheduleId(doc, id))
  }

  /** The request check of PUT /update: an integer `schedule_id` and a
      truthy `schedule`. */
  predicate UpdateRequestValid(body: JsValue) {
    IsInteger(Field(body, "schedule_id")) && Truthy(Field(body, "schedule"))
  }

  /** PUT /update: 400 unless `schedule_id` is an integer and `schedule` is
      truthy; otherwise `$set` of the remaining fields on the first document
      with that id. The response is 200 whether or not a document matched.
      A field list the database refuses to parse (an empty path component,
      one path a prefix of another) is a 500 even when nothing matches; a
      write the database refuses on the matched document (a `$` or `_id`
      path, a path through a scalar) is a 500 that leaves the document as it
      was. */
  ghost function Update(store: Store, body: JsValue): (r: (Status, Store))
    ensures r.0 == Ok200 || r.0 == BadRequest400 || r.0 == ServerError500
    ensures r.0 == BadRequest400 <==> !UpdateRequestValid(body)
    ensures r.0 != Ok200 ==> r.1 == store
    ensures |r.1| == |store|
    ensures UpdateRequestValid(body) ==>
      var id := Field(body, "schedule_id").n;
      var upd := UpdateFields(Field(body, "schedule"));
      (r.0 == ServerError500 <==>
        !Mongo.ValidPaths(upd) ||
        exists k :: FirstWithId(store, id, k) && store[k].JObj? && Mongo.SetFields(store[k], upd).None?)
    ensures r.0 == Ok200 ==>
      var id := Field(body, "schedule_id").n;
      var upd := UpdateFields(Field(body, "schedule"));
      forall k :: 0 <= k < |store| ==>
        if FirstWithId(store, id, k) && store[k].JObj?
        then Mongo.SetFields(store[k], upd) == Some(r.1[k])
        else r.1[k] == store[k]
  {
    var id := Field(body, "schedule_id");
    var sch := Field(body, "schedule");
    if !(IsInteger(id) && Truthy(sch)) then (BadRequest400, store)
    else
      var upd := UpdateFields(sch);
      if !Mongo.ValidPaths(upd) then (ServerError500, store)
      else
        match FirstMatch(store, id.n)
        case None => (Ok200, store)
        case Some(k) =>
          if !store[k].JObj? then (Ok200, store)
          else
            match Mongo.SetFields(store[k], upd)
            case None => (ServerError500, store)
            case Some(d) => (Ok200, store[k := d])
  }

  /** Plain top-level keys (no dot, no `$` prefix, not empty) are merged
      into the matched document: every named field is overwritten, every
      other field kept, and the document's own `schedule_id` survives. */
  lemma UpdatePlainFieldsMerge(store: Store, body: JsValue, k: int)
    requires UpdateRequestValid(body)
    requires forall key :: key in UpdateFields(Field(body, "schedule")) ==> Mongo.Plain(key)
    requires FirstWithId(store, Field(body, "schedule_id").n, k) && store[k].JObj?
    ensures var r := Update(store, body);
      var upd := UpdateFields(Field(body, "schedule"));
      && r.0 == Ok200
      && r.1 == store[k := JObj(store[k].fields + upd)]
      && Field(r.1[k], "schedule_id") == Field(store[k], "schedule_id")
  {
    Mongo.SetPlainIsMerge(store[k].fields, UpdateFields(Field(body, "schedule")));
  }

  /** A dotted key `a.i` writes element i of the array field a and nothing
      else. */
  lemma UpdateDottedKeyWritesElement(store: Store, body: JsValue, k: int, a: string, i: nat, v: JsValue)
    requires UpdateRequestValid(body)
    requires UpdateFields(Field(body, "schedule")) == map[a + "." + NatToString(i) := v]
    requires FirstWithId(store, Field(body, "schedule_id").n, k) && store[k].JObj?
    requires Mongo.Plain(a) && a in store[k].fields && store[k].fields[a].JArr?
    requires i < |store[k].fields[a].items|
    ensures var r := Update(store, body);
      var f := store[k].fields;
      && r.0 == Ok200
      && r.1 == store[k := JObj(f[a := JArr(f[a].items[i := v])])]
  {
    Mongo.SetArrayElement(store[k].fields, a, i, v);
  }

  /** An empty key in `schedule` is refused by the database as a whole: 500,
      whether or not any document has the id. */
  lemma UpdateEmptyKeyIsServerError(store: Store, body: JsValue)
    requires UpdateRequestValid(body) && "" in UpdateFields(Field(body, "schedule"))
    ensures Update(store, body) == (ServerError500, store)
  {
    Mongo.EmptyKeyInvalid(UpdateFields(Field(body, "schedule")));
  }

  /** So are two keys where one names a field inside the other (`a` and
      `a.b`). */
  lemma UpdateConflictIsServerError(store: Store, body: JsValue, a: string, b: string)
    requires UpdateRequestValid(body)
    requires a in UpdateFields(Field(body, "schedule")) && a + "." + b in UpdateFields(Field(body, "schedule"))
    requires '.' !in a && '.' !in b
    ensures Update(store, body) == (ServerError500, store)
  {
    Mongo.ConflictInvalid(UpdateFields(Field(body, "schedule")), a, b);
  }

  /** A `$`-prefixed key passes the parse but is refused when a document
      matches: 500 with nothing written. With no match the response is 200. */
  lemma UpdateOperatorKeyRefused(store: Store, body: JsValue, key: string)
    requires UpdateRequestValid(body)
    requires Mongo.ValidPaths(UpdateFields(Field(body, "schedule")))
    requires key in UpdateFields(Field(body, "schedule")) && Mongo.IsOperator(key) && '.' !in key
    ensures var id := Field(body, "schedule_id").n;
      Update(store, body) ==
        if exists k :: FirstWithId(store, id, k) && store[k].JObj? then (ServerError500, store) else (Ok200, store)
  {
    var upd := UpdateFields(Field(body, "schedule"));
    Mongo.NoDotComponents(key);
    forall doc: JsValue ensures Mongo.SetFields(doc, upd) == None {
      Mongo.ReservedComponentRefused(doc, upd, key, 0);
    }
  }

  // ---------------------------------------------------------------- invariant

  /** The collection holds at most one schedule, and it has id 1. */
  predicate SingleScheduleOne(store: Store) {
    |store| <= 1 && forall k :: 0 <= k < |store| ==> store[k].JObj? && Field(store[k], "schedule_id") == JNum(1.0)
  }

  lemma InitEstablishesSingle(store: Store, body: JsValue, count: int, times: seq<ShiftTime>)
    ensures SingleScheduleOne(InitSchedule(store, body, count, times).1)
  {
  }

  lemma UpdatePreservesSingle(store: Store, body: JsValue)
    requires SingleScheduleOne(store)
    ensures SingleScheduleOne(Update(store, body).1)
  {
    var r := Update(store, body).1;
    forall k | 0 <= k < |r| ensures r[k].JObj? && Field(r[k], "schedule_id") == JNum(1.0) {
      if r[k] != store[k] {
        Mongo.SetKeepsScalarField(store[k].fields, UpdateFields(Field(body, "schedule")), "schedule_id");
      }
    }
  }

  /** Under that invariant the latest id is 1, or 404 when there is no
      schedule, and the schedule is found by id 1 and by no other id. */
  lemma SingleScheduleQueries(store: Store, x: real)
    requires SingleScheduleOne(store)
    ensures GetLatestScheduleId(store) == if |store| == 0 then (NotFound404, None) else (Ok200, Some(1))
    ensures x != 0.0 && x != 1.0 ==> GetSchedule(store, Some(x)).0 == NotFound404
    ensures |store| == 1 ==> GetSchedule(store, Some(1.0)) == (Ok200, Some(store[0]))
  {
    if |store| == 1 {
      assert Field(store[0], "schedule_id") == JNum(1 as real);
      LatestIsMaximum(store, 1);
    }
  }
}
