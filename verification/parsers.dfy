/** Translation between the stored schedule document and the scheduler's
    records (src/algorithm/data/parsers.py): clock times, staffing tuples,
    the flattening of day-keyed shifts, and the grouping of an assignment
    back under day keys. */
module Parsers {
  import opened Util
  import opened Js
  import opened Py
  import opened AlgContext
  import SS = ScheduleSchemas

  /** `DAY_REVERSE_MAP`. */
  function DayKey(d: Day): string {
    match d
    case Monday => "monday"
    case Tuesday => "tuesday"
    case Wednesday => "wednesday"
    case Thursday => "thursday"
    case Friday => "friday"
    case Saturday => "saturday"
    case Sunday => "sunday"
  }

  /** `DAY_MAP`: exactly the seven lower-case day names are keys. */
  function DayOfKey(k: string): (r: Option<Day>)
    ensures r.Some? ==> DayKey(r.value) == k
  {
    if k == "monday" then Some(Monday)
    else if k == "tuesday" then Some(Tuesday)
    else if k == "wednesday" then Some(Wednesday)
    else if k == "thursday" then Some(Thursday)
    else if k == "friday" then Some(Friday)
    else if k == "saturday" then Some(Saturday)
    else if k == "sunday" then Some(Sunday)
    else None
  }

  /** The two maps are inverse to each other. */
  lemma DayMapsInverse(d: Day, k: string)
    ensures DayOfKey(DayKey(d)) == Some(d)
    ensures DayOfKey(k).Some? <==> exists e: Day :: DayKey(e) == k
  {
    if DayOfKey(k).None? {
      forall e: Day ensures DayKey(e) != k {
        assert DayOfKey(DayKey(e)).Some?;
      }
    }
  }

  /** `day_str.capitalize()` for a day key. */
  function DayTitle(d: Day): string {
    match d
    case Monday => "Monday"
    case Tuesday => "Tuesday"
    case Wednesday => "Wednesday"
    case Thursday => "Thursday"
    case Friday => "Friday"
    case Saturday => "Saturday"
    case Sunday => "Sunday"
  }

  /** Position of a day's list in the serialized output. */
  function DayIndex(d: Day): (i: nat)
    ensures i < 7
  {
    match d
    case Monday => 0
    case Tuesday => 1
    case Wednesday => 2
    case Thursday => 3
    case Friday => 4
    case Saturday => 5
    case Sunday => 6
  }

  /** Distinct days have distinct output positions. */
  lemma DayIndexInjective(a: Day, b: Day)
    ensures DayIndex(a) == DayIndex(b) <==> a == b
  {
  }

  // ---------------------------------------------------------------- times

  /** `parse_time`: split at ':' into exactly two parts, `int` of each,
      then `time(hh, mm)`, which rejects an hour outside [0, 24) or a
      minute outside [0, 60). Every failure is a ValueError. */
  function ParseTime(s: string): (r: Result<Time, PyError>)
    ensures r.Ok? ==> ValidTime(r.value)
    ensures r.Err? ==> r.error == ValueError
    ensures ':' !in s ==> r.Err?
  {
    match SplitAtFirst(s, ':')
    case None => Err(ValueError)
    case Some((hh, mm)) =>
      if ':' in mm then Err(ValueError)
      else
        match (PyInt(hh), PyInt(mm))
        case (Some(h), Some(m)) =>
          if 0 <= h < 24 && 0 <= m < 60 then Ok(Time(h, m)) else Err(ValueError)
        case _ => Err(ValueError)
  }

  /** `t.strftime("%H:%M")`. */
  function Strftime(t: Time): (r: string)
    requires ValidTime(t)
    ensures |r| == 5 && r[2] == ':'
  {
    Pad2(t.hour) + ":" + Pad2(t.minute)
  }

  /** A zero-padded "HH:MM" with a real clock time. */
  predicate CanonicalTime(s: string) {
    && |s| == 5 && s[2] == ':'
    && AllDigits(s[..2]) && AllDigits(s[3..])
    && DecimalValue(s[..2]) < 24 && DecimalValue(s[3..]) < 60
  }

  /** Formatting then parsing gives the time back. */
  lemma ParseTimeOfStrftime(t: Time)
    requires ValidTime(t)
    ensures ParseTime(Strftime(t)) == Ok(t)
  {
    var hh, mm := Pad2(t.hour), Pad2(t.minute);
    assert ':' !in hh by { assert IsDigit(hh[0]) && IsDigit(hh[1]); }
    assert ':' !in mm by { assert IsDigit(mm[0]) && IsDigit(mm[1]); }
    assert Strftime(t) == hh + [':'] + mm;
    SplitAtFirstOf(hh, ':', mm);
    PyIntOfDigits(hh);
    PyIntOfDigits(mm);
  }

  /** Parsing a canonical "HH:MM" then formatting gives the text back, and
      every formatted time is canonical. */
  lemma StrftimeOfParseTime(s: string)
    requires CanonicalTime(s)
    ensures ParseTime(s).Ok? && Strftime(ParseTime(s).value) == s
  {
    var hh, mm := s[..2], s[3..];
    assert s == hh + [':'] + mm;
    assert ':' !in hh by { assert IsDigit(hh[0]) && IsDigit(hh[1]); }
    assert ':' !in mm by { assert IsDigit(mm[0]) && IsDigit(mm[1]); }
    SplitAtFirstOf(hh, ':', mm);
    PyIntOfDigits(hh);
    PyIntOfDigits(mm);
    Pad2OfValue(hh);
    Pad2OfValue(mm);
  }

  lemma StrftimeIsCanonical(t: Time)
    requires ValidTime(t)
    ensures CanonicalTime(Strftime(t))
  {
    var s := Strftime(t);
    assert s[..2] == Pad2(t.hour) && s[3..] == Pad2(t.minute);
  }

  /** `int` accepts an unpadded hour, so "9:05"-style text parses but does
      not survive the round trip: formatting pads the hour back to two
      digits. */
  lemma UnpaddedHourWidens(h: nat, m: nat)
    requires h < 10 && m < 60
    ensures ParseTime([DigitChar(h)] + ":" + Pad2(m)) == Ok(Time(h, m))
    ensures |Strftime(Time(h, m))| == |[DigitChar(h)] + ":" + Pad2(m)| + 1
  {
    DigitText(h);
    PaddedText(m);
    ParseTimeOfPieces([DigitChar(h)], Pad2(m), h, m);
  }

  /** A time text made of an hour text and a minute text that `int` reads
      as a clock time. */
  lemma ParseTimeOfPieces(hh: string, mm: string, h: int, m: int)
    requires ':' !in hh && ':' !in mm
    requires PyInt(hh) == Some(h) && PyInt(mm) == Some(m) && 0 <= h < 24 && 0 <= m < 60
    ensures ParseTime(hh + ":" + mm) == Ok(Time(h, m))
  {
    assert hh + ":" + mm == hh + [':'] + mm;
    SplitAtFirstOf(hh, ':', mm);
  }

  /** One digit, as `int` reads it. */
  lemma DigitText(d: nat)
    requires d < 10
    ensures ':' !in [DigitChar(d)] && PyInt([DigitChar(d)]) == Some(d)
  {
    var t := [DigitChar(d)];
    assert IsDigit(t[0]);
    assert DecimalValue(t) == d by { assert t[..0] == []; }
    PyIntOfDigits(t);
  }

  /** Two padded digits, as `int` reads them. */
  lemma PaddedText(n: nat)
    requires n < 100
    ensures ':' !in Pad2(n) && PyInt(Pad2(n)) == Some(n)
  {
    var t := Pad2(n);
    assert IsDigit(t[0]) && IsDigit(t[1]);
    PyIntOfDigits(t);
  }

  // ------------------------------------------------------------- staffing

  /** `parse_staffing` once the pair is unpacked: lab permission 0 is an
      office-hours shift, 1 a lab with lab TAs only, 2 a lab with leads and
      as many lab TAs; anything else raises ValueError. The permission is
      compared with Python `==`, so 1.0 counts as 1. */
  function ParseStaffingPair(labPerm: real, numTas: int): (r: Result<Staffing, PyError>)
    ensures r.Ok? <==> labPerm == 0.0 || labPerm == 1.0 || labPerm == 2.0
    ensures r.Err? ==> r.error == ValueError
    ensures r.Ok? ==> StaffingSum(r.value) == if labPerm == 2.0 then 2 * numTas else numTas
    ensures r.Ok? ==> (r.value.oh == 0 <==> labPerm != 0.0 || numTas == 0)
  {
    if labPerm == 0.0 then Ok(Staffing(numTas, 0, 0))
    else if labPerm == 1.0 then Ok(Staffing(0, numTas, 0))
    else if labPerm == 2.0 then Ok(Staffing(0, numTas, numTas))
    else Err(ValueError)
  }

  /** The numeric value Python's `==` sees in a JSON scalar: booleans
      compare as 0 and 1. */
  function NumericValue(v: JsValue): Option<real> {
    match v
    case JNum(n) => Some(n)
    case JBool(b) => Some(if b then 1.0 else 0.0)
    case _ => None
  }

  /** `parse_staffing` on the stored `staffing_capacity` value, including
      the unpack: a value that is not iterable is a TypeError, an iterable
      of length other than two a ValueError, and a two-character string or
      two-key object unpacks into values that equal none of 0, 1, 2. */
  function DecodeStaffing(cap: JsValue): (r: Result<Staffing, PyError>)
    ensures r.Ok? ==> && cap.JArr? && |cap.items| == 2 && IsInteger(cap.items[1])
                      && NumericValue(cap.items[0]).Some?
                      && ParseStaffingPair(NumericValue(cap.items[0]).value, cap.items[1].n.Floor)
                         == Ok(r.value)
  {
    match cap
    case JArr(items) =>
      if |items| != 2 then Err(ValueError)
      else
        var p := NumericValue(items[0]);
        if !(p == Some(0.0) || p == Some(1.0) || p == Some(2.0)) then Err(ValueError)
        else if !IsInteger(items[1]) then Err(NonIntegerCount)
        else ParseStaffingPair(p.value, items[1].n.Floor)
    case JStr(s) => Err(ValueError)
    case JObj(f) => Err(ValueError)
    case _ => Err(TypeError)
  }

  /** `serialize_staffing`: leads first, then lab TAs, else office hours. */
  function SerializeStaffing(st: Staffing): (r: (int, int))
    ensures r.0 == 2 <==> st.leads > 0
    ensures r.0 == 1 <==> st.leads <= 0 && st.lab > 0
    ensures r.0 == 0 <==> st.leads <= 0 && st.lab <= 0
    ensures r.1 == if st.leads > 0 then st.leads else if st.lab > 0 then st.lab else st.oh
  {
    if st.leads > 0 then (2, st.leads)
    else if st.lab > 0 then (1, st.lab)
    else (0, st.oh)
  }

  /** Serializing a parsed pair gives the pair back for every valid lab
      permission and positive count. */
  lemma StaffingRoundTrip(p: nat, n: int)
    requires p <= 2 && n >= 1
    ensures ParseStaffingPair(p as real, n).Ok?
    ensures SerializeStaffing(ParseStaffingPair(p as real, n).value) == (p as int, n)
  {
  }

  /** The staffing tuples `parse_staffing` can produce with a positive
      count. */
  predicate CanonicalStaffing(st: Staffing) {
    || (st.oh >= 1 && st.lab == 0 && st.leads == 0)
    || (st.oh == 0 && st.lab >= 1 && st.leads == 0)
    || (st.oh == 0 && st.lab >= 1 && st.leads == st.lab)
  }

  /** Conversely, parsing a serialized canonical tuple gives it back, and
      those are exactly the tuples that come out of a positive count. */
  lemma StaffingRoundTripBack(st: Staffing)
    requires CanonicalStaffing(st)
    ensures var (p, n) := SerializeStaffing(st);
            ParseStaffingPair(p as real, n) == Ok(st)
  {
  }

  /** A zero head count does not survive: a lab shift with no lab TAs
      comes back as an office-hours shift. */
  lemma ZeroCountCollapses(p: nat)
    requires p == 1 || p == 2
    ensures SerializeStaffing(ParseStaffingPair(p as real, 0).value) == (0, 0)
  {
  }

  // ---------------------------------------------------------- parse_shifts

  /** One stored shift as `parse_shifts` reads it, in the order the dict
      literal evaluates its fields. `is_lab` is read through its
      truthiness, the only way the scheduler uses it. */
  function ParseShift(day: Day, v: JsValue): (r: Result<Shift<JsValue>, PyError>)
    ensures r.Ok? ==> && v.JObj? && "shift_id" in v.fields && "start_time" in v.fields
                      && v.fields["start_time"].JStr?
                      && r.value.shift_id == v.fields["shift_id"]
                      && r.value.day == day
                      && r.value.name == DayTitle(day) + " " + v.fields["start_time"].s
                      && ValidTime(r.value.start) && ValidTime(r.value.end)
    ensures r.Ok? ==> "is_lab" in v.fields && r.value.is_lab == PyTruthy(v.fields["is_lab"])
  {
    if !v.JObj? then Err(TypeError)
    else
      var f := v.fields;
      if "shift_id" !in f || "start_time" !in f then Err(KeyError)
      else if !f["start_time"].JStr? then Err(AttributeError)
      else
        match ParseTime(f["start_time"].s)
        case Err(e) => Err(e)
        case Ok(start) =>
          if "end_time" !in f then Err(KeyError)
          else if !f["end_time"].JStr? then Err(AttributeError)
          else
            match ParseTime(f["end_time"].s)
            case Err(e) => Err(e)
            case Ok(end) =>
              if "is_lab" !in f || "staffing_capacity" !in f then Err(KeyError)
              else
                match DecodeStaffing(f["staffing_capacity"])
                case Err(e) => Err(e)
                case Ok(st) =>
                  Ok(Shift(f["shift_id"], DayTitle(day) + " " + f["start_time"].s, day,
                           start, end, PyTruthy(f["is_lab"]), st))
  }

  /** The shifts of one day's list, in order; the first failure wins. */
  function ParseDayList(day: Day, items: seq<JsValue>): (r: Result<seq<Shift<JsValue>>, PyError>)
    ensures r.Ok? <==> forall i :: 0 <= i < |items| ==> ParseShift(day, items[i]).Ok?
    ensures r.Ok? ==> |r.value| == |items|
    ensures r.Ok? ==> forall i :: 0 <= i < |items| ==> r.value[i] == ParseShift(day, items[i]).value
  {
    AllOk(items, (v: JsValue) => ParseShift(day, v))
  }

  /** The number of shifts one document entry holds: only the seven day
      keys count. */
  function EntryCount(k: string, v: JsValue): nat {
    if DayOfKey(k).Some? && v.JArr? then |v.items| else 0
  }

  /** The number of shifts the day lists of a document hold. */
  function DayListTotal(raw: seq<(string, JsValue)>): nat {
    if |raw| == 0 then 0 else EntryCount(raw[0].0, raw[0].1) + DayListTotal(raw[1..])
  }

  /** The shifts of one document entry: keys that are not day names and
      falsy values are skipped; any other value that is not a list raises
      TypeError when it is iterated. */
  function ParseEntry(k: string, v: JsValue): (r: Result<seq<Shift<JsValue>>, PyError>)
    ensures r.Ok? ==> |r.value| == EntryCount(k, v) && TimesValid(r.value)
  {
    if DayOfKey(k).None? || !PyTruthy(v) then Ok([])
    else if !v.JArr? then Err(TypeError)
    else ParseDayList(DayOfKey(k).value, v.items)
  }

  /** `parse_shifts` over the document's entries in their stored order;
      the first failure wins. */
  function ParseShifts(raw: seq<(string, JsValue)>): (r: Result<seq<Shift<JsValue>>, PyError>)
    ensures r.Ok? ==> |r.value| == DayListTotal(raw)
    ensures r.Ok? ==> TimesValid(r.value)
  {
    if |raw| == 0 then Ok([])
    else
      match ParseEntry(raw[0].0, raw[0].1)
      case Err(e) => Err(e)
      case Ok(a) =>
        match ParseShifts(raw[1..])
        case Err(e) => Err(e)
        case Ok(b) =>
          TimesValidAppend(a, b);
          Ok(a + b)
  }

  /** Joining two lists of valid shifts keeps every clock time valid. */
  lemma TimesValidAppend<Id>(a: seq<Shift<Id>>, b: seq<Shift<Id>>)
    requires TimesValid(a) && TimesValid(b)
    ensures TimesValid(a + b)
  {
    forall i | 0 <= i < |a + b|
      ensures ValidTime((a + b)[i].start) && ValidTime((a + b)[i].end)
    {
      if i < |a| { assert (a + b)[i] == a[i]; } else { assert (a + b)[i] == b[i - |a|]; }
    }
  }

  /** A document entry whose key is not a day name contributes nothing,
      whatever its value. */
  lemma {:induction false} NonDayKeysSkipped(k: string, v: JsValue, raw: seq<(string, JsValue)>)
    requires DayOfKey(k).None?
    ensures ParseShifts([(k, v)] + raw) == ParseShifts(raw)
  {
    var all := [(k, v)] + raw;
    assert all[0] == (k, v) && all[1..] == raw;
    match ParseShifts(raw)
    case Err(e) =>
    case Ok(b) => assert [] + b == b;
  }

  /** A stored shift the shift schema accepts, with zero-padded clock
      times, always parses; the parsed record keeps its id and times. */
  predicate StoredShift(v: JsValue) {
    && v.JObj?
    && "shift_id" in v.fields && "is_lab" in v.fields && v.fields["is_lab"].JBool?
    && "start_time" in v.fields && v.fields["start_time"].JStr? && CanonicalTime(v.fields["start_time"].s)
    && "end_time" in v.fields && v.fields["end_time"].JStr? && CanonicalTime(v.fields["end_time"].s)
    && "staffing_capacity" in v.fields
    && var cap := v.fields["staffing_capacity"];
       && cap.JArr? && |cap.items| == 2
       && IsInteger(cap.items[0]) && 0.0 <= cap.items[0].n <= 2.0
       && IsInteger(cap.items[1]) && cap.items[1].n >= 1.0
  }

  // ---------------------------------------------------- serialize_schedule

  /** One entry of a serialized day list. */
  datatype OutShift<Id> = OutShift(shift_id: Id, start_time: string, end_time: string, is_lab: bool,
                                   is_empty: bool, tas_scheduled: seq<Id>, staffing_capacity: (int, int))

  predicate TimesValid<Id>(shifts: seq<Shift<Id>>) {
    forall i :: 0 <= i < |shifts| ==> ValidTime(shifts[i].start) && ValidTime(shifts[i].end)
  }

  /** The serialized form of one shift and its assignment: everyone on it,
      leads first, and an `is_empty` flag that holds iff nobody is. */
  function SerializeShift<Id>(s: Shift<Id>, a: Assignment<Id>): (r: OutShift<Id>)
    requires ValidTime(s.start) && ValidTime(s.end)
    ensures r.is_empty <==> |a.leads| + |a.lab_tas| + |a.oh_tas| == 0
    ensures r.tas_scheduled == AllOnShift(a)
  {
    var all := AllOnShift(a);
    OutShift(s.shift_id, Strftime(s.start), Strftime(s.end), s.is_lab, |all| == 0, all,
             SerializeStaffing(s.staffing))
  }

  /** A schema-valid stored shift survives parse then serialize: its id,
      clock texts, lab flag and staffing capacity come back unchanged. */
  lemma ShiftRoundTrip(day: Day, v: JsValue, a: Assignment<JsValue>)
    requires StoredShift(v)
    ensures ParseShift(day, v).Ok?
    ensures var o := SerializeShift(ParseShift(day, v).value, a);
            var cap := v.fields["staffing_capacity"].items;
            && o.shift_id == v.fields["shift_id"]
            && o.start_time == v.fields["start_time"].s
            && o.end_time == v.fields["end_time"].s
            && o.is_lab == v.fields["is_lab"].b
            && o.staffing_capacity == (cap[0].n.Floor, cap[1].n.Floor)
  {
    var f := v.fields;
    StrftimeOfParseTime(f["start_time"].s);
    StrftimeOfParseTime(f["end_time"].s);
    var cap := f["staffing_capacity"];
    DecodeStoredStaffing(cap);
    ParseShiftOfParts(day, v);
    var p := cap.items[0].n.Floor;
    StaffingRoundTrip(p, cap.items[1].n.Floor);
  }

  /** A stored capacity `[p, n]` decodes as `parse_staffing` reads it. */
  lemma DecodeStoredStaffing(cap: JsValue)
    requires cap.JArr? && |cap.items| == 2
    requires IsInteger(cap.items[0]) && 0.0 <= cap.items[0].n <= 2.0
    requires IsInteger(cap.items[1]) && cap.items[1].n >= 1.0
    ensures 0 <= cap.items[0].n.Floor <= 2 && cap.items[1].n.Floor >= 1
    ensures DecodeStaffing(cap) == ParseStaffingPair(cap.items[0].n.Floor as real, cap.items[1].n.Floor)
    ensures DecodeStaffing(cap).Ok?
  {
    var p := cap.items[0].n;
    assert p == p.Floor as real;
    assert p == 0.0 || p == 1.0 || p == 2.0;
  }

  /** Every capacity the shift schema accepts decodes, and serializing the
      decoded tuple gives the stored pair back. */
  lemma SchemaCapacityRoundTrip(cap: JsValue)
    requires SS.StaffCapacity(cap)
    ensures DecodeStaffing(cap).Ok?
    ensures SerializeStaffing(DecodeStaffing(cap).value) == (cap.items[0].n.Floor, cap.items[1].n.Floor)
  {
    DecodeStoredStaffing(cap);
    StaffingRoundTrip(cap.items[0].n.Floor, cap.items[1].n.Floor);
  }

  /** When every field decodes, the parsed record is made of the decoded
      fields. */
  lemma ParseShiftOfParts(day: Day, v: JsValue)
    requires v.JObj?
    requires "shift_id" in v.fields && "is_lab" in v.fields && "staffing_capacity" in v.fields
    requires "start_time" in v.fields && v.fields["start_time"].JStr?
    requires "end_time" in v.fields && v.fields["end_time"].JStr?
    requires ParseTime(v.fields["start_time"].s).Ok? && ParseTime(v.fields["end_time"].s).Ok?
    requires DecodeStaffing(v.fields["staffing_capacity"]).Ok?
    ensures ParseShift(day, v)
            == Ok(Shift(v.fields["shift_id"], DayTitle(day) + " " + v.fields["start_time"].s, day,
                        ParseTime(v.fields["start_time"].s).value, ParseTime(v.fields["end_time"].s).value,
                        PyTruthy(v.fields["is_lab"]), DecodeStaffing(v.fields["staffing_capacity"]).value))
  {
  }

  /** `serialize_schedule`: every shift of the metadata, in order, is
      appended to its day's list; a shift missing from the assignment map
      raises KeyError. All seven day lists are always present. */
  function SerializeSchedule<Id(==)>(shifts: seq<Shift<Id>>, schedule: map<Id, Assignment<Id>>)
    : (r: Result<seq<seq<OutShift<Id>>>, PyError>)
    requires TimesValid(shifts)
    ensures r.Ok? <==> forall i :: 0 <= i < |shifts| ==> shifts[i].shift_id in schedule
    ensures r.Err? ==> r.error == KeyError
    ensures r.Ok? ==> |r.value| == 7
  {
    if |shifts| == 0 then Ok([[], [], [], [], [], [], []])
    else
      var init := shifts[..|shifts| - 1];
      assert forall i :: 0 <= i < |init| ==> init[i] == shifts[i];
      match SerializeSchedule(init, schedule)
      case Err(e) => Err(e)
      case Ok(out) =>
        var s := shifts[|shifts| - 1];
        if s.shift_id !in schedule then Err(KeyError)
        else
          var i := DayIndex(s.day);
          Ok(out[i := out[i] + [SerializeShift(s, schedule[s.shift_id])]])
  }

  /** The shifts of one day, in metadata order. */
  function ShiftsOn<Id(==)>(shifts: seq<Shift<Id>>, d: Day): (r: seq<Shift<Id>>)
    ensures |r| <= |shifts|
    ensures forall i :: 0 <= i < |r| ==> r[i].day == d && r[i] in shifts
    ensures TimesValid(shifts) ==> TimesValid(r)
  {
    if |shifts| == 0 then []
    else ShiftsOn(shifts[..|shifts| - 1], d)
         + (if shifts[|shifts| - 1].day == d then [shifts[|shifts| - 1]] else [])
  }

  /** ShiftsOn unfolded at the last shift. */
  lemma ShiftsOnStep<Id>(shifts: seq<Shift<Id>>, d: Day)
    requires |shifts| > 0
    ensures var s := shifts[|shifts| - 1];
            ShiftsOn(shifts, d) == ShiftsOn(shifts[..|shifts| - 1], d) + (if s.day == d then [s] else [])
  {
  }

  /** Each of a list of shifts serialized with its assignment. */
  function SerializeEach<Id(==)>(shifts: seq<Shift<Id>>, schedule: map<Id, Assignment<Id>>)
    : (r: seq<OutShift<Id>>)
    requires TimesValid(shifts)
    requires forall i :: 0 <= i < |shifts| ==> shifts[i].shift_id in schedule
    ensures |r| == |shifts|
    ensures forall i :: 0 <= i < |shifts| ==>
              r[i] == SerializeShift(shifts[i], schedule[shifts[i].shift_id])
  {
    seq(|shifts|, i requires 0 <= i < |shifts| => SerializeShift(shifts[i], schedule[shifts[i].shift_id]))
  }

  lemma SerializeEachAppend<Id>(xs: seq<Shift<Id>>, s: Shift<Id>, schedule: map<Id, Assignment<Id>>)
    requires TimesValid(xs) && ValidTime(s.start) && ValidTime(s.end)
    requires forall i :: 0 <= i < |xs| ==> xs[i].shift_id in schedule
    requires s.shift_id in schedule
    ensures SerializeEach(xs + [s], schedule)
            == SerializeEach(xs, schedule) + [SerializeShift(s, schedule[s.shift_id])]
  {
    assert forall i :: 0 <= i < |xs| ==> (xs + [s])[i] == xs[i];
    assert TimesValid(xs + [s]);
  }

  /** One step of `serialize_schedule`: the last shift goes to the end of
      its own day's list. */
  lemma SerializeScheduleStep<Id>(shifts: seq<Shift<Id>>, schedule: map<Id, Assignment<Id>>)
    requires |shifts| > 0 && TimesValid(shifts)
    requires forall i :: 0 <= i < |shifts| ==> shifts[i].shift_id in schedule
    ensures var init := shifts[..|shifts| - 1];
            var s := shifts[|shifts| - 1];
            var out := SerializeSchedule(init, schedule).value;
            var i := DayIndex(s.day);
            SerializeSchedule(shifts, schedule).value == out[i := out[i] + [SerializeShift(s, schedule[s.shift_id])]]
  {
    var init := shifts[..|shifts| - 1];
    assert forall i :: 0 <= i < |init| ==> init[i] == shifts[i];
  }

  /** Grouping by day: each output list is exactly that day's shifts, in
      metadata order, serialized. */
  lemma {:induction false} SerializeGroupsByDay<Id>(shifts: seq<Shift<Id>>,
                                                     schedule: map<Id, Assignment<Id>>, d: Day)
    requires TimesValid(shifts)
    requires forall i :: 0 <= i < |shifts| ==> shifts[i].shift_id in schedule
    ensures SerializeSchedule(shifts, schedule).value[DayIndex(d)]
            == SerializeEach(ShiftsOn(shifts, d), schedule)
    decreases |shifts|
  {
    if |shifts| > 0 {
      var init := shifts[..|shifts| - 1];
      assert forall i :: 0 <= i < |init| ==> init[i] == shifts[i];
      SerializeGroupsByDay(init, schedule, d);
      SerializeScheduleStep(shifts, schedule);
      var s := shifts[|shifts| - 1];
      if s.day == d {
        ShiftsOnStep(shifts, d);
        SerializeEachAppend(ShiftsOn(init, d), s, schedule);
      } else {
        DayIndexInjective(s.day, d);
        ShiftsOnStep(shifts, d);
      }
    }
  }
}
