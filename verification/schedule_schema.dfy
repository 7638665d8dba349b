/** The Joi schemas for shifts and schedules (backend/src/schemas/schedule.js)
    as predicates over JSON values, together with the defaults Joi fills in. */
module ScheduleSchemas {
  import opened Js
  import opened TaSchemas

  /** `staff_capacity_schema`: exactly two items, an integer lab permission
      in [0, 2] followed by an integer head count of at least 1. */
  predicate StaffCapacity(v: JsValue) {
    && v.JArr? && |v.items| == 2
    && JoiIntegerIn(v.items[0], 0, 2)
    && IsInteger(v.items[1]) && v.items[1].n >= 1.0
  }

  const ShiftKeys: set<string> :=
    {"shift_id", "schedule_id", "start_time", "end_time", "is_lab", "is_empty",
     "tas_scheduled", "staffing_capacity"}

  /** `shifts_schema`. */
  predicate ShiftSchema(v: JsValue) {
    && v.JObj?
    && KnownKeysOnly(v, ShiftKeys)
    && RequiredField(v, "shift_id", x => JoiString(x, false))
    && RequiredField(v, "schedule_id", (x: JsValue) => x.JNum?)
    && RequiredField(v, "start_time", x => JoiString(x, false))
    && RequiredField(v, "end_time", x => JoiString(x, false))
    && RequiredField(v, "is_lab", (x: JsValue) => x.JBool?)
    && OptionalField(v, "is_empty", (x: JsValue) => x.JBool?)
    && OptionalField(v, "tas_scheduled", x => ArrayOf(x, y => JoiString(y, false)))
    && RequiredField(v, "staffing_capacity", StaffCapacity)
  }

  /** The `.default(...)` values of `is_empty` (true) and `tas_scheduled` ([]). */
  function ShiftDefaults(v: JsValue): (w: JsValue)
    requires v.JObj?
    ensures w.JObj? && w.fields.Keys == v.fields.Keys + {"is_empty", "tas_scheduled"}
    ensures forall k :: k in v.fields ==> w.fields[k] == v.fields[k]
    ensures "is_empty" !in v.fields ==> w.fields["is_empty"] == JBool(true)
    ensures "tas_scheduled" !in v.fields ==> w.fields["tas_scheduled"] == JArr([])
  {
    var f := v.fields;
    var f1 := if "is_empty" in f then f else f["is_empty" := JBool(true)];
    var f2 := if "tas_scheduled" in f1 then f1 else f1["tas_scheduled" := JArr([])];
    JObj(f2)
  }

  const DayKeys: seq<string> := ["monday", "tuesday", "wednesday", "thursday", "friday", "saturday", "sunday"]

  /** No day key is as long as a header field name, so none is one. */
  lemma DayKeysShort()
    ensures forall j :: 0 <= j < |DayKeys| ==> |DayKeys[j]| < 10
  {
  }

  const ScheduleKeys: set<string> :=
    {"schedule_id", "start_interval_time", "end_interval_time", "shift_duration"} + set d | d in DayKeys

  /** `schedule_schema`: the four header fields are required (the shift
      duration is any number, with no positivity bound); each day key is
      optional and, when present, an array of valid shifts. */
  predicate ScheduleSchema(v: JsValue) {
    && v.JObj?
    && KnownKeysOnly(v, ScheduleKeys)
    && RequiredField(v, "schedule_id", (x: JsValue) => x.JNum?)
    && RequiredField(v, "start_interval_time", x => JoiString(x, false))
    && RequiredField(v, "end_interval_time", x => JoiString(x, false))
    && RequiredField(v, "shift_duration", (x: JsValue) => x.JNum?)
    && forall d :: d in DayKeys ==> OptionalField(v, d, x => ArrayOf(x, ShiftSchema))
  }

  /** Filling in the defaults keeps a valid shift valid, and afterwards
      both defaulted fields are present. */
  lemma ShiftDefaultsKeepValid(v: JsValue)
    requires ShiftSchema(v)
    ensures ShiftSchema(ShiftDefaults(v))
    ensures "is_empty" in ShiftDefaults(v).fields && "tas_scheduled" in ShiftDefaults(v).fields
  {
    var w := ShiftDefaults(v);
    assert w.fields["shift_id"] == v.fields["shift_id"];
    assert w.fields["schedule_id"] == v.fields["schedule_id"];
    assert w.fields["start_time"] == v.fields["start_time"];
    assert w.fields["end_time"] == v.fields["end_time"];
    assert w.fields["is_lab"] == v.fields["is_lab"];
    assert w.fields["staffing_capacity"] == v.fields["staffing_capacity"];
  }

  /** A schedule that gives only its four header fields is valid: no day
      key is required. */
  lemma HeaderOnlyScheduleValid(id: real, start: string, end: string, duration: real)
    requires start != "" && end != ""
    ensures ScheduleSchema(JObj(map["schedule_id" := JNum(id), "start_interval_time" := JStr(start),
                                    "end_interval_time" := JStr(end), "shift_duration" := JNum(duration)]))
  {
    var v := JObj(map["schedule_id" := JNum(id), "start_interval_time" := JStr(start),
                      "end_interval_time" := JStr(end), "shift_duration" := JNum(duration)]);
    forall d | d in DayKeys ensures d !in v.fields { }
  }
}
