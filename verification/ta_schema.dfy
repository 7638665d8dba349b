/** The Joi schemas for a TA document and one of its preference entries
    (backend/src/schemas/ta.js), stated as predicates over JSON values.
    Joi's defaults modelled here: `Joi.string()` rejects the empty string
    unless `.allow("")` is given, and `Joi.object({...})` rejects keys it
    does not list. */
module TaSchemas {
  import opened Js

  /** `Joi.string()`, optionally with `.allow("")`. */
  predicate JoiString(v: JsValue, allowEmpty: bool) {
    v.JStr? && (allowEmpty || v.s != "")
  }

  /** `Joi.number().integer().min(lo).max(hi)`. */
  predicate JoiIntegerIn(v: JsValue, lo: int, hi: int) {
    IsInteger(v) && lo as real <= v.n <= hi as real
  }

  /** An object whose keys all belong to `allowed`. */
  predicate KnownKeysOnly(v: JsValue, allowed: set<string>)
    requires v.JObj?
  {
    v.fields.Keys <= allowed
  }

  /** A key that is present and whose value satisfies `p`. */
  predicate RequiredField(v: JsValue, key: string, p: JsValue -> bool)
    requires v.JObj?
  {
    key in v.fields && p(v.fields[key])
  }

  /** A key that is absent, or present with a value that satisfies `p`. */
  predicate OptionalField(v: JsValue, key: string, p: JsValue -> bool)
    requires v.JObj?
  {
    key in v.fields ==> p(v.fields[key])
  }

  /** `Joi.array().items(item)`. */
  predicate ArrayOf(v: JsValue, item: JsValue -> bool) {
    v.JArr? && forall i :: 0 <= i < |v.items| ==> item(v.items[i])
  }

  const PreferenceKeys: set<string> := {"shift_id", "time_slots", "preference"}

  /** `preference_schema`: `shift_id` a string that may be empty,
      `time_slots` a non-empty string, `preference` an integer in [0, 2]. */
  predicate PreferenceSchema(v: JsValue) {
    && v.JObj?
    && KnownKeysOnly(v, PreferenceKeys)
    && RequiredField(v, "shift_id", x => JoiString(x, true))
    && RequiredField(v, "time_slots", x => JoiString(x, false))
    && RequiredField(v, "preference", x => JoiIntegerIn(x, 0, 2))
  }

  const TaKeys: set<string> :=
    {"ta_id", "first_name", "last_name", "is_tf", "lab_perm", "preferences", "confirmed_shifts"}

  /** `ta_schema`. `lab_perm` is a number in [0, 2] that need not be an integer. */
  predicate TaSchema(v: JsValue) {
    && v.JObj?
    && KnownKeysOnly(v, TaKeys)
    && RequiredField(v, "ta_id", x => JoiString(x, false))
    && RequiredField(v, "first_name", x => JoiString(x, false))
    && RequiredField(v, "last_name", x => JoiString(x, false))
    && RequiredField(v, "is_tf", (x: JsValue) => x.JBool?)
    && RequiredField(v, "lab_perm", (x: JsValue) => x.JNum? && 0.0 <= x.n <= 2.0)
    && OptionalField(v, "preferences", x => ArrayOf(x, PreferenceSchema))
    && OptionalField(v, "confirmed_shifts", x => ArrayOf(x, (y: JsValue) => y.JNum?))
  }

  /** A preference entry as the backend stores it. */
  datatype PreferenceEntry = PreferenceEntry(shift_id: string, time_slots: string, preference: int)

  function EntryToJson(e: PreferenceEntry): JsValue {
    JObj(map["shift_id" := JStr(e.shift_id), "time_slots" := JStr(e.time_slots),
             "preference" := JNum(e.preference as real)])
  }

  /** Reads back the typed entry of a JSON value the schema accepts. */
  function EntryFromJson(v: JsValue): (e: PreferenceEntry)
    requires PreferenceSchema(v)
    ensures EntryToJson(e) == v
    ensures 0 <= e.preference <= 2 && e.time_slots != ""
  {
    var e := PreferenceEntry(v.fields["shift_id"].s, v.fields["time_slots"].s,
                             v.fields["preference"].n.Floor);
    assert EntryToJson(e).fields.Keys == v.fields.Keys;
    e
  }

  /** The schema accepts a typed entry exactly when its time slot is
      non-empty and its level is 0, 1 or 2; an empty `shift_id` is fine. */
  lemma EntrySchemaIff(e: PreferenceEntry)
    ensures PreferenceSchema(EntryToJson(e)) <==> e.time_slots != "" && 0 <= e.preference <= 2
  {
    var v := EntryToJson(e);
    assert v.fields["preference"] == JNum(e.preference as real);
    assert v.fields["time_slots"] == JStr(e.time_slots);
  }

  /** The `.default([])` of `preferences` and `confirmed_shifts`. */
  function TaDefaults(v: JsValue): (w: JsValue)
    requires v.JObj?
    ensures w.JObj? && w.fields.Keys == v.fields.Keys + {"preferences", "confirmed_shifts"}
    ensures forall k :: k in v.fields ==> w.fields[k] == v.fields[k]
    ensures "preferences" !in v.fields ==> w.fields["preferences"] == JArr([])
    ensures "confirmed_shifts" !in v.fields ==> w.fields["confirmed_shifts"] == JArr([])
  {
    var f := v.fields;
    var f1 := if "preferences" in f then f else f["preferences" := JArr([])];
    var f2 := if "confirmed_shifts" in f1 then f1 else f1["confirmed_shifts" := JArr([])];
    JObj(f2)
  }

  /** Filling in the defaults keeps a valid TA valid. */
  lemma TaDefaultsKeepValid(v: JsValue)
    requires TaSchema(v)
    ensures TaSchema(TaDefaults(v))
  {
    var w := TaDefaults(v);
    assert w.fields["ta_id"] == v.fields["ta_id"];
    assert w.fields["first_name"] == v.fields["first_name"];
    assert w.fields["last_name"] == v.fields["last_name"];
    assert w.fields["is_tf"] == v.fields["is_tf"];
    assert w.fields["lab_perm"] == v.fields["lab_perm"];
  }

  /** A TA record the schema accepts. */
  datatype TaFields = TaFields(ta_id: string, first_name: string, last_name: string,
                               is_tf: bool, lab_perm: real)

  /** The schema's required part, read back as a record. */
  function TaFieldsOf(v: JsValue): (t: TaFields)
    requires TaSchema(v)
    ensures t.ta_id != "" && t.first_name != "" && t.last_name != ""
    ensures 0.0 <= t.lab_perm <= 2.0
    ensures v.fields["ta_id"] == JStr(t.ta_id) && v.fields["is_tf"] == JBool(t.is_tf)
    ensures v.fields["lab_perm"] == JNum(t.lab_perm)
  {
    TaFields(v.fields["ta_id"].s, v.fields["first_name"].s, v.fields["last_name"].s,
             v.fields["is_tf"].b, v.fields["lab_perm"].n)
  }

  function MinimalTa(labPerm: real): JsValue {
    JObj(map["ta_id" := JStr("ab1"), "first_name" := JStr("A"), "last_name" := JStr("B"),
             "is_tf" := JBool(false), "lab_perm" := JNum(labPerm)])
  }

  /** `lab_perm` is range-checked but not required to be an integer:
      1.5 is accepted, 2.5 and -1 are not. */
  lemma LabPermNeedNotBeInteger()
    ensures TaSchema(MinimalTa(1.5))
    ensures !TaSchema(MinimalTa(2.5)) && !TaSchema(MinimalTa(-1.0))
  {
    assert MinimalTa(2.5).fields["lab_perm"] == JNum(2.5);
    assert MinimalTa(-1.0).fields["lab_perm"] == JNum(-1.0);
  }

  /** Each required TA field is really required: dropping any one of them,
      or giving a key the schema does not list, makes the TA invalid. */
  lemma TaRequiredFields(v: JsValue, k: string)
    requires TaSchema(v)
    requires k in {"ta_id", "first_name", "last_name", "is_tf", "lab_perm"}
    ensures !TaSchema(JObj(v.fields - {k}))
    ensures !TaSchema(JObj(v.fields["_extra" := JNull]))
  {
    var w := JObj(v.fields["_extra" := JNull]);
    assert "_extra" in w.fields.Keys && "_extra" !in TaKeys;
  }
}
