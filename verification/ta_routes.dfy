/** The `/ta` routes (backend/src/routes/ta.js): creating a TA document and
    appending parsed preferences to it. The `ta` collection is a sequence
    of documents in natural order; `findOne` and `updateOne` act on the
    first document whose `ta_id` matches. */
module TaRoutes {
  import opened Util
  import opened Js
  import opened TaSchemas
  import opened PreferenceCodec
  import Mongo

  datatype Status = Ok200 | BadRequest400 | NotFound404 | ServerError500

  /** A stored TA document. */
  datatype TaDoc = TaDoc(ta_id: string, first_name: string, last_name: string, is_tf: bool,
                         lab_perm: real, preferences: seq<PreferenceEntry>,
                         confirmed_shifts: seq<real>)

  type Store = seq<TaDoc>

  /** Every stored preference is one the preference schema accepts, and
      every TA has the non-empty identity fields the TA schema demands. */
  predicate StoreValid(store: Store) {
    forall k :: 0 <= k < |store| ==>
      && store[k].ta_id != "" && store[k].first_name != "" && store[k].last_name != ""
      && 0.0 <= store[k].lab_perm <= 2.0
      && (forall j :: 0 <= j < |store[k].preferences| ==>
            PreferenceSchema(EntryToJson(store[k].preferences[j])))
  }

  /** POST /create: a body the TA schema rejects is a 400 and the store is
      unchanged; otherwise the five named fields are stored with empty
      `preferences` and `confirmed_shifts`, whatever the body gave for
      those two. Nothing checks that `ta_id` is new. */
  function CreateTa(store: Store, body: JsValue): (r: (Status, Store))
    ensures r.0 == Ok200 <==> TaSchema(body)
    ensures r.0 != Ok200 ==> r.0 == BadRequest400 && r.1 == store
    ensures r.0 == Ok200 ==>
      var t := TaFieldsOf(body);
      r.1 == store + [TaDoc(t.ta_id, t.first_name, t.last_name, t.is_tf, t.lab_perm, [], [])]
  {
    if !TaSchema(body) then (BadRequest400, store)
    else
      var t := TaFieldsOf(body);
      (Ok200, store + [TaDoc(t.ta_id, t.first_name, t.last_name, t.is_tf, t.lab_perm, [], [])])
  }

  /** The body's own `preferences` are discarded on creation. */
  lemma CreateIgnoresGivenPreferences(store: Store, body: JsValue)
    requires TaSchema(body)
    ensures CreateTa(store, body).1[|store|].preferences == []
    ensures CreateTa(store, body).1[|store|].confirmed_shifts == []
  {
  }

  /** Creation keeps the store valid. */
  lemma CreatePreservesValid(store: Store, body: JsValue)
    requires StoreValid(store)
    ensures StoreValid(CreateTa(store, body).1)
  {
    var r := CreateTa(store, body).1;
    if TaSchema(body) {
      assert forall k :: 0 <= k < |store| ==> r[k] == store[k];
    }
  }

  /** One item of the request's `preferences` array, decoded. An item that
      is not a string makes the handler throw while decoding, so it fails
      like a malformed string. */
  function DecodeItem(v: JsValue): (r: Option<PreferenceEntry>)
    ensures r.Some? <==> v.JStr? && Parse(v.s).Ok?
    ensures r.Some? ==> r.value == Parse(v.s).value
  {
    if v.JStr? && Parse(v.s).Ok? then Some(Parse(v.s).value) else None
  }

  /** Every item decoded in order; None when any item fails. */
  function ParseAll(items: seq<JsValue>): Option<seq<PreferenceEntry>> {
    AllSome(items, DecodeItem)
  }

  // ------------------------------------------------------- the `{ta_id}` filter

  /** The order of strings in a query: by code point, a proper prefix first. */
  predicate LexLess(a: string, b: string)
    decreases |a|
  {
    |b| > 0 && (|a| == 0 || a[0] < b[0] || (a[0] == b[0] && LexLess(a[1..], b[1..])))
  }

  /** The comparison and membership operators the model evaluates. */
  const ModelledOperators: set<string> :=
    {"$eq", "$ne", "$gt", "$gte", "$lt", "$lte", "$in", "$nin", "$exists"}

  /** An `$in`/`$nin` operand the server accepts: an array none of whose
      items is itself an operator object. */
  predicate MembershipOperand(arg: JsValue) {
    arg.JArr? && forall i :: 0 <= i < |arg.items| ==>
      !(arg.items[i].JObj? && exists k :: k in arg.items[i].fields && Mongo.IsOperator(k))
  }

  /** ToBoolean of a stored value, as `$exists` reads its operand: null, false
      and zero are false, everything else is true. */
  predicate BsonTrue(v: JsValue) {
    match v
    case JNull => false
    case JBool(b) => b
    case JNum(n) => n != 0.0
    case _ => true
  }

  /** One operator applied to a stored (string) `ta_id`. A comparison with an
      operand of another type never holds, since values of different types
      are not compared. */
  predicate OpHolds(op: string, arg: JsValue, id: string) {
    if op == "$eq" then arg == JStr(id)
    else if op == "$ne" then arg != JStr(id)
    else if op == "$gt" then arg.JStr? && LexLess(arg.s, id)
    else if op == "$gte" then arg.JStr? && !LexLess(id, arg.s)
    else if op == "$lt" then arg.JStr? && LexLess(id, arg.s)
    else if op == "$lte" then arg.JStr? && !LexLess(arg.s, id)
    else if op == "$in" then arg.JArr? && JStr(id) in arg.items
    else if op == "$nin" then !(arg.JArr? && JStr(id) in arg.items)
    else op == "$exists" && BsonTrue(arg)
  }

  /** How `{ta_id: v}` reads v. */
  datatype IdFilter =
    | MatchNothing                          // equality with a value no string equals
    | Equals(id: string)                    // equality with a string
    | Operators(ops: map<string, JsValue>)  // every key an operator, all of them hold
    | Rejected                              // the server refuses the query

  /** A missing `ta_id` is sent as null. An object whose keys are all
      operators is an operator expression; one with some operator key and some
      plain key, an unknown operator or a malformed `$in`/`$nin` operand is
      refused. Every other value is an equality that no stored string meets. */
  function FilterOf(taId: Option<JsValue>): (f: IdFilter)
    ensures f.Equals? <==> taId.Some? && taId.value.JStr?
    ensures f.Operators? ==> taId == Some(JObj(f.ops)) && |f.ops| > 0
    ensures f.Rejected? || f.Operators? ==> taId.Some? && taId.value.JObj?
    ensures taId.Some? && taId.value.JObj? && (forall k :: k in taId.value.fields ==> !Mongo.IsOperator(k))
            ==> f == MatchNothing
  {
    match taId
    case None => MatchNothing
    case Some(JStr(s)) => Equals(s)
    case Some(JObj(fields)) =>
      if forall k :: k in fields ==> !Mongo.IsOperator(k) then MatchNothing
      else if !(forall k :: k in fields ==> k in ModelledOperators) then Rejected
      else if "$in" in fields && !MembershipOperand(fields["$in"]) then Rejected
      else if "$nin" in fields && !MembershipOperand(fields["$nin"]) then Rejected
      else Operators(fields)
    case Some(_) => MatchNothing
  }

  predicate Matches(f: IdFilter, id: string) {
    match f
    case MatchNothing => false
    case Equals(s) => s == id
    case Operators(ops) => forall op :: op in ops ==> OpHolds(op, ops[op], id)
    case Rejected => false
  }

  /** The outcome of `findOne({ta_id})`. */
  datatype Lookup = Found(k: nat) | Missing | QueryError

  function TaIds(store: Store): (ids: seq<string>)
    ensures |ids| == |store| && forall k :: 0 <= k < |store| ==> ids[k] == store[k].ta_id
  {
    seq(|store|, k requires 0 <= k < |store| => store[k].ta_id)
  }

  /** The first document, in natural order, that `{ta_id}` matches. */
  function FindTa(store: Store, taId: Option<JsValue>): (r: Lookup)
    ensures r.QueryError? <==> FilterOf(taId).Rejected?
    ensures r.Missing? <==>
      !FilterOf(taId).Rejected? && forall k :: 0 <= k < |store| ==> !Matches(FilterOf(taId), store[k].ta_id)
    ensures r.Found? ==> r.k < |store| && Matches(FilterOf(taId), store[r.k].ta_id)
                         && forall j :: 0 <= j < r.k ==> !Matches(FilterOf(taId), store[j].ta_id)
  {
    var f := FilterOf(taId);
    if f.Rejected? then QueryError
    else
      match FirstWhere(TaIds(store), id => Matches(f, id))
      case None => Missing
      case Some(k) => Found(k)
  }

  /** A string `ta_id` finds the first document with exactly that id. */
  lemma StringIdFindsFirstEqual(store: Store, s: string)
    ensures FindTa(store, Some(JStr(s))).Found? <==> exists k :: 0 <= k < |store| && store[k].ta_id == s
    ensures FindTa(store, Some(JStr(s))).Found? ==>
      var k := FindTa(store, Some(JStr(s))).k;
      store[k].ta_id == s && forall j :: 0 <= j < k ==> store[j].ta_id != s
    ensures !FindTa(store, Some(JStr(s))).QueryError?
  {
  }

  /** A missing id, null, a number, a boolean, an array, or an object with no
      operator key finds nothing, without an error. */
  lemma NonStringIdFindsNothing(store: Store, taId: Option<JsValue>)
    requires taId.None? || taId.value.JNull? || taId.value.JNum? || taId.value.JBool? || taId.value.JArr?
             || (taId.value.JObj? && forall k :: k in taId.value.fields ==> !Mongo.IsOperator(k))
    ensures FindTa(store, taId) == Missing
  {
  }

  /** No string sorts below itself. */
  lemma {:induction false} LexIrreflexive(a: string)
    ensures !LexLess(a, a)
    decreases |a|
  {
    if |a| > 0 {
      LexIrreflexive(a[1..]);
    }
  }

  /** The string order is strict and total: exactly one of a < b, a == b,
      b < a holds. */
  lemma {:induction false} LexTrichotomy(a: string, b: string)
    ensures LexLess(a, b) || a == b || LexLess(b, a)
    ensures !(LexLess(a, b) && LexLess(b, a))
    decreases |a|
  {
    if |a| > 0 && |b| > 0 && a[0] == b[0] {
      LexTrichotomy(a[1..], b[1..]);
      if a[1..] == b[1..] {
        assert a == [a[0]] + a[1..] && b == [b[0]] + b[1..];
      }
    }
  }

  /** `$gte` is `$gt` or `$eq`, and `$lte` is `$lt` or `$eq`. */
  lemma InclusiveComparisons(arg: JsValue, id: string)
    ensures OpHolds("$gte", arg, id) <==> OpHolds("$gt", arg, id) || OpHolds("$eq", arg, id)
    ensures OpHolds("$lte", arg, id) <==> OpHolds("$lt", arg, id) || OpHolds("$eq", arg, id)
  {
    if arg.JStr? {
      LexTrichotomy(arg.s, id);
      LexIrreflexive(id);
    }
  }

  /** The empty string sorts below every non-empty one. */
  lemma EmptyIsLeast(id: string)
    requires id != ""
    ensures LexLess("", id)
  {
  }

  /** `{"$gt": ""}` matches every stored TA, whose ids are non-empty, so it
      finds the first document of a non-empty store. */
  lemma GreaterThanEmptyFindsFirst(store: Store)
    requires StoreValid(store) && |store| > 0
    ensures FindTa(store, Some(JObj(map["$gt" := JStr("")]))) == Found(0)
  {
    var f := FilterOf(Some(JObj(map["$gt" := JStr("")])));
    assert f == Operators(map["$gt" := JStr("")]);
    EmptyIsLeast(store[0].ta_id);
    assert Matches(f, store[0].ta_id);
  }

  /** `$push: {preferences: {$each: entries}}` on one document. */
  function PushPreferences(doc: TaDoc, entries: seq<PreferenceEntry>): TaDoc {
    doc.(preferences := doc.preferences + entries)
  }

  /** POST /preferences. The order of the checks matters: the array check,
      then every item is decoded (any failure is a 400, even for a TA that
      does not exist), then the lookup (a refused query throws and is a 500,
      no match is a 404), then the append to the document the same filter
      matches first. The preference schema check after each decode never
      fails (see `ParsedEntrySatisfiesSchema`), so it is not a separate
      branch. */
  function SubmitPreferences(store: Store, taId: Option<JsValue>, prefs: Option<JsValue>)
    : (r: (Status, Store))
    ensures r.0 == Ok200 <==>
      && prefs.Some? && prefs.value.JArr? && ParseAll(prefs.value.items).Some?
      && FindTa(store, taId).Found?
    ensures r.0 == BadRequest400 <==> !(prefs.Some? && prefs.value.JArr? && ParseAll(prefs.value.items).Some?)
    ensures r.0 == ServerError500 <==>
      prefs.Some? && prefs.value.JArr? && ParseAll(prefs.value.items).Some? && FindTa(store, taId).QueryError?
    ensures r.0 != Ok200 ==> r.1 == store
    ensures r.0 == Ok200 ==>
      var k := FindTa(store, taId).k;
      && |r.1| == |store|
      && r.1[k] == PushPreferences(store[k], ParseAll(prefs.value.items).value)
      && forall j :: 0 <= j < |store| && j != k ==> r.1[j] == store[j]
  {
    if !(prefs.Some? && prefs.value.JArr?) then (BadRequest400, store)
    else
      match ParseAll(prefs.value.items)
      case None => (BadRequest400, store)
      case Some(entries) =>
        match FindTa(store, taId)
        case QueryError => (ServerError500, store)
        case Missing => (NotFound404, store)
        case Found(k) => (Ok200, store[k := PushPreferences(store[k], entries)])
  }

  /** An operator object for `ta_id` reaches the first TA: `{"$gt": ""}` with
      a well-formed list appends it to the first document of the store,
      whatever its id. */
  lemma OperatorIdUpdatesFirstTa(store: Store, prefs: Option<JsValue>)
    requires StoreValid(store) && |store| > 0
    requires prefs.Some? && prefs.value.JArr? && ParseAll(prefs.value.items).Some?
    ensures var r := SubmitPreferences(store, Some(JObj(map["$gt" := JStr("")])), prefs);
      && r.0 == Ok200
      && r.1[0] == PushPreferences(store[0], ParseAll(prefs.value.items).value)
  {
    GreaterThanEmptyFindsFirst(store);
  }

  /** A single-operator object the server refuses: an operator the model
      does not evaluate, or an `$in` whose operand is not an array. */
  lemma SingleOperatorRejected(op: string, arg: JsValue)
    requires (Mongo.IsOperator(op) && op !in ModelledOperators) || (op == "$in" && !arg.JArr?)
    ensures FilterOf(Some(JObj(map[op := arg]))) == Rejected
  {
    var fields := map[op := arg];
    assert op in fields && Mongo.IsOperator(op);
    if op !in ModelledOperators {
      assert !(forall k :: k in fields ==> k in ModelledOperators);
    } else {
      assert fields["$in"] == arg;
    }
  }

  /** Such a query is a 500 once the list decodes, and changes nothing. */
  lemma MalformedOperatorIsServerError(store: Store, prefs: Option<JsValue>, op: string, arg: JsValue)
    requires prefs.Some? && prefs.value.JArr? && ParseAll(prefs.value.items).Some?
    requires (Mongo.IsOperator(op) && op !in ModelledOperators) || (op == "$in" && !arg.JArr?)
    ensures SubmitPreferences(store, Some(JObj(map[op := arg])), prefs) == (ServerError500, store)
  {
    SingleOperatorRejected(op, arg);
  }

  /** Submitting preferences keeps the store valid: decoded entries always
      satisfy the preference schema. */
  lemma SubmitPreservesValid(store: Store, taId: Option<JsValue>, prefs: Option<JsValue>)
    requires StoreValid(store)
    ensures StoreValid(SubmitPreferences(store, taId, prefs).1)
  {
    var r := SubmitPreferences(store, taId, prefs);
    if r.0 == Ok200 {
      var items := prefs.value.items;
      var entries := ParseAll(items).value;
      var k := FindTa(store, taId).k;
      forall j | 0 <= j < |entries| ensures PreferenceSchema(EntryToJson(entries[j])) {
        assert DecodeItem(items[j]).Some?;
        ParsedEntrySatisfiesSchema(items[j].s);
      }
      var d := r.1[k];
      assert d.preferences == store[k].preferences + entries;
      forall j | 0 <= j < |d.preferences| ensures PreferenceSchema(EntryToJson(d.preferences[j])) {
        if j >= |store[k].preferences| {
          assert d.preferences[j] == entries[j - |store[k].preferences|];
        }
      }
    }
  }

  /** Preferences accumulate: submitting the same list twice stores every
      entry twice, since the handler appends and never replaces. */
  lemma ResubmissionDuplicates(store: Store, taId: Option<JsValue>, prefs: Option<JsValue>)
    requires SubmitPreferences(store, taId, prefs).0 == Ok200
    ensures var once := SubmitPreferences(store, taId, prefs).1;
            var twice := SubmitPreferences(once, taId, prefs).1;
            var k := FindTa(store, taId).k;
            var e := ParseAll(prefs.value.items).value;
            twice[k].preferences == store[k].preferences + e + e
  {
    var once := SubmitPreferences(store, taId, prefs).1;
    var k := FindTa(store, taId).k;
    assert once[k].ta_id == store[k].ta_id;
    assert forall j :: 0 <= j < |store| ==> once[j].ta_id == store[j].ta_id;
    assert TaIds(once) == TaIds(store);
    assert FindTa(once, taId) == Found(k);
  }

  /** Two TAs created with the same `ta_id` both stay in the store, and
      preferences for that id go to the first of them only. */
  lemma DuplicateIdsShadow(store: Store, body: JsValue, prefs: Option<JsValue>)
    requires TaSchema(body)
    requires forall k :: 0 <= k < |store| ==> store[k].ta_id != body.fields["ta_id"].s
    ensures var s2 := CreateTa(CreateTa(store, body).1, body).1;
            && |s2| == |store| + 2
            && s2[|store|].ta_id == s2[|store| + 1].ta_id
            && FindTa(s2, Some(body.fields["ta_id"])) == Found(|store|)
  {
    var s1 := CreateTa(store, body).1;
    var s2 := CreateTa(s1, body).1;
    assert forall k :: 0 <= k < |store| ==> s2[k] == store[k];
  }
}
