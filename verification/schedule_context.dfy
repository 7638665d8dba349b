/** The schedule store of the frontend
    (frontend/src/contexts/ScheduleContext.jsx): the TA's availability
    map, the stored schedule, the configuration and the TF's template,
    changed only through `scheduleReducer`. The copy under src/frontend
    has the same reducer; only the initial slot length differs. */
module ScheduleContext {
  import opened Util
  import opened Js

  /** `` `${day}-${time}` ``, the key of one grid cell in both slot maps. */
  function SlotKey(day: string, time: string): string {
    day + "-" + time
  }

  /** Day names carry no '-', so a key names one cell. */
  lemma SlotKeyInjective(d1: string, t1: string, d2: string, t2: string)
    requires '-' !in d1 && '-' !in d2
    requires SlotKey(d1, t1) == SlotKey(d2, t2)
    ensures d1 == d2 && t1 == t2
  {
    SplitAtFirstOf(d1, '-', t1);
    SplitAtFirstOf(d2, '-', t2);
    assert SlotKey(d1, t1) == d1 + ['-'] + t1;
    assert SlotKey(d2, t2) == d2 + ['-'] + t2;
  }

  /** The provider's state. The configuration is an object of JSON values;
      cell values are strings. */
  datatype State = State(availability: map<string, string>, schedule: JsValue,
                         config: map<string, JsValue>, templateSlots: map<string, string>)

  /** The actions the reducer knows; `Unknown` stands for any other type. */
  datatype Action =
    | SetAvailability(key: string, value: Option<string>)
    | ClearAvailability
    | SetSchedule(payload: JsValue)
    | UpdateConfig(partial: map<string, JsValue>)
    | SetTemplateSlot(key: string, value: Option<string>)
    | ClearTemplate
    | Unknown

  /** `initialState`, with the slot length of the copy in use (90 here,
      30 in the src/frontend copy). */
  function Initial(slotDuration: real): (s: State)
    ensures s.availability == map[] && s.templateSlots == map[] && s.schedule == JArr([])
    ensures s.config.Keys == {"earliestStart", "latestEnd", "slotDuration", "tasPerShift", "approvedTFs"}
  {
    State(map[], JArr([]),
          map["earliestStart" := JStr("09:00"), "latestEnd" := JStr("00:00"), "slotDuration" := JNum(slotDuration),
              "tasPerShift" := JNum(1.0), "approvedTFs" := JArr([])],
          map[])
  }

  /** Copy the map, then delete the key for null or set it otherwise. */
  function SetSlot(m: map<string, string>, key: string, value: Option<string>): (r: map<string, string>)
    ensures value.None? ==> key !in r
    ensures value.Some? ==> key in r && r[key] == value.value
    ensures forall k :: k != key ==> (k in r <==> k in m)
    ensures forall k :: k != key && k in m ==> r[k] == m[k]
  {
    if value.None? then m - {key} else m[key := value.value]
  }

  /** `{ ...config, ...partial }`: the payload's keys win. */
  function Merge(config: map<string, JsValue>, partial: map<string, JsValue>): (r: map<string, JsValue>)
    ensures r.Keys == config.Keys + partial.Keys
    ensures forall k :: k in partial ==> r[k] == partial[k]
    ensures forall k :: k in config && k !in partial ==> r[k] == config[k]
  {
    map k | k in config.Keys + partial.Keys :: if k in partial then partial[k] else config[k]
  }

  /** `scheduleReducer`. Each action touches its own field only. */
  function Reduce(s: State, a: Action): (r: State)
    ensures !(a.SetAvailability? || a.ClearAvailability?) ==> r.availability == s.availability
    ensures !a.SetSchedule? ==> r.schedule == s.schedule
    ensures !a.UpdateConfig? ==> r.config == s.config
    ensures !(a.SetTemplateSlot? || a.ClearTemplate?) ==> r.templateSlots == s.templateSlots
    ensures a.ClearAvailability? ==> r.availability == map[]
    ensures a.ClearTemplate? ==> r.templateSlots == map[]
    ensures a.SetSchedule? ==> r.schedule == a.payload
    ensures a.Unknown? ==> r == s
  {
    match a
    case SetAvailability(key, value) => s.(availability := SetSlot(s.availability, key, value))
    case ClearAvailability => s.(availability := map[])
    case SetSchedule(payload) => s.(schedule := payload)
    case UpdateConfig(partial) => s.(config := Merge(s.config, partial))
    case SetTemplateSlot(key, value) => s.(templateSlots := SetSlot(s.templateSlots, key, value))
    case ClearTemplate => s.(templateSlots := map[])
    case Unknown => s
  }

  /** Every action is idempotent: dispatching it twice is dispatching it
      once. */
  lemma ReduceIdempotent(s: State, a: Action)
    ensures Reduce(Reduce(s, a), a) == Reduce(s, a)
  {
    match a
    case SetAvailability(key, value) =>
      SetSlotIdempotent(s.availability, key, value);
    case SetTemplateSlot(key, value) =>
      SetSlotIdempotent(s.templateSlots, key, value);
    case UpdateConfig(partial) =>
      assert Merge(Merge(s.config, partial), partial) == Merge(s.config, partial);
    case _ =>
  }

  lemma SetSlotIdempotent(m: map<string, string>, key: string, value: Option<string>)
    ensures SetSlot(SetSlot(m, key, value), key, value) == SetSlot(m, key, value)
  {
    assert SetSlot(SetSlot(m, key, value), key, value).Keys == SetSlot(m, key, value).Keys;
  }

  /** Setting a cell and then clearing it with null leaves the map as it
      was without that key. */
  lemma SetThenUnset(m: map<string, string>, key: string, v: string)
    ensures SetSlot(SetSlot(m, key, Some(v)), key, None) == m - {key}
  {
  }

  /** Updates to different cells commute. */
  lemma SetSlotsCommute(m: map<string, string>, k1: string, v1: Option<string>, k2: string, v2: Option<string>)
    requires k1 != k2
    ensures SetSlot(SetSlot(m, k1, v1), k2, v2) == SetSlot(SetSlot(m, k2, v2), k1, v1)
  {
    var a, b := SetSlot(SetSlot(m, k1, v1), k2, v2), SetSlot(SetSlot(m, k2, v2), k1, v1);
    assert a.Keys == b.Keys;
  }

  /** Dispatching actions one after another. */
  function Dispatch(s: State, actions: seq<Action>): State
    decreases |actions|
  {
    if |actions| == 0 then s else Dispatch(Reduce(s, actions[0]), actions[1..])
  }

  /** The same value written under each of the keys. */
  function SetEach(m: map<string, string>, keys: seq<string>, v: string): (r: map<string, string>)
    ensures r.Keys == m.Keys + (set k | k in keys)
    ensures forall k :: k in keys ==> r[k] == v
    ensures forall k :: k in m && k !in keys ==> r[k] == m[k]
    decreases |keys|
  {
    if |keys| == 0 then m
    else
      var rest := SetEach(m[keys[0] := v], keys[1..], v);
      assert forall k :: k in keys ==> k == keys[0] || k in keys[1..];
      rest
  }

  /** One `SET_TEMPLATE_SLOT` per key, all with the same value. */
  function TemplateWrites(keys: seq<string>, v: string): (r: seq<Action>)
    ensures |r| == |keys| && forall i :: 0 <= i < |keys| ==> r[i] == SetTemplateSlot(keys[i], Some(v))
  {
    seq(|keys|, i requires 0 <= i < |keys| => SetTemplateSlot(keys[i], Some(v)))
  }

  /** One `SET_AVAILABILITY` per key, all with the same value. */
  function AvailabilityWrites(keys: seq<string>, v: string): (r: seq<Action>)
    ensures |r| == |keys| && forall i :: 0 <= i < |keys| ==> r[i] == SetAvailability(keys[i], Some(v))
  {
    seq(|keys|, i requires 0 <= i < |keys| => SetAvailability(keys[i], Some(v)))
  }

  /** Writing one value under many template keys changes the template
      only, and exactly at those keys. */
  lemma {:induction false} TemplateWritesEffect(s: State, keys: seq<string>, v: string)
    ensures Dispatch(s, TemplateWrites(keys, v)) == s.(templateSlots := SetEach(s.templateSlots, keys, v))
    decreases |keys|
  {
    if |keys| > 0 {
      var s1 := Reduce(s, SetTemplateSlot(keys[0], Some(v)));
      assert TemplateWrites(keys, v)[1..] == TemplateWrites(keys[1..], v);
      TemplateWritesEffect(s1, keys[1..], v);
    }
  }

  /** The same for the availability map. */
  lemma {:induction false} AvailabilityWritesEffect(s: State, keys: seq<string>, v: string)
    ensures Dispatch(s, AvailabilityWrites(keys, v)) == s.(availability := SetEach(s.availability, keys, v))
    decreases |keys|
  {
    if |keys| > 0 {
      var s1 := Reduce(s, SetAvailability(keys[0], Some(v)));
      assert AvailabilityWrites(keys, v)[1..] == AvailabilityWrites(keys[1..], v);
      AvailabilityWritesEffect(s1, keys[1..], v);
    }
  }

  /** The keys of a day-by-time grid, day by day. */
  function GridKeys(days: seq<string>, times: seq<string>): (r: seq<string>)
    ensures |r| == |days| * |times|
    decreases |days|
  {
    if |days| == 0 then []
    else
      assert |days| * |times| == |times| + (|days| - 1) * |times|;
      DayRow(days[0], times) + GridKeys(days[1..], times)
  }

  function DayRow(day: string, times: seq<string>): (r: seq<string>)
    ensures |r| == |times| && forall j :: 0 <= j < |times| ==> r[j] == SlotKey(day, times[j])
  {
    seq(|times|, j requires 0 <= j < |times| => SlotKey(day, times[j]))
  }

  /** Every cell of the grid has its key in the list. */
  lemma {:induction false} GridKeysCover(days: seq<string>, times: seq<string>, i: nat, j: nat)
    requires i < |days| && j < |times|
    ensures SlotKey(days[i], times[j]) in GridKeys(days, times)
    decreases |days|
  {
    if i == 0 {
      assert DayRow(days[0], times)[j] == SlotKey(days[i], times[j]);
    } else {
      assert days[1..][i - 1] == days[i];
      GridKeysCover(days[1..], times, i - 1, j);
    }
  }

  /** Every key in the list is the key of a cell of the grid. */
  lemma {:induction false} GridKeysOnly(days: seq<string>, times: seq<string>, k: string)
    requires k in GridKeys(days, times)
    ensures exists i, j :: 0 <= i < |days| && 0 <= j < |times| && k == SlotKey(days[i], times[j])
    decreases |days|
  {
    if k in DayRow(days[0], times) {
      var j :| 0 <= j < |times| && DayRow(days[0], times)[j] == k;
      assert k == SlotKey(days[0], times[j]);
    } else {
      GridKeysOnly(days[1..], times, k);
      var i, j :| 0 <= i < |days| - 1 && 0 <= j < |times| && k == SlotKey(days[1..][i], times[j]);
      assert k == SlotKey(days[i + 1], times[j]);
    }
  }
  /** The cell's current value, undefined when the key is absent. */
  function Lookup(m: map<string, string>, key: string): Option<string> {
    if key in m then Some(m[key]) else None
  }

  /** The click cycle of the editing pages: an empty cell takes `first`,
      `first` becomes `second`, and anything else is cleared. */
  function CycleNext(current: Option<string>, first: string, second: string): (r: Option<string>)
    ensures r.None? <==> current.Some? && current.value != "" && current.value != first
    ensures r.Some? ==> r.value == if current.None? || current.value == "" then first else second
  {
    if current.None? || current.value == "" then Some(first)
    else if current.value == first then Some(second)
    else None
  }

  /** One click on a cell of a slot map. */
  function Click(m: map<string, string>, key: string, first: string, second: string): map<string, string> {
    SetSlot(m, key, CycleNext(Lookup(m, key), first, second))
  }

  /** Three clicks on a cell give the map back exactly when the cell was
      empty or held one of the two values of the cycle; other cells never
      change. */
  lemma ClickThrice(m: map<string, string>, key: string, first: string, second: string)
    requires first != "" && second != "" && first != second
    ensures var r := Click(Click(Click(m, key, first, second), key, first, second), key, first, second);
      && (r == m <==> key !in m || m[key] == first || m[key] == second)
      && forall k :: k != key ==> (k in r <==> k in m) && (k in m ==> r[k] == m[k])
  {
    var m1 := Click(m, key, first, second);
    var m2 := Click(m1, key, first, second);
    var r := Click(m2, key, first, second);
    if key !in m || m[key] == first || m[key] == second {
      assert r.Keys == m.Keys;
    } else if m[key] == "" {
      assert key !in r;
    } else {
      assert r[key] == second;
    }
  }
}
