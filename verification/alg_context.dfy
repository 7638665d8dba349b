/** The scheduler's input records (src/algorithm/data/context.py and the
    dictionaries the algorithm reads): days, clock times, shifts, TAs, the
    preference matrix, and the per-shift assignment record. */
module AlgContext {
  import opened Util

  /** The `Day` enum. */
  datatype Day = Monday | Tuesday | Wednesday | Thursday | Friday | Saturday | Sunday

  /** A `datetime.time` with seconds and microseconds zero. */
  datatype Time = Time(hour: int, minute: int)

  predicate ValidTime(t: Time) {
    0 <= t.hour < 24 && 0 <= t.minute < 60
  }

  function Minutes(t: Time): int {
    t.hour * 60 + t.minute
  }

  /** `time` comparison is lexicographic on (hour, minute); for valid
      times that is the order of minutes since midnight. */
  predicate TimeLt(a: Time, b: Time) {
    a.hour < b.hour || (a.hour == b.hour && a.minute < b.minute)
  }

  lemma TimeLtIsMinutesLt(a: Time, b: Time)
    requires ValidTime(a) && ValidTime(b)
    ensures TimeLt(a, b) <==> Minutes(a) < Minutes(b)
  {
  }

  /** The `(oh_tas, lab_tas, leads)` staffing tuple. */
  datatype Staffing = Staffing(oh: int, lab: int, leads: int)

  function StaffingSum(s: Staffing): int {
    s.oh + s.lab + s.leads
  }

  datatype Shift<Id> = Shift(shift_id: Id, name: string, day: Day, start: Time, end: Time,
                             is_lab: bool, staffing: Staffing)

  /** A TA record. `status` is `lab_admin_status`: 1 office hours only,
      2 also lab TA, 3 also lab lead. `companions` is empty when the record
      has none. */
  datatype Ta<Id> = Ta(ta_id: Id, status: int, min_hours: real, max_hours: real, is_tf: bool,
                       experienced: bool, companions: seq<Id>)

  /** `SchedulerContext`: the TA and shift lists and the preference matrix
      keyed by TA id, then shift id. */
  datatype Ctx<Id> = Ctx(tas: seq<Ta<Id>>, shifts: seq<Shift<Id>>, prefs: map<Id, map<Id, int>>)

  /** The record a schedule keeps per shift. The error message text that
      goes with `unschedulable` is not modelled. */
  datatype Assignment<Id> = Assignment(leads: seq<Id>, lab_tas: seq<Id>, oh_tas: seq<Id>, unschedulable: bool)

  /** Everyone on a shift: leads, then lab TAs, then office-hours TAs. */
  function AllOnShift<Id>(a: Assignment<Id>): (r: seq<Id>)
    ensures |r| == |a.leads| + |a.lab_tas| + |a.oh_tas|
  {
    a.leads + a.lab_tas + a.oh_tas
  }

  /** The TA ids in `ta_metadata` order. */
  function TaIds<Id>(ctx: Ctx<Id>): (r: seq<Id>)
    ensures |r| == |ctx.tas| && forall k :: 0 <= k < |r| ==> r[k] == ctx.tas[k].ta_id
  {
    seq(|ctx.tas|, k requires 0 <= k < |ctx.tas| => ctx.tas[k].ta_id)
  }

  /** The three roles a TA can fill. */
  datatype Role = Lead | LabTa | OhTa

  /** Every TA id occurs once, and every shift id occurs once. */
  predicate DistinctIds<Id(==)>(ctx: Ctx<Id>) {
    && (forall i, j :: 0 <= i < j < |ctx.tas| ==> ctx.tas[i].ta_id != ctx.tas[j].ta_id)
    && (forall i, j :: 0 <= i < j < |ctx.shifts| ==> ctx.shifts[i].shift_id != ctx.shifts[j].shift_id)
  }

  /** Integer ids 1..n in list order, the layout the index-based lookups
      assume. */
  predicate WellIndexed(ctx: Ctx<int>) {
    && (forall k :: 0 <= k < |ctx.tas| ==> ctx.tas[k].ta_id == k + 1)
    && (forall k :: 0 <= k < |ctx.shifts| ==> ctx.shifts[k].shift_id == k + 1)
  }

  lemma WellIndexedDistinct(ctx: Ctx<int>)
    requires WellIndexed(ctx)
    ensures DistinctIds(ctx)
  {
  }

  /** Every shift has valid times with the end after the start. */
  predicate ValidShifts<Id>(ctx: Ctx<Id>) {
    forall k :: 0 <= k < |ctx.shifts| ==>
      ValidTime(ctx.shifts[k].start) && ValidTime(ctx.shifts[k].end)
      && Minutes(ctx.shifts[k].start) <= Minutes(ctx.shifts[k].end)
  }

  /** The position of the TA with the given id, if any. */
  function TaIndex<Id(==)>(ctx: Ctx<Id>, id: Id): (r: Option<nat>)
    ensures r.Some? ==> r.value < |ctx.tas| && ctx.tas[r.value].ta_id == id
    ensures r.None? <==> forall k :: 0 <= k < |ctx.tas| ==> ctx.tas[k].ta_id != id
  {
    FirstWhere(ctx.tas, (t: Ta<Id>) => t.ta_id == id)
  }

  /** The position of the shift with the given id, if any. */
  function ShiftIndex<Id(==)>(ctx: Ctx<Id>, id: Id): (r: Option<nat>)
    ensures r.Some? ==> r.value < |ctx.shifts| && ctx.shifts[r.value].shift_id == id
    ensures r.None? <==> forall k :: 0 <= k < |ctx.shifts| ==> ctx.shifts[k].shift_id != id
  {
    FirstWhere(ctx.shifts, (s: Shift<Id>) => s.shift_id == id)
  }

  lemma WellIndexedPositions(ctx: Ctx<int>, id: int)
    requires WellIndexed(ctx)
    ensures 1 <= id <= |ctx.tas| ==> TaIndex(ctx, id) == Some(id - 1)
    ensures 1 <= id <= |ctx.shifts| ==> ShiftIndex(ctx, id) == Some(id - 1)
  {
    if 1 <= id <= |ctx.tas| {
      assert ctx.tas[id - 1].ta_id == id;
      var r := TaIndex(ctx, id);
      assert ctx.tas[r.value].ta_id == r.value + 1;
    }
    if 1 <= id <= |ctx.shifts| {
      assert ctx.shifts[id - 1].shift_id == id;
      var r := ShiftIndex(ctx, id);
      assert ctx.shifts[r.value].shift_id == r.value + 1;
    }
  }

  // ------------------------------------------------------------------
  // Lookups that src/algorithm/helpers/data_access.py and
  // src/algorithm/data_access.py define identically.

  /** `get_pref`: the matrix entry, 0 when the TA or the shift has none. */
  function GetPref<Id(==)>(ctx: Ctx<Id>, ta: Id, shift: Id): (r: int)
    ensures (ta !in ctx.prefs || shift !in ctx.prefs[ta]) ==> r == 0
    ensures ta in ctx.prefs && shift in ctx.prefs[ta] ==> r == ctx.prefs[ta][shift]
  {
    if ta in ctx.prefs && shift in ctx.prefs[ta] then ctx.prefs[ta][shift] else 0
  }

  /** `is_available`. */
  predicate IsAvailable<Id(==)>(ctx: Ctx<Id>, ta: Id, shift: Id) {
    GetPref(ctx, ta, shift) > 0
  }

  /** The TA records available for a shift, in metadata order. */
  function AvailableRecords<Id(==)>(ctx: Ctx<Id>, shift: Id): seq<Ta<Id>> {
    Filter(ctx.tas, (t: Ta<Id>) => IsAvailable(ctx, t.ta_id, shift))
  }

  /** `get_available_tas`: the ids of the TAs with a positive preference
      for the shift, in `ta_metadata` order. */
  function AvailableTas<Id(==)>(ctx: Ctx<Id>, shift: Id): (r: seq<Id>)
    ensures |r| == |FilterIndices(ctx.tas, (t: Ta<Id>) => IsAvailable(ctx, t.ta_id, shift))|
    ensures forall i :: 0 <= i < |r| ==>
              r[i] == ctx.tas[FilterIndices(ctx.tas, (t: Ta<Id>) => IsAvailable(ctx, t.ta_id, shift))[i]].ta_id
    ensures forall i :: 0 <= i < |r| ==> IsAvailable(ctx, r[i], shift)
  {
    var recs := AvailableRecords(ctx, shift);
    seq(|recs|, i requires 0 <= i < |recs| => recs[i].ta_id)
  }

  /** A TA is listed iff it has a positive preference for the shift. */
  lemma AvailableTasMembers<Id>(ctx: Ctx<Id>, shift: Id, k: nat)
    requires k < |ctx.tas|
    ensures ctx.tas[k].ta_id in AvailableTas(ctx, shift) <==> IsAvailable(ctx, ctx.tas[k].ta_id, shift)
  {
    if IsAvailable(ctx, ctx.tas[k].ta_id, shift) {
      AvailableTasComplete(ctx, shift, k);
    }
  }

  /** Every TA with a positive preference is listed. */
  lemma AvailableTasComplete<Id>(ctx: Ctx<Id>, shift: Id, k: nat)
    requires k < |ctx.tas| && IsAvailable(ctx, ctx.tas[k].ta_id, shift)
    ensures ctx.tas[k].ta_id in AvailableTas(ctx, shift)
  {
    var p := (t: Ta<Id>) => IsAvailable(ctx, t.ta_id, shift);
    var idx := FilterIndices(ctx.tas, p);
    assert p(ctx.tas[k]);
    assert k in idx;
    var i :| 0 <= i < |idx| && idx[i] == k;
    assert AvailableTas(ctx, shift)[i] == ctx.tas[k].ta_id;
  }

  /** `get_shifts_for_ta`: the ids of the shifts the TA has a positive
      preference for, in `shift_metadata` order. */
  function ShiftsForTa<Id(==)>(ctx: Ctx<Id>, ta: Id): (r: seq<Id>)
    ensures |r| == |FilterIndices(ctx.shifts, (s: Shift<Id>) => IsAvailable(ctx, ta, s.shift_id))|
    ensures forall i :: 0 <= i < |r| ==>
              r[i] == ctx.shifts[FilterIndices(ctx.shifts, (s: Shift<Id>) => IsAvailable(ctx, ta, s.shift_id))[i]].shift_id
    ensures forall i :: 0 <= i < |r| ==> GetPref(ctx, ta, r[i]) > 0
  {
    var recs := Filter(ctx.shifts, (s: Shift<Id>) => IsAvailable(ctx, ta, s.shift_id));
    seq(|recs|, i requires 0 <= i < |recs| => recs[i].shift_id)
  }

  /** Every shift the TA has a positive preference for is listed. */
  lemma ShiftsForTaComplete<Id>(ctx: Ctx<Id>, ta: Id, k: nat)
    requires k < |ctx.shifts| && GetPref(ctx, ta, ctx.shifts[k].shift_id) > 0
    ensures ctx.shifts[k].shift_id in ShiftsForTa(ctx, ta)
  {
    var p := (s: Shift<Id>) => IsAvailable(ctx, ta, s.shift_id);
    var idx := FilterIndices(ctx.shifts, p);
    assert p(ctx.shifts[k]);
    assert k in idx;
    var i :| 0 <= i < |idx| && idx[i] == k;
    assert ShiftsForTa(ctx, ta)[i] == ctx.shifts[k].shift_id;
  }

  /** `shift_duration_hours`: the minute difference over 60, exactly. */
  function DurationHours<Id>(s: Shift<Id>): (h: real)
    ensures h * 60.0 == (Minutes(s.end) - Minutes(s.start)) as real
    ensures Minutes(s.start) <= Minutes(s.end) ==> h >= 0.0
  {
    (Minutes(s.end) - Minutes(s.start)) as real / 60.0
  }

  // ------------------------------------------------------------------
  // The two dictionaries the assignment helpers mutate.

  /** `current_assignments` (TA id to the shift ids it holds, in the order
      assigned) and `hours_assigned` (TA id to hours). */
  datatype Tracking<Id> = Tracking(current: map<Id, seq<Id>>, hours: map<Id, real>)

  /** The state-change half of `assign_ta`, once the TA's entries and the
      shift's duration are known. */
  function AddShift<Id(==)>(st: Tracking<Id>, ta: Id, shift: Id, dur: real): (r: Tracking<Id>)
    requires ta in st.current && ta in st.hours
    ensures r.current.Keys == st.current.Keys && r.hours.Keys == st.hours.Keys
    ensures r.current[ta] == st.current[ta] + [shift]
    ensures r.hours[ta] == st.hours[ta] + dur
    ensures forall k :: k in st.current && k != ta ==> r.current[k] == st.current[k]
    ensures forall k :: k in st.hours && k != ta ==> r.hours[k] == st.hours[k]
  {
    Tracking(st.current[ta := st.current[ta] + [shift]], st.hours[ta := st.hours[ta] + dur])
  }

  /** The state-change half of `remove_ta`: the first occurrence of the
      shift leaves the TA's list. */
  function DropShift<Id(==)>(st: Tracking<Id>, ta: Id, shift: Id, dur: real): (r: Tracking<Id>)
    requires ta in st.current && ta in st.hours && shift in st.current[ta]
    ensures r.current.Keys == st.current.Keys && r.hours.Keys == st.hours.Keys
    ensures multiset(r.current[ta]) + multiset{shift} == multiset(st.current[ta])
    ensures r.current[ta] == RemoveFirst(st.current[ta], shift).value
    ensures r.hours[ta] == st.hours[ta] - dur
    ensures forall k :: k in st.current && k != ta ==> r.current[k] == st.current[k]
    ensures forall k :: k in st.hours && k != ta ==> r.hours[k] == st.hours[k]
  {
    Tracking(st.current[ta := RemoveFirst(st.current[ta], shift).value], st.hours[ta := st.hours[ta] - dur])
  }

  /** Adding then dropping the same shift restores the hours exactly and
      the TA's shifts as a multiset; when the TA did not already hold the
      shift, the whole state is restored. */
  lemma AddThenDrop<Id>(st: Tracking<Id>, ta: Id, shift: Id, dur: real)
    requires ta in st.current && ta in st.hours
    ensures var mid := AddShift(st, ta, shift, dur);
            && shift in mid.current[ta]
            && var back := DropShift(mid, ta, shift, dur);
               && back.hours == st.hours
               && multiset(back.current[ta]) == multiset(st.current[ta])
               && back.current.Keys == st.current.Keys
               && (forall k :: k in st.current && k != ta ==> back.current[k] == st.current[k])
               && (shift !in st.current[ta] ==> back == st)
  {
    var mid := AddShift(st, ta, shift, dur);
    var back := DropShift(mid, ta, shift, dur);
    SnocCancels(st.current[ta], shift, back.current[ta]);
    if shift !in st.current[ta] {
      DropAfterAddRestores(st, ta, shift, dur);
    }
  }

  lemma DropAfterAddRestores<Id>(st: Tracking<Id>, ta: Id, shift: Id, dur: real)
    requires ta in st.current && ta in st.hours && shift !in st.current[ta]
    ensures DropShift(AddShift(st, ta, shift, dur), ta, shift, dur) == st
  {
    var s := st.current[ta];
    var back := DropShift(AddShift(st, ta, shift, dur), ta, shift, dur);
    assert s + [shift] == s + [shift] + [];
    SplitAtFirstOf(s, shift, []);
    assert back.current[ta] == s;
    assert back.current == st.current;
  }

  /** Taking x back out of s + [x] leaves s's multiset. */
  lemma SnocCancels<T>(s: seq<T>, x: T, r: seq<T>)
    requires multiset(r) + multiset{x} == multiset(s + [x])
    ensures multiset(r) == multiset(s)
  {
    var A, B := multiset(r), multiset(s);
    assert multiset(s + [x]) == B + multiset{x};
    assert forall y :: A[y] == (A + multiset{x})[y] - multiset{x}[y];
    assert forall y :: B[y] == (B + multiset{x})[y] - multiset{x}[y];
  }
}
