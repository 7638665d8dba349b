/** The constraint rules of src/algorithm/constraints.py, the copy the
    greedy fill uses. Overlap, the status table and the single-record
    checks are the same as in the helpers copy and are reused here over
    the index-based lookups; eligibility has no overload cap, and the
    fairness step only raises `min_hours`, truncated to an integer. */
module Constraints {
  import opened Util
  import opened Py
  import opened AlgContext
  import D = DataAccess
  import C = ConstraintHelpers

  /** The index-based lookups as function values. */
  function PositionalTa(ctx: Ctx<int>): int -> Result<Ta<int>, PyError> {
    id => D.GetTa(ctx, id)
  }

  function PositionalShift(ctx: Ctx<int>): int -> Result<Shift<int>, PyError> {
    id => D.GetShift(ctx, id)
  }

  /** The checks of `get_eligible_tas_for_role` for one TA id, in the
      order they run. */
  function EligibleCheck(ctx: Ctx<int>, shift: int, role: Role, st: Tracking<int>, id: int): Result<bool, PyError> {
    if !IsAvailable(ctx, id, shift) then Ok(false)
    else
      var status := C.HasMinStatusForRole(PositionalTa(ctx), id, role);
      if status.Err? then Err(status.error) else if !status.value then Ok(false)
      else
        var exceed := C.WouldExceedMaxHours(PositionalTa(ctx), PositionalShift(ctx), st.hours, id, shift);
        if exceed.Err? then Err(exceed.error) else if exceed.value then Ok(false)
        else
          var conflict := C.HasTimeConflict(PositionalShift(ctx), st.current, id, shift);
          if conflict.Err? then Err(conflict.error) else if conflict.value then Ok(false)
          else if role == OhTa then Ok(true)
          else
            var lab := C.IsInAnyLab(PositionalShift(ctx), st.current, id);
            if lab.Err? then Err(lab.error) else Ok(!lab.value)
  }

  function EligibleTest(ctx: Ctx<int>, shift: int, role: Role, st: Tracking<int>): int -> Result<bool, PyError> {
    id => EligibleCheck(ctx, shift, role, st, id)
  }

  /** `get_eligible_tas_for_role`: the ids, in `ta_metadata` order, that
      pass every check. */
  function EligibleTasForRole(ctx: Ctx<int>, shift: int, role: Role, st: Tracking<int>): (r: Result<seq<int>, PyError>)
    ensures r.Ok? <==> forall k :: 0 <= k < |ctx.tas| ==> EligibleTest(ctx, shift, role, st)(ctx.tas[k].ta_id).Ok?
    ensures r.Ok? ==> r.value == Filter(TaIds(ctx), OkAndTrue(EligibleTest(ctx, shift, role, st)))
  {
    FilterOk(TaIds(ctx), EligibleTest(ctx, shift, role, st))
  }

  /** The state the greedy fill keeps: ids 1..n in list order, every TA
      tracked in both dictionaries, every held shift id a valid position,
      and the candidate shift a valid position. */
  predicate Fillable(ctx: Ctx<int>, st: Tracking<int>, shift: int) {
    && WellIndexed(ctx)
    && C.Tracked(ctx, st, PositionalShift(ctx))
    && 1 <= shift <= |ctx.shifts|
  }

  predicate HoldsOverlapping(ctx: Ctx<int>, held: seq<int>, s: Shift<int>)
    requires forall i :: 0 <= i < |held| ==> D.GetShift(ctx, held[i]).Ok?
  {
    exists i :: 0 <= i < |held| && C.ShiftsOverlap(s, D.GetShift(ctx, held[i]).value)
  }

  predicate HoldsLab(ctx: Ctx<int>, held: seq<int>)
    requires forall i :: 0 <= i < |held| ==> D.GetShift(ctx, held[i]).Ok?
  {
    exists i :: 0 <= i < |held| && D.GetShift(ctx, held[i]).value.is_lab
  }

  /** What the combined check means for the TA at position k: available,
      of sufficient status, within `max_hours` after the shift, free of
      overlapping shifts and, for the lab roles, in no lab yet. */
  predicate MeetsRole(ctx: Ctx<int>, shift: int, role: Role, st: Tracking<int>, k: nat)
    requires Fillable(ctx, st, shift) && k < |ctx.tas|
  {
    var id := ctx.tas[k].ta_id;
    var s := ctx.shifts[shift - 1];
    var held := st.current[id];
    assert forall i :: 0 <= i < |held| ==> PositionalShift(ctx)(held[i]).Ok?;
    && IsAvailable(ctx, id, shift)
    && ctx.tas[k].status >= C.MinStatus(role)
    && st.hours[id] + DurationHours(s) <= ctx.tas[k].max_hours
    && !HoldsOverlapping(ctx, held, s)
    && (role != OhTa ==> !HoldsLab(ctx, held))
  }

  /** In a fillable state each check of the TA at position k succeeds
      with the value its meaning gives. */
  lemma ChecksResolve(ctx: Ctx<int>, shift: int, role: Role, st: Tracking<int>, k: nat)
    requires Fillable(ctx, st, shift) && k < |ctx.tas|
    ensures var id := ctx.tas[k].ta_id;
            var s := ctx.shifts[shift - 1];
            var held := st.current[id];
            && (forall i :: 0 <= i < |held| ==> D.GetShift(ctx, held[i]).Ok?)
            && C.HasMinStatusForRole(PositionalTa(ctx), id, role) == Ok(ctx.tas[k].status >= C.MinStatus(role))
            && C.WouldExceedMaxHours(PositionalTa(ctx), PositionalShift(ctx), st.hours, id, shift)
               == Ok(st.hours[id] + DurationHours(s) > ctx.tas[k].max_hours)
            && C.HasTimeConflict(PositionalShift(ctx), st.current, id, shift) == Ok(HoldsOverlapping(ctx, held, s))
            && C.IsInAnyLab(PositionalShift(ctx), st.current, id) == Ok(HoldsLab(ctx, held))
  {
    var id := ctx.tas[k].ta_id;
    assert id == k + 1;
    assert D.GetTa(ctx, id) == Ok(ctx.tas[k]);
    assert D.GetShift(ctx, shift) == Ok(ctx.shifts[shift - 1]);
    var held := st.current[id];
    assert forall i :: 0 <= i < |held| ==> PositionalShift(ctx)(held[i]).Ok?;
  }

  lemma EligibleTestMeaning(ctx: Ctx<int>, shift: int, role: Role, st: Tracking<int>, k: nat)
    requires Fillable(ctx, st, shift) && k < |ctx.tas|
    ensures EligibleTest(ctx, shift, role, st)(ctx.tas[k].ta_id) == Ok(MeetsRole(ctx, shift, role, st, k))
  {
    ChecksResolve(ctx, shift, role, st, k);
    assert EligibleTest(ctx, shift, role, st)(ctx.tas[k].ta_id) == EligibleCheck(ctx, shift, role, st, ctx.tas[k].ta_id);
  }

  /** In a fillable state the scan succeeds, and the TA at position k is
      listed iff it meets the role. No overload cap applies. */
  lemma EligibleExactly(ctx: Ctx<int>, shift: int, role: Role, st: Tracking<int>, k: nat)
    requires Fillable(ctx, st, shift) && k < |ctx.tas|
    ensures EligibleTasForRole(ctx, shift, role, st).Ok?
    ensures ctx.tas[k].ta_id in EligibleTasForRole(ctx, shift, role, st).value <==> MeetsRole(ctx, shift, role, st, k)
  {
    var test := EligibleTest(ctx, shift, role, st);
    forall j | 0 <= j < |ctx.tas| ensures test(ctx.tas[j].ta_id).Ok? {
      EligibleTestMeaning(ctx, shift, role, st, j);
    }
    EligibleTestMeaning(ctx, shift, role, st, k);
    var ids := TaIds(ctx);
    assert ids[k] == ctx.tas[k].ta_id;
    FilterMembers(ids, OkAndTrue(test), ctx.tas[k].ta_id);
  }

  /** In a fillable state the scan succeeds and lists distinct ids of
      metadata TAs; which of them are listed is `EligibleExactly`. */
  lemma EligibleListed(ctx: Ctx<int>, shift: int, role: Role, st: Tracking<int>)
    requires Fillable(ctx, st, shift)
    ensures EligibleTasForRole(ctx, shift, role, st).Ok?
    ensures var r := EligibleTasForRole(ctx, shift, role, st).value;
            NoDuplicates(r) && forall i :: 0 <= i < |r| ==> 1 <= r[i] <= |ctx.tas|
  {
    EligibleScanSucceeds(ctx, shift, role, st);
    EligibleIdsDistinct(ctx, shift, role, st, EligibleTasForRole(ctx, shift, role, st).value);
  }

  /** In a fillable state no check raises, so the scan succeeds. */
  lemma EligibleScanSucceeds(ctx: Ctx<int>, shift: int, role: Role, st: Tracking<int>)
    requires Fillable(ctx, st, shift)
    ensures EligibleTasForRole(ctx, shift, role, st).Ok?
  {
    var test := EligibleTest(ctx, shift, role, st);
    forall k | 0 <= k < |ctx.tas| ensures test(ctx.tas[k].ta_id).Ok? {
      EligibleTestMeaning(ctx, shift, role, st, k);
    }
  }

  /** The listed ids are distinct positions of the metadata list. */
  lemma EligibleIdsDistinct(ctx: Ctx<int>, shift: int, role: Role, st: Tracking<int>, r: seq<int>)
    requires Fillable(ctx, st, shift) && EligibleTasForRole(ctx, shift, role, st) == Ok(r)
    ensures NoDuplicates(r) && forall i :: 0 <= i < |r| ==> 1 <= r[i] <= |ctx.tas|
  {
    FilterOfCounting(TaIds(ctx), OkAndTrue(EligibleTest(ctx, shift, role, st)));
  }

  /** Picks drawn from the list are ids of TAs meeting the role. */
  lemma PicksMeet(ctx: Ctx<int>, shift: int, role: Role, st: Tracking<int>, elig: seq<int>, sel: seq<int>)
    requires Fillable(ctx, st, shift) && EligibleTasForRole(ctx, shift, role, st) == Ok(elig)
    requires forall i :: 0 <= i < |elig| ==> 1 <= elig[i] <= |ctx.tas|
    requires multiset(sel) <= multiset(elig)
    ensures forall i :: 0 <= i < |sel| ==> 1 <= sel[i] <= |ctx.tas| && MeetsRole(ctx, shift, role, st, sel[i] - 1)
  {
    ListedMeet(ctx, shift, role, st, elig);
    MembersMeet(ctx, shift, role, st, elig, sel);
  }

  /** Every TA whose id is listed meets the role. */
  lemma ListedMeet(ctx: Ctx<int>, shift: int, role: Role, st: Tracking<int>, elig: seq<int>)
    requires Fillable(ctx, st, shift) && EligibleTasForRole(ctx, shift, role, st) == Ok(elig)
    ensures forall k :: 0 <= k < |ctx.tas| && ctx.tas[k].ta_id in elig ==> MeetsRole(ctx, shift, role, st, k)
  {
    forall k | 0 <= k < |ctx.tas| && ctx.tas[k].ta_id in elig ensures MeetsRole(ctx, shift, role, st, k) {
      EligibleExactly(ctx, shift, role, st, k);
    }
  }

  lemma MembersMeet(ctx: Ctx<int>, shift: int, role: Role, st: Tracking<int>, elig: seq<int>, sel: seq<int>)
    requires Fillable(ctx, st, shift)
    requires forall i :: 0 <= i < |elig| ==> 1 <= elig[i] <= |ctx.tas|
    requires forall k :: 0 <= k < |ctx.tas| && ctx.tas[k].ta_id in elig ==> MeetsRole(ctx, shift, role, st, k)
    requires multiset(sel) <= multiset(elig)
    ensures forall i :: 0 <= i < |sel| ==> 1 <= sel[i] <= |ctx.tas| && MeetsRole(ctx, shift, role, st, sel[i] - 1)
  {
    forall i | 0 <= i < |sel| ensures 1 <= sel[i] <= |ctx.tas| && MeetsRole(ctx, shift, role, st, sel[i] - 1) {
      assert sel[i] in multiset(elig);
      var j :| 0 <= j < |elig| && elig[j] == sel[i];
      var k := sel[i] - 1;
      assert ctx.tas[k].ta_id == sel[i];
    }
  }

  // ------------------------------------------------------------------
  // Fairness floor

  /** Python's `int(x)` on a float: truncation toward zero. */
  function Trunc(x: real): (r: int)
    ensures x >= 0.0 ==> r as real <= x < r as real + 1.0
    ensures x < 0.0 ==> r as real - 1.0 < x <= r as real
  {
    if x >= 0.0 then x.Floor else -((-x).Floor)
  }

  /** One TA's floor: raised to the truncated fair floor, capped at the
      TA's available hours, and never lowered. */
  function FloorRange(t: Ta<int>, floor: real, avail: real): (r: Ta<int>)
    ensures r == t.(min_hours := r.min_hours)
    ensures r.min_hours >= t.min_hours
    ensures r.min_hours == t.min_hours || (r.min_hours == r.min_hours.Floor as real
                                           && r.min_hours <= C.RMax(avail, 0.0) && r.min_hours <= C.RMax(floor, 0.0))
    ensures r.min_hours >= Trunc(C.RMin(floor, avail)) as real
  {
    t.(min_hours := C.RMax(t.min_hours, Trunc(C.RMin(floor, avail)) as real))
  }

  /** The hours of the shifts at positions j whose preference entry
      `get_pref(ctx, i, j)` is positive: the matrix is read with the list
      positions i and j in place of the ids. */
  function AvailableHoursAtPositions(ctx: Ctx<int>, i: int): real {
    SumReal(seq(|ctx.shifts|, j requires 0 <= j < |ctx.shifts| =>
                                if GetPref(ctx, i, j) > 0 then DurationHours(ctx.shifts[j]) else 0.0))
  }

  /** `apply_fairness_floor` as written: the availability of the TA at
      position i is read from the matrix with keys i and j. */
  function ApplyFairnessFloorAsWritten(ctx: Ctx<int>): (r: Result<Ctx<int>, PyError>)
    ensures r.Err? <==> |ctx.tas| == 0
    ensures r.Err? ==> r.error == ZeroDivisionError
    ensures r.Ok? ==> r.value.shifts == ctx.shifts && r.value.prefs == ctx.prefs && |r.value.tas| == |ctx.tas|
    ensures r.Ok? ==> forall i :: 0 <= i < |ctx.tas| ==>
              && r.value.tas[i] == ctx.tas[i].(min_hours := r.value.tas[i].min_hours)
              && r.value.tas[i].min_hours >= ctx.tas[i].min_hours
  {
    if |ctx.tas| == 0 then Err(ZeroDivisionError)
    else
      var floor := C.FairShare(ctx) * 0.9;
      Ok(ctx.(tas := seq(|ctx.tas|, i requires 0 <= i < |ctx.tas| =>
                           FloorRange(ctx.tas[i], floor, AvailableHoursAtPositions(ctx, i)))))
  }

  /** `apply_fairness_floor` with availability read by TA and shift id,
      as its comments describe: `min_hours` is raised to the truncated
      fair floor, never above what the TA is available for (when that is
      not negative), and never lowered. */
  function ApplyFairnessFloor(ctx: Ctx<int>): (r: Result<Ctx<int>, PyError>)
    ensures r.Err? <==> |ctx.tas| == 0
    ensures r.Err? ==> r.error == ZeroDivisionError
    ensures r.Ok? ==> r.value.shifts == ctx.shifts && r.value.prefs == ctx.prefs && |r.value.tas| == |ctx.tas|
    ensures r.Ok? ==> forall i :: 0 <= i < |ctx.tas| ==>
              && r.value.tas[i] == ctx.tas[i].(min_hours := r.value.tas[i].min_hours)
              && r.value.tas[i].min_hours >= ctx.tas[i].min_hours
              && (r.value.tas[i].min_hours == ctx.tas[i].min_hours
                  || r.value.tas[i].min_hours <= C.RMax(C.AvailableHours(ctx, ctx.tas[i].ta_id), 0.0))
  {
    if |ctx.tas| == 0 then Err(ZeroDivisionError)
    else
      var floor := C.FairShare(ctx) * 0.9;
      Ok(ctx.(tas := seq(|ctx.tas|, i requires 0 <= i < |ctx.tas| =>
                           FloorRange(ctx.tas[i], floor, C.AvailableHours(ctx, ctx.tas[i].ta_id)))))
  }

  /** Applying the corrected floor twice changes nothing. */
  lemma ApplyFairnessFloorIdempotent(ctx: Ctx<int>)
    requires |ctx.tas| > 0
    ensures ApplyFairnessFloor(ApplyFairnessFloor(ctx).value) == ApplyFairnessFloor(ctx)
  {
    var once := ApplyFairnessFloor(ctx).value;
    var floor := C.FairShare(ctx) * 0.9;
    assert C.FairShare(once) == C.FairShare(ctx);
    forall i | 0 <= i < |ctx.tas|
      ensures FloorRange(once.tas[i], floor, C.AvailableHours(once, once.tas[i].ta_id)) == once.tas[i]
    {
      C.AvailableHoursFrame(ctx, once, ctx.tas[i].ta_id);
    }
    assert ApplyFairnessFloor(once).value.tas == once.tas;
  }

  /** One TA (id 1) and one ten-hour office-hours shift (id 1) with one
      seat, which the TA prefers. */
  function OneTaOneShift(): Ctx<int> {
    Ctx([Ta(1, 1, 0.0, 20.0, false, true, [])],
        [Shift(1, "Monday 08:00", Monday, Time(8, 0), Time(18, 0), false, Staffing(1, 0, 0))],
        map[1 := map[1 := 2]])
  }

  /** With ids 1..n the matrix has no key 0, so the code as written finds
      the TA available for nothing and leaves `min_hours` at 0; with ids
      the floor is 9 (90% of the ten-hour fair share). */
  lemma FairnessFloorReadsPositions()
    ensures ApplyFairnessFloorAsWritten(OneTaOneShift()).Ok?
    ensures ApplyFairnessFloorAsWritten(OneTaOneShift()).value.tas[0].min_hours == 0.0
    ensures ApplyFairnessFloor(OneTaOneShift()).Ok?
    ensures ApplyFairnessFloor(OneTaOneShift()).value.tas[0].min_hours == 9.0
  {
    var ctx := OneTaOneShift();
    assert DurationHours(ctx.shifts[0]) == 10.0;
    assert C.TotalHoursNeeded(ctx.shifts) == 10.0 by {
      var ss := ctx.shifts;
      var xs := seq(|ss|, i requires 0 <= i < |ss| => DurationHours(ss[i]) * StaffingSum(ss[i].staffing) as real);
      assert StaffingSum(ss[0].staffing) == 1;
      assert xs == [10.0];
      assert xs[..0] == [];
      assert SumReal(xs) == SumReal(xs[..0]) + xs[0];
      assert C.TotalHoursNeeded(ss) == SumReal(xs);
    }
    assert C.FairShare(ctx) == 10.0;
    assert AvailableHoursAtPositions(ctx, 0) == 0.0 by {
      var xs := seq(|ctx.shifts|, j requires 0 <= j < |ctx.shifts| =>
                      if GetPref(ctx, 0, j) > 0 then DurationHours(ctx.shifts[j]) else 0.0);
      assert xs == [0.0];
      assert xs[..0] == [];
    }
    assert C.AvailableHours(ctx, 1) == 10.0 by {
      var f := Filter(ctx.shifts, (s: Shift<int>) => IsAvailable(ctx, 1, s.shift_id));
      assert ctx.shifts[..0] == [];
      assert f == ctx.shifts;
      var xs := seq(|f|, i requires 0 <= i < |f| => DurationHours(f[i]));
      assert xs == [10.0];
      assert xs[..0] == [];
    }
    assert Trunc(9.0) == 9;
  }
}
