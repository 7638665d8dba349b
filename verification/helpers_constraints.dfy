/** The constraint rules of src/algorithm/helpers/constraints.py: shift
    overlap, role thresholds, the per-TA checks and combined eligibility,
    the overload cap, the two-sided fairness adjustment, the experience
    penalty and companion boost, and the shift priority used when a
    schedule is reduced. The single-record checks take the record lookups
    as parameters, because src/algorithm/constraints.py runs the same
    checks over index-based lookups. */
module ConstraintHelpers {
  import opened Util
  import opened Py
  import opened AlgContext
  import H = DataAccessHelpers

  // ------------------------------------------------------------------
  // Overlap

  /** `shifts_overlap`: same day, and each starts before the other ends. */
  predicate ShiftsOverlap<Id>(a: Shift<Id>, b: Shift<Id>) {
    a.day == b.day && TimeLt(a.start, b.end) && TimeLt(b.start, a.end)
  }

  /** The minute m lies in the half-open interval [start, end). */
  predicate InSpan<Id>(s: Shift<Id>, m: int) {
    Minutes(s.start) <= m < Minutes(s.end)
  }

  /** For valid times and non-empty shifts, two shifts overlap iff they
      are on the same day and some minute lies in both half-open
      intervals. */
  lemma OverlapIsSharedMinute<Id>(a: Shift<Id>, b: Shift<Id>)
    requires ValidTime(a.start) && ValidTime(a.end) && ValidTime(b.start) && ValidTime(b.end)
    requires Minutes(a.start) < Minutes(a.end) && Minutes(b.start) < Minutes(b.end)
    ensures ShiftsOverlap(a, b) <==> a.day == b.day && exists m :: InSpan(a, m) && InSpan(b, m)
  {
    TimeLtIsMinutesLt(a.start, b.end);
    TimeLtIsMinutesLt(b.start, a.end);
    if ShiftsOverlap(a, b) {
      var m := if Minutes(a.start) < Minutes(b.start) then Minutes(b.start) else Minutes(a.start);
      assert InSpan(a, m) && InSpan(b, m);
    }
  }

  /** Overlap is symmetric, never holds across days, and back-to-back
      shifts do not overlap. */
  lemma OverlapBasics<Id>(a: Shift<Id>, b: Shift<Id>)
    ensures ShiftsOverlap(a, b) == ShiftsOverlap(b, a)
    ensures a.day != b.day ==> !ShiftsOverlap(a, b)
    ensures a.end == b.start ==> !ShiftsOverlap(a, b)
  {
  }

  // ------------------------------------------------------------------
  // Single-record checks

  /** The `min_status` table. */
  function MinStatus(role: Role): int {
    match role
    case OhTa => 1
    case LabTa => 2
    case Lead => 3
  }

  /** `has_min_status_for_role`, over a TA lookup. */
  function HasMinStatusForRole<Id>(taOf: Id -> Result<Ta<Id>, PyError>, ta: Id, role: Role): (r: Result<bool, PyError>)
    ensures r.Ok? <==> taOf(ta).Ok?
    ensures r.Err? ==> r == Err(taOf(ta).error)
    ensures r.Ok? ==> (r.value <==> taOf(ta).value.status >= MinStatus(role))
  {
    match taOf(ta)
    case Err(e) => Err(e)
    case Ok(t) => Ok(t.status >= MinStatus(role))
  }

  /** A lead-eligible status is lab-eligible, and a lab-eligible one is
      office-hours-eligible. */
  lemma RoleThresholdsChain<Id>(taOf: Id -> Result<Ta<Id>, PyError>, ta: Id)
    ensures HasMinStatusForRole(taOf, ta, Lead) == Ok(true) ==> HasMinStatusForRole(taOf, ta, LabTa) == Ok(true)
    ensures HasMinStatusForRole(taOf, ta, LabTa) == Ok(true) ==> HasMinStatusForRole(taOf, ta, OhTa) == Ok(true)
  {
  }

  /** `any(test(lookup(k)) for k in keys)`: the generator stops at the
      first hit, so a failing lookup after it is never reached. */
  function AnyOf<K, T>(lookup: K -> Result<T, PyError>, keys: seq<K>, test: T -> bool): (r: Result<bool, PyError>)
    ensures (forall i :: 0 <= i < |keys| ==> lookup(keys[i]).Ok?) ==> r.Ok?
    ensures r == Ok(false) ==> forall i :: 0 <= i < |keys| ==> lookup(keys[i]).Ok? && !test(lookup(keys[i]).value)
    ensures r == Ok(true) ==> exists i :: 0 <= i < |keys| && lookup(keys[i]).Ok? && test(lookup(keys[i]).value)
    ensures r.Err? ==> exists i :: 0 <= i < |keys| && lookup(keys[i]) == Err(r.error)
    decreases |keys|
  {
    if |keys| == 0 then Ok(false)
    else
      match lookup(keys[0])
      case Err(e) => Err(e)
      case Ok(x) =>
        if test(x) then Ok(true)
        else
          var rest := AnyOf(lookup, keys[1..], test);
          assert forall i :: 1 <= i < |keys| ==> keys[1..][i - 1] == keys[i];
          rest
  }

  /** With every lookup succeeding, `any` is an existential. */
  lemma AnyOfResolved<K, T>(lookup: K -> Result<T, PyError>, keys: seq<K>, test: T -> bool)
    requires forall i :: 0 <= i < |keys| ==> lookup(keys[i]).Ok?
    ensures AnyOf(lookup, keys, test).Ok?
    ensures AnyOf(lookup, keys, test).value <==> exists i :: 0 <= i < |keys| && test(lookup(keys[i]).value)
  {
  }

  /** `has_time_conflict`: the candidate is looked up first, then each
      held shift in order until one overlaps it. */
  function HasTimeConflict<Id(==)>(shiftOf: Id -> Result<Shift<Id>, PyError>, current: map<Id, seq<Id>>,
                                   ta: Id, shift: Id): (r: Result<bool, PyError>)
    ensures shiftOf(shift).Err? ==> r == Err(shiftOf(shift).error)
    ensures shiftOf(shift).Ok? && ta !in current ==> r == Err(KeyError)
    ensures r.Ok? ==> shiftOf(shift).Ok? && ta in current
    ensures shiftOf(shift).Ok? && ta in current && (forall i :: 0 <= i < |current[ta]| ==> shiftOf(current[ta][i]).Ok?) ==>
              r.Ok? && (r.value <==> exists i :: 0 <= i < |current[ta]|
                                      && ShiftsOverlap(shiftOf(shift).value, shiftOf(current[ta][i]).value))
  {
    match shiftOf(shift)
    case Err(e) => Err(e)
    case Ok(c) =>
      if ta !in current then Err(KeyError)
      else
        var test := (s: Shift<Id>) => ShiftsOverlap(c, s);
        if forall i :: 0 <= i < |current[ta]| ==> shiftOf(current[ta][i]).Ok? then
          AnyOfResolved(shiftOf, current[ta], test);
          AnyOf(shiftOf, current[ta], test)
        else AnyOf(shiftOf, current[ta], test)
  }

  /** `is_in_any_lab`. */
  function IsInAnyLab<Id(==)>(shiftOf: Id -> Result<Shift<Id>, PyError>, current: map<Id, seq<Id>>, ta: Id): (r: Result<bool, PyError>)
    ensures ta !in current ==> r == Err(KeyError)
    ensures ta in current && (forall i :: 0 <= i < |current[ta]| ==> shiftOf(current[ta][i]).Ok?) ==>
              r.Ok? && (r.value <==> exists i :: 0 <= i < |current[ta]| && shiftOf(current[ta][i]).value.is_lab)
  {
    if ta !in current then Err(KeyError)
    else
      var test := (s: Shift<Id>) => s.is_lab;
      if forall i :: 0 <= i < |current[ta]| ==> shiftOf(current[ta][i]).Ok? then
        AnyOfResolved(shiftOf, current[ta], test);
        AnyOf(shiftOf, current[ta], test)
      else AnyOf(shiftOf, current[ta], test)
  }

  /** `would_exceed_max_hours`: the TA, then the shift, then the TA's
      hours are read. */
  function WouldExceedMaxHours<Id(==)>(taOf: Id -> Result<Ta<Id>, PyError>, shiftOf: Id -> Result<Shift<Id>, PyError>,
                                       hours: map<Id, real>, ta: Id, shift: Id): (r: Result<bool, PyError>)
    ensures r.Ok? <==> taOf(ta).Ok? && shiftOf(shift).Ok? && ta in hours
    ensures taOf(ta).Err? ==> r == Err(taOf(ta).error)
    ensures r.Ok? ==> (r.value <==> hours[ta] + DurationHours(shiftOf(shift).value) > taOf(ta).value.max_hours)
  {
    match taOf(ta)
    case Err(e) => Err(e)
    case Ok(t) =>
      match shiftOf(shift)
      case Err(e) => Err(e)
      case Ok(s) =>
        if ta !in hours then Err(KeyError) else Ok(hours[ta] + DurationHours(s) > t.max_hours)
  }

  /** Passing the max-hours check means the assignment keeps the TA
      within `max_hours`. */
  lemma NoExceedKeepsUnderMax<Id>(taOf: Id -> Result<Ta<Id>, PyError>, shiftOf: Id -> Result<Shift<Id>, PyError>,
                                  st: Tracking<Id>, ta: Id, shift: Id)
    requires ta in st.current && WouldExceedMaxHours(taOf, shiftOf, st.hours, ta, shift) == Ok(false)
    ensures AddShift(st, ta, shift, DurationHours(shiftOf(shift).value)).hours[ta] <= taOf(ta).value.max_hours
  {
  }

  // ------------------------------------------------------------------
  // Overload cap

  /** A dictionary's key order: every key once and nothing else. */
  predicate DictOrder<Id(==)>(order: seq<Id>, hours: map<Id, real>) {
    NoDuplicates(order) && (set i | 0 <= i < |order| :: order[i]) == hours.Keys
  }

  /** The dictionary's values in key order. */
  function HoursInOrder<Id(==)>(order: seq<Id>, hours: map<Id, real>): (r: seq<real>)
    requires forall i :: 0 <= i < |order| ==> order[i] in hours
    ensures |r| == |order| && forall i :: 0 <= i < |order| ==> r[i] == hours[order[i]]
  {
    seq(|order|, i requires 0 <= i < |order| => hours[order[i]])
  }

  /** The mean of a non-empty sequence of hours. */
  function Mean(xs: seq<real>): real
    requires |xs| > 0
  {
    SumReal(xs) / |xs| as real
  }

  /** A value whose n-fold is at most a sum is at most the sum over n. */
  lemma AtMostQuotient(a: real, total: real, n: real)
    requires n > 0.0 && n * a <= total
    ensures a <= total / n
  {
    var q := total / n;
    assert n * q == total;
  }

  /** A lower bound of every term is a lower bound of the mean. */
  lemma MeanAtLeast(xs: seq<real>, c: real)
    requires |xs| > 0 && forall i :: 0 <= i < |xs| ==> xs[i] >= c
    ensures c <= Mean(xs)
  {
    SumRealAtLeast(xs, c);
    AtMostQuotient(c, SumReal(xs), |xs| as real);
  }

  /** A least term is at most the mean. */
  lemma LeastAtMostMean(xs: seq<real>)
    requires |xs| > 0
    ensures xs[MinIndex(xs)] <= Mean(xs)
  {
    MeanAtLeast(xs, xs[MinIndex(xs)]);
  }

  /** `is_overloaded`: more than one hour above the average of all TAs'
      hours. The average is taken first, so an empty dictionary raises
      ZeroDivisionError before the TA's own entry is read. */
  function IsOverloaded<Id(==)>(hours: map<Id, real>, order: seq<Id>, ta: Id): (r: Result<bool, PyError>)
    requires DictOrder(order, hours)
    ensures r.Ok? <==> |order| > 0 && ta in hours
    ensures |order| == 0 ==> r == Err(ZeroDivisionError)
    ensures r.Err? && |order| > 0 ==> r == Err(KeyError)
    ensures r.Ok? ==> (r.value <==> hours[ta] > Mean(HoursInOrder(order, hours)) + 1.0)
  {
    if |order| == 0 then Err(ZeroDivisionError)
    else
      var avg := Mean(HoursInOrder(order, hours));
      if ta !in hours then Err(KeyError) else Ok(hours[ta] > avg + 1.0)
  }

  /** Not every TA can be over the average: the overload cap never
      excludes a TA with the fewest hours. */
  lemma NotEveryoneOverloaded<Id>(hours: map<Id, real>, order: seq<Id>)
    requires DictOrder(order, hours) && |order| > 0
    ensures exists i :: 0 <= i < |order| && IsOverloaded(hours, order, order[i]) == Ok(false)
  {
    var xs := HoursInOrder(order, hours);
    var i := MinIndex(xs);
    LeastAtMostMean(xs);
    assert order[i] in hours;
    assert IsOverloaded(hours, order, order[i]) == Ok(false);
  }

  // ------------------------------------------------------------------
  // Combined eligibility

  /** The keyed lookups of src/algorithm/helpers/data_access.py as
      function values. */
  function KeyedTa<Id(==)>(ctx: Ctx<Id>): Id -> Result<Ta<Id>, PyError> {
    id => H.GetTa(ctx, id)
  }

  function KeyedShift<Id(==)>(ctx: Ctx<Id>): Id -> Result<Shift<Id>, PyError> {
    id => H.GetShift(ctx, id)
  }

  /** The checks of `get_eligible_tas_for_role` for one TA id, in the
      order they run; a check runs only when the earlier ones pass. */
  function EligibleCheck<Id(==)>(ctx: Ctx<Id>, shift: Id, role: Role, st: Tracking<Id>, order: seq<Id>, id: Id)
    : Result<bool, PyError>
    requires DictOrder(order, st.hours)
  {
    if !IsAvailable(ctx, id, shift) then Ok(false)
    else
      var over := IsOverloaded(st.hours, order, id);
      if over.Err? then Err(over.error) else if over.value then Ok(false)
      else
        var status := HasMinStatusForRole(KeyedTa(ctx), id, role);
        if status.Err? then Err(status.error) else if !status.value then Ok(false)
        else
          var exceed := WouldExceedMaxHours(KeyedTa(ctx), KeyedShift(ctx), st.hours, id, shift);
          if exceed.Err? then Err(exceed.error) else if exceed.value then Ok(false)
          else
            var conflict := HasTimeConflict(KeyedShift(ctx), st.current, id, shift);
            if conflict.Err? then Err(conflict.error) else if conflict.value then Ok(false)
            else if role == OhTa then Ok(true)
            else
              var lab := IsInAnyLab(KeyedShift(ctx), st.current, id);
              if lab.Err? then Err(lab.error) else Ok(!lab.value)
  }

  function EligibleTest<Id(==)>(ctx: Ctx<Id>, shift: Id, role: Role, st: Tracking<Id>, order: seq<Id>): Id -> Result<bool, PyError>
    requires DictOrder(order, st.hours)
  {
    id => EligibleCheck(ctx, shift, role, st, order, id)
  }

  /** `get_eligible_tas_for_role`: the ids, in `ta_metadata` order, that
      pass every check. The first check that raises ends the scan. */
  function EligibleTasForRole<Id(==)>(ctx: Ctx<Id>, shift: Id, role: Role, st: Tracking<Id>, order: seq<Id>)
    : (r: Result<seq<Id>, PyError>)
    requires DictOrder(order, st.hours)
    ensures r.Ok? <==> forall k :: 0 <= k < |ctx.tas| ==> EligibleTest(ctx, shift, role, st, order)(ctx.tas[k].ta_id).Ok?
    ensures r.Ok? ==> r.value == Filter(TaIds(ctx), OkAndTrue(EligibleTest(ctx, shift, role, st, order)))
  {
    FilterOk(TaIds(ctx), EligibleTest(ctx, shift, role, st, order))
  }

  /** Every TA has entries in both dictionaries, and every held shift id
      resolves through the lookup. */
  predicate Tracked<Id(==)>(ctx: Ctx<Id>, st: Tracking<Id>, shiftOf: Id -> Result<Shift<Id>, PyError>) {
    && (forall k :: 0 <= k < |ctx.tas| ==> ctx.tas[k].ta_id in st.current && ctx.tas[k].ta_id in st.hours)
    && (forall t, i :: t in st.current && 0 <= i < |st.current[t]| ==> shiftOf(st.current[t][i]).Ok?)
  }

  /** The held shifts of a TA that overlap the candidate, and those that
      are labs. */
  predicate HoldsOverlapping<Id(==)>(ctx: Ctx<Id>, held: seq<Id>, s: Shift<Id>)
    requires forall i :: 0 <= i < |held| ==> H.GetShift(ctx, held[i]).Ok?
  {
    exists i :: 0 <= i < |held| && ShiftsOverlap(s, H.GetShift(ctx, held[i]).value)
  }

  predicate HoldsLab<Id(==)>(ctx: Ctx<Id>, held: seq<Id>)
    requires forall i :: 0 <= i < |held| ==> H.GetShift(ctx, held[i]).Ok?
  {
    exists i :: 0 <= i < |held| && H.GetShift(ctx, held[i]).value.is_lab
  }

  /** What the combined check means for one TA of the metadata. */
  predicate MeetsRole<Id(==)>(ctx: Ctx<Id>, shift: Id, role: Role, st: Tracking<Id>, order: seq<Id>, k: nat)
    requires DictOrder(order, st.hours) && Tracked(ctx, st, KeyedShift(ctx))
    requires H.GetShift(ctx, shift).Ok? && k < |ctx.tas|
  {
    var id := ctx.tas[k].ta_id;
    var t := H.GetTa(ctx, id).value;
    var s := H.GetShift(ctx, shift).value;
    var held := st.current[id];
    assert forall i :: 0 <= i < |held| ==> KeyedShift(ctx)(held[i]).Ok?;
    && IsAvailable(ctx, id, shift)
    && st.hours[id] <= Mean(HoursInOrder(order, st.hours)) + 1.0
    && t.status >= MinStatus(role)
    && st.hours[id] + DurationHours(s) <= t.max_hours
    && !HoldsOverlapping(ctx, held, s)
    && (role != OhTa ==> !HoldsLab(ctx, held))
  }

  /** In a tracked state each individual check of a metadata TA succeeds
      with the value its meaning gives. */
  lemma ChecksResolve<Id>(ctx: Ctx<Id>, shift: Id, role: Role, st: Tracking<Id>, order: seq<Id>, k: nat)
    requires DictOrder(order, st.hours) && Tracked(ctx, st, KeyedShift(ctx))
    requires H.GetShift(ctx, shift).Ok? && k < |ctx.tas|
    ensures var id := ctx.tas[k].ta_id;
            var t := H.GetTa(ctx, id).value;
            var s := H.GetShift(ctx, shift).value;
            var held := st.current[id];
            && H.GetTa(ctx, id).Ok? && (forall i :: 0 <= i < |held| ==> H.GetShift(ctx, held[i]).Ok?)
            && IsOverloaded(st.hours, order, id) == Ok(st.hours[id] > Mean(HoursInOrder(order, st.hours)) + 1.0)
            && HasMinStatusForRole(KeyedTa(ctx), id, role) == Ok(t.status >= MinStatus(role))
            && WouldExceedMaxHours(KeyedTa(ctx), KeyedShift(ctx), st.hours, id, shift)
               == Ok(st.hours[id] + DurationHours(s) > t.max_hours)
            && HasTimeConflict(KeyedShift(ctx), st.current, id, shift) == Ok(HoldsOverlapping(ctx, held, s))
            && IsInAnyLab(KeyedShift(ctx), st.current, id) == Ok(HoldsLab(ctx, held))
  {
    var id := ctx.tas[k].ta_id;
    assert H.GetTa(ctx, id).Ok?;
    assert id in order;
    HeldResolve(ctx, st, id);
    HoursChecksResolve(ctx, shift, role, st, order, id);
    HeldChecksResolve(ctx, shift, st, id);
  }

  lemma HeldResolve<Id>(ctx: Ctx<Id>, st: Tracking<Id>, id: Id)
    requires Tracked(ctx, st, KeyedShift(ctx)) && id in st.current
    ensures forall i :: 0 <= i < |st.current[id]| ==> H.GetShift(ctx, st.current[id][i]).Ok?
  {
    var held := st.current[id];
    assert forall i :: 0 <= i < |held| ==> KeyedShift(ctx)(held[i]).Ok?;
  }

  /** The three checks that read the TA's hours and metadata. */
  lemma HoursChecksResolve<Id>(ctx: Ctx<Id>, shift: Id, role: Role, st: Tracking<Id>, order: seq<Id>, id: Id)
    requires DictOrder(order, st.hours) && Tracked(ctx, st, KeyedShift(ctx))
    requires H.GetShift(ctx, shift).Ok? && H.GetTa(ctx, id).Ok? && id in order
    ensures var t := H.GetTa(ctx, id).value;
            var s := H.GetShift(ctx, shift).value;
            && IsOverloaded(st.hours, order, id) == Ok(st.hours[id] > Mean(HoursInOrder(order, st.hours)) + 1.0)
            && HasMinStatusForRole(KeyedTa(ctx), id, role) == Ok(t.status >= MinStatus(role))
            && WouldExceedMaxHours(KeyedTa(ctx), KeyedShift(ctx), st.hours, id, shift)
               == Ok(st.hours[id] + DurationHours(s) > t.max_hours)
  {
  }

  /** The two checks that read the shifts the TA holds. */
  lemma HeldChecksResolve<Id>(ctx: Ctx<Id>, shift: Id, st: Tracking<Id>, id: Id)
    requires Tracked(ctx, st, KeyedShift(ctx)) && H.GetShift(ctx, shift).Ok? && id in st.current
    requires forall i :: 0 <= i < |st.current[id]| ==> H.GetShift(ctx, st.current[id][i]).Ok?
    ensures var s := H.GetShift(ctx, shift).value;
            var held := st.current[id];
            && HasTimeConflict(KeyedShift(ctx), st.current, id, shift) == Ok(HoldsOverlapping(ctx, held, s))
            && IsInAnyLab(KeyedShift(ctx), st.current, id) == Ok(HoldsLab(ctx, held))
  {
  }

  /** In a tracked state the combined check of a metadata TA succeeds,
      and says yes exactly when the TA meets the role. */
  lemma EligibleTestMeaning<Id>(ctx: Ctx<Id>, shift: Id, role: Role, st: Tracking<Id>, order: seq<Id>, k: nat)
    requires DictOrder(order, st.hours) && Tracked(ctx, st, KeyedShift(ctx))
    requires H.GetShift(ctx, shift).Ok? && k < |ctx.tas|
    ensures EligibleTest(ctx, shift, role, st, order)(ctx.tas[k].ta_id)
            == Ok(MeetsRole(ctx, shift, role, st, order, k))
  {
    ChecksResolve(ctx, shift, role, st, order, k);
    assert EligibleTest(ctx, shift, role, st, order)(ctx.tas[k].ta_id)
           == EligibleCheck(ctx, shift, role, st, order, ctx.tas[k].ta_id);
  }

  /** In a tracked state the scan succeeds, and a metadata TA is listed
      iff it meets the role: available, not overloaded, of sufficient
      status, within `max_hours`, free of overlapping shifts and, for the
      lab roles, in no lab yet. */
  lemma EligibleExactly<Id>(ctx: Ctx<Id>, shift: Id, role: Role, st: Tracking<Id>, order: seq<Id>, k: nat)
    requires DictOrder(order, st.hours) && Tracked(ctx, st, KeyedShift(ctx))
    requires H.GetShift(ctx, shift).Ok? && k < |ctx.tas|
    ensures EligibleTasForRole(ctx, shift, role, st, order).Ok?
    ensures ctx.tas[k].ta_id in EligibleTasForRole(ctx, shift, role, st, order).value
            <==> MeetsRole(ctx, shift, role, st, order, k)
  {
    var test := EligibleTest(ctx, shift, role, st, order);
    forall j | 0 <= j < |ctx.tas| ensures test(ctx.tas[j].ta_id).Ok? {
      EligibleTestMeaning(ctx, shift, role, st, order, j);
    }
    EligibleTestMeaning(ctx, shift, role, st, order, k);
    var ids := TaIds(ctx);
    assert ids[k] == ctx.tas[k].ta_id;
    FilterMembers(ids, OkAndTrue(test), ctx.tas[k].ta_id);
  }

  /** Every listed id passed the combined check, and the list keeps
      `ta_metadata` order. */
  lemma EligibleSound<Id>(ctx: Ctx<Id>, shift: Id, role: Role, st: Tracking<Id>, order: seq<Id>)
    requires DictOrder(order, st.hours)
    requires EligibleTasForRole(ctx, shift, role, st, order).Ok?
    ensures var r := EligibleTasForRole(ctx, shift, role, st, order).value;
            var idx := FilterIndices(TaIds(ctx), OkAndTrue(EligibleTest(ctx, shift, role, st, order)));
            && |r| == |idx|
            && (forall i :: 0 <= i < |r| ==> r[i] == ctx.tas[idx[i]].ta_id && IsAvailable(ctx, r[i], shift))
            && (forall i, j :: 0 <= i < j < |r| ==> idx[i] < idx[j])
  {
    var test := EligibleTest(ctx, shift, role, st, order);
    var r := EligibleTasForRole(ctx, shift, role, st, order).value;
    var idx := FilterIndices(TaIds(ctx), OkAndTrue(test));
    forall i | 0 <= i < |r| ensures r[i] == ctx.tas[idx[i]].ta_id && IsAvailable(ctx, r[i], shift) {
      assert OkAndTrue(test)(r[i]);
    }
  }

  // ------------------------------------------------------------------
  // Fairness

  /** Python's `max(a, b)` and `min(a, b)` on two numbers. */
  function RMax(a: real, b: real): real {
    if b > a then b else a
  }

  function RMin(a: real, b: real): real {
    if b < a then b else a
  }

  /** The person-hours all shifts need: each shift's hours times its
      total head count. */
  function TotalHoursNeeded<Id>(shifts: seq<Shift<Id>>): real {
    SumReal(seq(|shifts|, i requires 0 <= i < |shifts| => DurationHours(shifts[i]) * StaffingSum(shifts[i].staffing) as real))
  }

  function SumDurations<Id>(ss: seq<Shift<Id>>): real {
    SumReal(seq(|ss|, i requires 0 <= i < |ss| => DurationHours(ss[i])))
  }

  /** The hours of the shifts a TA has a positive preference for. */
  function AvailableHours<Id(==)>(ctx: Ctx<Id>, ta: Id): real {
    SumDurations(Filter(ctx.shifts, (s: Shift<Id>) => IsAvailable(ctx, ta, s.shift_id)))
  }

  /** With well-formed shifts, available hours are never negative. */
  lemma AvailableHoursNonNeg<Id>(ctx: Ctx<Id>, ta: Id)
    requires ValidShifts(ctx)
    ensures AvailableHours(ctx, ta) >= 0.0
  {
    var p := (s: Shift<Id>) => IsAvailable(ctx, ta, s.shift_id);
    var f := Filter(ctx.shifts, p);
    var xs := seq(|f|, i requires 0 <= i < |f| => DurationHours(f[i]));
    forall i | 0 <= i < |xs| ensures xs[i] >= 0.0 {
      var k := FilterIndices(ctx.shifts, p)[i];
      assert f[i] == ctx.shifts[k];
    }
    SumRealNonNeg(xs);
  }

  /** One TA's adjustment toward the fair share: the floor only raises
      `min_hours` and never past the TA's available hours; the ceiling
      only lowers `max_hours` and stays 1.5 hours above the new minimum.
      Nothing else in the record changes. */
  function FairRange<Id>(t: Ta<Id>, floor: real, ceil: real, avail: real): (r: Ta<Id>)
    ensures r == t.(min_hours := r.min_hours, max_hours := r.max_hours)
    ensures r.min_hours >= t.min_hours && r.max_hours <= t.max_hours
    ensures r.min_hours == t.min_hours || (r.min_hours <= floor && r.min_hours <= avail)
    ensures r.min_hours >= floor || r.min_hours >= avail
    ensures r.max_hours == t.max_hours || r.max_hours >= r.min_hours + 1.5
    ensures r.max_hours <= ceil || r.max_hours <= r.min_hours + 1.5
  {
    var newMin := RMax(t.min_hours, RMin(floor, avail));
    var newMax := RMin(t.max_hours, RMax(ceil, newMin + 1.5));
    t.(min_hours := newMin, max_hours := newMax)
  }

  /** Adjusting an adjusted record changes nothing. */
  lemma FairRangeIdempotent<Id>(t: Ta<Id>, floor: real, ceil: real, avail: real)
    ensures FairRange(FairRange(t, floor, ceil, avail), floor, ceil, avail) == FairRange(t, floor, ceil, avail)
  {
  }

  /** The ceiling cannot go above the TA's own `max_hours`, so a raised
      floor can end above the ceiling. */
  lemma FairRangeCanInvert()
    ensures var t := Ta(1, 1, 0.0, 2.0, false, true, []);
            var r := FairRange(t, 9.0, 11.0, 10.0);
            r.min_hours == 9.0 && r.max_hours == 2.0
  {
  }

  /** The fair share of person-hours per TA. */
  function FairShare<Id>(ctx: Ctx<Id>): real
    requires |ctx.tas| > 0
  {
    TotalHoursNeeded(ctx.shifts) / |ctx.tas| as real
  }

  /** `apply_fairness` with its default thresholds 0.9 and 1.1: every
      TA's range is narrowed toward the fair share. No TAs means a
      division by zero. */
  function ApplyFairness<Id(==)>(ctx: Ctx<Id>): (r: Result<Ctx<Id>, PyError>)
    ensures r.Err? <==> |ctx.tas| == 0
    ensures r.Err? ==> r.error == ZeroDivisionError
    ensures r.Ok? ==> r.value.shifts == ctx.shifts && r.value.prefs == ctx.prefs && |r.value.tas| == |ctx.tas|
    ensures r.Ok? ==> forall i :: 0 <= i < |ctx.tas| ==>
              && r.value.tas[i] == ctx.tas[i].(min_hours := r.value.tas[i].min_hours, max_hours := r.value.tas[i].max_hours)
              && r.value.tas[i].min_hours >= ctx.tas[i].min_hours
              && r.value.tas[i].max_hours <= ctx.tas[i].max_hours
              && (r.value.tas[i].min_hours == ctx.tas[i].min_hours
                  || r.value.tas[i].min_hours <= AvailableHours(ctx, ctx.tas[i].ta_id))
              && (r.value.tas[i].max_hours == ctx.tas[i].max_hours
                  || r.value.tas[i].max_hours >= r.value.tas[i].min_hours + 1.5)
  {
    if |ctx.tas| == 0 then Err(ZeroDivisionError)
    else
      var fair := FairShare(ctx);
      var floor, ceil := fair * 0.9, fair * 1.1;
      Ok(ctx.(tas := seq(|ctx.tas|, i requires 0 <= i < |ctx.tas| =>
                           FairRange(ctx.tas[i], floor, ceil, AvailableHours(ctx, ctx.tas[i].ta_id)))))
  }

  /** Available hours depend only on the shifts and the preferences. */
  lemma AvailableHoursFrame<Id>(a: Ctx<Id>, b: Ctx<Id>, ta: Id)
    requires a.shifts == b.shifts && a.prefs == b.prefs
    ensures AvailableHours(a, ta) == AvailableHours(b, ta)
  {
    FilterCongruent(a.shifts, (s: Shift<Id>) => IsAvailable(a, ta, s.shift_id),
                    (s: Shift<Id>) => IsAvailable(b, ta, s.shift_id));
  }

  /** Applying the fairness adjustment a second time changes nothing: the
      fair share and every TA's available hours are the same, and each
      range is already adjusted. */
  lemma ApplyFairnessIdempotent<Id>(ctx: Ctx<Id>)
    requires |ctx.tas| > 0
    ensures ApplyFairness(ApplyFairness(ctx).value) == ApplyFairness(ctx)
  {
    var once := ApplyFairness(ctx).value;
    var fair := FairShare(ctx);
    assert FairShare(once) == fair;
    forall i | 0 <= i < |ctx.tas|
      ensures FairRange(once.tas[i], fair * 0.9, fair * 1.1, AvailableHours(once, once.tas[i].ta_id)) == once.tas[i]
    {
      AvailableHoursFrame(ctx, once, ctx.tas[i].ta_id);
      FairRangeIdempotent(ctx.tas[i], fair * 0.9, fair * 1.1, AvailableHours(ctx, ctx.tas[i].ta_id));
    }
    assert ApplyFairness(once).value.tas == once.tas;
  }

  // ------------------------------------------------------------------
  // Penalty and boost

  /** `experience_penalty`: 1 when the TA is inexperienced and someone
      inexperienced is already on the shift, else 0. An experienced TA
      never reads the schedule. */
  function ExperiencePenalty<Id(==)>(ctx: Ctx<Id>, ta: Id, shift: Id, schedule: map<Id, Assignment<Id>>)
    : (r: Result<int, PyError>)
    ensures r.Ok? ==> r.value == 0 || r.value == 1
    ensures H.GetTa(ctx, ta).Ok? && H.GetTa(ctx, ta).value.experienced ==> r == Ok(0)
    ensures r == Ok(1) ==> && H.GetTa(ctx, ta).Ok? && !H.GetTa(ctx, ta).value.experienced && shift in schedule
                           && exists i :: 0 <= i < |AllOnShift(schedule[shift])|
                                && H.GetTa(ctx, AllOnShift(schedule[shift])[i]).Ok?
                                && !H.GetTa(ctx, AllOnShift(schedule[shift])[i]).value.experienced
    ensures H.GetTa(ctx, ta).Ok? && !H.GetTa(ctx, ta).value.experienced && shift in schedule
            && (forall i :: 0 <= i < |AllOnShift(schedule[shift])| ==> H.GetTa(ctx, AllOnShift(schedule[shift])[i]).Ok?)
            ==> r.Ok? && (r.value == 1 <==> exists i :: 0 <= i < |AllOnShift(schedule[shift])|
                                             && !H.GetTa(ctx, AllOnShift(schedule[shift])[i]).value.experienced)
  {
    match H.GetTa(ctx, ta)
    case Err(e) => Err(e)
    case Ok(t) =>
      if t.experienced then Ok(0)
      else if shift !in schedule then Err(KeyError)
      else
        var on := AllOnShift(schedule[shift]);
        InexperiencedAmong(ctx, on);
        match AnyOf(KeyedTa(ctx), on, Inexperienced)
        case Err(e) => Err(e)
        case Ok(b) => Ok(if b then 1 else 0)
  }

  predicate Inexperienced<Id>(u: Ta<Id>) {
    !u.experienced
  }

  /** The scan for an inexperienced TA among the ones on a shift. */
  lemma InexperiencedAmong<Id>(ctx: Ctx<Id>, on: seq<Id>)
    ensures AnyOf(KeyedTa(ctx), on, Inexperienced) == Ok(true) ==>
              exists i :: 0 <= i < |on| && H.GetTa(ctx, on[i]).Ok? && !H.GetTa(ctx, on[i]).value.experienced
    ensures (forall i :: 0 <= i < |on| ==> H.GetTa(ctx, on[i]).Ok?) ==>
              AnyOf(KeyedTa(ctx), on, Inexperienced).Ok?
              && (AnyOf(KeyedTa(ctx), on, Inexperienced).value <==>
                  exists i :: 0 <= i < |on| && !H.GetTa(ctx, on[i]).value.experienced)
  {
    if forall i :: 0 <= i < |on| ==> H.GetTa(ctx, on[i]).Ok? {
      AnyOfResolved(KeyedTa(ctx), on, Inexperienced);
    }
  }

  /** The number of entries of xs that occur in ys. */
  function CountIn<T(==)>(xs: seq<T>, ys: seq<T>): (r: nat)
    ensures r <= |xs|
    ensures r == 0 <==> forall i :: 0 <= i < |xs| ==> xs[i] !in ys
    ensures r == |xs| <==> forall i :: 0 <= i < |xs| ==> xs[i] in ys
    decreases |xs|
  {
    if |xs| == 0 then 0
    else
      var init := xs[..|xs| - 1];
      assert forall i :: 0 <= i < |init| ==> init[i] == xs[i];
      CountIn(init, ys) + (if xs[|xs| - 1] in ys then 1 else 0)
  }

  /** `companion_boost`: how many of the TA's companions are already on
      the shift. A TA without companions never reads the schedule. */
  function CompanionBoost<Id(==)>(ctx: Ctx<Id>, ta: Id, shift: Id, schedule: map<Id, Assignment<Id>>)
    : (r: Result<nat, PyError>)
    ensures r.Ok? <==> H.GetTa(ctx, ta).Ok? && (|H.GetTa(ctx, ta).value.companions| == 0 || shift in schedule)
    ensures r.Ok? ==> r.value <= |H.GetTa(ctx, ta).value.companions|
    ensures r.Ok? ==> (r.value == 0 <==> forall i :: 0 <= i < |H.GetTa(ctx, ta).value.companions| ==>
                                            H.GetTa(ctx, ta).value.companions[i] !in AllOnShift(schedule[shift]))
    ensures r.Ok? && shift in schedule ==>
              (r.value == |H.GetTa(ctx, ta).value.companions|
               <==> forall i :: 0 <= i < |H.GetTa(ctx, ta).value.companions| ==>
                      H.GetTa(ctx, ta).value.companions[i] in AllOnShift(schedule[shift]))
  {
    match H.GetTa(ctx, ta)
    case Err(e) => Err(e)
    case Ok(t) =>
      if |t.companions| == 0 then Ok(0)
      else if shift !in schedule then Err(KeyError)
      else Ok(CountIn(t.companions, AllOnShift(schedule[shift])))
  }

  // ------------------------------------------------------------------
  // Shift priority

  /** `DAY_PRIORITY`: midweek 3, Monday and Friday 2, the weekend 1. */
  function DayPriority(d: Day): int {
    match d
    case Tuesday => 3
    case Wednesday => 3
    case Thursday => 3
    case Monday => 2
    case Friday => 2
    case Saturday => 1
    case Sunday => 1
  }

  /** `time_priority`: evening starts (17:00 on) 3, afternoon (12:00 on)
      2, morning 1. */
  function TimePriority(t: Time): (r: int)
    ensures 1 <= r <= 3
    ensures r == 3 <==> t.hour >= 17
    ensures r == 1 <==> t.hour < 12
  {
    if t.hour >= 17 then 3 else if t.hour >= 12 then 2 else 1
  }

  /** A later start hour never lowers the time priority. */
  lemma TimePriorityMonotone(a: Time, b: Time)
    requires a.hour <= b.hour
    ensures TimePriority(a) <= TimePriority(b)
  {
  }

  /** The priority of a shift record: day score, time score, and 2 for a
      lab. */
  function RecordPriority<Id>(s: Shift<Id>): (r: int)
    ensures 2 <= r <= 8
    ensures s.is_lab ==> r >= 4
    ensures !s.is_lab ==> r <= 6
  {
    DayPriority(s.day) + TimePriority(s.start) + (if s.is_lab then 2 else 0)
  }

  /** A lab outranks an office-hours shift on the same day at the same
      start by exactly the lab bonus. */
  lemma LabBonus<Id>(a: Shift<Id>, b: Shift<Id>)
    requires a.day == b.day && a.start.hour == b.start.hour && a.is_lab && !b.is_lab
    ensures RecordPriority(a) == RecordPriority(b) + 2
  {
  }

  /** `shift_priority`, over the keyed shift lookup. */
  function ShiftPriority<Id(==)>(ctx: Ctx<Id>, shift: Id): (r: Result<int, PyError>)
    ensures r.Ok? <==> H.GetShift(ctx, shift).Ok?
    ensures r.Err? ==> r.error == KeyError
    ensures r.Ok? ==> 2 <= r.value <= 8 && r.value == RecordPriority(H.GetShift(ctx, shift).value)
  {
    match H.GetShift(ctx, shift)
    case Err(e) => Err(e)
    case Ok(s) => Ok(RecordPriority(s))
  }
}
