/** The index-based lookups and assignment helpers of
    src/algorithm/data_access.py. Ids are integers and a record is fetched
    as `metadata[id - 1]`, with Python's list indexing: an id past the end
    raises IndexError, and id 0 or a negative id silently wraps to the end
    of the list. */
module DataAccess {
  import opened Util
  import opened Py
  import opened AlgContext
  import H = DataAccessHelpers

  /** `get_ta`. */
  function GetTa(ctx: Ctx<int>, id: int): (r: Result<Ta<int>, PyError>)
    ensures r.Ok? <==> -|ctx.tas| < id <= |ctx.tas|
    ensures r.Err? ==> r.error == IndexError
    ensures 1 <= id <= |ctx.tas| ==> r == Ok(ctx.tas[id - 1])
  {
    match PyIndex(ctx.tas, id - 1)
    case None => Err(IndexError)
    case Some(t) => Ok(t)
  }

  /** `get_shift`. */
  function GetShift(ctx: Ctx<int>, id: int): (r: Result<Shift<int>, PyError>)
    ensures r.Ok? <==> -|ctx.shifts| < id <= |ctx.shifts|
    ensures r.Err? ==> r.error == IndexError
    ensures 1 <= id <= |ctx.shifts| ==> r == Ok(ctx.shifts[id - 1])
  {
    match PyIndex(ctx.shifts, id - 1)
    case None => Err(IndexError)
    case Some(s) => Ok(s)
  }

  /** Id 0 does not fail: it fetches the last record. */
  lemma ZeroIdWraps(ctx: Ctx<int>)
    requires |ctx.tas| > 0 && |ctx.shifts| > 0
    ensures GetTa(ctx, 0) == Ok(ctx.tas[|ctx.tas| - 1])
    ensures GetShift(ctx, 0) == Ok(ctx.shifts[|ctx.shifts| - 1])
  {
  }

  /** When ids are 1..n in list order, the positional lookup finds the
      record with the requested id, the same one the keyed lookup finds;
      otherwise a lookup can return a record with a different id. */
  lemma PositionalAgreesWhenWellIndexed(ctx: Ctx<int>, id: int)
    requires WellIndexed(ctx)
    ensures 1 <= id <= |ctx.tas| ==>
              GetTa(ctx, id).Ok? && GetTa(ctx, id).value.ta_id == id && GetTa(ctx, id) == H.GetTa(ctx, id)
    ensures 1 <= id <= |ctx.shifts| ==>
              GetShift(ctx, id).Ok? && GetShift(ctx, id).value.shift_id == id
              && GetShift(ctx, id) == H.GetShift(ctx, id)
  {
    WellIndexedDistinct(ctx);
    if 1 <= id <= |ctx.tas| {
      H.LookupsFindOwnRecord(ctx, id - 1);
    }
    if 1 <= id <= |ctx.shifts| {
      H.LookupsFindOwnRecord(ctx, id - 1);
    }
  }

  lemma PositionalWrongRecord(t1: Ta<int>, t2: Ta<int>)
    requires t1.ta_id == 2 && t2.ta_id == 1
    ensures GetTa(Ctx([t1, t2], [], map[]), 1) == Ok(t1)
    ensures GetTa(Ctx([t1, t2], [], map[]), 1).value.ta_id != 1
  {
  }

  /** The status test of a role filter, on the record `get_ta` fetches;
      the fetch itself can raise. */
  function StatusTest(ctx: Ctx<int>, exact: bool, n: int): int -> Result<bool, PyError> {
    id => match GetTa(ctx, id)
          case Err(e) => Err(e)
          case Ok(t) => Ok(if exact then t.status == n else t.status >= n)
  }

  /** `get_eligible_leads`: available TAs whose status is exactly 3. */
  function EligibleLeads(ctx: Ctx<int>, shift: int): (r: Result<seq<int>, PyError>)
    ensures r.Ok? <==> forall i :: 0 <= i < |AvailableTas(ctx, shift)| ==>
                         -|ctx.tas| < AvailableTas(ctx, shift)[i] <= |ctx.tas|
    ensures r.Ok? ==> r.value == Filter(AvailableTas(ctx, shift), OkAndTrue(StatusTest(ctx, true, 3)))
  {
    FilterOk(AvailableTas(ctx, shift), StatusTest(ctx, true, 3))
  }

  /** `get_eligible_lab_tas`: available TAs whose status is at least 2. */
  function EligibleLabTas(ctx: Ctx<int>, shift: int): (r: Result<seq<int>, PyError>)
    ensures r.Ok? <==> forall i :: 0 <= i < |AvailableTas(ctx, shift)| ==>
                         -|ctx.tas| < AvailableTas(ctx, shift)[i] <= |ctx.tas|
    ensures r.Ok? ==> r.value == Filter(AvailableTas(ctx, shift), OkAndTrue(StatusTest(ctx, false, 2)))
  {
    FilterOk(AvailableTas(ctx, shift), StatusTest(ctx, false, 2))
  }

  /** In a well-indexed context both filters succeed, and they keep
      exactly the available TAs with status 3 (leads) and at least 2 (lab
      TAs); so every lead is a lab TA. */
  lemma EligibleWhenWellIndexed(ctx: Ctx<int>, shift: int, k: nat)
    requires WellIndexed(ctx) && k < |ctx.tas|
    ensures EligibleLeads(ctx, shift).Ok? && EligibleLabTas(ctx, shift).Ok?
    ensures k + 1 in EligibleLeads(ctx, shift).value
            <==> IsAvailable(ctx, k + 1, shift) && ctx.tas[k].status == 3
    ensures k + 1 in EligibleLabTas(ctx, shift).value
            <==> IsAvailable(ctx, k + 1, shift) && ctx.tas[k].status >= 2
  {
    var avail := AvailableTas(ctx, shift);
    AvailableIdsInRange(ctx, shift);
    var id := k + 1;
    assert ctx.tas[k].ta_id == id;
    assert GetTa(ctx, id) == Ok(ctx.tas[k]);
    AvailableTasMembers(ctx, shift, k);
    FilterMembers(avail, OkAndTrue(StatusTest(ctx, true, 3)), id);
    FilterMembers(avail, OkAndTrue(StatusTest(ctx, false, 2)), id);
  }

  /** In a well-indexed context every available id is a valid position. */
  lemma AvailableIdsInRange(ctx: Ctx<int>, shift: int)
    requires WellIndexed(ctx)
    ensures forall i :: 0 <= i < |AvailableTas(ctx, shift)| ==> 1 <= AvailableTas(ctx, shift)[i] <= |ctx.tas|
  {
    var avail := AvailableTas(ctx, shift);
    var idx := FilterIndices(ctx.tas, (t: Ta<int>) => IsAvailable(ctx, t.ta_id, shift));
    forall i | 0 <= i < |avail| ensures 1 <= avail[i] <= |ctx.tas| {
      assert avail[i] == ctx.tas[idx[i]].ta_id;
    }
  }

  /** The two copies of the lead filter disagree: a TA with status 2 is a
      lead for the keyed helper and not for the positional one. */
  lemma LeadThresholdsDisagree(ctx: Ctx<int>, shift: int, k: nat)
    requires WellIndexed(ctx) && k < |ctx.tas|
    requires IsAvailable(ctx, k + 1, shift) && ctx.tas[k].status == 2
    ensures k + 1 in H.EligibleLeads(ctx, shift)
    ensures EligibleLeads(ctx, shift).Ok? && k + 1 !in EligibleLeads(ctx, shift).value
    ensures EligibleLabTas(ctx, shift).Ok? && k + 1 in EligibleLabTas(ctx, shift).value
  {
    EligibleWhenWellIndexed(ctx, shift, k);
    KeyedLeadOfStatus(ctx, shift, k);
  }

  /** The keyed filter keeps an available TA of status at least 2. */
  lemma KeyedLeadOfStatus(ctx: Ctx<int>, shift: int, k: nat)
    requires WellIndexed(ctx) && k < |ctx.tas|
    requires IsAvailable(ctx, k + 1, shift) && ctx.tas[k].status >= 2
    ensures k + 1 in H.EligibleLeads(ctx, shift)
  {
    assert ctx.tas[k].ta_id == k + 1;
    AvailableTasMembers(ctx, shift, k);
    PositionalAgreesWhenWellIndexed(ctx, k + 1);
    H.EligibleMembers(ctx, shift, k + 1);
  }

  /** `assign_ta`, with the positional shift lookup. */
  function AssignTa(ctx: Ctx<int>, st: Tracking<int>, ta: int, shift: int): (r: Result<Tracking<int>, PyError>)
    ensures r.Ok? <==> ta in st.current && ta in st.hours && GetShift(ctx, shift).Ok?
    ensures r.Ok? ==> r.value == AddShift(st, ta, shift, DurationHours(GetShift(ctx, shift).value))
  {
    if ta !in st.current || ta !in st.hours then Err(KeyError)
    else
      match GetShift(ctx, shift)
      case Err(e) => Err(e)
      case Ok(s) => Ok(AddShift(st, ta, shift, DurationHours(s)))
  }

  /** `remove_ta`, with the positional shift lookup. */
  function RemoveTa(ctx: Ctx<int>, st: Tracking<int>, ta: int, shift: int): (r: Result<Tracking<int>, PyError>)
    ensures r.Ok? <==> ta in st.current && shift in st.current[ta] && ta in st.hours && GetShift(ctx, shift).Ok?
    ensures ta in st.current && shift !in st.current[ta] ==> r == Err(ValueError)
    ensures r.Ok? ==> r.value == DropShift(st, ta, shift, DurationHours(GetShift(ctx, shift).value))
  {
    if ta !in st.current then Err(KeyError)
    else if shift !in st.current[ta] then Err(ValueError)
    else if ta !in st.hours then Err(KeyError)
    else
      match GetShift(ctx, shift)
      case Err(e) => Err(e)
      case Ok(s) => Ok(DropShift(st, ta, shift, DurationHours(s)))
  }

  /** Assigning then removing the same pair restores the hours and the
      multiset of the TA's shifts. */
  lemma AssignThenRemove(ctx: Ctx<int>, st: Tracking<int>, ta: int, shift: int)
    requires AssignTa(ctx, st, ta, shift).Ok?
    ensures var mid := AssignTa(ctx, st, ta, shift).value;
            && RemoveTa(ctx, mid, ta, shift).Ok?
            && var back := RemoveTa(ctx, mid, ta, shift).value;
               && back.hours == st.hours
               && multiset(back.current[ta]) == multiset(st.current[ta])
               && (shift !in st.current[ta] ==> back == st)
  {
    AddThenDrop(st, ta, shift, DurationHours(GetShift(ctx, shift).value));
  }
}
