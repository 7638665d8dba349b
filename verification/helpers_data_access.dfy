/** The keyed lookups and assignment helpers of
    src/algorithm/helpers/data_access.py. TA and shift records are found
    through dictionaries built from the metadata lists, so a duplicated id
    resolves to its last record and a missing one raises KeyError. */
module DataAccessHelpers {
  import opened Util
  import opened Py
  import opened AlgContext

  /** `get_ta`. */
  function GetTa<Id(==)>(ctx: Ctx<Id>, id: Id): (r: Result<Ta<Id>, PyError>)
    ensures r.Err? <==> forall k :: 0 <= k < |ctx.tas| ==> ctx.tas[k].ta_id != id
    ensures r.Err? ==> r.error == KeyError
    ensures r.Ok? ==> r.value.ta_id == id && r.value in ctx.tas
    ensures r.Ok? ==> exists k :: 0 <= k < |ctx.tas| && ctx.tas[k] == r.value
                                  && forall j :: k < j < |ctx.tas| ==> ctx.tas[j].ta_id != id
  {
    match LastWhere(ctx.tas, (t: Ta<Id>) => t.ta_id == id)
    case None => Err(KeyError)
    case Some(k) => Ok(ctx.tas[k])
  }

  /** `get_shift`. */
  function GetShift<Id(==)>(ctx: Ctx<Id>, id: Id): (r: Result<Shift<Id>, PyError>)
    ensures r.Err? <==> forall k :: 0 <= k < |ctx.shifts| ==> ctx.shifts[k].shift_id != id
    ensures r.Err? ==> r.error == KeyError
    ensures r.Ok? ==> r.value.shift_id == id && r.value in ctx.shifts
    ensures r.Ok? ==> exists k :: 0 <= k < |ctx.shifts| && ctx.shifts[k] == r.value
                                  && forall j :: k < j < |ctx.shifts| ==> ctx.shifts[j].shift_id != id
  {
    match LastWhere(ctx.shifts, (s: Shift<Id>) => s.shift_id == id)
    case None => Err(KeyError)
    case Some(k) => Ok(ctx.shifts[k])
  }

  /** With distinct ids, the lookup finds the one record with that id. */
  lemma LookupsFindOwnRecord<Id>(ctx: Ctx<Id>, k: nat)
    requires DistinctIds(ctx)
    ensures k < |ctx.tas| ==> GetTa(ctx, ctx.tas[k].ta_id) == Ok(ctx.tas[k])
    ensures k < |ctx.shifts| ==> GetShift(ctx, ctx.shifts[k].shift_id) == Ok(ctx.shifts[k])
  {
    if k < |ctx.tas| {
      var r := GetTa(ctx, ctx.tas[k].ta_id);
      var j :| 0 <= j < |ctx.tas| && ctx.tas[j] == r.value
               && forall m :: j < m < |ctx.tas| ==> ctx.tas[m].ta_id != ctx.tas[k].ta_id;
      assert j == k;
    }
    if k < |ctx.shifts| {
      var r := GetShift(ctx, ctx.shifts[k].shift_id);
      var j :| 0 <= j < |ctx.shifts| && ctx.shifts[j] == r.value
               && forall m :: j < m < |ctx.shifts| ==> ctx.shifts[m].shift_id != ctx.shifts[k].shift_id;
      assert j == k;
    }
  }

  /** The status test a role filter applies to the record `get_ta` finds. */
  function StatusAtLeast<Id(==)>(ctx: Ctx<Id>, n: int): Id -> bool {
    id => GetTa(ctx, id).Ok? && GetTa(ctx, id).value.status >= n
  }

  lemma RoleFilterSound<Id>(ctx: Ctx<Id>, shift: Id, n: int)
    ensures var r := Filter(AvailableTas(ctx, shift), StatusAtLeast(ctx, n));
            forall i :: 0 <= i < |r| ==>
              IsAvailable(ctx, r[i], shift) && GetTa(ctx, r[i]).Ok? && GetTa(ctx, r[i]).value.status >= n
  {
    var avail := AvailableTas(ctx, shift);
    var p := StatusAtLeast(ctx, n);
    var r := Filter(avail, p);
    forall i | 0 <= i < |r|
      ensures IsAvailable(ctx, r[i], shift) && GetTa(ctx, r[i]).Ok? && GetTa(ctx, r[i]).value.status >= n
    {
      var k := FilterIndices(avail, p)[i];
      assert r[i] == avail[k] && p(r[i]);
    }
  }

  /** `get_eligible_leads`: available TAs with status at least 2. */
  function EligibleLeads<Id(==)>(ctx: Ctx<Id>, shift: Id): (r: seq<Id>)
    ensures forall i :: 0 <= i < |r| ==> IsAvailable(ctx, r[i], shift) && GetTa(ctx, r[i]).Ok? && GetTa(ctx, r[i]).value.status >= 2
  {
    RoleFilterSound(ctx, shift, 2);
    Filter(AvailableTas(ctx, shift), StatusAtLeast(ctx, 2))
  }

  /** `get_eligible_lab_tas`: available TAs with status at least 1. */
  function EligibleLabTas<Id(==)>(ctx: Ctx<Id>, shift: Id): (r: seq<Id>)
    ensures forall i :: 0 <= i < |r| ==> IsAvailable(ctx, r[i], shift) && GetTa(ctx, r[i]).Ok? && GetTa(ctx, r[i]).value.status >= 1
  {
    RoleFilterSound(ctx, shift, 1);
    Filter(AvailableTas(ctx, shift), StatusAtLeast(ctx, 1))
  }

  /** Both role filters keep exactly the available TAs whose record meets
      the threshold, and every eligible lead is an eligible lab TA. */
  lemma EligibleMembers<Id>(ctx: Ctx<Id>, shift: Id, id: Id)
    ensures id in EligibleLeads(ctx, shift) <==> id in AvailableTas(ctx, shift) && GetTa(ctx, id).Ok? && GetTa(ctx, id).value.status >= 2
    ensures id in EligibleLabTas(ctx, shift) <==> id in AvailableTas(ctx, shift) && GetTa(ctx, id).Ok? && GetTa(ctx, id).value.status >= 1
    ensures id in EligibleLeads(ctx, shift) ==> id in EligibleLabTas(ctx, shift)
  {
    FilterMembers(AvailableTas(ctx, shift), StatusAtLeast(ctx, 2), id);
    FilterMembers(AvailableTas(ctx, shift), StatusAtLeast(ctx, 1), id);
  }

  /** `assign_ta`: appends the shift to the TA's list and adds its
      duration to the TA's hours. A TA missing from either dictionary, or
      an unknown shift, raises KeyError (the dictionaries are read before
      the shift is looked up). */
  function AssignTa<Id(==)>(ctx: Ctx<Id>, st: Tracking<Id>, ta: Id, shift: Id): (r: Result<Tracking<Id>, PyError>)
    ensures r.Ok? <==> ta in st.current && ta in st.hours && GetShift(ctx, shift).Ok?
    ensures r.Err? ==> r.error == KeyError
    ensures r.Ok? ==> r.value == AddShift(st, ta, shift, DurationHours(GetShift(ctx, shift).value))
  {
    if ta !in st.current || ta !in st.hours then Err(KeyError)
    else
      match GetShift(ctx, shift)
      case Err(e) => Err(e)
      case Ok(s) => Ok(AddShift(st, ta, shift, DurationHours(s)))
  }

  /** `remove_ta`: `list.remove` drops the first occurrence of the shift
      (ValueError when the TA does not hold it) and the duration is
      subtracted. */
  function RemoveTa<Id(==)>(ctx: Ctx<Id>, st: Tracking<Id>, ta: Id, shift: Id): (r: Result<Tracking<Id>, PyError>)
    ensures r.Ok? <==> ta in st.current && shift in st.current[ta] && ta in st.hours && GetShift(ctx, shift).Ok?
    ensures ta in st.current && shift !in st.current[ta] ==> r == Err(ValueError)
    ensures r.Ok? ==> r.value == DropShift(st, ta, shift, DurationHours(GetShift(ctx, shift).value))
  {
    if ta !in st.current then Err(KeyError)
    else if shift !in st.current[ta] then Err(ValueError)
    else if ta !in st.hours then Err(KeyError)
    else
      match GetShift(ctx, shift)
      case Err(e) => Err(e)
      case Ok(s) => Ok(DropShift(st, ta, shift, DurationHours(s)))
  }

  /** Assigning then removing the same pair restores the hours and the
      multiset of the TA's shifts; the other TAs are untouched. */
  lemma AssignThenRemove<Id>(ctx: Ctx<Id>, st: Tracking<Id>, ta: Id, shift: Id)
    requires AssignTa(ctx, st, ta, shift).Ok?
    ensures var mid := AssignTa(ctx, st, ta, shift).value;
            && RemoveTa(ctx, mid, ta, shift).Ok?
            && var back := RemoveTa(ctx, mid, ta, shift).value;
               && back.hours == st.hours
               && multiset(back.current[ta]) == multiset(st.current[ta])
               && (forall k :: k in st.current && k != ta ==> back.current[k] == st.current[k])
               && (shift !in st.current[ta] ==> back == st)
  {
    AddThenDrop(st, ta, shift, DurationHours(GetShift(ctx, shift).value));
  }
}
