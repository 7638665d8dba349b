/** The greedy initial schedule of src/algorithm/greedy.py: lab shifts
    first, then office hours; within a shift the most constrained role
    first; within a role the best-scoring eligible TAs. */
module Greedy {
  import opened Util
  import opened Py
  import opened AlgContext
  import opened Sorting
  import D = DataAccess
  import C = ConstraintHelpers
  import K = Constraints

  /** The three dictionaries `greedy_assign` builds and returns. The
      `error` text beside `unschedulable` is not modelled. */
  datatype State = State(schedule: map<int, Assignment<int>>, st: Tracking<int>)

  function Empty(): Assignment<int> {
    Assignment([], [], [], false)
  }

  function ShiftIdSet(ctx: Ctx<int>): set<int> {
    set k | 0 <= k < |ctx.shifts| :: ctx.shifts[k].shift_id
  }

  function TaIdSet(ctx: Ctx<int>): set<int> {
    set k | 0 <= k < |ctx.tas| :: ctx.tas[k].ta_id
  }

  /** The map is keyed by the ids 1..n. */
  predicate KeyedOneTo<V>(m: map<int, V>, n: nat) {
    && (forall t :: t in m ==> 1 <= t <= n)
    && (forall t :: 1 <= t <= n ==> t in m)
  }

  /** When ids are 1..n in list order, the id sets are the ranges 1..n. */
  lemma IdSets(ctx: Ctx<int>)
    requires WellIndexed(ctx)
    ensures forall t :: t in TaIdSet(ctx) <==> 1 <= t <= |ctx.tas|
    ensures forall s :: s in ShiftIdSet(ctx) <==> 1 <= s <= |ctx.shifts|
  {
    forall t | 1 <= t <= |ctx.tas| ensures t in TaIdSet(ctx) {
      assert ctx.tas[t - 1].ta_id == t;
    }
    forall s | 1 <= s <= |ctx.shifts| ensures s in ShiftIdSet(ctx) {
      assert ctx.shifts[s - 1].shift_id == s;
    }
  }

  /** The starting state: an empty entry per shift, no shifts and zero
      hours per TA. */
  function Init(ctx: Ctx<int>): (g: State)
    ensures g.schedule.Keys == ShiftIdSet(ctx)
    ensures g.st.current.Keys == TaIdSet(ctx) && g.st.hours.Keys == TaIdSet(ctx)
  {
    State(map id | id in ShiftIdSet(ctx) :: Empty(),
          Tracking(map id | id in TaIdSet(ctx) :: [], map id | id in TaIdSet(ctx) :: 0.0))
  }

  // ------------------------------------------------------------------
  // Ranking

  /** How far below `min_hours` the TA is, as a fraction of it (zero for a
      zero or negative minimum). */
  function BalanceBoost(min: real, hours: real): (b: real)
    ensures b >= 0.0
    ensures b > 0.0 <==> min > 0.0 && hours < min
    ensures hours >= 0.0 ==> b <= 1.0
  {
    var below := C.RMax(0.0, min - hours);
    if min > 0.0 then below / min else 0.0
  }

  /** `candidate_score`: the preference plus the balance boost. The TA
      record is fetched first, so a bad id raises IndexError; a TA missing
      from the hours dictionary raises KeyError. */
  function CandidateScore(ctx: Ctx<int>, st: Tracking<int>, id: int, shift: int): (r: Result<real, PyError>)
    ensures r.Ok? <==> D.GetTa(ctx, id).Ok? && id in st.hours
    ensures r.Ok? ==> r.value == GetPref(ctx, id, shift) as real + BalanceBoost(D.GetTa(ctx, id).value.min_hours, st.hours[id])
  {
    match D.GetTa(ctx, id)
    case Err(e) => Err(e)
    case Ok(t) =>
      if id !in st.hours then Err(KeyError)
      else Ok(GetPref(ctx, id, shift) as real + BalanceBoost(t.min_hours, st.hours[id]))
  }

  /** Among TAs with the same preference, one below its minimum ranks
      above one at or over it, and how far below decides among those. */
  lemma BelowMinRanksHigher(ctx: Ctx<int>, st: Tracking<int>, a: int, b: int, shift: int)
    requires CandidateScore(ctx, st, a, shift).Ok? && CandidateScore(ctx, st, b, shift).Ok?
    requires GetPref(ctx, a, shift) == GetPref(ctx, b, shift)
    requires var ta := D.GetTa(ctx, a).value; ta.min_hours > 0.0 && st.hours[a] < ta.min_hours
    requires var tb := D.GetTa(ctx, b).value; st.hours[b] >= tb.min_hours
    ensures CandidateScore(ctx, st, a, shift).value > CandidateScore(ctx, st, b, shift).value
  {
  }

  function ScoreKey(ctx: Ctx<int>, st: Tracking<int>, shift: int): int -> real {
    id => var r := CandidateScore(ctx, st, id, shift); if r.Ok? then r.value else 0.0
  }

  function ScoreOf(ctx: Ctx<int>, st: Tracking<int>, shift: int): int -> Result<real, PyError> {
    id => CandidateScore(ctx, st, id, shift)
  }

  /** The TAs `fill_role` picks: the eligible ones ranked by score,
      highest first and ties in metadata order, cut to `num_needed`. */
  function Selection(ctx: Ctx<int>, st: Tracking<int>, shift: int, role: Role, n: int): (r: Result<seq<int>, PyError>)
    ensures r.Ok? ==> K.EligibleTasForRole(ctx, shift, role, st).Ok?
    ensures r.Ok? ==> var elig := K.EligibleTasForRole(ctx, shift, role, st).value;
                      && multiset(r.value) <= multiset(elig)
                      && (|r.value| < n <==> |elig| < n)
                      && (n >= 0 ==> |r.value| == if n <= |elig| then n else |elig|)
  {
    match K.EligibleTasForRole(ctx, shift, role, st)
    case Err(e) => Err(e)
    case Ok(elig) =>
      match AllOk(elig, ScoreOf(ctx, st, shift))
      case Err(e) => Err(e)
      case Ok(_) =>
        var ranked := SortDesc(elig, ScoreKey(ctx, st, shift));
        var sel := SliceTo(ranked, n);
        SliceOfRanking(elig, ScoreKey(ctx, st, shift), n);
        Ok(sel)
  }

  /** Every picked TA scores at least as much as every eligible TA left
      out. */
  lemma SelectionTop(ctx: Ctx<int>, st: Tracking<int>, shift: int, role: Role, n: int)
    requires Selection(ctx, st, shift, role, n).Ok?
    ensures var sel := Selection(ctx, st, shift, role, n).value;
            var elig := K.EligibleTasForRole(ctx, shift, role, st).value;
            forall i, j :: 0 <= i < |sel| && 0 <= j < |elig| && elig[j] !in sel ==>
              CandidateScore(ctx, st, sel[i], shift).Ok? && CandidateScore(ctx, st, elig[j], shift).Ok?
              && CandidateScore(ctx, st, sel[i], shift).value >= CandidateScore(ctx, st, elig[j], shift).value
  {
    var elig := K.EligibleTasForRole(ctx, shift, role, st).value;
    assert Selection(ctx, st, shift, role, n).value == SliceTo(SortDesc(elig, ScoreKey(ctx, st, shift)), n);
    RankedTop(ctx, st, shift, elig, n);
  }

  lemma RankedTop(ctx: Ctx<int>, st: Tracking<int>, shift: int, elig: seq<int>, n: int)
    requires AllOk(elig, ScoreOf(ctx, st, shift)).Ok?
    ensures var sel := SliceTo(SortDesc(elig, ScoreKey(ctx, st, shift)), n);
            forall i, j :: 0 <= i < |sel| && 0 <= j < |elig| && elig[j] !in sel ==>
              CandidateScore(ctx, st, sel[i], shift).Ok? && CandidateScore(ctx, st, elig[j], shift).Ok?
              && CandidateScore(ctx, st, sel[i], shift).value >= CandidateScore(ctx, st, elig[j], shift).value
  {
    var key := ScoreKey(ctx, st, shift);
    var sel := SliceTo(SortDesc(elig, key), n);
    forall i, j | 0 <= i < |sel| && 0 <= j < |elig| && elig[j] !in sel
      ensures CandidateScore(ctx, st, sel[i], shift).Ok? && CandidateScore(ctx, st, elig[j], shift).Ok?
              && CandidateScore(ctx, st, sel[i], shift).value >= CandidateScore(ctx, st, elig[j], shift).value
    {
      assert sel[i] in multiset(elig);
      var k :| 0 <= k < |elig| && elig[k] == sel[i];
      var a, b := CandidateScore(ctx, st, sel[i], shift), CandidateScore(ctx, st, elig[j], shift);
      assert a.Ok? && b.Ok? by {
        assert ScoreOf(ctx, st, shift)(elig[k]).Ok? && ScoreOf(ctx, st, shift)(elig[j]).Ok?;
      }
      TopOfRankingPair(elig, key, n, i, j);
      assert key(sel[i]) == a.value && key(elig[j]) == b.value;
    }
  }

  // ------------------------------------------------------------------
  // Filling

  /** The role list `role + "s"` with `ids` appended. */
  function AppendRole(a: Assignment<int>, role: Role, ids: seq<int>): (r: Assignment<int>)
    ensures r.unschedulable == a.unschedulable
  {
    match role
    case Lead => a.(leads := a.leads + ids)
    case LabTa => a.(lab_tas := a.lab_tas + ids)
    case OhTa => a.(oh_tas := a.oh_tas + ids)
  }

  /** The loop of `fill_role`: each picked TA is appended to the role list
      and given the shift through `assign_ta`. */
  function AssignAll(ctx: Ctx<int>, g: State, shift: int, role: Role, ids: seq<int>): (r: Result<State, PyError>)
    requires shift in g.schedule
    ensures r.Ok? ==> r.value.schedule == g.schedule[shift := AppendRole(g.schedule[shift], role, ids)]
    ensures r.Ok? ==> Grown(g.st, r.value.st, ids)
    decreases |ids|
  {
    if |ids| == 0 then
      assert AppendRole(g.schedule[shift], role, ids) == g.schedule[shift];
      Ok(g)
    else
      var a := AppendRole(g.schedule[shift], role, [ids[0]]);
      var g1 := g.(schedule := g.schedule[shift := a]);
      match D.AssignTa(ctx, g1.st, ids[0], shift)
      case Err(e) => Err(e)
      case Ok(st) =>
        AppendRoleSplit(g.schedule[shift], role, ids);
        var r := AssignAll(ctx, g1.(st := st), shift, role, ids[1..]);
        if r.Err? then r
        else
          GrownStep(g.st, st, r.value.st, ids);
          r
  }

  /** Only the TAs in `ids` changed entries between the two states, the
      keys are the same, and every held list only grew. */
  predicate Grown(st0: Tracking<int>, st2: Tracking<int>, ids: seq<int>) {
    && st2.current.Keys == st0.current.Keys && st2.hours.Keys == st0.hours.Keys
    && (forall t :: t in st0.current && t !in ids ==> st2.current[t] == st0.current[t])
    && (forall t :: t in st0.hours && t !in ids ==> st2.hours[t] == st0.hours[t])
    && (forall t :: t in st0.current ==> st0.current[t] <= st2.current[t])
  }

  lemma GrownStep(st0: Tracking<int>, st1: Tracking<int>, st2: Tracking<int>, ids: seq<int>)
    requires |ids| > 0 && exists sid, d :: ids[0] in st0.current && ids[0] in st0.hours && st1 == AddShift(st0, ids[0], sid, d)
    requires Grown(st1, st2, ids[1..])
    ensures Grown(st0, st2, ids)
  {
    assert forall t :: t in ids <==> t == ids[0] || t in ids[1..] by {
      assert ids == [ids[0]] + ids[1..];
    }
  }

  /** Appending the first id and then the rest appends them all. */
  lemma AppendRoleSplit(a: Assignment<int>, role: Role, ids: seq<int>)
    requires |ids| > 0
    ensures AppendRole(AppendRole(a, role, [ids[0]]), role, ids[1..]) == AppendRole(a, role, ids)
    ensures forall t :: t in ids <==> t == ids[0] || t in ids[1..]
  {
    assert ids == [ids[0]] + ids[1..];
    match role
    case Lead => assert a.leads + [ids[0]] + ids[1..] == a.leads + ids;
    case LabTa => assert a.lab_tas + [ids[0]] + ids[1..] == a.lab_tas + ids;
    case OhTa => assert a.oh_tas + [ids[0]] + ids[1..] == a.oh_tas + ids;
  }

  /** `fill_role`: the picked TAs are added, and the shift is marked
      unschedulable when fewer were found than needed; the mark is never
      cleared. */
  function FillRole(ctx: Ctx<int>, g: State, shift: int, role: Role, n: int): (r: Result<State, PyError>)
    requires shift in g.schedule
    ensures r.Ok? ==> Selection(ctx, g.st, shift, role, n).Ok?
    ensures r.Ok? ==> r.value.schedule.Keys == g.schedule.Keys
    ensures r.Ok? ==> forall k :: k in g.schedule && k != shift ==> r.value.schedule[k] == g.schedule[k]
    ensures r.Ok? ==> var sel := Selection(ctx, g.st, shift, role, n).value;
                      r.value.schedule[shift] == AppendRole(g.schedule[shift], role, sel)
                                                 .(unschedulable := g.schedule[shift].unschedulable || |sel| < n)
    ensures r.Ok? ==> r.value.st.current.Keys == g.st.current.Keys && r.value.st.hours.Keys == g.st.hours.Keys
    ensures r.Ok? ==> forall t :: t in g.st.current ==> g.st.current[t] <= r.value.st.current[t]
  {
    match Selection(ctx, g.st, shift, role, n)
    case Err(e) => Err(e)
    case Ok(sel) =>
      match AssignAll(ctx, g, shift, role, sel)
      case Err(e) => Err(e)
      case Ok(g2) =>
        Ok(MarkShort(g2, shift, |sel| < n))
  }

  /** Sets `unschedulable` on the shift's entry when `short` holds. */
  function MarkShort(g: State, shift: int, short: bool): (r: State)
    requires shift in g.schedule
    ensures r.st == g.st
    ensures r.schedule == g.schedule[shift := g.schedule[shift].(unschedulable := g.schedule[shift].unschedulable || short)]
  {
    if short then g.(schedule := g.schedule[shift := g.schedule[shift].(unschedulable := true)]) else g
  }

  /** One iteration of the main loop: a lab fills leads (`staffing[2]`)
      then lab TAs (`staffing[1]`); any other shift fills office-hours TAs
      (`staffing[0]`). */
  function FillShift(ctx: Ctx<int>, g: State, s: Shift<int>): (r: Result<State, PyError>)
    requires s.shift_id in g.schedule
    ensures r.Ok? ==> r.value.schedule.Keys == g.schedule.Keys
    ensures r.Ok? ==> forall k :: k in g.schedule && k != s.shift_id ==> r.value.schedule[k] == g.schedule[k]
    ensures r.Ok? ==> r.value.st.current.Keys == g.st.current.Keys && r.value.st.hours.Keys == g.st.hours.Keys
    ensures r.Ok? ==> forall t :: t in g.st.current ==> g.st.current[t] <= r.value.st.current[t]
  {
    if s.is_lab then
      match FillRole(ctx, g, s.shift_id, Lead, s.staffing.leads)
      case Err(e) => Err(e)
      case Ok(g1) => FillRole(ctx, g1, s.shift_id, LabTa, s.staffing.lab)
    else FillRole(ctx, g, s.shift_id, OhTa, s.staffing.oh)
  }

  /** The shifts of one kind, in list order. */
  function OfKind(shifts: seq<Shift<int>>, lab: bool): seq<Shift<int>> {
    if |shifts| == 0 then []
    else (if shifts[0].is_lab == lab then [shifts[0]] else []) + OfKind(shifts[1..], lab)
  }

  lemma {:induction false} OfKindParts(shifts: seq<Shift<int>>)
    ensures multiset(OfKind(shifts, true)) + multiset(OfKind(shifts, false)) == multiset(shifts)
  {
    if |shifts| > 0 {
      var h, t := shifts[0], shifts[1..];
      OfKindParts(t);
      var labs, others := OfKind(t, true), OfKind(t, false);
      assert shifts == [h] + t;
      assert multiset(shifts) == multiset{h} + multiset(t);
      if h.is_lab {
        assert OfKind(shifts, true) == [h] + labs && OfKind(shifts, false) == others;
        assert multiset([h] + labs) == multiset{h} + multiset(labs);
      } else {
        assert OfKind(shifts, true) == labs && OfKind(shifts, false) == [h] + others;
        assert multiset([h] + others) == multiset{h} + multiset(others);
      }
    }
  }

  lemma {:induction false} OfKindAll(shifts: seq<Shift<int>>, lab: bool)
    ensures forall i :: 0 <= i < |OfKind(shifts, lab)| ==> OfKind(shifts, lab)[i].is_lab == lab
  {
    if |shifts| > 0 {
      OfKindAll(shifts[1..], lab);
      var head: seq<Shift<int>> := if shifts[0].is_lab == lab then [shifts[0]] else [];
      var r := OfKind(shifts, lab);
      assert r == head + OfKind(shifts[1..], lab);
      forall i | 0 <= i < |r| ensures r[i].is_lab == lab {
        if i >= |head| {
          assert r[i] == OfKind(shifts[1..], lab)[i - |head|];
        }
      }
    }
  }

  /** `sorted(shifts, key=lambda s: not s["is_lab"])`: a stable sort on a
      boolean key puts the labs first and the rest after, each group in
      list order. */
  function LabFirst(shifts: seq<Shift<int>>): (r: seq<Shift<int>>)
    ensures multiset(r) == multiset(shifts)
    ensures forall i, j :: 0 <= i < j < |r| && r[j].is_lab ==> r[i].is_lab
  {
    var labs := OfKind(shifts, true);
    var rest := OfKind(shifts, false);
    OfKindParts(shifts);
    OfKindAll(shifts, true);
    OfKindAll(shifts, false);
    labs + rest
  }

  /** The main loop over the ordered shifts. */
  function FillAll(ctx: Ctx<int>, g: State, shifts: seq<Shift<int>>): (r: Result<State, PyError>)
    requires forall i :: 0 <= i < |shifts| ==> shifts[i].shift_id in g.schedule
    ensures r.Ok? ==> r.value.schedule.Keys == g.schedule.Keys
    decreases |shifts|
  {
    if |shifts| == 0 then Ok(g)
    else
      match FillShift(ctx, g, shifts[0])
      case Err(e) => Err(e)
      case Ok(g1) => FillAll(ctx, g1, shifts[1..])
  }

  /** `greedy_assign`. */
  function GreedyAssign(ctx: Ctx<int>): (r: Result<State, PyError>)
    ensures r.Ok? ==> r.value.schedule.Keys == ShiftIdSet(ctx)
  {
    var order := LabFirst(ctx.shifts);
    assert forall i :: 0 <= i < |order| ==> order[i].shift_id in ShiftIdSet(ctx) by {
      forall i | 0 <= i < |order| ensures order[i].shift_id in ShiftIdSet(ctx) {
        assert order[i] in multiset(ctx.shifts);
        var k :| 0 <= k < |ctx.shifts| && ctx.shifts[k] == order[i];
      }
    }
    FillAll(ctx, Init(ctx), order)
  }

  // ------------------------------------------------------------------
  // What the fill maintains

  /** Every held shift id is a valid list position. */
  predicate HeldValid(ctx: Ctx<int>, held: seq<int>) {
    forall i :: 0 <= i < |held| ==> 1 <= held[i] <= |ctx.shifts|
  }

  /** The hours of the held shifts. */
  function HeldHours(ctx: Ctx<int>, held: seq<int>): real
    requires HeldValid(ctx, held)
  {
    SumReal(seq(|held|, i requires 0 <= i < |held| => DurationHours(ctx.shifts[held[i] - 1])))
  }

  predicate NoOverlapHeld(ctx: Ctx<int>, held: seq<int>)
    requires HeldValid(ctx, held)
  {
    forall i, j :: 0 <= i < j < |held| ==> !C.ShiftsOverlap(ctx.shifts[held[i] - 1], ctx.shifts[held[j] - 1])
  }

  predicate OneLabHeld(ctx: Ctx<int>, held: seq<int>)
    requires HeldValid(ctx, held)
  {
    forall i, j :: 0 <= i < j < |held| ==> !(ctx.shifts[held[i] - 1].is_lab && ctx.shifts[held[j] - 1].is_lab)
  }

  /** The TA at position k holds no two overlapping shifts and at most one
      lab, its hours are the sum of its shifts' durations, and once it
      holds a shift they are within its `max_hours`. */
  predicate TaOk(ctx: Ctx<int>, st: Tracking<int>, k: nat)
    requires k < |ctx.tas|
  {
    var id := k + 1;
    && id in st.current && id in st.hours
    && HeldValid(ctx, st.current[id])
    && NoOverlapHeld(ctx, st.current[id])
    && OneLabHeld(ctx, st.current[id])
    && st.hours[id] == HeldHours(ctx, st.current[id])
    && (|st.current[id]| > 0 ==> st.hours[id] <= ctx.tas[k].max_hours)
  }

  /** Everyone listed on a shift holds it. */
  predicate ListedHold(g: State) {
    forall sid, t :: sid in g.schedule && t in AllOnShift(g.schedule[sid]) ==> t in g.st.current && sid in g.st.current[t]
  }

  predicate Inv(ctx: Ctx<int>, g: State) {
    && WellIndexed(ctx)
    && KeyedOneTo(g.schedule, |ctx.shifts|)
    && KeyedOneTo(g.st.current, |ctx.tas|) && KeyedOneTo(g.st.hours, |ctx.tas|)
    && (forall k :: 0 <= k < |ctx.tas| ==> TaOk(ctx, g.st, k))
    && ListedHold(g)
  }

  /** The starting state satisfies the invariant. */
  lemma InitInv(ctx: Ctx<int>)
    requires WellIndexed(ctx)
    ensures Inv(ctx, Init(ctx))
  {
    var g := Init(ctx);
    IdSets(ctx);
    forall k | 0 <= k < |ctx.tas| ensures TaOk(ctx, g.st, k) {
      assert k + 1 in TaIdSet(ctx);
      assert g.st.current[k + 1] == [] && g.st.hours[k + 1] == 0.0;
    }
    forall sid | sid in g.schedule ensures AllOnShift(g.schedule[sid]) == [] {
      assert g.schedule[sid] == Empty();
    }
  }

  /** In an invariant state the eligibility checks apply. */
  lemma InvFillable(ctx: Ctx<int>, g: State, sid: int)
    requires Inv(ctx, g) && 1 <= sid <= |ctx.shifts|
    ensures K.Fillable(ctx, g.st, sid)
  {
    forall k | 0 <= k < |ctx.tas| ensures ctx.tas[k].ta_id in g.st.current && ctx.tas[k].ta_id in g.st.hours {
      assert ctx.tas[k].ta_id == k + 1;
    }
    forall t, i | t in g.st.current && 0 <= i < |g.st.current[t]|
      ensures K.PositionalShift(ctx)(g.st.current[t][i]).Ok?
    {
      assert TaOk(ctx, g.st, t - 1);
    }
  }

  /** Giving the TA at position k a shift it is eligible for keeps its
      invariant. */
  lemma AddKeeps(ctx: Ctx<int>, st: Tracking<int>, id: int, sid: int, role: Role)
    requires 1 <= id <= |ctx.tas| && TaOk(ctx, st, id - 1)
    requires K.Fillable(ctx, st, sid) && K.MeetsRole(ctx, sid, role, st, id - 1)
    requires ctx.shifts[sid - 1].is_lab ==> role != OhTa
    ensures TaOk(ctx, AddShift(st, id, sid, DurationHours(ctx.shifts[sid - 1])), id - 1)
  {
    var k := id - 1;
    assert ctx.tas[k].ta_id == id;
    var s := ctx.shifts[sid - 1];
    var held := st.current[id];
    var st2 := AddShift(st, id, sid, DurationHours(s));
    assert st2.current[id] == held + [sid];
    forall i | 0 <= i < |held| ensures D.GetShift(ctx, held[i]).value == ctx.shifts[held[i] - 1] {
    }
    forall i | 0 <= i < |held| ensures !C.ShiftsOverlap(ctx.shifts[held[i] - 1], s) {
      assert !C.ShiftsOverlap(s, D.GetShift(ctx, held[i]).value);
      C.OverlapBasics(s, ctx.shifts[held[i] - 1]);
    }
    NoOverlapSnoc(ctx, held, sid);
    assert s.is_lab ==> !K.HoldsLab(ctx, held);
    OneLabSnoc(ctx, held, sid);
    HeldHoursSnoc(ctx, held, sid);
  }

  lemma NoOverlapSnoc(ctx: Ctx<int>, held: seq<int>, sid: int)
    requires HeldValid(ctx, held) && 1 <= sid <= |ctx.shifts| && NoOverlapHeld(ctx, held)
    requires forall i :: 0 <= i < |held| ==> !C.ShiftsOverlap(ctx.shifts[held[i] - 1], ctx.shifts[sid - 1])
    ensures HeldValid(ctx, held + [sid]) && NoOverlapHeld(ctx, held + [sid])
  {
    var h2 := held + [sid];
    forall i, j | 0 <= i < j < |h2| ensures !C.ShiftsOverlap(ctx.shifts[h2[i] - 1], ctx.shifts[h2[j] - 1]) {
      assert h2[i] == held[i];
      if j < |held| {
        assert h2[j] == held[j];
      }
    }
  }

  lemma OneLabSnoc(ctx: Ctx<int>, held: seq<int>, sid: int)
    requires HeldValid(ctx, held) && 1 <= sid <= |ctx.shifts| && OneLabHeld(ctx, held)
    requires ctx.shifts[sid - 1].is_lab ==> forall i :: 0 <= i < |held| ==> !ctx.shifts[held[i] - 1].is_lab
    ensures HeldValid(ctx, held + [sid]) && OneLabHeld(ctx, held + [sid])
  {
    var h2 := held + [sid];
    forall i, j | 0 <= i < j < |h2| ensures !(ctx.shifts[h2[i] - 1].is_lab && ctx.shifts[h2[j] - 1].is_lab) {
      assert h2[i] == held[i];
      if j < |held| {
        assert h2[j] == held[j];
      }
    }
  }

  lemma HeldHoursSnoc(ctx: Ctx<int>, held: seq<int>, sid: int)
    requires HeldValid(ctx, held) && 1 <= sid <= |ctx.shifts|
    ensures HeldValid(ctx, held + [sid])
    ensures HeldHours(ctx, held + [sid]) == HeldHours(ctx, held) + DurationHours(ctx.shifts[sid - 1])
  {
    var h2 := held + [sid];
    var xs := seq(|held|, i requires 0 <= i < |held| => DurationHours(ctx.shifts[held[i] - 1]));
    var ys := seq(|h2|, i requires 0 <= i < |h2| => DurationHours(ctx.shifts[h2[i] - 1]));
    assert ys[..|ys| - 1] == xs;
  }

  /** One pass of the `fill_role` loop when `assign_ta` succeeds. */
  function Step(ctx: Ctx<int>, g: State, sid: int, role: Role, x: int): State
    requires sid in g.schedule && x in g.st.current && x in g.st.hours && 1 <= sid <= |ctx.shifts|
  {
    State(g.schedule[sid := AppendRole(g.schedule[sid], role, [x])],
          AddShift(g.st, x, sid, DurationHours(ctx.shifts[sid - 1])))
  }

  lemma AssignAllUnfold(ctx: Ctx<int>, g: State, sid: int, role: Role, ids: seq<int>)
    requires Inv(ctx, g) && 1 <= sid <= |ctx.shifts| && |ids| > 0 && 1 <= ids[0] <= |ctx.tas|
    ensures sid in g.schedule && ids[0] in g.st.current && ids[0] in g.st.hours
    ensures AssignAll(ctx, g, sid, role, ids) == AssignAll(ctx, Step(ctx, g, sid, role, ids[0]), sid, role, ids[1..])
  {
    assert D.GetShift(ctx, sid) == Ok(ctx.shifts[sid - 1]);
  }

  /** The eligibility of a TA depends only on its own entries. */
  lemma MeetsRoleFrame(ctx: Ctx<int>, st1: Tracking<int>, st2: Tracking<int>, sid: int, role: Role, k: nat)
    requires K.Fillable(ctx, st1, sid) && K.Fillable(ctx, st2, sid) && k < |ctx.tas|
    requires var id := ctx.tas[k].ta_id; st1.current[id] == st2.current[id] && st1.hours[id] == st2.hours[id]
    ensures K.MeetsRole(ctx, sid, role, st1, k) == K.MeetsRole(ctx, sid, role, st2, k)
  {
  }

  /** One step keeps the invariant, gives x the shift and leaves every
      other TA alone. */
  lemma StepKeeps(ctx: Ctx<int>, g: State, sid: int, role: Role, x: int)
    requires Inv(ctx, g) && 1 <= sid <= |ctx.shifts| && 1 <= x <= |ctx.tas|
    requires K.Fillable(ctx, g.st, sid) && K.MeetsRole(ctx, sid, role, g.st, x - 1)
    requires ctx.shifts[sid - 1].is_lab ==> role != OhTa
    ensures sid in g.schedule && x in g.st.current && x in g.st.hours
    ensures var g2 := Step(ctx, g, sid, role, x);
            && Inv(ctx, g2)
            && g2.st.current[x] == g.st.current[x] + [sid]
            && (forall t :: t in g.st.current && t != x ==> g2.st.current[t] == g.st.current[t])
            && (forall t :: t in g.st.hours && t != x ==> g2.st.hours[t] == g.st.hours[t])
  {
    InvMembers(ctx, g, sid, x);
    var g2 := Step(ctx, g, sid, role, x);
    AddKeeps(ctx, g.st, x, sid, role);
    OthersTaOk(ctx, g.st, x, sid, DurationHours(ctx.shifts[sid - 1]));
    StepListed(ctx, g, sid, role, x);
    InvOfParts(ctx, g, g2);
  }

  /** Shift and TA ids in range have entries in an invariant state. */
  lemma InvMembers(ctx: Ctx<int>, g: State, sid: int, x: int)
    requires Inv(ctx, g) && 1 <= sid <= |ctx.shifts| && 1 <= x <= |ctx.tas|
    ensures sid in g.schedule && x in g.st.current && x in g.st.hours
  {
  }

  /** The invariant of a state with the same keys as an invariant one,
      from its per-TA and listing parts. */
  lemma InvOfParts(ctx: Ctx<int>, g: State, g2: State)
    requires Inv(ctx, g)
    requires g2.schedule.Keys == g.schedule.Keys
    requires g2.st.current.Keys == g.st.current.Keys && g2.st.hours.Keys == g.st.hours.Keys
    requires forall k :: 0 <= k < |ctx.tas| ==> TaOk(ctx, g2.st, k)
    requires ListedHold(g2)
    ensures Inv(ctx, g2)
  {
  }

  /** Changing one TA's entries keeps everyone else's invariant. */
  lemma OthersTaOk(ctx: Ctx<int>, st1: Tracking<int>, x: int, sid: int, d: real)
    requires 1 <= x <= |ctx.tas| && x in st1.current && x in st1.hours
    requires forall k :: 0 <= k < |ctx.tas| ==> TaOk(ctx, st1, k)
    requires TaOk(ctx, AddShift(st1, x, sid, d), x - 1)
    ensures forall k :: 0 <= k < |ctx.tas| ==> TaOk(ctx, AddShift(st1, x, sid, d), k)
  {
    var st2 := AddShift(st1, x, sid, d);
    forall k | 0 <= k < |ctx.tas| ensures TaOk(ctx, st2, k) {
      if k != x - 1 {
        assert TaOk(ctx, st1, k);
        TaOkFrame(ctx, st1, st2, k);
      }
    }
  }

  /** A TA's invariant depends only on its own entries. */
  lemma TaOkFrame(ctx: Ctx<int>, st1: Tracking<int>, st2: Tracking<int>, k: nat)
    requires k < |ctx.tas| && TaOk(ctx, st1, k)
    requires k + 1 in st2.current && k + 1 in st2.hours
    requires st2.current[k + 1] == st1.current[k + 1] && st2.hours[k + 1] == st1.hours[k + 1]
    ensures TaOk(ctx, st2, k)
  {
  }

  lemma StepListed(ctx: Ctx<int>, g: State, sid: int, role: Role, x: int)
    requires Inv(ctx, g) && 1 <= sid <= |ctx.shifts| && 1 <= x <= |ctx.tas|
    ensures sid in g.schedule && x in g.st.current && x in g.st.hours
    ensures ListedHold(Step(ctx, g, sid, role, x))
  {
    var g2 := Step(ctx, g, sid, role, x);
    var a := g.schedule[sid];
    AppendRoleMembers(a, role, [x]);
    forall q, t | q in g2.schedule && t in AllOnShift(g2.schedule[q])
      ensures t in g2.st.current && q in g2.st.current[t]
    {
      if q == sid && t == x {
        assert g2.st.current[x] == g.st.current[x] + [sid];
      } else {
        assert t in g.st.current && q in g.st.current[t];
        assert g.st.current[t] <= g2.st.current[t];
      }
    }
  }

  /** Appending to a role list adds exactly the appended ids to the
      people on the shift. */
  lemma AppendRoleMembers(a: Assignment<int>, role: Role, ids: seq<int>)
    ensures forall t :: t in AllOnShift(AppendRole(a, role, ids)) <==> t in AllOnShift(a) || t in ids
    ensures multiset(AllOnShift(AppendRole(a, role, ids))) == multiset(AllOnShift(a)) + multiset(ids)
  {
    var b := AppendRole(a, role, ids);
    assert multiset(AllOnShift(b)) == multiset(AllOnShift(a)) + multiset(ids);
    forall t ensures t in AllOnShift(b) <==> t in AllOnShift(a) || t in ids {
      assert t in AllOnShift(b) <==> t in multiset(AllOnShift(b));
    }
  }

  /** Each of `ids` has had the shift appended to its list. */
  predicate GotShift(before: map<int, seq<int>>, after: map<int, seq<int>>, sid: int, ids: seq<int>) {
    forall i :: 0 <= i < |ids| ==> ids[i] in before && ids[i] in after && after[ids[i]] == before[ids[i]] + [sid]
  }

  /** Distinct TAs, each eligible for the role on the shift. */
  predicate AllEligible(ctx: Ctx<int>, st: Tracking<int>, sid: int, role: Role, ids: seq<int>)
    requires K.Fillable(ctx, st, sid)
  {
    && NoDuplicates(ids)
    && forall i :: 0 <= i < |ids| ==> 1 <= ids[i] <= |ctx.tas| && K.MeetsRole(ctx, sid, role, st, ids[i] - 1)
  }

  /** The `fill_role` loop over distinct eligible TAs succeeds, keeps the
      invariant and gives each of them the shift. */
  lemma {:induction false} AssignAllKeeps(ctx: Ctx<int>, g: State, sid: int, role: Role, ids: seq<int>)
    requires Inv(ctx, g) && 1 <= sid <= |ctx.shifts|
    requires ctx.shifts[sid - 1].is_lab ==> role != OhTa
    requires K.Fillable(ctx, g.st, sid) && AllEligible(ctx, g.st, sid, role, ids)
    ensures sid in g.schedule
    ensures AssignAll(ctx, g, sid, role, ids).Ok?
    ensures Inv(ctx, AssignAll(ctx, g, sid, role, ids).value)
    ensures GotShift(g.st.current, AssignAll(ctx, g, sid, role, ids).value.st.current, sid, ids)
    decreases |ids|
  {
    if |ids| > 0 {
      var x := ids[0];
      StepKeeps(ctx, g, sid, role, x);
      AssignAllUnfold(ctx, g, sid, role, ids);
      var g2 := Step(ctx, g, sid, role, x);
      InvFillable(ctx, g2, sid);
      StillEligible(ctx, g.st, g2.st, sid, role, ids);
      AssignAllKeeps(ctx, g2, sid, role, ids[1..]);
      var r := AssignAll(ctx, g2, sid, role, ids[1..]).value;
      assert g.st.current.Keys == g2.st.current.Keys == r.st.current.Keys;
      HoldersAfter(g.st.current, g2.st.current, r.st.current, sid, ids);
    }
  }

  /** The TAs still to be assigned are as eligible as before: only the
      first one's entries changed. */
  lemma StillEligible(ctx: Ctx<int>, st1: Tracking<int>, st2: Tracking<int>, sid: int, role: Role, ids: seq<int>)
    requires K.Fillable(ctx, st1, sid) && K.Fillable(ctx, st2, sid) && |ids| > 0 && AllEligible(ctx, st1, sid, role, ids)
    requires forall t :: t in st1.current && t != ids[0] ==> t in st2.current && st2.current[t] == st1.current[t]
    requires forall t :: t in st1.hours && t != ids[0] ==> t in st2.hours && st2.hours[t] == st1.hours[t]
    ensures AllEligible(ctx, st2, sid, role, ids[1..])
  {
    var rest := ids[1..];
    forall i | 0 <= i < |rest| ensures 1 <= rest[i] <= |ctx.tas| && K.MeetsRole(ctx, sid, role, st2, rest[i] - 1) {
      assert rest[i] == ids[i + 1] && ids[i + 1] != ids[0];
      assert ctx.tas[rest[i] - 1].ta_id == rest[i];
      MeetsRoleFrame(ctx, st1, st2, sid, role, rest[i] - 1);
    }
  }

  /** Bookkeeping for AssignAllKeeps: the first TA got the shift in the
      step, the others in the rest of the loop. */
  lemma HoldersAfter(c0: map<int, seq<int>>, c1: map<int, seq<int>>, c2: map<int, seq<int>>, sid: int, ids: seq<int>)
    requires c0.Keys == c1.Keys == c2.Keys
    requires |ids| > 0 && NoDuplicates(ids) && (forall i :: 0 <= i < |ids| ==> ids[i] in c0)
    requires c1[ids[0]] == c0[ids[0]] + [sid]
    requires forall t :: t in c0 && t != ids[0] ==> c1[t] == c0[t]
    requires forall t :: t in c1 && t !in ids[1..] ==> c2[t] == c1[t]
    requires GotShift(c1, c2, sid, ids[1..])
    ensures GotShift(c0, c2, sid, ids)
  {
    forall j | 0 <= j < |ids[1..]| ensures ids[1..][j] != ids[0] {
      assert ids[1..][j] == ids[j + 1];
    }
    forall i | 0 <= i < |ids| ensures ids[i] in c0 && ids[i] in c2 && c2[ids[i]] == c0[ids[i]] + [sid] {
      if i > 0 {
        assert ids[i] == ids[1..][i - 1] && ids[i] != ids[0];
        assert c2[ids[i]] == c1[ids[i]] + [sid];
        assert c1[ids[i]] == c0[ids[i]];
      } else {
        var x := ids[0];
        assert x in c1;
        assert x !in ids[1..];
        assert x in c1 && x !in ids[1..] ==> c2[x] == c1[x];
        assert c2[x] == c1[x];
      }
    }
  }

  /** In a state the checks apply to, the picks are distinct eligible
      TAs. */
  lemma SelectionEligible(ctx: Ctx<int>, st: Tracking<int>, sid: int, role: Role, n: int)
    requires K.Fillable(ctx, st, sid)
    ensures Selection(ctx, st, sid, role, n).Ok?
    ensures AllEligible(ctx, st, sid, role, Selection(ctx, st, sid, role, n).value)
  {
    SelectionOk(ctx, st, sid, role, n);
    var elig := K.EligibleTasForRole(ctx, sid, role, st).value;
    var sel := Selection(ctx, st, sid, role, n).value;
    K.EligibleListed(ctx, sid, role, st);
    NoDuplicatesSubMultiset(elig, sel);
    PicksFromEligible(ctx, st, sid, role, elig, sel);
  }

  lemma SelectionOk(ctx: Ctx<int>, st: Tracking<int>, sid: int, role: Role, n: int)
    requires K.Fillable(ctx, st, sid)
    ensures Selection(ctx, st, sid, role, n).Ok?
  {
    K.EligibleListed(ctx, sid, role, st);
    ScoresResolve(ctx, st, sid, K.EligibleTasForRole(ctx, sid, role, st).value);
  }

  lemma ScoresResolve(ctx: Ctx<int>, st: Tracking<int>, sid: int, ids: seq<int>)
    requires K.Fillable(ctx, st, sid)
    requires forall i :: 0 <= i < |ids| ==> 1 <= ids[i] <= |ctx.tas|
    ensures AllOk(ids, ScoreOf(ctx, st, sid)).Ok?
  {
    forall i | 0 <= i < |ids| ensures ScoreOf(ctx, st, sid)(ids[i]).Ok? {
      assert ctx.tas[ids[i] - 1].ta_id == ids[i];
    }
  }

  lemma PicksFromEligible(ctx: Ctx<int>, st: Tracking<int>, sid: int, role: Role, elig: seq<int>, sel: seq<int>)
    requires K.Fillable(ctx, st, sid) && K.EligibleTasForRole(ctx, sid, role, st) == Ok(elig)
    requires forall i :: 0 <= i < |elig| ==> 1 <= elig[i] <= |ctx.tas|
    requires multiset(sel) <= multiset(elig) && NoDuplicates(sel)
    ensures AllEligible(ctx, st, sid, role, sel)
  {
    K.PicksMeet(ctx, sid, role, st, elig, sel);
  }

  lemma MarkShortKeeps(ctx: Ctx<int>, g: State, sid: int, short: bool)
    requires Inv(ctx, g) && sid in g.schedule
    ensures Inv(ctx, MarkShort(g, sid, short))
  {
    var g2 := MarkShort(g, sid, short);
    forall q | q in g2.schedule ensures AllOnShift(g2.schedule[q]) == AllOnShift(g.schedule[q]) {
    }
  }

  /** `fill_role` in an invariant state succeeds, keeps the invariant and
      gives each picked TA, all distinct and eligible, the shift. */
  lemma FillRoleKeeps(ctx: Ctx<int>, g: State, sid: int, role: Role, n: int)
    requires Inv(ctx, g) && 1 <= sid <= |ctx.shifts|
    requires ctx.shifts[sid - 1].is_lab ==> role != OhTa
    ensures sid in g.schedule && K.Fillable(ctx, g.st, sid)
    ensures FillRole(ctx, g, sid, role, n).Ok?
    ensures Inv(ctx, FillRole(ctx, g, sid, role, n).value)
    ensures AllEligible(ctx, g.st, sid, role, Selection(ctx, g.st, sid, role, n).value)
    ensures GotShift(g.st.current, FillRole(ctx, g, sid, role, n).value.st.current, sid, Selection(ctx, g.st, sid, role, n).value)
  {
    InvFillable(ctx, g, sid);
    SelectionEligible(ctx, g.st, sid, role, n);
    var sel := Selection(ctx, g.st, sid, role, n).value;
    AssignAllKeeps(ctx, g, sid, role, sel);
    var g2 := AssignAll(ctx, g, sid, role, sel).value;
    MarkShortKeeps(ctx, g2, sid, |sel| < n);
  }

  /** What `FillRoleKeeps` says about the picks alone. */
  lemma FillRolePicks(ctx: Ctx<int>, g: State, sid: int, role: Role, n: int)
    requires Inv(ctx, g) && 1 <= sid <= |ctx.shifts|
    requires ctx.shifts[sid - 1].is_lab ==> role != OhTa
    ensures sid in g.schedule && K.Fillable(ctx, g.st, sid)
    ensures FillRole(ctx, g, sid, role, n).Ok?
    ensures AllEligible(ctx, g.st, sid, role, Selection(ctx, g.st, sid, role, n).value)
    ensures GotShift(g.st.current, FillRole(ctx, g, sid, role, n).value.st.current, sid, Selection(ctx, g.st, sid, role, n).value)
  {
    FillRoleKeeps(ctx, g, sid, role, n);
  }

  /** What one shift's entry looks like once filled: nobody twice; only
      the roles of its kind; no role over its head count; `unschedulable`
      exactly when some role is short. */
  predicate ShiftFilled(s: Shift<int>, a: Assignment<int>) {
    && NoDuplicates(AllOnShift(a))
    && if s.is_lab then
         && a.oh_tas == []
         && (s.staffing.leads >= 0 ==> |a.leads| <= s.staffing.leads)
         && (s.staffing.lab >= 0 ==> |a.lab_tas| <= s.staffing.lab)
         && (a.unschedulable <==> |a.leads| < s.staffing.leads || |a.lab_tas| < s.staffing.lab)
       else
         && a.leads == [] && a.lab_tas == []
         && (s.staffing.oh >= 0 ==> |a.oh_tas| <= s.staffing.oh)
         && (a.unschedulable <==> |a.oh_tas| < s.staffing.oh)
  }

  lemma NoDuplicatesJoin(a: seq<int>, b: seq<int>)
    requires NoDuplicates(a) && NoDuplicates(b)
    requires forall i, j :: 0 <= i < |a| && 0 <= j < |b| ==> a[i] != b[j]
    ensures NoDuplicates(a + b)
  {
  }

  /** A lead of a lab is never also picked as one of its lab TAs: after
      the leads are placed they hold a lab, and the lab-TA check turns
      away anyone who does. */
  lemma LeadsAreNotLabTas(ctx: Ctx<int>, st1: Tracking<int>, sid: int, leads: seq<int>, labTas: seq<int>, c0: map<int, seq<int>>)
    requires K.Fillable(ctx, st1, sid) && ctx.shifts[sid - 1].is_lab
    requires GotShift(c0, st1.current, sid, leads)
    requires AllEligible(ctx, st1, sid, LabTa, labTas)
    ensures forall i, j :: 0 <= i < |leads| && 0 <= j < |labTas| ==> leads[i] != labTas[j]
  {
    forall i, j | 0 <= i < |leads| && 0 <= j < |labTas| ensures leads[i] != labTas[j] {
      var t := labTas[j];
      assert ctx.tas[t - 1].ta_id == t;
      assert K.MeetsRole(ctx, sid, LabTa, st1, t - 1);
      var held := st1.current[t];
      assert !K.HoldsLab(ctx, held);
      var l := leads[i];
      var lheld := st1.current[l];
      assert lheld[|lheld| - 1] == sid;
      assert D.GetShift(ctx, sid).value.is_lab;
      assert K.HoldsLab(ctx, lheld);
    }
  }

  /** A lab fills its leads and then its lab TAs; starting from an empty
      entry it ends filled and the invariant holds. */
  lemma FillLabKeeps(ctx: Ctx<int>, g: State, s: Shift<int>)
    requires Inv(ctx, g) && 1 <= s.shift_id <= |ctx.shifts| && ctx.shifts[s.shift_id - 1] == s && s.is_lab
    requires s.shift_id in g.schedule && g.schedule[s.shift_id] == Empty()
    ensures FillShift(ctx, g, s).Ok?
    ensures Inv(ctx, FillShift(ctx, g, s).value)
    ensures ShiftFilled(s, FillShift(ctx, g, s).value.schedule[s.shift_id])
  {
    LabKeepsInv(ctx, g, s);
    LabEndsFilled(ctx, g, s);
  }

  lemma LabKeepsInv(ctx: Ctx<int>, g: State, s: Shift<int>)
    requires Inv(ctx, g) && 1 <= s.shift_id <= |ctx.shifts| && ctx.shifts[s.shift_id - 1] == s && s.is_lab
    ensures FillShift(ctx, g, s).Ok?
    ensures Inv(ctx, FillShift(ctx, g, s).value)
  {
    var sid := s.shift_id;
    FillRoleKeeps(ctx, g, sid, Lead, s.staffing.leads);
    var g1 := FillRole(ctx, g, sid, Lead, s.staffing.leads).value;
    FillRoleKeeps(ctx, g1, sid, LabTa, s.staffing.lab);
    var g2 := FillRole(ctx, g1, sid, LabTa, s.staffing.lab).value;
    assert FillShift(ctx, g, s) == Ok(g2);
  }

  lemma LabEndsFilled(ctx: Ctx<int>, g: State, s: Shift<int>)
    requires Inv(ctx, g) && 1 <= s.shift_id <= |ctx.shifts| && ctx.shifts[s.shift_id - 1] == s && s.is_lab
    requires s.shift_id in g.schedule && g.schedule[s.shift_id] == Empty()
    ensures FillShift(ctx, g, s).Ok?
    ensures ShiftFilled(s, FillShift(ctx, g, s).value.schedule[s.shift_id])
  {
    var sid := s.shift_id;
    LabPicksDistinct(ctx, g, sid, s.staffing.leads, s.staffing.lab);
    var g1 := FillRole(ctx, g, sid, Lead, s.staffing.leads).value;
    var g2 := FillRole(ctx, g1, sid, LabTa, s.staffing.lab).value;
    assert FillShift(ctx, g, s) == Ok(g2);
    LabFilled(ctx, g, s, g1, g2);
  }

  lemma LabFilled(ctx: Ctx<int>, g: State, s: Shift<int>, g1: State, g2: State)
    requires s.is_lab && s.shift_id in g.schedule && g.schedule[s.shift_id] == Empty() && s.shift_id in g1.schedule
    requires FillRole(ctx, g, s.shift_id, Lead, s.staffing.leads) == Ok(g1)
    requires FillRole(ctx, g1, s.shift_id, LabTa, s.staffing.lab) == Ok(g2)
    requires var leads, labTas := Selection(ctx, g.st, s.shift_id, Lead, s.staffing.leads).value,
                                  Selection(ctx, g1.st, s.shift_id, LabTa, s.staffing.lab).value;
      && NoDuplicates(leads) && NoDuplicates(labTas)
      && forall i, j :: 0 <= i < |leads| && 0 <= j < |labTas| ==> leads[i] != labTas[j]
    ensures ShiftFilled(s, g2.schedule[s.shift_id])
  {
    var sid := s.shift_id;
    var leads := Selection(ctx, g.st, sid, Lead, s.staffing.leads).value;
    var labTas := Selection(ctx, g1.st, sid, LabTa, s.staffing.lab).value;
    LabSteps(ctx, g, sid, s.staffing.leads, s.staffing.lab, g1, g2, leads, labTas);
    LabEntry(s, leads, labTas, g2.schedule[sid]);
  }

  /** Both `fill_role` calls of a lab succeed, and the leads and the lab
      TAs they pick are distinct TAs. */
  lemma LabPicksDistinct(ctx: Ctx<int>, g: State, sid: int, nL: int, nT: int)
    requires Inv(ctx, g) && 1 <= sid <= |ctx.shifts| && ctx.shifts[sid - 1].is_lab
    ensures sid in g.schedule && FillRole(ctx, g, sid, Lead, nL).Ok?
    ensures var g1 := FillRole(ctx, g, sid, Lead, nL).value;
      && sid in g1.schedule && FillRole(ctx, g1, sid, LabTa, nT).Ok?
      && var leads, labTas := Selection(ctx, g.st, sid, Lead, nL).value, Selection(ctx, g1.st, sid, LabTa, nT).value;
         && NoDuplicates(leads) && NoDuplicates(labTas)
         && forall i, j :: 0 <= i < |leads| && 0 <= j < |labTas| ==> leads[i] != labTas[j]
  {
    FillRoleKeeps(ctx, g, sid, Lead, nL);
    var g1 := FillRole(ctx, g, sid, Lead, nL).value;
    FillRolePicks(ctx, g1, sid, LabTa, nT);
    var leads, labTas := Selection(ctx, g.st, sid, Lead, nL).value, Selection(ctx, g1.st, sid, LabTa, nT).value;
    LeadsAreNotLabTas(ctx, g1.st, sid, leads, labTas, g.st.current);
  }

  /** The lab's entry after its two `fill_role` calls. */
  lemma LabSteps(ctx: Ctx<int>, g: State, sid: int, nL: int, nT: int, g1: State, g2: State, leads: seq<int>, labTas: seq<int>)
    requires sid in g.schedule && g.schedule[sid] == Empty()
    requires FillRole(ctx, g, sid, Lead, nL) == Ok(g1) && leads == Selection(ctx, g.st, sid, Lead, nL).value
    requires sid in g1.schedule
    requires FillRole(ctx, g1, sid, LabTa, nT) == Ok(g2) && labTas == Selection(ctx, g1.st, sid, LabTa, nT).value
    ensures g2.schedule[sid] == Assignment(leads, labTas, [], |leads| < nL || |labTas| < nT)
    ensures nL >= 0 ==> |leads| <= nL
    ensures nT >= 0 ==> |labTas| <= nT
  {
    RoleEntry(ctx, g, sid, Lead, nL, g1, leads);
    RoleEntry(ctx, g1, sid, LabTa, nT, g2, labTas);
    LabEntryOfSteps(g1.schedule[sid], g2.schedule[sid], leads, labTas, nL, nT);
  }

  /** Leads appended to an empty entry, then lab TAs. */
  lemma LabEntryOfSteps(a1: Assignment<int>, a2: Assignment<int>, leads: seq<int>, labTas: seq<int>, nL: int, nT: int)
    requires a1 == AppendRole(Empty(), Lead, leads).(unschedulable := |leads| < nL)
    requires a2 == AppendRole(a1, LabTa, labTas).(unschedulable := a1.unschedulable || |labTas| < nT)
    ensures a2 == Assignment(leads, labTas, [], |leads| < nL || |labTas| < nT)
  {
    assert [] + leads == leads && [] + labTas == labTas;
  }

  /** The entry after one `fill_role`, and the head-count bound. */
  lemma RoleEntry(ctx: Ctx<int>, g: State, sid: int, role: Role, n: int, g1: State, sel: seq<int>)
    requires sid in g.schedule
    requires FillRole(ctx, g, sid, role, n) == Ok(g1)
    requires sel == Selection(ctx, g.st, sid, role, n).value
    ensures g1.schedule[sid] == AppendRole(g.schedule[sid], role, sel).(unschedulable := g.schedule[sid].unschedulable || |sel| < n)
    ensures n >= 0 ==> |sel| <= n
  {
  }

  lemma LabEntry(s: Shift<int>, leads: seq<int>, labTas: seq<int>, a: Assignment<int>)
    requires s.is_lab
    requires a == Assignment(leads, labTas, [], |leads| < s.staffing.leads || |labTas| < s.staffing.lab)
    requires NoDuplicates(leads) && NoDuplicates(labTas)
    requires forall i, j :: 0 <= i < |leads| && 0 <= j < |labTas| ==> leads[i] != labTas[j]
    requires s.staffing.leads >= 0 ==> |leads| <= s.staffing.leads
    requires s.staffing.lab >= 0 ==> |labTas| <= s.staffing.lab
    ensures ShiftFilled(s, a)
  {
    NoDuplicatesJoin(leads, labTas);
    assert AllOnShift(a) == leads + labTas;
  }

  /** Any other shift fills its office-hours TAs. */
  lemma FillOhKeeps(ctx: Ctx<int>, g: State, s: Shift<int>)
    requires Inv(ctx, g) && 1 <= s.shift_id <= |ctx.shifts| && ctx.shifts[s.shift_id - 1] == s && !s.is_lab
    requires s.shift_id in g.schedule && g.schedule[s.shift_id] == Empty()
    ensures FillShift(ctx, g, s).Ok?
    ensures Inv(ctx, FillShift(ctx, g, s).value)
    ensures ShiftFilled(s, FillShift(ctx, g, s).value.schedule[s.shift_id])
  {
    var sid := s.shift_id;
    var n := s.staffing.oh;
    assert FillRole(ctx, g, sid, OhTa, n).Ok? && Inv(ctx, FillRole(ctx, g, sid, OhTa, n).value)
           && NoDuplicates(Selection(ctx, g.st, sid, OhTa, n).value) by {
      FillRoleKeeps(ctx, g, sid, OhTa, n);
    }
    var g1 := FillRole(ctx, g, sid, OhTa, n).value;
    assert FillShift(ctx, g, s) == Ok(g1);
    OhFilled(ctx, g, s, g1);
  }

  lemma OhFilled(ctx: Ctx<int>, g: State, s: Shift<int>, g1: State)
    requires !s.is_lab && s.shift_id in g.schedule && g.schedule[s.shift_id] == Empty()
    requires FillRole(ctx, g, s.shift_id, OhTa, s.staffing.oh) == Ok(g1)
    requires NoDuplicates(Selection(ctx, g.st, s.shift_id, OhTa, s.staffing.oh).value)
    ensures ShiftFilled(s, g1.schedule[s.shift_id])
  {
    var oh := Selection(ctx, g.st, s.shift_id, OhTa, s.staffing.oh).value;
    RoleEntry(ctx, g, s.shift_id, OhTa, s.staffing.oh, g1, oh);
    assert [] + oh == oh;
    assert g1.schedule[s.shift_id] == Assignment([], [], oh, |oh| < s.staffing.oh);
    OhEntry(s, oh, g1.schedule[s.shift_id]);
  }

  lemma OhEntry(s: Shift<int>, oh: seq<int>, a: Assignment<int>)
    requires !s.is_lab
    requires a == Assignment([], [], oh, |oh| < s.staffing.oh)
    requires NoDuplicates(oh)
    requires s.staffing.oh >= 0 ==> |oh| <= s.staffing.oh
    ensures ShiftFilled(s, a)
  {
    assert AllOnShift(a) == oh;
  }

  lemma FillShiftKeeps(ctx: Ctx<int>, g: State, s: Shift<int>)
    requires Inv(ctx, g) && 1 <= s.shift_id <= |ctx.shifts| && ctx.shifts[s.shift_id - 1] == s
    requires s.shift_id in g.schedule && g.schedule[s.shift_id] == Empty()
    ensures FillShift(ctx, g, s).Ok?
    ensures Inv(ctx, FillShift(ctx, g, s).value)
    ensures ShiftFilled(s, FillShift(ctx, g, s).value.schedule[s.shift_id])
  {
    if s.is_lab {
      FillLabKeeps(ctx, g, s);
    } else {
      FillOhKeeps(ctx, g, s);
    }
  }

  // ------------------------------------------------------------------
  // The whole loop

  /** Each listed shift is the context's shift at its own id. */
  predicate ShiftsOfCtx(ctx: Ctx<int>, ss: seq<Shift<int>>) {
    forall i :: 0 <= i < |ss| ==> 1 <= ss[i].shift_id <= |ctx.shifts| && ctx.shifts[ss[i].shift_id - 1] == ss[i]
  }

  predicate DistinctShiftIds(ss: seq<Shift<int>>) {
    forall i, j :: 0 <= i < j < |ss| ==> ss[i].shift_id != ss[j].shift_id
  }

  /** The shifts still to visit have untouched entries. */
  predicate Unfilled(g: State, ss: seq<Shift<int>>) {
    forall i :: 0 <= i < |ss| ==> ss[i].shift_id in g.schedule && g.schedule[ss[i].shift_id] == Empty()
  }

  predicate AllFilled(g: State, ss: seq<Shift<int>>) {
    forall i :: 0 <= i < |ss| ==> ss[i].shift_id in g.schedule && ShiftFilled(ss[i], g.schedule[ss[i].shift_id])
  }

  function IdsOf(ss: seq<Shift<int>>): (r: seq<int>)
    ensures |r| == |ss| && forall i :: 0 <= i < |ss| ==> r[i] == ss[i].shift_id
  {
    seq(|ss|, i requires 0 <= i < |ss| => ss[i].shift_id)
  }

  /** Entries of shifts the loop does not visit stay as they were. */
  predicate Untouched(g: State, r: State, ss: seq<Shift<int>>) {
    forall sid :: sid in g.schedule && sid !in IdsOf(ss) ==> sid in r.schedule && r.schedule[sid] == g.schedule[sid]
  }

  /** The main loop over distinct shifts with empty entries fills each of
      them, keeps the invariant and leaves every other entry alone. */
  lemma {:induction false} FillAllKeeps(ctx: Ctx<int>, g: State, rest: seq<Shift<int>>)
    requires Inv(ctx, g) && ShiftsOfCtx(ctx, rest) && DistinctShiftIds(rest) && Unfilled(g, rest)
    ensures FillAll(ctx, g, rest).Ok?
    ensures Inv(ctx, FillAll(ctx, g, rest).value)
    ensures AllFilled(FillAll(ctx, g, rest).value, rest)
    ensures Untouched(g, FillAll(ctx, g, rest).value, rest)
    decreases |rest|
  {
    if |rest| > 0 {
      var s := rest[0];
      FillShiftKeeps(ctx, g, s);
      var g1 := FillShift(ctx, g, s).value;
      NextUnfilled(g, g1, rest);
      ShiftsOfCtxTail(ctx, rest);
      FillAllKeeps(ctx, g1, rest[1..]);
      var r := FillAll(ctx, g1, rest[1..]).value;
      assert FillAll(ctx, g, rest) == Ok(r);
      FilledAfter(g, g1, r, rest);
    }
  }

  lemma NextUnfilled(g: State, g1: State, rest: seq<Shift<int>>)
    requires |rest| > 0 && DistinctShiftIds(rest) && Unfilled(g, rest)
    requires g1.schedule.Keys == g.schedule.Keys
    requires forall k :: k in g.schedule && k != rest[0].shift_id ==> g1.schedule[k] == g.schedule[k]
    ensures DistinctShiftIds(rest[1..]) && Unfilled(g1, rest[1..])
  {
    forall i | 0 <= i < |rest| - 1 ensures rest[1..][i].shift_id in g1.schedule && g1.schedule[rest[1..][i].shift_id] == Empty() {
      assert rest[1..][i] == rest[i + 1];
    }
  }

  lemma ShiftsOfCtxTail(ctx: Ctx<int>, rest: seq<Shift<int>>)
    requires |rest| > 0 && ShiftsOfCtx(ctx, rest)
    ensures ShiftsOfCtx(ctx, rest[1..])
  {
    forall i | 0 <= i < |rest| - 1 ensures 1 <= rest[1..][i].shift_id <= |ctx.shifts| && ctx.shifts[rest[1..][i].shift_id - 1] == rest[1..][i] {
      assert rest[1..][i] == rest[i + 1];
    }
  }

  /** Bookkeeping for one step of the main loop. */
  lemma FilledAfter(g: State, g1: State, r: State, rest: seq<Shift<int>>)
    requires |rest| > 0 && DistinctShiftIds(rest)
    requires g1.schedule.Keys == g.schedule.Keys
    requires forall k :: k in g.schedule && k != rest[0].shift_id ==> g1.schedule[k] == g.schedule[k]
    requires rest[0].shift_id in g1.schedule && ShiftFilled(rest[0], g1.schedule[rest[0].shift_id])
    requires AllFilled(r, rest[1..]) && Untouched(g1, r, rest[1..])
    ensures AllFilled(r, rest) && Untouched(g, r, rest)
  {
    var id0 := rest[0].shift_id;
    assert id0 !in IdsOf(rest[1..]) by {
      forall j | 0 <= j < |rest| - 1 ensures IdsOf(rest[1..])[j] != id0 {
        assert rest[1..][j] == rest[j + 1];
      }
    }
    forall i | 0 <= i < |rest| ensures rest[i].shift_id in r.schedule && ShiftFilled(rest[i], r.schedule[rest[i].shift_id]) {
      if i > 0 {
        assert rest[i] == rest[1..][i - 1];
      }
    }
    forall sid | sid in g.schedule && sid !in IdsOf(rest) ensures sid in r.schedule && r.schedule[sid] == g.schedule[sid] {
      assert sid != IdsOf(rest)[0];
      assert sid !in IdsOf(rest[1..]) by {
        forall j | 0 <= j < |rest| - 1 ensures IdsOf(rest[1..])[j] != sid {
          assert IdsOf(rest[1..])[j] == IdsOf(rest)[j + 1];
        }
      }
    }
  }

  /** The visiting order holds every shift of the context once. */
  lemma LabFirstCovers(ctx: Ctx<int>)
    requires WellIndexed(ctx)
    ensures ShiftsOfCtx(ctx, LabFirst(ctx.shifts)) && DistinctShiftIds(LabFirst(ctx.shifts))
    ensures forall k :: 0 <= k < |ctx.shifts| ==> ctx.shifts[k] in LabFirst(ctx.shifts)
  {
    PermutedShifts(ctx, LabFirst(ctx.shifts));
  }

  lemma PermutedShifts(ctx: Ctx<int>, order: seq<Shift<int>>)
    requires WellIndexed(ctx) && multiset(order) == multiset(ctx.shifts)
    ensures ShiftsOfCtx(ctx, order) && DistinctShiftIds(order)
    ensures forall k :: 0 <= k < |ctx.shifts| ==> ctx.shifts[k] in order
  {
    PermutedAtIds(ctx, order);
    assert NoDuplicates(ctx.shifts) by {
      forall i, j | 0 <= i < j < |ctx.shifts| ensures ctx.shifts[i] != ctx.shifts[j] {
        assert ctx.shifts[i].shift_id != ctx.shifts[j].shift_id;
      }
    }
    NoDuplicatesSubMultiset(ctx.shifts, order);
    forall k | 0 <= k < |ctx.shifts| ensures ctx.shifts[k] in order {
      assert ctx.shifts[k] in multiset(order);
    }
  }

  lemma PermutedAtIds(ctx: Ctx<int>, order: seq<Shift<int>>)
    requires WellIndexed(ctx) && multiset(order) == multiset(ctx.shifts)
    ensures ShiftsOfCtx(ctx, order)
  {
    forall i | 0 <= i < |order| ensures 1 <= order[i].shift_id <= |ctx.shifts| && ctx.shifts[order[i].shift_id - 1] == order[i] {
      assert order[i] in multiset(ctx.shifts);
      var k :| 0 <= k < |ctx.shifts| && ctx.shifts[k] == order[i];
    }
  }

  /** `greedy_assign` on well-indexed data succeeds; every TA ends with
      non-overlapping shifts, at most one lab, hours equal to the sum of
      their durations and within the maximum; every shift has distinct
      TAs, no role over its head count, and is marked unschedulable
      exactly when a role came up short. */
  lemma GreedyAssignSound(ctx: Ctx<int>)
    requires WellIndexed(ctx)
    ensures GreedyAssign(ctx).Ok?
    ensures Inv(ctx, GreedyAssign(ctx).value)
    ensures forall k :: 0 <= k < |ctx.shifts| ==>
              ctx.shifts[k].shift_id in GreedyAssign(ctx).value.schedule
              && ShiftFilled(ctx.shifts[k], GreedyAssign(ctx).value.schedule[ctx.shifts[k].shift_id])
  {
    var order := LabFirst(ctx.shifts);
    var g0 := Init(ctx);
    InitInv(ctx);
    LabFirstCovers(ctx);
    assert Unfilled(g0, order);
    FillAllKeeps(ctx, g0, order);
    var r := FillAll(ctx, g0, order).value;
    assert GreedyAssign(ctx) == Ok(r);
    FilledCovers(ctx.shifts, order, r);
  }

  /** Every shift filled in some order is filled. */
  lemma FilledCovers(shifts: seq<Shift<int>>, order: seq<Shift<int>>, r: State)
    requires AllFilled(r, order)
    requires forall k :: 0 <= k < |shifts| ==> shifts[k] in order
    ensures forall k :: 0 <= k < |shifts| ==>
              shifts[k].shift_id in r.schedule && ShiftFilled(shifts[k], r.schedule[shifts[k].shift_id])
  {
    forall k | 0 <= k < |shifts| ensures shifts[k].shift_id in r.schedule && ShiftFilled(shifts[k], r.schedule[shifts[k].shift_id]) {
      assert shifts[k] in order;
      var i :| 0 <= i < |order| && order[i] == shifts[k];
    }
  }
}
