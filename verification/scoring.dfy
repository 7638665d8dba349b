/** The preference-only schedule score and the payroll cost of
    src/algorithm/scoring.py. The cost function of
    src/algorithm/helpers/scoring.py is the same text and is modelled here
    once. */
module Scoring {
  import opened Util
  import opened Py
  import opened AlgContext

  /** `ROLE_WEIGHTS`: a lead counts most, then a lab TA, then an
      office-hours TA. */
  function RoleWeight(role: Role): (w: real)
    ensures 0.0 < w <= 1.0
    ensures w == 1.0 <==> role == Lead
  {
    match role
    case Lead => 1.0
    case LabTa => 0.8
    case OhTa => 0.6
  }

  // ------------------------------------------------------------------
  // Placements: what the nested scoring loops visit

  /** One TA in one role on one shift. */
  datatype Placement<Id> = Placement(shift: Id, role: Role, ta: Id)

  function ListPlacements<Id>(shift: Id, role: Role, tas: seq<Id>): (r: seq<Placement<Id>>)
    ensures |r| == |tas| && forall i :: 0 <= i < |tas| ==> r[i] == Placement(shift, role, tas[i])
  {
    seq(|tas|, i requires 0 <= i < |tas| => Placement(shift, role, tas[i]))
  }

  /** A shift's placements: leads, then lab TAs, then office-hours TAs. */
  function ShiftPlacements<Id>(shift: Id, a: Assignment<Id>): seq<Placement<Id>> {
    ListPlacements(shift, Lead, a.leads) + ListPlacements(shift, LabTa, a.lab_tas) + ListPlacements(shift, OhTa, a.oh_tas)
  }

  /** Every placement of the schedule, shifts in dictionary order. */
  function Placements<Id(==)>(schedule: map<Id, Assignment<Id>>, order: seq<Id>): seq<Placement<Id>>
    requires forall i :: 0 <= i < |order| ==> order[i] in schedule
  {
    if |order| == 0 then [] else ShiftPlacements(order[0], schedule[order[0]]) + Placements(schedule, order[1..])
  }

  /** A schedule whose listed shifts are all unstaffed has no
      placements. */
  lemma {:induction false} NoPlacements<Id>(schedule: map<Id, Assignment<Id>>, order: seq<Id>)
    requires forall i :: 0 <= i < |order| ==> order[i] in schedule && |AllOnShift(schedule[order[i]])| == 0
    ensures Placements(schedule, order) == []
  {
    if |order| > 0 {
      NoPlacements(schedule, order[1..]);
    }
  }

  lemma SumRealCons(xs: seq<real>)
    requires |xs| > 0
    ensures SumReal(xs) == xs[0] + SumReal(xs[1..])
  {
    SumRealAppend([xs[0]], xs[1..]);
    assert [xs[0]] + xs[1..] == xs;
  }

  // ------------------------------------------------------------------
  // score_schedule

  function PrefTerm(ctx: Ctx<int>, p: Placement<int>): real {
    RoleWeight(p.role) * GetPref(ctx, p.ta, p.shift) as real
  }

  function PrefTerms(ctx: Ctx<int>, ps: seq<Placement<int>>): (r: seq<real>)
    ensures |r| == |ps| && forall i :: 0 <= i < |ps| ==> r[i] == PrefTerm(ctx, ps[i])
  {
    seq(|ps|, i requires 0 <= i < |ps| => PrefTerm(ctx, ps[i]))
  }

  /** One role loop: `total += ROLE_WEIGHTS[role] * get_pref(...)` for
      each TA in the list. */
  function AddPrefs(ctx: Ctx<int>, shift: int, role: Role, tas: seq<int>, total: real): real
    decreases |tas|
  {
    if |tas| == 0 then total
    else AddPrefs(ctx, shift, role, tas[1..], total + RoleWeight(role) * GetPref(ctx, tas[0], shift) as real)
  }

  function AddShiftPrefs(ctx: Ctx<int>, shift: int, a: Assignment<int>, total: real): real {
    AddPrefs(ctx, shift, OhTa, a.oh_tas, AddPrefs(ctx, shift, LabTa, a.lab_tas, AddPrefs(ctx, shift, Lead, a.leads, total)))
  }

  function AddSchedulePrefs(ctx: Ctx<int>, schedule: map<int, Assignment<int>>, order: seq<int>, total: real): real
    requires forall i :: 0 <= i < |order| ==> order[i] in schedule
    decreases |order|
  {
    if |order| == 0 then total
    else AddSchedulePrefs(ctx, schedule, order[1..], AddShiftPrefs(ctx, order[0], schedule[order[0]], total))
  }

  /** `score_schedule`: the weighted preference of every placement. */
  function ScoreSchedule(ctx: Ctx<int>, schedule: map<int, Assignment<int>>, order: seq<int>): (r: real)
    requires KeyOrder(order, schedule)
    ensures r == SumReal(PrefTerms(ctx, Placements(schedule, order)))
  {
    AddSchedulePrefsSum(ctx, schedule, order, 0.0);
    AddSchedulePrefs(ctx, schedule, order, 0.0)
  }

  lemma PrefTermsAppend(ctx: Ctx<int>, a: seq<Placement<int>>, b: seq<Placement<int>>)
    ensures PrefTerms(ctx, a + b) == PrefTerms(ctx, a) + PrefTerms(ctx, b)
  {
  }

  lemma {:induction false} AddPrefsSum(ctx: Ctx<int>, shift: int, role: Role, tas: seq<int>, total: real)
    ensures AddPrefs(ctx, shift, role, tas, total) == total + SumReal(PrefTerms(ctx, ListPlacements(shift, role, tas)))
    decreases |tas|
  {
    if |tas| > 0 {
      var t := total + RoleWeight(role) * GetPref(ctx, tas[0], shift) as real;
      AddPrefsSum(ctx, shift, role, tas[1..], t);
      var xs := PrefTerms(ctx, ListPlacements(shift, role, tas));
      SumRealCons(xs);
      assert xs[1..] == PrefTerms(ctx, ListPlacements(shift, role, tas[1..]));
    }
  }

  lemma AddShiftPrefsSum(ctx: Ctx<int>, shift: int, a: Assignment<int>, total: real)
    ensures AddShiftPrefs(ctx, shift, a, total) == total + SumReal(PrefTerms(ctx, ShiftPlacements(shift, a)))
  {
    var l1 := ListPlacements(shift, Lead, a.leads);
    var l2 := ListPlacements(shift, LabTa, a.lab_tas);
    var l3 := ListPlacements(shift, OhTa, a.oh_tas);
    var t1 := AddPrefs(ctx, shift, Lead, a.leads, total);
    var t2 := AddPrefs(ctx, shift, LabTa, a.lab_tas, t1);
    AddPrefsSum(ctx, shift, Lead, a.leads, total);
    AddPrefsSum(ctx, shift, LabTa, a.lab_tas, t1);
    AddPrefsSum(ctx, shift, OhTa, a.oh_tas, t2);
    PrefTermsAppend(ctx, l1 + l2, l3);
    PrefTermsAppend(ctx, l1, l2);
    SumRealAppend(PrefTerms(ctx, l1) + PrefTerms(ctx, l2), PrefTerms(ctx, l3));
    SumRealAppend(PrefTerms(ctx, l1), PrefTerms(ctx, l2));
  }

  lemma {:induction false} AddSchedulePrefsSum(ctx: Ctx<int>, schedule: map<int, Assignment<int>>, order: seq<int>, total: real)
    requires forall i :: 0 <= i < |order| ==> order[i] in schedule
    ensures AddSchedulePrefs(ctx, schedule, order, total) == total + SumReal(PrefTerms(ctx, Placements(schedule, order)))
    decreases |order|
  {
    if |order| > 0 {
      var sp := ShiftPlacements(order[0], schedule[order[0]]);
      var t := AddShiftPrefs(ctx, order[0], schedule[order[0]], total);
      AddShiftPrefsSum(ctx, order[0], schedule[order[0]], total);
      AddSchedulePrefsSum(ctx, schedule, order[1..], t);
      PrefTermsAppend(ctx, sp, Placements(schedule, order[1..]));
      SumRealAppend(PrefTerms(ctx, sp), PrefTerms(ctx, Placements(schedule, order[1..])));
    }
  }

  /** A schedule with nobody on any shift scores 0. */
  lemma EmptyScheduleScoresZero(ctx: Ctx<int>, schedule: map<int, Assignment<int>>, order: seq<int>)
    requires KeyOrder(order, schedule)
    requires forall k :: k in schedule ==> |AllOnShift(schedule[k])| == 0
    ensures ScoreSchedule(ctx, schedule, order) == 0.0
  {
    forall i | 0 <= i < |order| ensures order[i] in schedule && |AllOnShift(schedule[order[i]])| == 0 {
      var k := order[i];
      assert k in schedule;
      assert |AllOnShift(schedule[k])| == 0;
    }
    NoPlacements(schedule, order);
  }

  /** With no negative preference the score is never negative. */
  lemma ScoreNonNegative(ctx: Ctx<int>, schedule: map<int, Assignment<int>>, order: seq<int>)
    requires KeyOrder(order, schedule)
    requires forall t, s :: t in ctx.prefs && s in ctx.prefs[t] ==> ctx.prefs[t][s] >= 0
    ensures ScoreSchedule(ctx, schedule, order) >= 0.0
  {
    var xs := PrefTerms(ctx, Placements(schedule, order));
    forall i | 0 <= i < |xs| ensures xs[i] >= 0.0 {
      var p := Placements(schedule, order)[i];
      assert GetPref(ctx, p.ta, p.shift) >= 0;
    }
    SumRealNonNeg(xs);
  }

  /** The score reads the preference matrix and nothing else of the
      context. */
  lemma ScoreReadsPrefsOnly(c1: Ctx<int>, c2: Ctx<int>, schedule: map<int, Assignment<int>>, order: seq<int>)
    requires KeyOrder(order, schedule) && c1.prefs == c2.prefs
    ensures ScoreSchedule(c1, schedule, order) == ScoreSchedule(c2, schedule, order)
  {
    var ps := Placements(schedule, order);
    assert PrefTerms(c1, ps) == PrefTerms(c2, ps);
  }

  // ------------------------------------------------------------------
  // calculate_cost

  const TaHourlyRate: real := 17.43
  const TfHourlyRate: real := 19.60

  /** The hourly rate: teaching fellows earn more. */
  function Rate<Id>(t: Ta<Id>): (r: real)
    ensures r >= TaHourlyRate
    ensures r > TaHourlyRate <==> t.is_tf
  {
    if t.is_tf then TfHourlyRate else TaHourlyRate
  }

  predicate AllHoursKnown<Id(==)>(tas: seq<Ta<Id>>, hours: map<Id, real>) {
    forall i :: 0 <= i < |tas| ==> tas[i].ta_id in hours
  }

  /** Each TA's pay, in metadata order. */
  function CostTerms<Id(==)>(tas: seq<Ta<Id>>, hours: map<Id, real>): (r: seq<real>)
    requires AllHoursKnown(tas, hours)
    ensures |r| == |tas| && forall i :: 0 <= i < |tas| ==> r[i] == hours[tas[i].ta_id] * Rate(tas[i])
  {
    seq(|tas|, i requires 0 <= i < |tas| => hours[tas[i].ta_id] * Rate(tas[i]))
  }

  /** `calculate_cost`: hours times rate, summed over `ta_metadata` in
      order; a TA missing from the hours raises KeyError. */
  function CalculateCost<Id(==)>(tas: seq<Ta<Id>>, hours: map<Id, real>): (r: Result<real, PyError>)
    ensures r.Ok? <==> AllHoursKnown(tas, hours)
    ensures r.Err? ==> r.error == KeyError
    ensures r.Ok? ==> r.value == SumReal(CostTerms(tas, hours))
    decreases |tas|
  {
    if |tas| == 0 then Ok(0.0)
    else
      var init := tas[..|tas| - 1];
      var t := tas[|tas| - 1];
      assert forall i :: 0 <= i < |init| ==> init[i] == tas[i];
      match CalculateCost(init, hours)
      case Err(e) => Err(e)
      case Ok(total) =>
        if t.ta_id !in hours then Err(KeyError)
        else
          assert AllHoursKnown(tas, hours) by {
            forall i | 0 <= i < |tas| ensures tas[i].ta_id in hours {
              if i < |init| { assert tas[i] == init[i]; }
            }
          }
          var all, pre := CostTerms(tas, hours), CostTerms(init, hours);
          forall i | 0 <= i < |init| ensures all[i] == pre[i] {
            assert init[i] == tas[i];
          }
          assert all[..|tas| - 1] == pre;
          assert |all| == |pre| + 1;
          assert all[|tas| - 1] == hours[t.ta_id] * Rate(t);
          assert all == pre + [hours[t.ta_id] * Rate(t)];
          Ok(total + hours[t.ta_id] * Rate(t))
  }

  /** Nobody paid, nothing spent. */
  lemma CostAtZeroHours<Id>(tas: seq<Ta<Id>>, hours: map<Id, real>)
    requires AllHoursKnown(tas, hours)
    requires forall i :: 0 <= i < |tas| ==> hours[tas[i].ta_id] == 0.0
    ensures CalculateCost(tas, hours) == Ok(0.0)
  {
    var xs := CostTerms(tas, hours);
    forall i | 0 <= i < |xs| ensures xs[i] == 0.0 {
      var h, r := hours[tas[i].ta_id], Rate(tas[i]);
      assert xs[i] == h * r && h == 0.0;
    }
    SumRealAtLeast(xs, 0.0);
    SumRealAtMost(xs, 0.0);
    assert SumReal(xs) == 0.0;
  }

  lemma {:induction false} SumRealAtMost(xs: seq<real>, c: real)
    requires forall i :: 0 <= i < |xs| ==> xs[i] <= c
    ensures SumReal(xs) <= |xs| as real * c
    decreases |xs|
  {
    if |xs| > 0 {
      SumRealAtMost(xs[..|xs| - 1], c);
    }
  }

  /** More hours for anyone never cost less. */
  lemma CostMonotone<Id>(tas: seq<Ta<Id>>, h1: map<Id, real>, h2: map<Id, real>)
    requires AllHoursKnown(tas, h1) && AllHoursKnown(tas, h2)
    requires forall i :: 0 <= i < |tas| ==> h1[tas[i].ta_id] <= h2[tas[i].ta_id]
    ensures CalculateCost(tas, h1).value <= CalculateCost(tas, h2).value
  {
    var a, b := CostTerms(tas, h1), CostTerms(tas, h2);
    forall i | 0 <= i < |tas| ensures a[i] <= b[i] {
      ScaleMonotone(h1[tas[i].ta_id], h2[tas[i].ta_id], Rate(tas[i]));
    }
    SumRealPointwise(a, b);
  }

  lemma ScaleMonotone(x: real, y: real, r: real)
    requires x <= y && r >= 0.0
    ensures x * r <= y * r
  {
    assert y * r - x * r == (y - x) * r;
  }

  lemma {:induction false} SumRealPointwise(a: seq<real>, b: seq<real>)
    requires |a| == |b| && forall i :: 0 <= i < |a| ==> a[i] <= b[i]
    ensures SumReal(a) <= SumReal(b)
    decreases |a|
  {
    if |a| > 0 {
      SumRealPointwise(a[..|a| - 1], b[..|b| - 1]);
    }
  }

  /** With no negative hours the cost is never negative. */
  lemma CostNonNegative<Id>(tas: seq<Ta<Id>>, hours: map<Id, real>)
    requires AllHoursKnown(tas, hours)
    requires forall i :: 0 <= i < |tas| ==> hours[tas[i].ta_id] >= 0.0
    ensures CalculateCost(tas, hours).value >= 0.0
  {
    var xs := CostTerms(tas, hours);
    forall i | 0 <= i < |xs| ensures xs[i] >= 0.0 {
      ScaleMonotone(0.0, hours[tas[i].ta_id], Rate(tas[i]));
    }
    SumRealNonNeg(xs);
  }
}
