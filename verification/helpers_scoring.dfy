/** The candidate score and the schedule score of
    src/algorithm/helpers/scoring.py, over the keyed lookups. The role
    weights and `calculate_cost` are the same as in
    src/algorithm/scoring.py and are taken from Scoring. */
module HelpersScoring {
  import opened Util
  import opened Py
  import opened AlgContext
  import H = DataAccessHelpers
  import C = ConstraintHelpers
  import S = Scoring
  import G = Greedy

  /** `EXPERIENCE_PENALTY`. */
  const ExperiencePenaltyWeight: real := -0.1

  /** `2 * hours_below_min / min_hours`, and 0 for a minimum that is not
      positive. */
  function BalanceBoost(min: real, hours: real): (b: real)
    ensures b >= 0.0
    ensures b > 0.0 <==> min > 0.0 && hours < min
    ensures hours >= 0.0 ==> b <= 2.0
  {
    var below := C.RMax(0.0, min - hours);
    if min > 0.0 then (below / min) * 2.0 else 0.0
  }

  /** The helpers' balance boost is twice the one `greedy_assign` uses. */
  lemma BalanceBoostTwiceGreedy(min: real, hours: real)
    ensures BalanceBoost(min, hours) == 2.0 * G.BalanceBoost(min, hours)
  {
  }

  /** The experience term: -0.1 for an inexperienced pairing, else 0. */
  function PenaltyTerm(e: int): (p: real)
    ensures e == 0 ==> p == 0.0
    ensures e == 1 ==> p == -0.1
  {
    ExperiencePenaltyWeight * e as real
  }

  /** `compute_candidate_score`: preference, balance boost, experience
      penalty and companion count, added in that order. The lookups run in
      source order: the TA record, the hours entry, the experience check,
      the companion check; the first to fail decides the error. */
  function CandidateScore<Id(==)>(ctx: Ctx<Id>, ta: Id, shift: Id, schedule: map<Id, Assignment<Id>>, hours: map<Id, real>)
    : (r: Result<real, PyError>)
    ensures r.Ok? <==> && H.GetTa(ctx, ta).Ok? && ta in hours
                       && C.ExperiencePenalty(ctx, ta, shift, schedule).Ok?
                       && C.CompanionBoost(ctx, ta, shift, schedule).Ok?
    ensures r.Ok? ==> r.value == GetPref(ctx, ta, shift) as real
                                 + BalanceBoost(H.GetTa(ctx, ta).value.min_hours, hours[ta])
                                 + (if C.ExperiencePenalty(ctx, ta, shift, schedule).value == 1 then -0.1 else 0.0)
                                 + C.CompanionBoost(ctx, ta, shift, schedule).value as real
    ensures r.Ok? && H.GetTa(ctx, ta).value.experienced ==>
              r.value == GetPref(ctx, ta, shift) as real
                         + BalanceBoost(H.GetTa(ctx, ta).value.min_hours, hours[ta])
                         + C.CompanionBoost(ctx, ta, shift, schedule).value as real
  {
    match H.GetTa(ctx, ta)
    case Err(e) => Err(e)
    case Ok(t) =>
      var pref := GetPref(ctx, ta, shift);
      if ta !in hours then Err(KeyError)
      else
        var balance := BalanceBoost(t.min_hours, hours[ta]);
        match C.ExperiencePenalty(ctx, ta, shift, schedule)
        case Err(e) => Err(e)
        case Ok(e) =>
          match C.CompanionBoost(ctx, ta, shift, schedule)
          case Err(err) => Err(err)
          case Ok(c) => Ok(pref as real + balance + PenaltyTerm(e) + c as real)
  }

  // ------------------------------------------------------------------
  // score_schedule

  /** The candidate score as a function of (TA, shift), for a fixed
      schedule and hours. */
  function Scorer<Id(==)>(ctx: Ctx<Id>, schedule: map<Id, Assignment<Id>>, hours: map<Id, real>)
    : (Id, Id) -> Result<real, PyError>
  {
    (ta, shift) => CandidateScore(ctx, ta, shift, schedule, hours)
  }

  predicate Scorable<Id>(f: (Id, Id) -> Result<real, PyError>, ps: seq<S.Placement<Id>>) {
    forall i :: 0 <= i < |ps| ==> f(ps[i].ta, ps[i].shift).Ok?
  }

  /** Each placement's weighted score. */
  function ScoreTerms<Id>(f: (Id, Id) -> Result<real, PyError>, ps: seq<S.Placement<Id>>): (r: seq<real>)
    requires Scorable(f, ps)
    ensures |r| == |ps|
    ensures forall i :: 0 <= i < |ps| ==> r[i] == S.RoleWeight(ps[i].role) * f(ps[i].ta, ps[i].shift).value
  {
    seq(|ps|, i requires 0 <= i < |ps| => S.RoleWeight(ps[i].role) * f(ps[i].ta, ps[i].shift).value)
  }

  /** One role loop of `score_schedule`. */
  function AddScores<Id>(f: (Id, Id) -> Result<real, PyError>, shift: Id, role: Role, tas: seq<Id>, total: real)
    : Result<real, PyError>
    decreases |tas|
  {
    if |tas| == 0 then Ok(total)
    else
      match f(tas[0], shift)
      case Err(e) => Err(e)
      case Ok(v) => AddScores(f, shift, role, tas[1..], total + S.RoleWeight(role) * v)
  }

  function AddShiftScores<Id>(f: (Id, Id) -> Result<real, PyError>, shift: Id, a: Assignment<Id>, total: real)
    : Result<real, PyError>
  {
    match AddScores(f, shift, Lead, a.leads, total)
    case Err(e) => Err(e)
    case Ok(t1) =>
      match AddScores(f, shift, LabTa, a.lab_tas, t1)
      case Err(e) => Err(e)
      case Ok(t2) => AddScores(f, shift, OhTa, a.oh_tas, t2)
  }

  function AddScheduleScores<Id(==)>(f: (Id, Id) -> Result<real, PyError>, schedule: map<Id, Assignment<Id>>,
                                     order: seq<Id>, total: real): Result<real, PyError>
    requires forall i :: 0 <= i < |order| ==> order[i] in schedule
    decreases |order|
  {
    if |order| == 0 then Ok(total)
    else
      match AddShiftScores(f, order[0], schedule[order[0]], total)
      case Err(e) => Err(e)
      case Ok(t) => AddScheduleScores(f, schedule, order[1..], t)
  }

  /** `score_schedule`: succeeds exactly when every placement can be
      scored, and is then the sum of role weight times candidate score
      over all placements. */
  function ScoreSchedule<Id(==)>(ctx: Ctx<Id>, schedule: map<Id, Assignment<Id>>, order: seq<Id>, hours: map<Id, real>)
    : (r: Result<real, PyError>)
    requires KeyOrder(order, schedule)
    ensures var f, ps := Scorer(ctx, schedule, hours), S.Placements(schedule, order);
            && (r.Ok? <==> Scorable(f, ps))
            && (r.Ok? ==> r.value == SumReal(ScoreTerms(f, ps)))
  {
    AddScheduleScoresSum(Scorer(ctx, schedule, hours), schedule, order, 0.0);
    AddScheduleScores(Scorer(ctx, schedule, hours), schedule, order, 0.0)
  }

  lemma ScorableAppend<Id>(f: (Id, Id) -> Result<real, PyError>, a: seq<S.Placement<Id>>, b: seq<S.Placement<Id>>)
    ensures Scorable(f, a + b) <==> Scorable(f, a) && Scorable(f, b)
    ensures Scorable(f, a + b) ==> ScoreTerms(f, a + b) == ScoreTerms(f, a) + ScoreTerms(f, b)
  {
    if Scorable(f, a + b) {
      forall i | 0 <= i < |a| ensures f(a[i].ta, a[i].shift).Ok? {
        assert (a + b)[i] == a[i];
      }
      forall i | 0 <= i < |b| ensures f(b[i].ta, b[i].shift).Ok? {
        assert (a + b)[|a| + i] == b[i];
      }
      TermsAppend(f, a, b);
    }
    if Scorable(f, a) && Scorable(f, b) {
      forall i | 0 <= i < |a + b| ensures f((a + b)[i].ta, (a + b)[i].shift).Ok? {
        if i < |a| { assert (a + b)[i] == a[i]; } else { assert (a + b)[i] == b[i - |a|]; }
      }
    }
  }

  lemma TermsAppend<Id>(f: (Id, Id) -> Result<real, PyError>, a: seq<S.Placement<Id>>, b: seq<S.Placement<Id>>)
    requires Scorable(f, a + b) && Scorable(f, a) && Scorable(f, b)
    ensures ScoreTerms(f, a + b) == ScoreTerms(f, a) + ScoreTerms(f, b)
  {
    var l, x, y := ScoreTerms(f, a + b), ScoreTerms(f, a), ScoreTerms(f, b);
    forall i | 0 <= i < |l| ensures l[i] == (x + y)[i] {
      if i < |a| { assert (a + b)[i] == a[i]; } else { assert (a + b)[i] == b[i - |a|]; }
    }
  }

  /** The role loop adds the weighted scores of its placements, or fails
      when one of them cannot be scored. */
  lemma {:induction false} AddScoresSum<Id>(f: (Id, Id) -> Result<real, PyError>, shift: Id, role: Role, tas: seq<Id>, total: real)
    ensures var ps := S.ListPlacements(shift, role, tas);
            && (AddScores(f, shift, role, tas, total).Ok? <==> Scorable(f, ps))
            && (Scorable(f, ps) ==> AddScores(f, shift, role, tas, total).value == total + SumReal(ScoreTerms(f, ps)))
  {
    AddScoresOk(f, shift, role, tas, total);
    if Scorable(f, S.ListPlacements(shift, role, tas)) {
      AddScoresValue(f, shift, role, tas, total);
    }
  }

  /** The role loop fails exactly when one of its placements cannot be
      scored. */
  lemma {:induction false} AddScoresOk<Id>(f: (Id, Id) -> Result<real, PyError>, shift: Id, role: Role, tas: seq<Id>, total: real)
    ensures AddScores(f, shift, role, tas, total).Ok? <==> Scorable(f, S.ListPlacements(shift, role, tas))
    decreases |tas|
  {
    if |tas| > 0 {
      var ps := S.ListPlacements(shift, role, tas);
      assert ps[1..] == S.ListPlacements(shift, role, tas[1..]);
      ScorableCons(f, ps);
      var r := f(tas[0], shift);
      if r.Ok? {
        AddScoresOk(f, shift, role, tas[1..], total + S.RoleWeight(role) * r.value);
      }
    }
  }

  /** When every placement can be scored, the role loop adds their
      weighted scores to the running total. */
  lemma {:induction false} AddScoresValue<Id>(f: (Id, Id) -> Result<real, PyError>, shift: Id, role: Role, tas: seq<Id>, total: real)
    requires Scorable(f, S.ListPlacements(shift, role, tas))
    ensures AddScores(f, shift, role, tas, total).Ok?
    ensures AddScores(f, shift, role, tas, total).value
            == total + SumReal(ScoreTerms(f, S.ListPlacements(shift, role, tas)))
    decreases |tas|
  {
    AddScoresOk(f, shift, role, tas, total);
    if |tas| > 0 {
      var ps := S.ListPlacements(shift, role, tas);
      assert ps[1..] == S.ListPlacements(shift, role, tas[1..]);
      ScorableCons(f, ps);
      var v := f(tas[0], shift).value;
      AddScoresValue(f, shift, role, tas[1..], total + S.RoleWeight(role) * v);
      SumTermsCons(f, ps);
    }
  }

  /** The summed scores split into the first placement's and the rest's. */
  lemma SumTermsCons<Id>(f: (Id, Id) -> Result<real, PyError>, ps: seq<S.Placement<Id>>)
    requires |ps| > 0 && Scorable(f, ps)
    ensures Scorable(f, ps[1..])
    ensures SumReal(ScoreTerms(f, ps))
            == S.RoleWeight(ps[0].role) * f(ps[0].ta, ps[0].shift).value + SumReal(ScoreTerms(f, ps[1..]))
  {
    ScorableCons(f, ps);
    S.SumRealCons(ScoreTerms(f, ps));
  }

  lemma ScorableCons<Id>(f: (Id, Id) -> Result<real, PyError>, ps: seq<S.Placement<Id>>)
    requires |ps| > 0
    ensures Scorable(f, ps) <==> f(ps[0].ta, ps[0].shift).Ok? && Scorable(f, ps[1..])
    ensures Scorable(f, ps) ==> ScoreTerms(f, ps)[1..] == ScoreTerms(f, ps[1..])
  {
    if f(ps[0].ta, ps[0].shift).Ok? && Scorable(f, ps[1..]) {
      forall i | 0 <= i < |ps| ensures f(ps[i].ta, ps[i].shift).Ok? {
        if i > 0 { assert ps[i] == ps[1..][i - 1]; }
      }
    }
    if Scorable(f, ps) {
      forall i | 0 <= i < |ps| - 1 ensures f(ps[1..][i].ta, ps[1..][i].shift).Ok? {
        assert ps[1..][i] == ps[i + 1];
      }
      var x, y := ScoreTerms(f, ps)[1..], ScoreTerms(f, ps[1..]);
      forall i | 0 <= i < |x| ensures x[i] == y[i] {
        assert ps[1..][i] == ps[i + 1];
      }
    }
  }

  lemma AddShiftScoresSum<Id>(f: (Id, Id) -> Result<real, PyError>, shift: Id, a: Assignment<Id>, total: real)
    ensures var ps := S.ShiftPlacements(shift, a);
            && (AddShiftScores(f, shift, a, total).Ok? <==> Scorable(f, ps))
            && (Scorable(f, ps) ==> AddShiftScores(f, shift, a, total).value == total + SumReal(ScoreTerms(f, ps)))
  {
    var l1 := S.ListPlacements(shift, Lead, a.leads);
    var l2 := S.ListPlacements(shift, LabTa, a.lab_tas);
    var l3 := S.ListPlacements(shift, OhTa, a.oh_tas);
    ScorableAppend(f, l1 + l2, l3);
    ScorableAppend(f, l1, l2);
    AddScoresSum(f, shift, Lead, a.leads, total);
    var r1 := AddScores(f, shift, Lead, a.leads, total);
    if r1.Ok? {
      AddScoresSum(f, shift, LabTa, a.lab_tas, r1.value);
      var r2 := AddScores(f, shift, LabTa, a.lab_tas, r1.value);
      if r2.Ok? {
        AddScoresSum(f, shift, OhTa, a.oh_tas, r2.value);
        if Scorable(f, l1 + l2 + l3) {
          var x1, x2, x3 := ScoreTerms(f, l1), ScoreTerms(f, l2), ScoreTerms(f, l3);
          SumRealAppend(x1 + x2, x3);
          SumRealAppend(x1, x2);
        }
      }
    }
  }

  lemma {:induction false} AddScheduleScoresSum<Id>(f: (Id, Id) -> Result<real, PyError>, schedule: map<Id, Assignment<Id>>,
                                                     order: seq<Id>, total: real)
    requires forall i :: 0 <= i < |order| ==> order[i] in schedule
    ensures var ps := S.Placements(schedule, order);
            && (AddScheduleScores(f, schedule, order, total).Ok? <==> Scorable(f, ps))
            && (Scorable(f, ps) ==> AddScheduleScores(f, schedule, order, total).value == total + SumReal(ScoreTerms(f, ps)))
    decreases |order|
  {
    if |order| > 0 {
      var sp := S.ShiftPlacements(order[0], schedule[order[0]]);
      var rest := S.Placements(schedule, order[1..]);
      ScorableAppend(f, sp, rest);
      AddShiftScoresSum(f, order[0], schedule[order[0]], total);
      var r1 := AddShiftScores(f, order[0], schedule[order[0]], total);
      if r1.Ok? {
        AddScheduleScoresSum(f, schedule, order[1..], r1.value);
        if Scorable(f, sp + rest) {
          SumRealAppend(ScoreTerms(f, sp), ScoreTerms(f, rest));
        }
      }
    }
  }

  /** A schedule with nobody on any shift scores 0 without reading
      anything. */
  lemma EmptyScheduleScoresZero<Id>(ctx: Ctx<Id>, schedule: map<Id, Assignment<Id>>, order: seq<Id>, hours: map<Id, real>)
    requires KeyOrder(order, schedule)
    requires forall k :: k in schedule ==> |AllOnShift(schedule[k])| == 0
    ensures ScoreSchedule(ctx, schedule, order, hours) == Ok(0.0)
  {
    forall i | 0 <= i < |order| ensures order[i] in schedule && |AllOnShift(schedule[order[i]])| == 0 {
      var k := order[i];
      assert k in schedule;
      assert |AllOnShift(schedule[k])| == 0;
    }
    S.NoPlacements(schedule, order);
  }
}
