/** The budget reducer of src/algorithm/reducer.py: the reduced fairness
    floor, and the loop that empties whole shifts, least important first,
    until the schedule's cost fits the budget. The reducer works on the
    integer-id context with the index-based lookups of DataAccess and the
    cost of Scoring. */
module Reducer {
  import opened Util
  import opened Py
  import opened AlgContext
  import D = DataAccess
  import C = ConstraintHelpers
  import K = Constraints
  import S = Scoring

  /** The default `threshold` of `apply_reduced_fairness_floor`. */
  const DefaultThreshold: real := 0.9

  /** The loop stops once the number of removals exceeds this. */
  const RemovalLimit: nat := 100

  // ------------------------------------------------------------------
  // Reduced fairness floor

  /** The number of TFs among the TAs. */
  function NumTfs<Id>(tas: seq<Ta<Id>>): (n: nat)
    ensures n <= |tas|
  {
    if |tas| == 0 then 0 else NumTfs(tas[..|tas| - 1]) + (if tas[|tas| - 1].is_tf then 1 else 0)
  }

  /** The pay of one hour from every TA. */
  function PayPerHour<Id>(tas: seq<Ta<Id>>): real {
    NumTfs(tas) as real * S.TfHourlyRate + (|tas| - NumTfs(tas)) as real * S.TaHourlyRate
  }

  /** The blended hourly rate, which lies between the two rates. */
  function BlendedRate<Id>(tas: seq<Ta<Id>>): (r: real)
    requires |tas| > 0
    ensures S.TaHourlyRate <= r <= S.TfHourlyRate
    ensures r * |tas| as real == PayPerHour(tas)
  {
    var n, tfs := |tas| as real, NumTfs(tas) as real;
    var r := PayPerHour(tas) / n;
    var gap := S.TfHourlyRate - S.TaHourlyRate;
    assert r * n == PayPerHour(tas);
    assert (r - S.TaHourlyRate) * n == tfs * gap;
    assert (S.TfHourlyRate - r) * n == (n - tfs) * gap;
    SignOfProduct(tfs, gap);
    SignOfProduct(n - tfs, gap);
    SignOfFactor(r - S.TaHourlyRate, n);
    SignOfFactor(S.TfHourlyRate - r, n);
    r
  }

  lemma SignOfProduct(a: real, b: real)
    requires a >= 0.0 && b >= 0.0
    ensures a * b >= 0.0
  {
  }

  lemma SignOfFactor(a: real, n: real)
    requires n > 0.0 && a * n >= 0.0
    ensures a >= 0.0
  {
    assert a == (a * n) / n;
  }

  /** The hours per TA the budget buys at the blended rate, times the
      threshold. */
  function FairnessFloor<Id>(tas: seq<Ta<Id>>, budget: real, threshold: real): real
    requires |tas| > 0
  {
    budget / BlendedRate(tas) / |tas| as real * threshold
  }

  /** `apply_reduced_fairness_floor`: every `min_hours` is lowered to the
      truncated floor when it is above it, and is otherwise kept. With no
      TAs the blended rate divides by zero. */
  function ApplyReducedFairnessFloor<Id>(ctx: Ctx<Id>, budget: real, threshold: real): (r: Result<Ctx<Id>, PyError>)
    ensures r.Err? <==> |ctx.tas| == 0
    ensures r.Err? ==> r.error == ZeroDivisionError
    ensures r.Ok? ==> r.value.shifts == ctx.shifts && r.value.prefs == ctx.prefs && |r.value.tas| == |ctx.tas|
    ensures r.Ok? ==> forall i :: 0 <= i < |ctx.tas| ==>
              var floor := K.Trunc(FairnessFloor(ctx.tas, budget, threshold)) as real;
              && r.value.tas[i] == ctx.tas[i].(min_hours := r.value.tas[i].min_hours)
              && r.value.tas[i].min_hours <= ctx.tas[i].min_hours
              && r.value.tas[i].min_hours <= floor
              && (r.value.tas[i].min_hours == ctx.tas[i].min_hours || r.value.tas[i].min_hours == floor)
  {
    if |ctx.tas| == 0 then Err(ZeroDivisionError)
    else
      var floor := K.Trunc(FairnessFloor(ctx.tas, budget, threshold)) as real;
      Ok(ctx.(tas := seq(|ctx.tas|, i requires 0 <= i < |ctx.tas| =>
                           ctx.tas[i].(min_hours := C.RMin(ctx.tas[i].min_hours, floor)))))
  }

  /** Only `min_hours` changes, so the TF count and the floor do not. */
  lemma {:induction false} NumTfsFrame<Id>(a: seq<Ta<Id>>, b: seq<Ta<Id>>)
    requires |a| == |b| && forall i :: 0 <= i < |a| ==> a[i].is_tf == b[i].is_tf
    ensures NumTfs(a) == NumTfs(b)
    decreases |a|
  {
    if |a| > 0 {
      NumTfsFrame(a[..|a| - 1], b[..|b| - 1]);
    }
  }

  /** Applying the reduced floor a second time changes nothing. */
  lemma ReducedFloorIdempotent<Id>(ctx: Ctx<Id>, budget: real, threshold: real)
    requires |ctx.tas| > 0
    ensures var once := ApplyReducedFairnessFloor(ctx, budget, threshold).value;
            ApplyReducedFairnessFloor(once, budget, threshold) == Ok(once)
  {
    var once := ApplyReducedFairnessFloor(ctx, budget, threshold).value;
    NumTfsFrame(ctx.tas, once.tas);
    assert FairnessFloor(once.tas, budget, threshold) == FairnessFloor(ctx.tas, budget, threshold);
    var twice := ApplyReducedFairnessFloor(once, budget, threshold).value;
    assert twice.tas == once.tas;
  }

  /** The TAs' hourly rates, in order. */
  function Rates<Id>(tas: seq<Ta<Id>>): (r: seq<real>)
    ensures |r| == |tas| && forall i :: 0 <= i < |tas| ==> r[i] == S.Rate(tas[i])
  {
    seq(|tas|, i requires 0 <= i < |tas| => S.Rate(tas[i]))
  }

  lemma {:induction false} RatesSum<Id>(tas: seq<Ta<Id>>)
    ensures SumReal(Rates(tas)) == PayPerHour(tas)
    decreases |tas|
  {
    if |tas| > 0 {
      var init := tas[..|tas| - 1];
      RatesSum(init);
      assert Rates(tas)[..|tas| - 1] == Rates(init);
    }
  }

  /** A sum of multiples of h is h times the sum. */
  lemma {:induction false} SumRealScale(xs: seq<real>, ys: seq<real>, h: real)
    requires |xs| == |ys| && forall i :: 0 <= i < |xs| ==> xs[i] == h * ys[i]
    ensures SumReal(xs) == h * SumReal(ys)
    decreases |xs|
  {
    if |xs| > 0 {
      var n := |xs| - 1;
      SumRealScale(xs[..n], ys[..n], h);
      Distribute(h, SumReal(ys[..n]), ys[n]);
    }
  }

  /** The floor is what the budget affords: if every TA works exactly the
      floor, the cost is the threshold's share of the budget. */
  lemma FloorAffordable(tas: seq<Ta<int>>, hours: map<int, real>, budget: real, threshold: real)
    requires |tas| > 0 && S.AllHoursKnown(tas, hours)
    requires forall i :: 0 <= i < |tas| ==> hours[tas[i].ta_id] == FairnessFloor(tas, budget, threshold)
    ensures S.CalculateCost(tas, hours) == Ok(budget * threshold)
  {
    FloorCostSum(tas, hours, budget, threshold);
    CostIsSum(tas, hours);
  }

  lemma FloorCostSum(tas: seq<Ta<int>>, hours: map<int, real>, budget: real, threshold: real)
    requires |tas| > 0 && S.AllHoursKnown(tas, hours)
    requires forall i :: 0 <= i < |tas| ==> hours[tas[i].ta_id] == FairnessFloor(tas, budget, threshold)
    ensures SumReal(S.CostTerms(tas, hours)) == budget * threshold
  {
    UniformCost(tas, hours, FairnessFloor(tas, budget, threshold));
    RatesSum(tas);
    FloorTimesPay(tas, budget, threshold);
  }

  lemma CostIsSum(tas: seq<Ta<int>>, hours: map<int, real>)
    requires S.AllHoursKnown(tas, hours)
    ensures S.CalculateCost(tas, hours) == Ok(SumReal(S.CostTerms(tas, hours)))
  {
  }

  /** When every TA works the same h hours the cost is h times the pay
      per hour. */
  lemma UniformCost(tas: seq<Ta<int>>, hours: map<int, real>, h: real)
    requires S.AllHoursKnown(tas, hours)
    requires forall i :: 0 <= i < |tas| ==> hours[tas[i].ta_id] == h
    ensures SumReal(S.CostTerms(tas, hours)) == h * SumReal(Rates(tas))
  {
    var terms, rates := S.CostTerms(tas, hours), Rates(tas);
    assert SumReal(terms) == h * SumReal(rates) by {
      TermsAtUniformHours(tas, hours, h);
      SumRealScale(terms, rates, h);
    }
  }

  lemma TermsAtUniformHours(tas: seq<Ta<int>>, hours: map<int, real>, h: real)
    requires S.AllHoursKnown(tas, hours)
    requires forall i :: 0 <= i < |tas| ==> hours[tas[i].ta_id] == h
    ensures forall i :: 0 <= i < |tas| ==> S.CostTerms(tas, hours)[i] == h * Rates(tas)[i]
  {
  }

  lemma FloorTimesPay<Id>(tas: seq<Ta<Id>>, budget: real, threshold: real)
    requires |tas| > 0
    ensures FairnessFloor(tas, budget, threshold) * PayPerHour(tas) == budget * threshold
  {
    var b, n := BlendedRate(tas), |tas| as real;
    Cancel(budget, b, n, threshold);
  }

  lemma Distribute(h: real, a: real, b: real)
    ensures h * (a + b) == h * a + h * b
  {
  }

  lemma Cancel(x: real, b: real, n: real, t: real)
    requires b > 0.0 && n > 0.0
    ensures x / b / n * t * (b * n) == x * t
  {
    var q := x / b / n;
    assert q * n == x / b;
    assert q * n * b == x;
    assert q * t * (b * n) == (q * n * b) * t;
  }

  // ------------------------------------------------------------------
  // The inner helpers of reduce_schedule

  /** A shift with anyone on it: the truthiness test of its three lists. */
  predicate Staffed(a: Assignment<int>) {
    |a.leads| > 0 || |a.lab_tas| > 0 || |a.oh_tas| > 0
  }

  /** The entry with its three lists emptied and its flag kept. */
  function Emptied(a: Assignment<int>): (b: Assignment<int>)
    ensures !Staffed(b) && AllOnShift(b) == [] && b.unschedulable == a.unschedulable
    ensures !Staffed(a) ==> b == a
  {
    a.(leads := [], lab_tas := [], oh_tas := [])
  }

  /** Losing d hours leaves the TA at or above its `min_hours`. */
  predicate KeepsMinimum(ctx: Ctx<int>, hours: map<int, real>, ta: int, d: real) {
    D.GetTa(ctx, ta).Ok? && ta in hours && hours[ta] - d >= D.GetTa(ctx, ta).value.min_hours
  }

  /** The TA's record and hours can both be looked up. */
  predicate Known(ctx: Ctx<int>, hours: map<int, real>, ta: int) {
    D.GetTa(ctx, ta).Ok? && ta in hours
  }

  /** The loop of `can_remove`: the first TA who would fall below its
      minimum answers no; a lookup that fails before that raises. */
  function CheckMinimums(ctx: Ctx<int>, tas: seq<int>, hours: map<int, real>, d: real): (r: Result<bool, PyError>)
    ensures r == Ok(true) <==> forall i :: 0 <= i < |tas| ==> KeepsMinimum(ctx, hours, tas[i], d)
    ensures r == Ok(false) ==> exists i :: 0 <= i < |tas| && Known(ctx, hours, tas[i]) && !KeepsMinimum(ctx, hours, tas[i], d)
    ensures r.Err? ==> (r.error == IndexError || r.error == KeyError)
                       && exists i :: 0 <= i < |tas| && !Known(ctx, hours, tas[i])
    decreases |tas|
  {
    if |tas| == 0 then Ok(true)
    else
      match D.GetTa(ctx, tas[0])
      case Err(e) => Err(e)
      case Ok(t) =>
        if tas[0] !in hours then Err(KeyError)
        else if hours[tas[0]] - d < t.min_hours then Ok(false)
        else
          var r := CheckMinimums(ctx, tas[1..], hours, d);
          assert forall i :: 0 <= i < |tas| - 1 ==> tas[1..][i] == tas[i + 1];
          r
  }

  /** `can_remove`: yes exactly when the shift and its entry exist and
      every TA on it keeps its minimum without the shift's hours. */
  function CanRemove(ctx: Ctx<int>, schedule: map<int, Assignment<int>>, hours: map<int, real>, sid: int)
    : (r: Result<bool, PyError>)
    ensures r == Ok(true) <==>
              && D.GetShift(ctx, sid).Ok? && sid in schedule
              && forall i :: 0 <= i < |AllOnShift(schedule[sid])| ==>
                   KeepsMinimum(ctx, hours, AllOnShift(schedule[sid])[i], DurationHours(D.GetShift(ctx, sid).value))
  {
    match D.GetShift(ctx, sid)
    case Err(e) => Err(e)
    case Ok(s) =>
      if sid !in schedule then Err(KeyError)
      else CheckMinimums(ctx, AllOnShift(schedule[sid]), hours, DurationHours(s))
  }

  /** `hours_assigned[ta_id] += delta` for each listed TA in turn; a TA
      listed twice is adjusted twice. */
  function AdjustHours(hours: map<int, real>, tas: seq<int>, delta: real): (r: Result<map<int, real>, PyError>)
    ensures r.Ok? <==> forall i :: 0 <= i < |tas| ==> tas[i] in hours
    ensures r.Err? ==> r.error == KeyError
    ensures r.Ok? ==> r.value.Keys == hours.Keys
    decreases |tas|
  {
    if |tas| == 0 then Ok(hours)
    else if tas[0] !in hours then Err(KeyError)
    else
      assert forall i :: 0 <= i < |tas| - 1 ==> tas[1..][i] == tas[i + 1];
      AdjustHours(hours[tas[0] := hours[tas[0]] + delta], tas[1..], delta)
  }

  /** delta added to itself n times. */
  function Repeat(n: nat, delta: real): real {
    if n == 0 then 0.0 else Repeat(n - 1, delta) + delta
  }

  lemma {:induction false} RepeatCancels(n: nat, d: real)
    ensures Repeat(n, -d) + Repeat(n, d) == 0.0
  {
    if n > 0 {
      RepeatCancels(n - 1, d);
    }
  }

  /** Each TA's entry moves by delta once per time it is listed. */
  lemma {:induction false} AdjustHoursEffect(hours: map<int, real>, tas: seq<int>, delta: real)
    requires AdjustHours(hours, tas, delta).Ok?
    ensures forall t :: t in hours ==> AdjustHours(hours, tas, delta).value[t] == hours[t] + Repeat(multiset(tas)[t], delta)
    decreases |tas|
  {
    if |tas| > 0 {
      var h1 := hours[tas[0] := hours[tas[0]] + delta];
      var rest := tas[1..];
      AdjustHoursEffect(h1, rest, delta);
      assert AdjustHours(hours, tas, delta) == AdjustHours(h1, rest, delta);
      assert tas == [tas[0]] + rest;
      forall t | t in hours ensures AdjustHours(hours, tas, delta).value[t] == hours[t] + Repeat(multiset(tas)[t], delta) {
        var n := multiset(rest)[t];
        assert multiset(tas)[t] == (if tas[0] == t then n + 1 else n);
        if tas[0] == t {
          assert Repeat(n + 1, delta) == Repeat(n, delta) + delta;
        }
      }
    }
  }

  /** Taking d hours from the listed TAs and giving them back restores
      every entry, as `removal_score` relies on. */
  lemma AdjustRestores(hours: map<int, real>, tas: seq<int>, d: real)
    requires AdjustHours(hours, tas, -d).Ok?
    ensures AdjustHours(AdjustHours(hours, tas, -d).value, tas, d) == Ok(hours)
  {
    var h1 := AdjustHours(hours, tas, -d).value;
    var h2 := AdjustHours(h1, tas, d).value;
    AdjustHoursEffect(hours, tas, -d);
    AdjustHoursEffect(h1, tas, d);
    forall t | t in hours ensures h2[t] == hours[t] {
      RepeatCancels(multiset(tas)[t], d);
    }
    assert h2 == hours;
  }

  // ------------------------------------------------------------------
  // Spread of the hours

  function Mean(hs: seq<real>): real
    requires |hs| > 0
  {
    SumReal(hs) / |hs| as real
  }

  function Product(a: real, b: real): real {
    a * b
  }

  lemma ProductPositive(a: real, b: real)
    requires (a > 0.0 && b > 0.0) || (a < 0.0 && b < 0.0)
    ensures Product(a, b) > 0.0
  {
    if a < 0.0 {
      assert a * b == (-a) * (-b);
    }
  }

  lemma SquareSign(x: real)
    ensures Product(x, x) >= 0.0
    ensures Product(x, x) == 0.0 <==> x == 0.0
  {
    if x != 0.0 {
      ProductPositive(x, x);
    }
  }

  /** x squared, which is zero only at zero. */
  function Square(x: real): (r: real)
    ensures r >= 0.0
    ensures r == 0.0 <==> x == 0.0
  {
    SquareSign(x);
    Product(x, x)
  }

  function SquaredDeviations(hs: seq<real>, m: real): (r: seq<real>)
    ensures |r| == |hs| && forall i :: 0 <= i < |hs| ==> r[i] == Square(hs[i] - m)
  {
    seq(|hs|, i requires 0 <= i < |hs| => Square(hs[i] - m))
  }

  /** The population variance. `hours_std_dev` returns its square root,
      which orders candidates the same way. */
  function Variance(hs: seq<real>): (v: real)
    requires |hs| > 0
    ensures v >= 0.0
  {
    var sq := SquaredDeviations(hs, Mean(hs));
    SumRealNonNeg(sq);
    SumReal(sq) / |hs| as real
  }

  /** A sum of terms that are not negative is at least each term. */
  lemma {:induction false} SumRealAtLeastTerm(xs: seq<real>, k: nat)
    requires forall i :: 0 <= i < |xs| ==> xs[i] >= 0.0
    requires k < |xs|
    ensures SumReal(xs) >= xs[k]
    decreases |xs|
  {
    var init := xs[..|xs| - 1];
    SumRealNonNeg(init);
    if k < |xs| - 1 {
      SumRealAtLeastTerm(init, k);
    }
  }

  /** The spread is zero exactly when every TA has the mean: lower means
      more even. */
  lemma SpreadZeroIffEven(hs: seq<real>)
    requires |hs| > 0
    ensures Variance(hs) == 0.0 <==> forall i :: 0 <= i < |hs| ==> hs[i] == Mean(hs)
  {
    var m := Mean(hs);
    var sq := SquaredDeviations(hs, m);
    SumRealNonNeg(sq);
    if Variance(hs) == 0.0 {
      forall i | 0 <= i < |hs| ensures hs[i] == m {
        if hs[i] != m {
          assert sq[i] > 0.0;
          SumRealAtLeastTerm(sq, i);
          QuotientPositive(SumReal(sq), |hs| as real);
          assert false;
        }
      }
    }
    if forall i :: 0 <= i < |hs| ==> hs[i] == m {
      forall i | 0 <= i < |sq| ensures sq[i] <= 0.0 {
        assert hs[i] - m == 0.0;
      }
      S.SumRealAtMost(sq, 0.0);
    }
  }

  lemma QuotientPositive(a: real, n: real)
    requires a > 0.0 && n > 0.0
    ensures a / n > 0.0
  {
  }

  /** The hours of the TAs in metadata order; a missing entry raises. */
  function HoursOf(ctx: Ctx<int>, hours: map<int, real>): (r: Result<seq<real>, PyError>)
    ensures r.Ok? <==> S.AllHoursKnown(ctx.tas, hours)
    ensures r.Ok? ==> |r.value| == |ctx.tas| && forall i :: 0 <= i < |ctx.tas| ==> r.value[i] == hours[ctx.tas[i].ta_id]
  {
    AllOk(ctx.tas, (t: Ta<int>) => if t.ta_id in hours then Ok(hours[t.ta_id]) else Err(KeyError))
  }

  /** `hours_std_dev`, squared: the variance of the TAs' hours. No TAs
      divides by zero. */
  function HoursSpread(ctx: Ctx<int>, hours: map<int, real>): (r: Result<real, PyError>)
    ensures r.Ok? <==> S.AllHoursKnown(ctx.tas, hours) && |ctx.tas| > 0
    ensures r.Ok? ==> r.value >= 0.0 && r.value == Variance(HoursOf(ctx, hours).value)
  {
    match HoursOf(ctx, hours)
    case Err(e) => Err(e)
    case Ok(hs) => if |hs| == 0 then Err(ZeroDivisionError) else Ok(Variance(hs))
  }

  // ------------------------------------------------------------------
  // Removing a shift

  /** What the reducer keeps between rounds. */
  datatype Reduced = Reduced(schedule: map<int, Assignment<int>>, hours: map<int, real>)

  /** `remove_shift`: the TAs on the shift lose its hours, once per
      listing, and the shift's three lists are emptied. */
  function RemoveShift(ctx: Ctx<int>, schedule: map<int, Assignment<int>>, hours: map<int, real>, sid: int)
    : (r: Result<Reduced, PyError>)
    ensures r.Ok? <==> D.GetShift(ctx, sid).Ok? && sid in schedule
                       && forall i :: 0 <= i < |AllOnShift(schedule[sid])| ==> AllOnShift(schedule[sid])[i] in hours
    ensures r.Ok? ==> && r.value.schedule.Keys == schedule.Keys
                      && r.value.schedule[sid] == Emptied(schedule[sid])
                      && (forall k :: k in schedule && k != sid ==> r.value.schedule[k] == schedule[k])
                      && r.value.hours.Keys == hours.Keys
  {
    match D.GetShift(ctx, sid)
    case Err(e) => Err(e)
    case Ok(s) =>
      if sid !in schedule then Err(KeyError)
      else
        match AdjustHours(hours, AllOnShift(schedule[sid]), -DurationHours(s))
        case Err(e) => Err(e)
        case Ok(h) => Ok(Reduced(schedule[sid := Emptied(schedule[sid])], h))
  }

  /** Each TA on the removed shift loses the shift's hours once per
      listing; everyone else keeps theirs. */
  lemma RemoveShiftHours(ctx: Ctx<int>, schedule: map<int, Assignment<int>>, hours: map<int, real>, sid: int)
    requires RemoveShift(ctx, schedule, hours, sid).Ok?
    ensures var tas, d := AllOnShift(schedule[sid]), DurationHours(D.GetShift(ctx, sid).value);
            forall t :: t in hours ==>
              RemoveShift(ctx, schedule, hours, sid).value.hours[t] == hours[t] + Repeat(multiset(tas)[t], -d)
  {
    var tas, d := AllOnShift(schedule[sid]), DurationHours(D.GetShift(ctx, sid).value);
    RemoveShiftAdjusts(ctx, schedule, hours, sid);
    AdjustHoursEffect(hours, tas, -d);
  }

  /** The hours after `remove_shift` are those of AdjustHours with the
      shift's negated duration. */
  lemma RemoveShiftAdjusts(ctx: Ctx<int>, schedule: map<int, Assignment<int>>, hours: map<int, real>, sid: int)
    requires RemoveShift(ctx, schedule, hours, sid).Ok?
    ensures var d := DurationHours(D.GetShift(ctx, sid).value);
            AdjustHours(hours, AllOnShift(schedule[sid]), -d).Ok?
            && RemoveShift(ctx, schedule, hours, sid).value.hours
               == AdjustHours(hours, AllOnShift(schedule[sid]), -d).value
  {
  }

  lemma RemoveShiftHoursAt(ctx: Ctx<int>, schedule: map<int, Assignment<int>>, hours: map<int, real>, sid: int, t: int)
    requires RemoveShift(ctx, schedule, hours, sid).Ok? && t in hours
    ensures var tas, d := AllOnShift(schedule[sid]), DurationHours(D.GetShift(ctx, sid).value);
            RemoveShift(ctx, schedule, hours, sid).value.hours[t] == hours[t] + Repeat(multiset(tas)[t], -d)
  {
    RemoveShiftHours(ctx, schedule, hours, sid);
  }

  /** `removal_score`: the spread the hours would have without the shift.
      The hours are taken away and given back, which leaves them as they
      were (AdjustRestores). */
  function RemovalScore(ctx: Ctx<int>, schedule: map<int, Assignment<int>>, hours: map<int, real>, sid: int)
    : (r: Result<real, PyError>)
    ensures r.Ok? ==> RemoveShift(ctx, schedule, hours, sid).Ok?
                      && HoursSpread(ctx, RemoveShift(ctx, schedule, hours, sid).value.hours) == r
    ensures RemoveShift(ctx, schedule, hours, sid).Ok? && r.Err? ==>
              HoursSpread(ctx, RemoveShift(ctx, schedule, hours, sid).value.hours) == Err(r.error)
  {
    match D.GetShift(ctx, sid)
    case Err(e) => Err(e)
    case Ok(s) =>
      if sid !in schedule then Err(KeyError)
      else
        var tas, d := AllOnShift(schedule[sid]), DurationHours(s);
        match AdjustHours(hours, tas, -d)
        case Err(e) => Err(e)
        case Ok(without) =>
          AdjustBackOk(hours, tas, d);
          assert RemoveShift(ctx, schedule, hours, sid).value.hours == without;
          match HoursSpread(ctx, without)
          case Err(e) => Err(e)
          case Ok(v) =>
            match AdjustHours(without, tas, d)
            case Err(e) => Err(e)
            case Ok(_) => Ok(v)
  }

  /** Giving the hours back never fails once taking them succeeded. */
  lemma AdjustBackOk(hours: map<int, real>, tas: seq<int>, d: real)
    requires AdjustHours(hours, tas, -d).Ok?
    ensures AdjustHours(AdjustHours(hours, tas, -d).value, tas, d).Ok?
  {
    var h1 := AdjustHours(hours, tas, -d).value;
    assert forall i :: 0 <= i < |tas| ==> tas[i] in h1;
  }

  // ------------------------------------------------------------------
  // Choosing the shift to remove

  /** The test of the `removable` comprehension: staffed, not marked
      unschedulable, and `can_remove`, evaluated in that order. */
  function RemovableTest(ctx: Ctx<int>, schedule: map<int, Assignment<int>>, hours: map<int, real>, sid: int)
    : Result<bool, PyError>
    requires sid in schedule
  {
    if Staffed(schedule[sid]) && !schedule[sid].unschedulable then CanRemove(ctx, schedule, hours, sid) else Ok(false)
  }

  predicate IsRemovable(ctx: Ctx<int>, schedule: map<int, Assignment<int>>, hours: map<int, real>, sid: int) {
    && sid in schedule && Staffed(schedule[sid]) && !schedule[sid].unschedulable
    && CanRemove(ctx, schedule, hours, sid) == Ok(true)
  }

  /** The `removable` list, in dictionary order: exactly the shifts that
      pass the test. The first failing test raises. */
  function Removable(ctx: Ctx<int>, schedule: map<int, Assignment<int>>, hours: map<int, real>, order: seq<int>)
    : (r: Result<seq<int>, PyError>)
    requires forall i :: 0 <= i < |order| ==> order[i] in schedule
    ensures r.Ok? <==> forall i :: 0 <= i < |order| ==> RemovableTest(ctx, schedule, hours, order[i]).Ok?
    ensures r.Ok? ==> forall x :: x in r.value <==> x in order && IsRemovable(ctx, schedule, hours, x)
    decreases |order|
  {
    if |order| == 0 then Ok([])
    else
      assert forall i :: 0 <= i < |order| - 1 ==> order[1..][i] == order[i + 1];
      match RemovableTest(ctx, schedule, hours, order[0])
      case Err(e) => Err(e)
      case Ok(keep) =>
        match Removable(ctx, schedule, hours, order[1..])
        case Err(e) => Err(e)
        case Ok(rest) =>
          assert order == [order[0]] + order[1..];
          Ok((if keep then [order[0]] else []) + rest)
  }

  /** Python's tuple order on (priority, spread). */
  predicate KeyBefore(a: (int, real), b: (int, real)) {
    a.0 < b.0 || (a.0 == b.0 && a.1 < b.1)
  }

  /** The head of the stable ascending sort: a least key, and the first
      of the least keys. */
  function FirstLeast(keys: seq<(int, real)>): (m: nat)
    requires |keys| > 0
    ensures m < |keys|
    ensures forall j :: 0 <= j < |keys| ==> !KeyBefore(keys[j], keys[m])
    ensures forall j :: 0 <= j < m ==> KeyBefore(keys[m], keys[j])
    decreases |keys|
  {
    if |keys| == 1 then 0
    else
      var init := keys[..|keys| - 1];
      var m := FirstLeast(init);
      assert forall j :: 0 <= j < |init| ==> init[j] == keys[j];
      if KeyBefore(keys[|keys| - 1], keys[m]) then |keys| - 1 else m
  }

  /** The two properties single the position out. */
  lemma FirstLeastUnique(keys: seq<(int, real)>, m: nat)
    requires m < |keys|
    requires forall j :: 0 <= j < |keys| ==> !KeyBefore(keys[j], keys[m])
    requires forall j :: 0 <= j < m ==> KeyBefore(keys[m], keys[j])
    ensures FirstLeast(keys) == m
  {
  }

  /** The sort key of a candidate: its priority, then its removal score.
      The priority is evaluated first. */
  function SortKey(ctx: Ctx<int>, priority: int -> Result<int, PyError>, schedule: map<int, Assignment<int>>,
                   hours: map<int, real>, sid: int): (r: Result<(int, real), PyError>)
    ensures r.Ok? <==> priority(sid).Ok? && RemovalScore(ctx, schedule, hours, sid).Ok?
    ensures r.Ok? ==> r.value == (priority(sid).value, RemovalScore(ctx, schedule, hours, sid).value)
    ensures priority(sid).Err? ==> r == Err(priority(sid).error)
  {
    match priority(sid)
    case Err(e) => Err(e)
    case Ok(p) =>
      match RemovalScore(ctx, schedule, hours, sid)
      case Err(e) => Err(e)
      case Ok(v) => Ok((p, v))
  }

  /** `removable.sort(...)` followed by `removable[0]`: every key is
      computed, in list order, and the position of the first least key is
      taken. */
  function Choose(ctx: Ctx<int>, priority: int -> Result<int, PyError>, schedule: map<int, Assignment<int>>,
                  hours: map<int, real>, cands: seq<int>): (r: Result<nat, PyError>)
    requires |cands| > 0
    ensures r.Ok? <==> forall i :: 0 <= i < |cands| ==> SortKey(ctx, priority, schedule, hours, cands[i]).Ok?
    ensures r.Ok? ==> r.value < |cands|
    ensures r.Ok? ==> var m := r.value;
                      && (forall j :: 0 <= j < |cands| ==>
                            !KeyBefore(SortKey(ctx, priority, schedule, hours, cands[j]).value,
                                       SortKey(ctx, priority, schedule, hours, cands[m]).value))
                      && (forall j :: 0 <= j < m ==>
                            KeyBefore(SortKey(ctx, priority, schedule, hours, cands[m]).value,
                                      SortKey(ctx, priority, schedule, hours, cands[j]).value))
  {
    var key := (sid: int) => SortKey(ctx, priority, schedule, hours, sid);
    match AllOk(cands, key)
    case Err(e) => Err(e)
    case Ok(keys) =>
      FirstLeastOf(cands, key);
      Ok(FirstLeast(keys))
  }

  /** FirstLeast over the keys of the candidates, stated per candidate. */
  lemma FirstLeastOf(cands: seq<int>, key: int -> Result<(int, real), PyError>)
    requires |cands| > 0 && AllOk(cands, key).Ok?
    ensures var m := FirstLeast(AllOk(cands, key).value);
      && m < |cands|
      && (forall j :: 0 <= j < |cands| ==> !KeyBefore(key(cands[j]).value, key(cands[m]).value))
      && (forall j :: 0 <= j < m ==> KeyBefore(key(cands[m]).value, key(cands[j]).value))
  {
    var keys := AllOk(cands, key).value;
    var m := FirstLeast(keys);
    forall j | 0 <= j < |cands| ensures !KeyBefore(key(cands[j]).value, key(cands[m]).value) {
      assert keys[j] == key(cands[j]).value && keys[m] == key(cands[m]).value;
    }
    forall j | 0 <= j < m ensures KeyBefore(key(cands[m]).value, key(cands[j]).value) {
      assert keys[j] == key(cands[j]).value && keys[m] == key(cands[m]).value;
    }
  }

  /** Keys are computed from the front, so a first candidate whose key
      raises decides the error. */
  lemma ChooseFirstError(ctx: Ctx<int>, priority: int -> Result<int, PyError>, schedule: map<int, Assignment<int>>,
                         hours: map<int, real>, cands: seq<int>)
    requires |cands| > 0 && SortKey(ctx, priority, schedule, hours, cands[0]).Err?
    ensures Choose(ctx, priority, schedule, hours, cands) == Err(SortKey(ctx, priority, schedule, hours, cands[0]).error)
  {
    AllOkFirstError(cands, (sid: int) => SortKey(ctx, priority, schedule, hours, sid));
  }

  // ------------------------------------------------------------------
  // The reduction loop

  /** Why the loop ended: the cost fits, nothing can be removed, or the
      removal count passed the limit. */
  datatype Stop = WithinBudget | NothingRemovable | RemovalCap

  /** The schedule and hours the reducer returns, with the shifts it
      removed, in order, and why it stopped. */
  datatype Outcome = Outcome(schedule: map<int, Assignment<int>>, hours: map<int, real>, removed: seq<int>, stop: Stop)

  /** One removal: the chosen candidate and the state after removing it. */
  datatype Pick = Pick(sid: int, next: Reduced)

  /** The body of the loop once the cost is over the budget: list the
      removable shifts, sort them, look the first one up and remove it.
      None when nothing is removable. */
  function RemoveNext(ctx: Ctx<int>, priority: int -> Result<int, PyError>, schedule: map<int, Assignment<int>>,
                      hours: map<int, real>, order: seq<int>): (r: Result<Option<Pick>, PyError>)
    requires forall i :: 0 <= i < |order| ==> order[i] in schedule
    ensures r.Ok? && r.value.None? <==> Removable(ctx, schedule, hours, order) == Ok([])
    ensures r.Ok? && r.value.Some? ==>
              var p := r.value.value;
              && p.sid in order && IsRemovable(ctx, schedule, hours, p.sid)
              && RemoveShift(ctx, schedule, hours, p.sid) == Ok(p.next)
  {
    match Removable(ctx, schedule, hours, order)
    case Err(e) => Err(e)
    case Ok(cands) =>
      if |cands| == 0 then Ok(None)
      else
        match Choose(ctx, priority, schedule, hours, cands)
        case Err(e) => Err(e)
        case Ok(m) =>
          match D.GetShift(ctx, cands[m])
          case Err(e) => Err(e)
          case Ok(_) =>
            match RemoveShift(ctx, schedule, hours, cands[m])
            case Err(e) => Err(e)
            case Ok(next) => Ok(Some(Pick(cands[m], next)))
  }

  /** The pick is the head of the sorted list: no removable shift has a
      key before the chosen one's, and every key could be computed. */
  lemma RemoveNextChoice(ctx: Ctx<int>, priority: int -> Result<int, PyError>, schedule: map<int, Assignment<int>>,
                         hours: map<int, real>, order: seq<int>)
    requires forall i :: 0 <= i < |order| ==> order[i] in schedule
    requires RemoveNext(ctx, priority, schedule, hours, order).Ok?
    requires RemoveNext(ctx, priority, schedule, hours, order).value.Some?
    ensures var p := RemoveNext(ctx, priority, schedule, hours, order).value.value;
            && SortKey(ctx, priority, schedule, hours, p.sid).Ok?
            && forall c :: c in order && IsRemovable(ctx, schedule, hours, c) ==>
                 && SortKey(ctx, priority, schedule, hours, c).Ok?
                 && !KeyBefore(SortKey(ctx, priority, schedule, hours, c).value,
                               SortKey(ctx, priority, schedule, hours, p.sid).value)
  {
    var cands := Removable(ctx, schedule, hours, order).value;
    assert forall c :: c in order && IsRemovable(ctx, schedule, hours, c) ==>
             exists j :: 0 <= j < |cands| && cands[j] == c;
  }

  /** The `while` loop of `reduce_schedule`, entered with the removals in
      `removed` already done. The shifts it removes are staffed,
      schedulable and removed once each; they end emptied, and every other
      shift is left as it was, so a shift marked unschedulable is never
      touched. */
  function ReduceLoop(ctx: Ctx<int>, priority: int -> Result<int, PyError>, budget: real, order: seq<int>,
                      schedule: map<int, Assignment<int>>, hours: map<int, real>, removed: seq<int>)
    : (r: Result<Outcome, PyError>)
    requires KeyOrder(order, schedule)
    requires |removed| <= RemovalLimit
    ensures r.Ok? ==> r.value.schedule.Keys == schedule.Keys && r.value.hours.Keys == hours.Keys
    ensures r.Ok? ==> |removed| <= |r.value.removed| <= RemovalLimit + 1 && r.value.removed[..|removed|] == removed
    ensures r.Ok? ==> RemovedExactly(schedule, r.value.schedule, r.value.removed[|removed|..])
    decreases RemovalLimit - |removed|
  {
    match S.CalculateCost(ctx.tas, hours)
    case Err(e) => Err(e)
    case Ok(cost) =>
      if cost <= budget then Ok(Outcome(schedule, hours, removed, WithinBudget))
      else
        match RemoveNext(ctx, priority, schedule, hours, order)
        case Err(e) => Err(e)
        case Ok(None) => Ok(Outcome(schedule, hours, removed, NothingRemovable))
        case Ok(Some(p)) =>
          var rm := removed + [p.sid];
          if |removed| + 1 > RemovalLimit then
            LastRemoval(ctx, schedule, hours, p, removed);
            Ok(Outcome(p.next.schedule, p.next.hours, rm, RemovalCap))
          else
            KeyOrderSameKeys(order, schedule, p.next.schedule);
            var r := ReduceLoop(ctx, priority, budget, order, p.next.schedule, p.next.hours, rm);
            if r.Err? then r
            else
              LaterRemovals(ctx, schedule, hours, p, removed, rm, r.value.schedule, r.value.removed);
              r
  }

  /** The loop's bookkeeping when the pick is its last removal. */
  lemma LastRemoval(ctx: Ctx<int>, schedule: map<int, Assignment<int>>, hours: map<int, real>, p: Pick, removed: seq<int>)
    requires IsRemovable(ctx, schedule, hours, p.sid) && RemoveShift(ctx, schedule, hours, p.sid) == Ok(p.next)
    ensures (removed + [p.sid])[..|removed|] == removed
    ensures RemovedExactly(schedule, p.next.schedule, (removed + [p.sid])[|removed|..])
  {
    assert (removed + [p.sid])[|removed|..] == [p.sid];
    RemovedThenMore(schedule, p.next.schedule, p.next.schedule, p.sid, []);
  }

  /** The loop's bookkeeping when the pick is followed by the removals
      of the recursive call. */
  lemma LaterRemovals(ctx: Ctx<int>, schedule: map<int, Assignment<int>>, hours: map<int, real>, p: Pick,
                      removed: seq<int>, rm: seq<int>, after: map<int, Assignment<int>>, all: seq<int>)
    requires IsRemovable(ctx, schedule, hours, p.sid) && RemoveShift(ctx, schedule, hours, p.sid) == Ok(p.next)
    requires rm == removed + [p.sid]
    requires |rm| <= |all| && all[..|rm|] == rm
    requires RemovedExactly(p.next.schedule, after, all[|rm|..])
    ensures all[..|removed|] == removed
    ensures RemovedExactly(schedule, after, all[|removed|..])
  {
    assert |rm| == |removed| + 1;
    assert all[..|removed|] == all[..|removed| + 1][..|removed|];
    SplitAfterPrefix(all, removed, p.sid);
    RemovedThenMore(schedule, p.next.schedule, after, p.sid, all[|removed| + 1..]);
  }

  /** How the loop ends, stated against the state it ends in. */
  lemma {:induction false} ReduceLoopStops(ctx: Ctx<int>, priority: int -> Result<int, PyError>, budget: real,
                                           order: seq<int>, schedule: map<int, Assignment<int>>,
                                           hours: map<int, real>, removed: seq<int>)
    requires KeyOrder(order, schedule) && |removed| <= RemovalLimit
    requires ReduceLoop(ctx, priority, budget, order, schedule, hours, removed).Ok?
    ensures var o := ReduceLoop(ctx, priority, budget, order, schedule, hours, removed).value;
            && (o.stop == RemovalCap <==> |o.removed| == RemovalLimit + 1)
            && (o.stop == WithinBudget ==>
                  S.CalculateCost(ctx.tas, o.hours).Ok? && S.CalculateCost(ctx.tas, o.hours).value <= budget)
            && (o.stop == NothingRemovable ==>
                  && S.CalculateCost(ctx.tas, o.hours).Ok? && S.CalculateCost(ctx.tas, o.hours).value > budget
                  && Removable(ctx, o.schedule, o.hours, order) == Ok([]))
    decreases RemovalLimit - |removed|
  {
    var cost := S.CalculateCost(ctx.tas, hours).value;
    if cost > budget {
      var p := RemoveNext(ctx, priority, schedule, hours, order).value;
      if p.Some? && |removed| + 1 <= RemovalLimit {
        ReduceLoopStops(ctx, priority, budget, order, p.value.next.schedule, p.value.next.hours, removed + [p.value.sid]);
      }
    }
  }

  /** The first removal the loop makes from a state is the one RemoveNext
      picks there, and only when the cost is over the budget. */
  lemma ReduceLoopFirstRemoval(ctx: Ctx<int>, priority: int -> Result<int, PyError>, budget: real,
                               order: seq<int>, schedule: map<int, Assignment<int>>,
                               hours: map<int, real>, removed: seq<int>)
    requires KeyOrder(order, schedule) && |removed| <= RemovalLimit
    requires ReduceLoop(ctx, priority, budget, order, schedule, hours, removed).Ok?
    requires |ReduceLoop(ctx, priority, budget, order, schedule, hours, removed).value.removed| > |removed|
    ensures S.CalculateCost(ctx.tas, hours).Ok? && S.CalculateCost(ctx.tas, hours).value > budget
    ensures var n := RemoveNext(ctx, priority, schedule, hours, order);
            && n.Ok? && n.value.Some?
            && n.value.value.sid == ReduceLoop(ctx, priority, budget, order, schedule, hours, removed).value.removed[|removed|]
  {
    LoopRemovesOverBudget(ctx, priority, budget, order, schedule, hours, removed);
    LoopRemovesPick(ctx, priority, budget, order, schedule, hours, removed);
    LoopRemovesFirstPick(ctx, priority, budget, order, schedule, hours, removed);
  }

  lemma LoopRemovesOverBudget(ctx: Ctx<int>, priority: int -> Result<int, PyError>, budget: real,
                              order: seq<int>, schedule: map<int, Assignment<int>>,
                              hours: map<int, real>, removed: seq<int>)
    requires KeyOrder(order, schedule) && |removed| <= RemovalLimit
    requires ReduceLoop(ctx, priority, budget, order, schedule, hours, removed).Ok?
    requires |ReduceLoop(ctx, priority, budget, order, schedule, hours, removed).value.removed| > |removed|
    ensures S.CalculateCost(ctx.tas, hours).Ok? && S.CalculateCost(ctx.tas, hours).value > budget
  {
    LoopStopsAtOnce(ctx, priority, budget, order, schedule, hours, removed);
  }

  /** Within the budget, or when nothing can be removed, the loop stops
      without a removal. */
  lemma LoopStopsAtOnce(ctx: Ctx<int>, priority: int -> Result<int, PyError>, budget: real,
                        order: seq<int>, schedule: map<int, Assignment<int>>,
                        hours: map<int, real>, removed: seq<int>)
    requires KeyOrder(order, schedule) && |removed| <= RemovalLimit
    ensures var c, r := S.CalculateCost(ctx.tas, hours), ReduceLoop(ctx, priority, budget, order, schedule, hours, removed);
      (c.Err? || c.value <= budget) ==> r.Err? || r.value.removed == removed
    ensures var c, r := S.CalculateCost(ctx.tas, hours), ReduceLoop(ctx, priority, budget, order, schedule, hours, removed);
      var n := RemoveNext(ctx, priority, schedule, hours, order);
      (c.Ok? && c.value > budget && (n.Err? || n.value.None?)) ==> r.Err? || r.value.removed == removed
  {
  }

  lemma LoopRemovesPick(ctx: Ctx<int>, priority: int -> Result<int, PyError>, budget: real,
                        order: seq<int>, schedule: map<int, Assignment<int>>,
                        hours: map<int, real>, removed: seq<int>)
    requires KeyOrder(order, schedule) && |removed| <= RemovalLimit
    requires S.CalculateCost(ctx.tas, hours).Ok? && S.CalculateCost(ctx.tas, hours).value > budget
    requires ReduceLoop(ctx, priority, budget, order, schedule, hours, removed).Ok?
    requires |ReduceLoop(ctx, priority, budget, order, schedule, hours, removed).value.removed| > |removed|
    ensures RemoveNext(ctx, priority, schedule, hours, order).Ok?
    ensures RemoveNext(ctx, priority, schedule, hours, order).value.Some?
  {
    LoopStopsAtOnce(ctx, priority, budget, order, schedule, hours, removed);
  }

  lemma LoopRemovesFirstPick(ctx: Ctx<int>, priority: int -> Result<int, PyError>, budget: real,
                             order: seq<int>, schedule: map<int, Assignment<int>>,
                             hours: map<int, real>, removed: seq<int>)
    requires KeyOrder(order, schedule) && |removed| <= RemovalLimit
    requires S.CalculateCost(ctx.tas, hours).Ok? && S.CalculateCost(ctx.tas, hours).value > budget
    requires RemoveNext(ctx, priority, schedule, hours, order).Ok?
    requires RemoveNext(ctx, priority, schedule, hours, order).value.Some?
    requires ReduceLoop(ctx, priority, budget, order, schedule, hours, removed).Ok?
    requires |ReduceLoop(ctx, priority, budget, order, schedule, hours, removed).value.removed| > |removed|
    ensures RemoveNext(ctx, priority, schedule, hours, order).value.value.sid
            == ReduceLoop(ctx, priority, budget, order, schedule, hours, removed).value.removed[|removed|]
  {
    var r := ReduceLoop(ctx, priority, budget, order, schedule, hours, removed);
    var p := RemoveNext(ctx, priority, schedule, hours, order).value.value;
    if |removed| + 1 > RemovalLimit {
      assert r.value.removed == removed + [p.sid];
    } else {
      KeyOrderSameKeys(order, schedule, p.next.schedule);
      var rm := removed + [p.sid];
      var o := ReduceLoop(ctx, priority, budget, order, p.next.schedule, p.next.hours, rm);
      assert r == o;
      assert o.value.removed[..|rm|] == rm;
      assert o.value.removed[|removed|] == o.value.removed[..|rm|][|removed|];
    }
  }

  /** `later` lists the shifts removed going from `before` to `after`:
      once each, each staffed and schedulable before and emptied after,
      every other shift left as it was. */
  predicate RemovedExactly(before: map<int, Assignment<int>>, after: map<int, Assignment<int>>, later: seq<int>) {
    && NoDuplicates(later)
    && (forall k :: k in before && k !in later ==> k in after && after[k] == before[k])
    && (forall k :: k in later ==>
          && k in before && Staffed(before[k]) && !before[k].unschedulable
          && k in after && after[k] == Emptied(before[k]))
  }

  /** One removal followed by more. */
  lemma RemovedThenMore(before: map<int, Assignment<int>>, next: map<int, Assignment<int>>,
                        after: map<int, Assignment<int>>, sid: int, rest: seq<int>)
    requires sid in before && Staffed(before[sid]) && !before[sid].unschedulable
    requires next.Keys == before.Keys && next[sid] == Emptied(before[sid])
    requires forall k :: k in before && k != sid ==> next[k] == before[k]
    requires RemovedExactly(next, after, rest)
    ensures RemovedExactly(before, after, [sid] + rest)
  {
    FreshCons(sid, rest);
  }

  lemma SplitAfterPrefix(s: seq<int>, prefix: seq<int>, x: int)
    requires |s| > |prefix| && s[..|prefix| + 1] == prefix + [x]
    ensures s[|prefix|..] == [x] + s[|prefix| + 1..]
  {
    assert s[|prefix|] == s[..|prefix| + 1][|prefix|];
  }

  lemma FreshCons(x: int, rest: seq<int>)
    requires NoDuplicates(rest) && x !in rest
    ensures NoDuplicates([x] + rest)
  {
    var s := [x] + rest;
    forall i, j | 0 <= i < j < |s| ensures s[i] != s[j] {
      assert s[j] == rest[j - 1];
      if i > 0 {
        assert s[i] == rest[i - 1];
      }
    }
  }

  /** No TA is listed twice on one shift. */
  predicate ListedOnce(schedule: map<int, Assignment<int>>) {
    forall k :: k in schedule ==> NoDuplicates(AllOnShift(schedule[k]))
  }

  /** Every TA's hours either did not move or sit at or above its
      minimum. */
  predicate KeptOrAboveMinimum(ctx: Ctx<int>, before: map<int, real>, after: map<int, real>) {
    forall t :: t in before ==>
      t in after && (after[t] == before[t] || (D.GetTa(ctx, t).Ok? && after[t] >= D.GetTa(ctx, t).value.min_hours))
  }

  /** A shift that `can_remove` allows takes each of its TAs, listed once,
      down by its hours to no less than the TA's minimum. */
  lemma RemoveShiftKeepsMinimums(ctx: Ctx<int>, schedule: map<int, Assignment<int>>, hours: map<int, real>, sid: int)
    requires CanRemove(ctx, schedule, hours, sid) == Ok(true)
    requires RemoveShift(ctx, schedule, hours, sid).Ok?
    requires NoDuplicates(AllOnShift(schedule[sid]))
    ensures KeptOrAboveMinimum(ctx, hours, RemoveShift(ctx, schedule, hours, sid).value.hours)
  {
    var tas, d := AllOnShift(schedule[sid]), DurationHours(D.GetShift(ctx, sid).value);
    var after := RemoveShift(ctx, schedule, hours, sid).value.hours;
    assert forall i :: 0 <= i < |tas| ==> KeepsMinimum(ctx, hours, tas[i], d);
    forall t | t in hours
      ensures after[t] == hours[t] || (D.GetTa(ctx, t).Ok? && after[t] >= D.GetTa(ctx, t).value.min_hours)
    {
      RemoveShiftHoursAt(ctx, schedule, hours, sid, t);
      OnceListedKeeps(ctx, hours, tas, d, t, after[t]);
    }
  }

  /** One TA of a shift listing each TA once, after the subtraction. */
  lemma OnceListedKeeps(ctx: Ctx<int>, hours: map<int, real>, tas: seq<int>, d: real, t: int, a: real)
    requires NoDuplicates(tas) && t in hours && a == hours[t] + Repeat(multiset(tas)[t], -d)
    requires forall i :: 0 <= i < |tas| ==> KeepsMinimum(ctx, hours, tas[i], d)
    ensures a == hours[t] || (D.GetTa(ctx, t).Ok? && a >= D.GetTa(ctx, t).value.min_hours)
  {
    NoDuplicatesCount(tas, t);
    if t in tas {
      var i :| 0 <= i < |tas| && tas[i] == t;
      assert KeepsMinimum(ctx, hours, tas[i], d);
      assert Repeat(1, -d) == -d;
    } else {
      assert Repeat(0, -d) == 0.0;
    }
  }

  /** Composing two steps that each keep or respect the minimums. */
  lemma KeptOrAboveTrans(ctx: Ctx<int>, a: map<int, real>, b: map<int, real>, c: map<int, real>)
    requires KeptOrAboveMinimum(ctx, a, b) && KeptOrAboveMinimum(ctx, b, c)
    ensures KeptOrAboveMinimum(ctx, a, c)
  {
  }

  /** The promise of `reduce_schedule`'s docstring: no TA is taken below
      its minimum hours. A TA whose hours the loop changed ends at or
      above the minimum in force. This needs each shift to list a TA at
      most once, since `remove_shift` subtracts once per listing while
      `can_remove` checks one subtraction. */
  lemma {:induction false} ReduceLoopKeepsMinimums(ctx: Ctx<int>, priority: int -> Result<int, PyError>, budget: real,
                                                   order: seq<int>, schedule: map<int, Assignment<int>>,
                                                   hours: map<int, real>, removed: seq<int>)
    requires KeyOrder(order, schedule) && |removed| <= RemovalLimit
    requires ListedOnce(schedule)
    requires ReduceLoop(ctx, priority, budget, order, schedule, hours, removed).Ok?
    ensures KeptOrAboveMinimum(ctx, hours, ReduceLoop(ctx, priority, budget, order, schedule, hours, removed).value.hours)
    decreases RemovalLimit - |removed|
  {
    var cost := S.CalculateCost(ctx.tas, hours).value;
    if cost > budget {
      var n := RemoveNext(ctx, priority, schedule, hours, order).value;
      if n.Some? {
        var p := n.value;
        RemoveShiftKeepsMinimums(ctx, schedule, hours, p.sid);
        if |removed| + 1 <= RemovalLimit {
          var next := p.next.schedule;
          assert ListedOnce(next) by {
            forall k | k in next ensures NoDuplicates(AllOnShift(next[k])) {
              if k != p.sid {
                assert next[k] == schedule[k];
              }
            }
          }
          ReduceLoopKeepsMinimums(ctx, priority, budget, order, next, p.next.hours, removed + [p.sid]);
          KeptOrAboveTrans(ctx, hours, p.next.hours,
                           ReduceLoop(ctx, priority, budget, order, next, p.next.hours, removed + [p.sid]).value.hours);
        }
      }
    }
  }

  // ------------------------------------------------------------------
  // reduce_schedule

  /** What `reduce_schedule` leaves behind: the context with the lowered
      minimums (the floor is applied to the caller's context in place) and
      the loop's outcome. */
  datatype Reduction = Reduction(ctx: Ctx<int>, outcome: Outcome)

  /** The sort key's `shift_priority(ctx, s_id)` as the module sees it:
      the name is not bound there, so evaluating it raises NameError. */
  function UnboundPriority(sid: int): (r: Result<int, PyError>)
    ensures r == Err(NameError)
  {
    Err(NameError)
  }

  /** `reduce_schedule` with the priority its sort key resolves to. */
  function ReduceWith(ctx: Ctx<int>, priority: Ctx<int> -> int -> Result<int, PyError>,
                      schedule: map<int, Assignment<int>>, order: seq<int>, hours: map<int, real>, budget: real)
    : (r: Result<Reduction, PyError>)
    requires KeyOrder(order, schedule)
    ensures r.Ok? ==> ApplyReducedFairnessFloor(ctx, budget, DefaultThreshold) == Ok(r.value.ctx)
    ensures r.Ok? ==> ReduceLoop(r.value.ctx, priority(r.value.ctx), budget, order, schedule, hours, []) == Ok(r.value.outcome)
    ensures r.Ok? ==> r.value.outcome.schedule.Keys == schedule.Keys && r.value.outcome.hours.Keys == hours.Keys
  {
    match ApplyReducedFairnessFloor(ctx, budget, DefaultThreshold)
    case Err(e) => Err(e)
    case Ok(ctx1) =>
      match ReduceLoop(ctx1, priority(ctx1), budget, order, schedule, hours, [])
      case Err(e) => Err(e)
      case Ok(o) => Ok(Reduction(ctx1, o))
  }

  /** `reduce_schedule` as written: every sort key raises NameError. */
  function ReduceScheduleAsWritten(ctx: Ctx<int>, schedule: map<int, Assignment<int>>, order: seq<int>,
                                   hours: map<int, real>, budget: real): (r: Result<Reduction, PyError>)
    requires KeyOrder(order, schedule)
    ensures r.Ok? ==> r.value.outcome.schedule.Keys == schedule.Keys
  {
    ReduceWith(ctx, (c: Ctx<int>) => UnboundPriority, schedule, order, hours, budget)
  }

  /** `reduce_schedule` with `shift_priority` from the constraint helpers
      in scope, as its comment intends. */
  function ReduceSchedule(ctx: Ctx<int>, schedule: map<int, Assignment<int>>, order: seq<int>,
                          hours: map<int, real>, budget: real): (r: Result<Reduction, PyError>)
    requires KeyOrder(order, schedule)
    ensures r.Ok? ==> r.value.outcome.schedule.Keys == schedule.Keys
  {
    ReduceWith(ctx, (c: Ctx<int>) => (sid: int) => C.ShiftPriority(c, sid), schedule, order, hours, budget)
  }

  /** With the unbound name the loop can never take a shift out: as soon
      as one is removable, sorting raises NameError. */
  lemma {:induction false} UnboundLoopRemovesNothing(ctx: Ctx<int>, budget: real, order: seq<int>,
                                                     schedule: map<int, Assignment<int>>, hours: map<int, real>,
                                                     removed: seq<int>)
    requires KeyOrder(order, schedule) && |removed| <= RemovalLimit
    ensures var r := ReduceLoop(ctx, UnboundPriority, budget, order, schedule, hours, removed);
            && (r.Ok? ==> r.value.removed == removed && r.value.schedule == schedule && r.value.hours == hours)
            && (S.CalculateCost(ctx.tas, hours).Ok? && S.CalculateCost(ctx.tas, hours).value > budget
                && Removable(ctx, schedule, hours, order).Ok? && |Removable(ctx, schedule, hours, order).value| > 0
                ==> r == Err(NameError))
  {
    var rem := Removable(ctx, schedule, hours, order);
    if rem.Ok? && |rem.value| > 0 {
      ChooseFirstError(ctx, UnboundPriority, schedule, hours, rem.value);
    }
  }

  /** Finding: as written, `reduce_schedule` either raises or hands back
      the schedule and hours unchanged with nothing removed; and when the
      lowered floor still leaves the cost over budget with a removable
      shift, it raises NameError. */
  lemma AsWrittenNeverReduces(ctx: Ctx<int>, schedule: map<int, Assignment<int>>, order: seq<int>,
                              hours: map<int, real>, budget: real)
    requires KeyOrder(order, schedule)
    ensures var r := ReduceScheduleAsWritten(ctx, schedule, order, hours, budget);
            && (r.Ok? ==> r.value.outcome.removed == [] && r.value.outcome.schedule == schedule
                          && r.value.outcome.hours == hours)
            && (ApplyReducedFairnessFloor(ctx, budget, DefaultThreshold).Ok? ==>
                  var c := ApplyReducedFairnessFloor(ctx, budget, DefaultThreshold).value;
                  S.CalculateCost(c.tas, hours).Ok? && S.CalculateCost(c.tas, hours).value > budget
                  && Removable(c, schedule, hours, order).Ok? && |Removable(c, schedule, hours, order).value| > 0
                  ==> r == Err(NameError))
  {
    var f := ApplyReducedFairnessFloor(ctx, budget, DefaultThreshold);
    if f.Ok? {
      UnboundLoopRemovesNothing(f.value, budget, order, schedule, hours, []);
    }
  }

  /** The corrected reducer's first removal is the shift its docstring
      promises: among the removable shifts, one of least priority, and
      within that priority one whose removal leaves the hours most even.
      Each later removal is the first removal of the loop from the state
      reached, so the same holds at every step (ReduceLoopFirstRemoval). */
  lemma ReduceScheduleRemovesLeastImportant(ctx: Ctx<int>, schedule: map<int, Assignment<int>>, order: seq<int>,
                                            hours: map<int, real>, budget: real)
    requires KeyOrder(order, schedule)
    requires ReduceSchedule(ctx, schedule, order, hours, budget).Ok?
    requires |ReduceSchedule(ctx, schedule, order, hours, budget).value.outcome.removed| > 0
    ensures var red := ReduceSchedule(ctx, schedule, order, hours, budget).value;
            var c, sid := red.ctx, red.outcome.removed[0];
            && S.CalculateCost(c.tas, hours).Ok? && S.CalculateCost(c.tas, hours).value > budget
            && sid in order && IsRemovable(c, schedule, hours, sid)
            && C.ShiftPriority(c, sid).Ok? && RemovalScore(c, schedule, hours, sid).Ok?
            && forall k :: k in order && IsRemovable(c, schedule, hours, k) ==>
                 && C.ShiftPriority(c, k).Ok? && RemovalScore(c, schedule, hours, k).Ok?
                 && C.ShiftPriority(c, sid).value <= C.ShiftPriority(c, k).value
                 && (C.ShiftPriority(c, sid).value == C.ShiftPriority(c, k).value ==>
                       RemovalScore(c, schedule, hours, sid).value <= RemovalScore(c, schedule, hours, k).value)
  {
    var red := ReduceSchedule(ctx, schedule, order, hours, budget).value;
    var c := red.ctx;
    var pr := (sid: int) => C.ShiftPriority(c, sid);
    ReduceLoopFirstRemoval(c, pr, budget, order, schedule, hours, []);
    RemoveNextChoice(c, pr, schedule, hours, order);
  }

  /** The corrected reducer does not raise NameError where the one as
      written does: when the cost after the floor is over budget and a
      shift is removable, it removes one, or the sort key of some
      candidate fails to look up its shift or hours. */
  lemma ReduceScheduleRemovesWhenItCan(ctx: Ctx<int>, schedule: map<int, Assignment<int>>, order: seq<int>,
                                       hours: map<int, real>, budget: real)
    requires KeyOrder(order, schedule)
    requires ApplyReducedFairnessFloor(ctx, budget, DefaultThreshold).Ok?
    requires var c := ApplyReducedFairnessFloor(ctx, budget, DefaultThreshold).value;
             && S.CalculateCost(c.tas, hours).Ok? && S.CalculateCost(c.tas, hours).value > budget
             && Removable(c, schedule, hours, order).Ok? && |Removable(c, schedule, hours, order).value| > 0
             && (forall k :: k in order && IsRemovable(c, schedule, hours, k) ==>
                   C.ShiftPriority(c, k).Ok? && RemovalScore(c, schedule, hours, k).Ok?)
    ensures var r := ReduceSchedule(ctx, schedule, order, hours, budget);
            r.Ok? ==> |r.value.outcome.removed| > 0
  {
  }
}
