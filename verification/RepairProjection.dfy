/**
 `project_repair_returns`: expected serviceable receipts, variance and the P10/P90 band for
 every horizon, from the open repair positions of one part and location.
 */
module RepairProjection {
  import opened Wrappers
  import opened Ordering
  import opened Reals
  import opened RepairSurvival

  // ----- inputs -----

  /** An eligible open repair line: whole units and their age in days. */
  datatype Position = Position(order: string, line: string, serial: Option<string>, quantity: nat, age: nat)

  /** The reconciled pipeline; construction rejects one whose positions do not add up. */
  datatype Pipeline = Pipeline(included: seq<Position>, eligibleQuantity: nat)

  ghost predicate ValidPipeline(p: Pipeline) {
    && (forall x :: x in p.included ==> x.quantity > 0)
    && p.eligibleQuantity == Units(p.included)
  }

  function Units(positions: seq<Position>): nat {
    if positions == [] then 0
    else Units(positions[..|positions| - 1]) + positions[|positions| - 1].quantity
  }

  /** The repair-cycle evidence used when no completed cycle is known. */
  datatype LeadTime = LeadTime(condition: string, evidenceStatus: string,
                               median: Option<real>, p90: Option<real>, promised: Option<real>)

  // ----- models -----

  datatype Model =
    | KaplanMeierModel(steps: seq<KmStep>)
    | LognormalQuantile(median: real, p90: real)
    | DeterministicPromise(duration: real)
    | Unavailable

  /** `lognormal(median, p90)` is the library's lognormal survival curve, of which only its shape is assumed. */
  function Survival(m: Model, lognormal: (real, real) -> (real -> real)): real -> real {
    match m
    case KaplanMeierModel(steps) => (day => StepValue(steps, day))
    case LognormalQuantile(median, p90) => lognormal(median, p90)
    case DeterministicPromise(d) => ((day: real) => if day < d then 1.0 else 0.0)
    case Unavailable => (day => 1.0)
  }

  ghost predicate LognormalShape(lognormal: (real, real) -> (real -> real)) {
    forall m, p :: 0.0 < m < p ==> SurvivalCurve(lognormal(m, p))
  }

  function OrZero(x: Option<real>): real {
    if x.Some? then x.value else 0.0
  }

  /** The fallback chain of `_select_model` when there are no completed cycles. */
  function FallbackModel(evidence: Option<LeadTime>): Model {
    if evidence.Some? && evidence.value.condition == "REP" && evidence.value.evidenceStatus != "legacy_unknown" then
      var median, p90 := OrZero(evidence.value.median), OrZero(evidence.value.p90);
      if median > 0.0 && p90 > median then LognormalQuantile(median, p90)
      else if OrZero(evidence.value.promised) > 0.0 then DeterministicPromise(OrZero(evidence.value.promised))
      else Unavailable
    else Unavailable
  }

  /** Both quantiles are known and make a lognormal curve. */
  ghost predicate HasQuantiles(e: LeadTime) {
    e.median.Some? && e.p90.Some? && 0.0 < e.median.value < e.p90.value
  }

  /** Repair evidence whose origin is known. */
  ghost predicate UsableEvidence(evidence: Option<LeadTime>) {
    evidence.Some? && evidence.value.condition == "REP" && evidence.value.evidenceStatus != "legacy_unknown"
  }

  /** The model that repair evidence alone calls for: its quantiles, else its promise, else none. */
  ghost predicate FallbackFits(m: Model, evidence: Option<LeadTime>) {
    match m
    case KaplanMeierModel(_) => false
    case LognormalQuantile(median, p90) =>
      UsableEvidence(evidence) && HasQuantiles(evidence.value)
      && evidence.value.median == Some(median) && evidence.value.p90 == Some(p90)
    case DeterministicPromise(d) =>
      UsableEvidence(evidence) && !HasQuantiles(evidence.value)
      && evidence.value.promised == Some(d) && d > 0.0
    case Unavailable =>
      UsableEvidence(evidence) ==>
        !HasQuantiles(evidence.value) && (evidence.value.promised.Some? ==> evidence.value.promised.value <= 0.0)
  }

  lemma FallbackModelFits(m: Model, evidence: Option<LeadTime>)
    ensures m == FallbackModel(evidence) <==> FallbackFits(m, evidence)
  {
  }

  /** One age per eligible unit, right-censored. */
  function CensoredAges(positions: seq<Position>): seq<real> {
    if positions == [] then []
    else
      var last := positions[|positions| - 1];
      CensoredAges(positions[..|positions| - 1]) + seq(last.quantity, _ => last.age as real)
  }

  /** The completed durations that count, in order. */
  ghost predicate Cleaned(completed: seq<real>, cycles: seq<real>) {
    Sorted(completed, RealLe) && multiset(completed) == NonNegative(cycles)
  }

  /** `_clean_durations`, over reals, where every value is finite. */
  method CleanDurations(values: seq<real>) returns (cleaned: seq<real>)
    ensures Cleaned(cleaned, values)
  {
    var kept: seq<real> := [];
    for i := 0 to |values|
      invariant multiset(kept) == NonNegative(values[..i])
    {
      assert values[..i + 1][..i] == values[..i];
      KeptGrows(kept, values[i]);
      if values[i] >= 0.0 {
        kept := kept + [values[i]];
      }
    }
    assert values[..|values|] == values;
    RealLeIsTotalOrder();
    SortSorted(kept, RealLe);
    SortMultiset(kept, RealLe);
    cleaned := Sort(kept, RealLe);
  }

  lemma KeptGrows(kept: seq<real>, x: real)
    ensures multiset(kept + [x]) == multiset(kept) + multiset{x}
  {
  }

  function NonNegative(values: seq<real>): multiset<real> {
    if values == [] then multiset{}
    else
      NonNegative(values[..|values| - 1])
      + (if values[|values| - 1] >= 0.0 then multiset{values[|values| - 1]} else multiset{})
  }

  /** The curve estimated from the completed durations and the open ages, or the fallback without any. */
  ghost predicate Selected(m: Model, completed: seq<real>, ages: seq<real>, evidence: Option<LeadTime>) {
    if completed != []
    then m.KaplanMeierModel? && IsKaplanMeier(m.steps, completed, Clipped(ages)) && Estimates(m.steps, completed, ages)
    else FallbackFits(m, evidence)
  }

  method SelectModel(completed: seq<real>, ages: seq<real>, evidence: Option<LeadTime>) returns (m: Model)
    ensures Selected(m, completed, ages, evidence)
  {
    if completed != [] {
      var steps := KaplanMeier(completed, ages);
      m := KaplanMeierModel(steps);
    } else {
      m := FallbackModel(evidence);
      FallbackModelFits(m, evidence);
    }
  }

  /** Whatever model is selected, its survival function is a survival curve. */
  lemma SelectedModelIsSurvivalCurve(m: Model, completed: seq<real>, ages: seq<real>, evidence: Option<LeadTime>,
                                     lognormal: (real, real) -> (real -> real))
    requires LognormalShape(lognormal)
    requires Selected(m, completed, ages, evidence)
    ensures SurvivalCurve(Survival(m, lognormal))
  {
    if completed != [] {
      KaplanMeierIsSurvivalCurve(m.steps, completed, Clipped(ages));
      var s, t := Survival(m, lognormal), (day: real) => StepValue(m.steps, day);
      assert forall d :: s(d) == t(d);
    }
  }

  // ----- one horizon -----

  datatype Item = Item(order: string, line: string, serial: Option<string>, quantity: nat, age: nat,
                       returnProbability: real, serviceableProbability: real, expected: real)

  datatype Horizon = Horizon(days: int, eligible: nat, expected: real, variance: real, p10: real, p90: real,
                             meanProbability: real, items: seq<Item>)

  const P10_Z := 1.2815515655446004

  function ItemFor(p: Position, s: real -> real, days: int, yieldRate: real, multiplier: real): Item
    requires multiplier > 0.0
  {
    var rp := ReturnProbability(s, p.age as real, days, multiplier);
    var sp := Serviceable(rp, yieldRate);
    Item(p.order, p.line, p.serial, p.quantity, p.age, rp, sp, UnitsExpected(p.quantity, sp))
  }

  function Serviceable(returnProbability: real, yieldRate: real): real {
    returnProbability * yieldRate
  }

  function UnitsExpected(quantity: nat, p: real): real {
    quantity as real * p
  }

  /** The variance of `quantity` independent units that each return with probability `p`. */
  function UnitsVariance(quantity: nat, p: real): real {
    quantity as real * p * (1.0 - p)
  }

  function Expected(items: seq<Item>): real {
    if items == [] then 0.0 else Expected(items[..|items| - 1]) + items[|items| - 1].expected
  }

  function Variance(items: seq<Item>): real {
    if items == [] then 0.0
    else
      var x := items[|items| - 1];
      Variance(items[..|items| - 1]) + x.quantity as real * x.serviceableProbability * (1.0 - x.serviceableProbability)
  }

  lemma VarianceGrows(items: seq<Item>, x: Item)
    ensures Variance(items + [x]) == Variance(items) + UnitsVariance(x.quantity, x.serviceableProbability)
  {
    assert (items + [x])[..|items|] == items;
  }

  function ItemUnits(items: seq<Item>): nat {
    if items == [] then 0 else ItemUnits(items[..|items| - 1]) + items[|items| - 1].quantity
  }

  ghost predicate ValidItems(items: seq<Item>) {
    forall x :: x in items ==>
      0.0 <= x.serviceableProbability <= 1.0 && x.expected == UnitsExpected(x.quantity, x.serviceableProbability)
  }

  /** The sum of quantity times squared probability; expected units less variance. */
  ghost function SquareSum(items: seq<Item>): real {
    Expected(items) - Variance(items)
  }

  /** The Cauchy-Schwarz inequality for weights `Q`, weighted sum `e` and weighted square sum `w`. */
  ghost predicate SquareCapped(Q: real, e: real, w: real) {
    e * e <= Q * w
  }

  lemma Square(x: real)
    ensures x * x >= 0.0
  {
  }

  /** The step of Cauchy-Schwarz for weights `q` added to `Q`, with `e` and `w` the weighted sums. */
  lemma CauchySchwarzStep(Q: real, e: real, w: real, q: real, p: real)
    requires Q >= 0.0 && q >= 0.0 && SquareCapped(Q, e, w) && w >= 0.0 && e >= 0.0
    requires Q == 0.0 ==> e == 0.0
    ensures SquareCapped(Q + q, e + q * p, w + q * (p * p))
  {
    var x := q * (p * p);
    assert (e + q * p) * (e + q * p) == e * e + 2.0 * (q * (e * p)) + q * x by {
      assert (q * p) * (q * p) == q * x;
      assert e * (q * p) == q * (e * p);
    }
    assert (Q + q) * (w + x) == Q * w + q * w + Q * x + q * x;
    Cross(Q, e, w, p);
    var y := w + Q * (p * p) - 2.0 * (e * p);
    ProductLower(y, 0.0, q);
    assert Q * x == q * (Q * (p * p));
    assert y * q == q * w + q * (Q * (p * p)) - 2.0 * (q * (e * p)) by {
      Distribute3(w, Q * (p * p), e * p, q);
    }
  }

  lemma Distribute3(a: real, b: real, c: real, q: real)
    ensures (a + b - 2.0 * c) * q == q * a + q * b - 2.0 * (q * c)
  {
  }

  lemma Cross(Q: real, e: real, w: real, p: real)
    requires Q >= 0.0 && w >= 0.0 && e * e <= Q * w && (Q == 0.0 ==> e == 0.0)
    ensures w + Q * (p * p) >= 2.0 * (e * p)
  {
    Square(p);
    ProductLower(p * p, 0.0, Q);
    if Q > 0.0 {
      var d := e - Q * p;
      Square(d);
      assert d * d == e * e - 2.0 * (Q * (e * p)) + Q * (Q * (p * p)) by {
        assert (Q * p) * (Q * p) == Q * (Q * (p * p));
        assert e * (Q * p) == Q * (e * p);
      }
      var y := w + Q * (p * p) - 2.0 * (e * p);
      Distribute3(w, Q * (p * p), e * p, Q);
      assert y * Q >= 0.0;
      if y < 0.0 { ProductStrict(0.0, y, Q); }
    }
  }

  /** Expected units `e` and square sum `w` of `n` units obey Cauchy-Schwarz and lie in range. */
  ghost predicate Spread(n: nat, e: real, w: real) {
    0.0 <= e <= n as real && 0.0 <= w <= e && SquareCapped(n as real, e, w)
  }

  /** Cauchy-Schwarz over all items: the square of the expectation is at most units times square sum. */
  lemma {:induction false} CauchySchwarz(items: seq<Item>)
    requires ValidItems(items)
    ensures Spread(ItemUnits(items), Expected(items), SquareSum(items))
  {
    if items != [] {
      var before, x := items[..|items| - 1], items[|items| - 1];
      assert x in items && forall y :: y in before ==> y in items;
      CauchySchwarz(before);
      AddUnits(ItemUnits(before), Expected(before), SquareSum(before), x.quantity, x.serviceableProbability,
               Expected(items), SquareSum(items));
    }
  }

  lemma AddUnits(n: nat, e: real, w: real, quantity: nat, p: real, e': real, w': real)
    requires Spread(n, e, w) && 0.0 <= p <= 1.0
    requires e' == e + UnitsExpected(quantity, p)
    requires w' == w + UnitsExpected(quantity, p) - UnitsVariance(quantity, p)
    ensures Spread(n + quantity, e', w')
  {
    hide SquareCapped, UnitsExpected, UnitsVariance;
    UnitsBounds(quantity, p);
    UnitsStep(n, e, w, quantity, p, e', w');
  }

  lemma UnitsStep(n: nat, e: real, w: real, quantity: nat, p: real, e': real, w': real)
    requires SquareCapped(n as real, e, w) && w >= 0.0 && e >= 0.0 && (n == 0 ==> e == 0.0)
    requires e' == e + UnitsExpected(quantity, p)
    requires w' == w + UnitsExpected(quantity, p) - UnitsVariance(quantity, p)
    ensures SquareCapped((n + quantity) as real, e', w')
  {
    var q := quantity as real;
    hide SquareCapped;
    assert q * p - q * p * (1.0 - p) == q * (p * p);
    assert (n + quantity) as real == n as real + q && e' == e + q * p && w' == w + q * (p * p);
    CauchySchwarzStep(n as real, e, w, q, p);
  }

  lemma UnitsBounds(quantity: nat, p: real)
    requires 0.0 <= p <= 1.0
    ensures 0.0 <= UnitsExpected(quantity, p) <= quantity as real
    ensures 0.0 <= UnitsVariance(quantity, p) <= UnitsExpected(quantity, p)
  {
    var q := quantity as real;
    FactorInUnit(q, p);
    FactorInUnit(q * p, 1.0 - p);
  }

  /** A non-negative square root, as `math.sqrt` over the reals. */
  ghost predicate SquareRoot(sqrt: real -> real) {
    forall v :: v >= 0.0 ==> IsRoot(sqrt(v), v)
  }

  ghost predicate IsRoot(root: real, v: real) {
    root >= 0.0 && root * root == v
  }

  function Band(root: real): real {
    P10_Z * root
  }

  /**
   The uncertainty band is ordered and stays within physical units, and the variance is at most
   what one common probability for all units would give: `E * (1 - E/Q)`.
   */
  ghost predicate Reconciles(h: Horizon) {
    && 0.0 <= h.p10 <= h.expected <= h.p90 <= h.eligible as real
    && 0.0 <= h.variance
    && VarianceCapped(h.eligible, h.expected, h.variance)
    && MeanProbability(h.eligible, h.expected, h.meanProbability)
  }

  ghost predicate VarianceCapped(eligible: nat, expected: real, variance: real) {
    if eligible == 0 then expected == variance == 0.0
    else variance <= expected * (1.0 - expected / eligible as real)
  }

  ghost predicate MeanProbability(eligible: nat, expected: real, mean: real) {
    if eligible == 0 then mean == 0.0
    else 0.0 <= mean <= 1.0 && mean * eligible as real == expected
  }

  lemma SpreadCapsVariance(n: nat, e: real, w: real)
    requires Spread(n, e, w)
    ensures VarianceCapped(n, e, e - w)
    ensures MeanProbability(n, e, if n == 0 then 0.0 else e / n as real)
  {
    if n > 0 {
      VarianceBound(n as real, e, w);
      UnitQuotient(e, n as real);
    }
  }

  lemma VarianceBound(n: real, e: real, w: real)
    requires n > 0.0 && e * e <= n * w && 0.0 <= e <= n
    ensures e - w <= e * (1.0 - e / n)
  {
    var m := e / n;
    assert m * n == e;
    assert e * m * n == e * e;
    QuotientBelow(e * e, n, w);
    assert (e * e) / n == e * m by {
      CancelFactor((e * e) / n, e * m, n);
    }
    assert e * (1.0 - m) == e - e * m;
  }

  /** The items of one horizon are those of its positions, in order. */
  ghost predicate ItemsOf(items: seq<Item>, positions: seq<Position>, s: real -> real,
                          days: int, yieldRate: real, multiplier: real)
    requires multiplier > 0.0
  {
    && |items| == |positions|
    && forall i :: 0 <= i < |items| ==> items[i] == ItemFor(positions[i], s, days, yieldRate, multiplier)
  }

  lemma {:induction false} ItemsHaveUnits(items: seq<Item>, positions: seq<Position>, s: real -> real,
                                          days: int, yieldRate: real, multiplier: real)
    requires multiplier > 0.0 && ItemsOf(items, positions, s, days, yieldRate, multiplier)
    ensures ItemUnits(items) == Units(positions)
  {
    if items != [] {
      var n := |items| - 1;
      ItemsHaveUnits(items[..n], positions[..n], s, days, yieldRate, multiplier);
    }
  }

  lemma ItemIsValid(p: Position, s: real -> real, days: int, yieldRate: real, multiplier: real)
    requires SurvivalCurve(s) && multiplier > 0.0 && 0.0 <= yieldRate <= 1.0
    ensures var x := ItemFor(p, s, days, yieldRate, multiplier);
            0.0 <= x.serviceableProbability <= x.returnProbability <= 1.0
  {
    ReturnProbabilityIsConditional(s, p.age as real, days, multiplier);
    FactorInUnit(ReturnProbability(s, p.age as real, days, multiplier), yieldRate);
  }

  /** The horizon holds one item per position, their sums, and the band those sums give. */
  ghost predicate Projects(h: Horizon, pipeline: Pipeline, s: real -> real, yieldRate: real, multiplier: real,
                           sqrt: real -> real)
    requires multiplier > 0.0
  {
    && h.eligible == pipeline.eligibleQuantity
    && ItemsOf(h.items, pipeline.included, s, h.days, yieldRate, multiplier)
    && h.expected == Expected(h.items) && h.variance == Variance(h.items)
    && Reconciles(h)
    && IsRoot(sqrt(h.variance), h.variance)
    && h.p10 == Max(0.0, h.expected - Band(sqrt(h.variance)))
    && h.p90 == Min(h.eligible as real, h.expected + Band(sqrt(h.variance)))
  }

  method ProjectHorizon(pipeline: Pipeline, s: real -> real, days: int, yieldRate: real, multiplier: real,
                        sqrt: real -> real)
    returns (h: Horizon)
    requires ValidPipeline(pipeline) && SurvivalCurve(s) && SquareRoot(sqrt)
    requires 0.0 <= yieldRate <= 1.0 && multiplier > 0.0
    ensures h.days == days && Projects(h, pipeline, s, yieldRate, multiplier, sqrt)
  {
    hide UnitsExpected, UnitsVariance, Serviceable, ReturnProbability;
    var items: seq<Item> := [];
    var variance := 0.0;
    var expected := 0.0;
    for i := 0 to |pipeline.included|
      invariant ItemsOf(items, pipeline.included[..i], s, days, yieldRate, multiplier)
      invariant ValidItems(items)
      invariant variance == Variance(items) && expected == Expected(items)
    {
      var p := pipeline.included[i];
      var item := ItemFor(p, s, days, yieldRate, multiplier);
      ItemIsValid(p, s, days, yieldRate, multiplier);
      variance := variance + UnitsVariance(item.quantity, item.serviceableProbability);
      expected := expected + item.expected;
      VarianceGrows(items, item);
      assert (items + [item])[..|items|] == items;
      items := items + [item];
    }
    assert pipeline.included[..|pipeline.included|] == pipeline.included;
    ItemsHaveUnits(items, pipeline.included, s, days, yieldRate, multiplier);
    CauchySchwarz(items);
    SpreadCapsVariance(ItemUnits(items), expected, SquareSum(items));
    var eligible := pipeline.eligibleQuantity;
    assert IsRoot(sqrt(variance), variance);
    var spread := Band(sqrt(variance));
    h := Horizon(days, eligible, expected, variance,
                 Max(0.0, expected - spread), Min(eligible as real, expected + spread),
                 if eligible == 0 then 0.0 else expected / eligible as real, items);
  }

  // ----- across horizons -----

  lemma {:induction false} LongerHorizonExpectsMore(a: seq<Item>, b: seq<Item>, positions: seq<Position>,
                                                    s: real -> real,
                                                    days: int, days': int, yieldRate: real, multiplier: real)
    requires SurvivalCurve(s) && multiplier > 0.0 && 0.0 <= yieldRate <= 1.0 && days <= days'
    requires ItemsOf(a, positions, s, days, yieldRate, multiplier)
    requires ItemsOf(b, positions, s, days', yieldRate, multiplier)
    ensures Expected(a) <= Expected(b)
  {
    hide UnitsExpected, Serviceable, ReturnProbability;
    if a != [] {
      var n := |a| - 1;
      var p := positions[n];
      LongerHorizonExpectsMore(a[..n], b[..n], positions[..n], s, days, days', yieldRate, multiplier);
      LongerHorizonReturnsMore(s, p.age as real, days, days', multiplier);
      LikelierExpectsMore(p.quantity, ReturnProbability(s, p.age as real, days, multiplier),
                          ReturnProbability(s, p.age as real, days', multiplier), yieldRate);
    }
  }

  lemma LikelierExpectsMore(quantity: nat, x: real, y: real, yieldRate: real)
    requires x <= y && yieldRate >= 0.0
    ensures UnitsExpected(quantity, Serviceable(x, yieldRate)) <= UnitsExpected(quantity, Serviceable(y, yieldRate))
  {
    ProductLower(y, x, yieldRate);
    ProductLower(y * yieldRate, x * yieldRate, quantity as real);
  }

  lemma {:induction false} SlowerTurnaroundExpectsLess(a: seq<Item>, b: seq<Item>, positions: seq<Position>,
                                                       s: real -> real,
                                                       days: int, yieldRate: real, m: real, m': real)
    requires SurvivalCurve(s) && 0.0 < m <= m' && 0.0 <= yieldRate <= 1.0
    requires ItemsOf(a, positions, s, days, yieldRate, m)
    requires ItemsOf(b, positions, s, days, yieldRate, m')
    ensures Expected(b) <= Expected(a)
  {
    hide UnitsExpected, Serviceable, ReturnProbability;
    if a != [] {
      var n := |a| - 1;
      var p := positions[n];
      SlowerTurnaroundExpectsLess(a[..n], b[..n], positions[..n], s, days, yieldRate, m, m');
      SlowerTurnaroundReturnsLess(s, p.age as real, days, m, m');
      LikelierExpectsMore(p.quantity, ReturnProbability(s, p.age as real, days, m'),
                          ReturnProbability(s, p.age as real, days, m), yieldRate);
    }
  }

  predicate IntLe(a: int, b: int) { a <= b }

  datatype Status = StatusUnavailable | StatusOther

  datatype Profile = Profile(model: Model, horizons: seq<Horizon>, status: Status, censored: nat)

  datatype ProjectionError = YieldOutOfRange | BadMultiplier | NegativeHorizon

  /** The units of a position are open for as long as it is: how many of all units have an age in range. */
  function UnitsAged(positions: seq<Position>, r: Range): nat {
    if positions == [] then 0
    else
      var last := positions[|positions| - 1];
      UnitsAged(positions[..|positions| - 1], r) + (if In(last.age as real, r) then last.quantity else 0)
  }

  /** `ages` holds one age for each open unit. */
  ghost predicate AgesOf(ages: seq<real>, positions: seq<Position>) {
    |ages| == Units(positions) && forall r :: Count(ages, r) == UnitsAged(positions, r)
  }

  lemma {:induction false} CensoredAgesCount(positions: seq<Position>, r: Range)
    ensures Count(CensoredAges(positions), r) == UnitsAged(positions, r)
  {
    if positions != [] {
      var last := positions[|positions| - 1];
      CensoredAgesCount(positions[..|positions| - 1], r);
      var same := seq(last.quantity, _ => last.age as real);
      CountAppend(CensoredAges(positions[..|positions| - 1]), same, r);
      CountSame(same, last.age as real, r);
    }
  }

  lemma {:induction false} CountAppend(xs: seq<real>, ys: seq<real>, r: Range)
    ensures Count(xs + ys, r) == Count(xs, r) + Count(ys, r)
  {
    if xs == [] {
      assert xs + ys == ys;
    } else {
      assert (xs + ys)[1..] == xs[1..] + ys;
      CountAppend(xs[1..], ys, r);
    }
  }

  lemma {:induction false} CountSame(xs: seq<real>, x: real, r: Range)
    requires forall y :: y in xs ==> y == x
    ensures Count(xs, r) == if In(x, r) then |xs| else 0
  {
    if xs != [] {
      assert xs[0] in xs && forall y :: y in xs[1..] ==> y in xs;
      CountSame(xs[1..], x, r);
    }
  }

  /**
   The model the evidence calls for: with some completed cycle the Kaplan-Meier estimate from all of
   them and the ages of all open units, and otherwise what the repair evidence alone gives.
   */
  ghost predicate ModelFits(m: Model, pipeline: Pipeline, cycles: seq<real>, evidence: Option<LeadTime>) {
    if exists c :: c in cycles && c >= 0.0
    then m.KaplanMeierModel?
         && exists completed, ages ::
              Cleaned(completed, cycles) && AgesOf(ages, pipeline.included) && Estimates(m.steps, completed, ages)
    else FallbackFits(m, evidence)
  }

  // ----- what a horizon says, in numbers -----

  /** From a curve value now and a later one, a unit returns with probability `p`. */
  ghost predicate Conditional(p: real, now: real, later: real) {
    if now <= 0.000000000001 then p == 0.0 else (1.0 - p) * now == later
  }

  /** The probability that a unit of this age returns within `days`, under each model. */
  ghost predicate Returns(p: real, m: Model, age: real, days: int, multiplier: real,
                          lognormal: (real, real) -> (real -> real))
    requires multiplier > 0.0
  {
    if days <= 0 then p == 0.0
    else
      var later := age + days as real / multiplier;
      match m
      case KaplanMeierModel(steps) => Conditional(p, StepValue(steps, age), StepValue(steps, later))
      case LognormalQuantile(median, p90) => Conditional(p, lognormal(median, p90)(age), lognormal(median, p90)(later))
      case DeterministicPromise(d) => p == if age < d <= later then 1.0 else 0.0
      case Unavailable => p == 0.0
  }

  ghost predicate ItemFits(x: Item, p: Position, m: Model, days: int, yieldRate: real, multiplier: real,
                           lognormal: (real, real) -> (real -> real))
    requires multiplier > 0.0
  {
    && x.order == p.order && x.line == p.line && x.serial == p.serial && x.quantity == p.quantity && x.age == p.age
    && Returns(x.returnProbability, m, p.age as real, days, multiplier, lognormal)
    && x.serviceableProbability == x.returnProbability * yieldRate
    && x.expected == p.quantity as real * x.serviceableProbability
  }

  /** Every position's item, the sums over them, and the band of 1.28 standard deviations cut to what is possible. */
  ghost predicate HorizonFits(h: Horizon, pipeline: Pipeline, m: Model, yieldRate: real, multiplier: real,
                              lognormal: (real, real) -> (real -> real), sqrt: real -> real)
    requires multiplier > 0.0
  {
    var spread := 1.2815515655446004 * sqrt(h.variance);
    && |h.items| == |pipeline.included|
    && (forall i :: 0 <= i < |h.items| ==>
          ItemFits(h.items[i], pipeline.included[i], m, h.days, yieldRate, multiplier, lognormal))
    && h.eligible == pipeline.eligibleQuantity
    && h.expected == Expected(h.items) && h.variance == Variance(h.items)
    && h.p10 == (if h.expected <= spread then 0.0 else h.expected - spread)
    && h.p90 == (if h.expected + spread >= h.eligible as real then h.eligible as real else h.expected + spread)
    && h.meanProbability == (if h.eligible == 0 then 0.0 else h.expected / h.eligible as real)
  }

  lemma ItemForFits(p: Position, m: Model, days: int, yieldRate: real, multiplier: real,
                    lognormal: (real, real) -> (real -> real))
    requires multiplier > 0.0 && SurvivalCurve(Survival(m, lognormal))
    ensures ItemFits(ItemFor(p, Survival(m, lognormal), days, yieldRate, multiplier), p, m, days, yieldRate, multiplier,
                     lognormal)
  {
    hide SurvivalCurve, StepValue;
    var s, age := Survival(m, lognormal), p.age as real;
    ReturnProbabilityIsConditional(s, age, days, multiplier);
    var rp, later := ReturnProbability(s, age, days, multiplier), age + days as real / multiplier;
    assert days > 0 ==> Conditional(rp, s(age), s(later));
    ReturnsUnder(rp, m, age, days, multiplier, lognormal);
  }

  lemma ReturnsUnder(rp: real, m: Model, age: real, days: int, multiplier: real,
                     lognormal: (real, real) -> (real -> real))
    requires multiplier > 0.0
    requires days <= 0 ==> rp == 0.0
    requires days > 0 ==>
               Conditional(rp, Survival(m, lognormal)(age), Survival(m, lognormal)(age + days as real / multiplier))
    ensures Returns(rp, m, age, days, multiplier, lognormal)
  {
    if days > 0 {
      QuotientPositive(days as real, multiplier);
    }
  }

  lemma ProjectsFits(h: Horizon, pipeline: Pipeline, m: Model, yieldRate: real, multiplier: real,
                     lognormal: (real, real) -> (real -> real), sqrt: real -> real)
    requires multiplier > 0.0 && SurvivalCurve(Survival(m, lognormal))
    requires Projects(h, pipeline, Survival(m, lognormal), yieldRate, multiplier, sqrt)
    ensures HorizonFits(h, pipeline, m, yieldRate, multiplier, lognormal, sqrt)
  {
    hide ItemFits, ItemFor, SurvivalCurve, Expected, Variance;
    forall i | 0 <= i < |h.items|
      ensures ItemFits(h.items[i], pipeline.included[i], m, h.days, yieldRate, multiplier, lognormal)
    {
      ItemForFits(pipeline.included[i], m, h.days, yieldRate, multiplier, lognormal);
    }
    MeanIsQuotient(h.eligible, h.expected, h.meanProbability);
  }

  lemma MeanIsQuotient(eligible: nat, expected: real, mean: real)
    requires MeanProbability(eligible, expected, mean)
    ensures mean == if eligible == 0 then 0.0 else expected / eligible as real
  {
    if eligible > 0 {
      CancelFactor(mean, expected / eligible as real, eligible as real);
    }
  }

  /**
   What a profile promises: the model the evidence calls for; the distinct horizons in increasing
   order, each with the items of every included position under that model, their sums and
   their band; expected units that never fall from one horizon to the next, and no credit at all
   without evidence.
   */
  ghost predicate FaithfulProfile(profile: Profile, pipeline: Pipeline, horizons: seq<int>, cycles: seq<real>,
                                  evidence: Option<LeadTime>, yieldRate: real, multiplier: real,
                                  lognormal: (real, real) -> (real -> real), sqrt: real -> real)
    requires multiplier > 0.0
  {
    var s := Survival(profile.model, lognormal);
    var hs := profile.horizons;
    && ModelFits(profile.model, pipeline, cycles, evidence)
    && (forall i, j :: 0 <= i < j < |hs| ==> hs[i].days < hs[j].days && hs[i].expected <= hs[j].expected)
    && (forall i :: 0 <= i < |hs| ==> hs[i].days in horizons)
    && (forall d :: d in horizons ==> exists i :: 0 <= i < |hs| && hs[i].days == d)
    && (forall i :: 0 <= i < |hs| ==> Projects(hs[i], pipeline, s, yieldRate, multiplier, sqrt))
    && (profile.model == Unavailable ==> forall i :: 0 <= i < |hs| ==> hs[i].expected == 0.0)
    && (forall i :: 0 <= i < |hs| ==>
          HorizonFits(hs[i], pipeline, profile.model, yieldRate, multiplier, lognormal, sqrt))
    && (profile.status == StatusUnavailable <==> profile.model == Unavailable)
    && profile.censored == pipeline.eligibleQuantity
  }

  /** `tuple(sorted(set(...)))`. */
  method NormalizeHorizons(horizons: seq<int>) returns (days: seq<int>)
    ensures forall i, j :: 0 <= i < j < |days| ==> days[i] < days[j]
    ensures forall d :: d in days <==> d in horizons
  {
    days := SortedList((set h | h in horizons), IntLe);
    assert forall i, j :: 0 <= i < j < |days| ==> IntLe(days[i], days[j]) && days[i] != days[j];
  }

  /**
   The whole projection. It errs exactly on a yield outside the unit interval, a non-positive
   multiplier or a negative horizon, in that order, and otherwise returns a faithful profile.
   */
  method ProjectRepairReturns(pipeline: Pipeline, horizons: seq<int>, completedCycles: seq<real>,
                              evidence: Option<LeadTime>, yieldRate: real, multiplier: real,
                              lognormal: (real, real) -> (real -> real), sqrt: real -> real)
    returns (r: Result<Profile, ProjectionError>)
    requires ValidPipeline(pipeline) && LognormalShape(lognormal) && SquareRoot(sqrt)
    ensures r == Err(YieldOutOfRange) <==> !(0.0 <= yieldRate <= 1.0)
    ensures r == Err(BadMultiplier) <==> 0.0 <= yieldRate <= 1.0 && multiplier <= 0.0
    ensures r == Err(NegativeHorizon) <==>
              0.0 <= yieldRate <= 1.0 && multiplier > 0.0 && exists h :: h in horizons && h < 0
    ensures r.Ok? ==> multiplier > 0.0
                      && FaithfulProfile(r.value, pipeline, horizons, completedCycles, evidence, yieldRate, multiplier,
                                         lognormal, sqrt)
    ensures r.Ok? && (forall c :: c in completedCycles ==> c < 0.0) && !UsableEvidence(evidence) ==>
              forall i :: 0 <= i < |r.value.horizons| ==> r.value.horizons[i].expected == 0.0
  {
    hide FaithfulProfile, ValidPipeline, LognormalShape, SquareRoot;
    if !(0.0 <= yieldRate <= 1.0) {
      return Err(YieldOutOfRange);
    }
    if multiplier <= 0.0 {
      return Err(BadMultiplier);
    }
    var days := NormalizeHorizons(horizons);
    if exists h :: h in days && h < 0 {
      return Err(NegativeHorizon);
    }
    var profile := ProjectProfile(pipeline, days, completedCycles, evidence, yieldRate, multiplier, lognormal, sqrt);
    ProfileOfSameHorizons(profile, pipeline, days, horizons, completedCycles, evidence, yieldRate, multiplier,
                          lognormal, sqrt);
    NothingWithoutEvidence(profile, pipeline, horizons, completedCycles, evidence, yieldRate, multiplier,
                           lognormal, sqrt);
    r := Ok(profile);
  }

  lemma ProfileOfSameHorizons(profile: Profile, pipeline: Pipeline, days: seq<int>, horizons: seq<int>,
                              cycles: seq<real>, evidence: Option<LeadTime>, yieldRate: real, multiplier: real,
                              lognormal: (real, real) -> (real -> real), sqrt: real -> real)
    requires multiplier > 0.0 && forall d :: d in days <==> d in horizons
    requires FaithfulProfile(profile, pipeline, days, cycles, evidence, yieldRate, multiplier, lognormal, sqrt)
    ensures FaithfulProfile(profile, pipeline, horizons, cycles, evidence, yieldRate, multiplier, lognormal, sqrt)
  {
    hide Projects, ModelFits, HorizonFits, Survival;
  }

  /** Without a completed cycle and without repair evidence nothing is credited, whatever other lead time is given. */
  lemma NothingWithoutEvidence(profile: Profile, pipeline: Pipeline, horizons: seq<int>, cycles: seq<real>,
                               evidence: Option<LeadTime>, yieldRate: real, multiplier: real,
                               lognormal: (real, real) -> (real -> real), sqrt: real -> real)
    requires multiplier > 0.0
    requires FaithfulProfile(profile, pipeline, horizons, cycles, evidence, yieldRate, multiplier, lognormal, sqrt)
    ensures (forall c :: c in cycles ==> c < 0.0) && !UsableEvidence(evidence) ==>
              profile.model == Unavailable
              && forall i :: 0 <= i < |profile.horizons| ==> profile.horizons[i].expected == 0.0
  {
    hide Projects, HorizonFits, Survival;
  }

  method ProjectProfile(pipeline: Pipeline, days: seq<int>, completedCycles: seq<real>, evidence: Option<LeadTime>,
                        yieldRate: real, multiplier: real,
                        lognormal: (real, real) -> (real -> real), sqrt: real -> real)
    returns (profile: Profile)
    requires ValidPipeline(pipeline) && LognormalShape(lognormal) && SquareRoot(sqrt)
    requires 0.0 <= yieldRate <= 1.0 && multiplier > 0.0
    requires forall i, j :: 0 <= i < j < |days| ==> days[i] < days[j]
    ensures FaithfulProfile(profile, pipeline, days, completedCycles, evidence, yieldRate, multiplier, lognormal, sqrt)
  {
    hide Projects, ModelFits, HorizonFits, SquareRoot, LognormalShape, SurvivalCurve, IsKaplanMeier, Estimates;
    var completed := CleanDurations(completedCycles);
    var ages := CensoredAges(pipeline.included);
    OneAgePerUnit(pipeline.included);
    var model := SelectModel(completed, ages, evidence);
    SelectedModelIsSurvivalCurve(model, completed, ages, evidence, lognormal);
    SelectedFits(model, pipeline, completed, completedCycles, evidence);
    var s := Survival(model, lognormal);
    var results := ProjectAll(pipeline, days, s, yieldRate, multiplier, sqrt);
    profile := Profile(model, results, if model == Unavailable then StatusUnavailable else StatusOther, |ages|);
    forall i | 0 <= i < |results|
      ensures HorizonFits(results[i], pipeline, model, yieldRate, multiplier, lognormal, sqrt)
    {
      ProjectsFits(results[i], pipeline, model, yieldRate, multiplier, lognormal, sqrt);
    }
    if model == Unavailable {
      forall i | 0 <= i < |results| ensures results[i].expected == 0.0 {
        NoCreditWithoutEvidence(results[i], pipeline, s, yieldRate, multiplier, sqrt);
      }
    }
    forall d | d in days ensures exists i :: 0 <= i < |results| && results[i].days == d {
      var i :| 0 <= i < |days| && days[i] == d;
      assert results[i].days == d;
    }
  }

  lemma SelectedFits(m: Model, pipeline: Pipeline, completed: seq<real>, cycles: seq<real>, evidence: Option<LeadTime>)
    requires Cleaned(completed, cycles) && Selected(m, completed, CensoredAges(pipeline.included), evidence)
    ensures ModelFits(m, pipeline, cycles, evidence)
  {
    hide Estimates, IsKaplanMeier, FallbackFits;
    var ages := CensoredAges(pipeline.included);
    OneAgePerUnit(pipeline.included);
    forall r ensures Count(ages, r) == UnitsAged(pipeline.included, r) {
      CensoredAgesCount(pipeline.included, r);
    }
    assert AgesOf(ages, pipeline.included);
    NonNegativeMembers(cycles);
    assert completed == [] <==> multiset(completed) == multiset{};
    assert completed != [] ==> completed[0] in multiset(completed);
  }

  lemma {:induction false} NonNegativeMembers(values: seq<real>)
    ensures forall x :: x in NonNegative(values) <==> x in values && x >= 0.0
  {
    if values != [] {
      NonNegativeMembers(values[..|values| - 1]);
      assert values == values[..|values| - 1] + [values[|values| - 1]];
    }
  }

  lemma NoCreditWithoutEvidence(h: Horizon, pipeline: Pipeline, s: real -> real, yieldRate: real, multiplier: real,
                                sqrt: real -> real)
    requires multiplier > 0.0 && Projects(h, pipeline, s, yieldRate, multiplier, sqrt)
    requires forall d :: s(d) == 1.0
    ensures h.expected == 0.0
  {
    NoEvidenceNoReturns(h.items, pipeline.included, s, h.days, yieldRate, multiplier);
  }

  lemma LongerProjectsMore(a: Horizon, b: Horizon, pipeline: Pipeline, s: real -> real, yieldRate: real,
                           multiplier: real,
                           sqrt: real -> real)
    requires multiplier > 0.0 && SurvivalCurve(s) && 0.0 <= yieldRate <= 1.0 && a.days <= b.days
    requires Projects(a, pipeline, s, yieldRate, multiplier, sqrt) &&
               Projects(b, pipeline, s, yieldRate, multiplier, sqrt)
    ensures a.expected <= b.expected
  {
    LongerHorizonExpectsMore(a.items, b.items, pipeline.included, s, a.days, b.days, yieldRate, multiplier);
  }

  method ProjectAll(pipeline: Pipeline, days: seq<int>, s: real -> real, yieldRate: real, multiplier: real,
                    sqrt: real -> real)
    returns (results: seq<Horizon>)
    requires ValidPipeline(pipeline) && SurvivalCurve(s) && SquareRoot(sqrt)
    requires 0.0 <= yieldRate <= 1.0 && multiplier > 0.0 && Sorted(days, IntLe)
    ensures |results| == |days|
    ensures forall i :: 0 <= i < |results| ==>
              results[i].days == days[i] && Projects(results[i], pipeline, s, yieldRate, multiplier, sqrt)
    ensures forall i, j :: 0 <= i < j < |results| ==> results[i].expected <= results[j].expected
  {
    hide Projects;
    results := [];
    for i := 0 to |days|
      invariant |results| == i
      invariant forall j :: 0 <= j < i ==>
        results[j].days == days[j] && Projects(results[j], pipeline, s, yieldRate, multiplier, sqrt)
    {
      var h := ProjectHorizon(pipeline, s, days[i], yieldRate, multiplier, sqrt);
      results := results + [h];
    }
    forall i, j | 0 <= i < j < |results| ensures results[i].expected <= results[j].expected {
      assert IntLe(days[i], days[j]);
      LongerProjectsMore(results[i], results[j], pipeline, s, yieldRate, multiplier, sqrt);
    }
  }

  lemma {:induction false} NoEvidenceNoReturns(items: seq<Item>, positions: seq<Position>, s: real -> real,
                                               days: int, yieldRate: real, multiplier: real)
    requires multiplier > 0.0 && ItemsOf(items, positions, s, days, yieldRate, multiplier)
    requires forall d :: s(d) == 1.0
    ensures Expected(items) == 0.0
  {
    if items != [] {
      var n := |items| - 1;
      NoEvidenceNoReturns(items[..n], positions[..n], s, days, yieldRate, multiplier);
      assert ReturnProbability(s, positions[n].age as real, days, multiplier) == 0.0;
    }
  }

  /** The censored ages are one observation for every eligible unit, none more. */
  lemma {:induction false} OneAgePerUnit(positions: seq<Position>)
    ensures |CensoredAges(positions)| == Units(positions)
  {
    if positions != [] {
      OneAgePerUnit(positions[..|positions| - 1]);
    }
  }
}
