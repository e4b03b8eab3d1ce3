/**
 Survival curves of `repair_returns.py` over the reals: the Kaplan-Meier estimator with
 right-censored ages, the fallbacks, and the age-conditioned return probability.
 */
module RepairSurvival {
  import opened Wrappers
  import opened Ordering
  import opened Reals

  // ----- counting observations -----

  datatype Range = From(t: real) | UpTo(t: real) | Past(t: real) | At(t: real) | Anything

  predicate In(x: real, r: Range) {
    match r
    case From(t) => x >= t
    case UpTo(t) => x <= t
    case Past(t) => x > t
    case At(t) => x == t
    case Anything => true
  }

  function Count(xs: seq<real>, r: Range): nat {
    if xs == [] then 0 else (if In(xs[0], r) then 1 else 0) + Count(xs[1..], r)
  }

  lemma {:induction false} CountSplits(xs: seq<real>, whole: Range, a: Range, b: Range)
    requires forall x :: x in xs ==> (In(x, whole) <==> In(x, a) || In(x, b)) && !(In(x, a) && In(x, b))
    ensures Count(xs, whole) == Count(xs, a) + Count(xs, b)
  {
    if xs != [] {
      assert xs[0] in xs;
      CountSplits(xs[1..], whole, a, b);
    }
  }

  lemma {:induction false} CountMonotone(xs: seq<real>, a: Range, b: Range)
    requires forall x :: x in xs && In(x, a) ==> In(x, b)
    ensures Count(xs, a) <= Count(xs, b)
  {
    if xs != [] {
      assert xs[0] in xs;
      CountMonotone(xs[1..], a, b);
    }
  }

  lemma {:induction false} CountAll(xs: seq<real>)
    ensures Count(xs, Anything) == |xs|
  {
    if xs != [] {
      CountAll(xs[1..]);
    }
  }

  lemma {:induction false} CountNone(xs: seq<real>, r: Range)
    requires forall x :: x in xs ==> !In(x, r)
    ensures Count(xs, r) == 0
  {
    if xs != [] {
      assert xs[0] in xs;
      CountNone(xs[1..], r);
    }
  }

  lemma {:induction false} CountPositive(xs: seq<real>, r: Range, x: real)
    requires x in xs && In(x, r)
    ensures Count(xs, r) > 0
  {
    if xs[0] != x {
      CountPositive(xs[1..], r, x);
    }
  }

  function AtLeast(xs: seq<real>, t: real): nat { Count(xs, From(t)) }
  function AtMost(xs: seq<real>, t: real): nat { Count(xs, UpTo(t)) }
  function Above(xs: seq<real>, t: real): nat { Count(xs, Past(t)) }
  function Equal(xs: seq<real>, t: real): nat { Count(xs, At(t)) }

  method CountAtLeast(xs: seq<real>, t: real) returns (n: nat)
    ensures n == AtLeast(xs, t)
  {
    n := 0;
    for i := |xs| downto 0
      invariant n == AtLeast(xs[i..], t)
    {
      assert xs[i..][1..] == xs[i + 1..];
      n := n + if xs[i] >= t then 1 else 0;
    }
  }

  method CountEqual(xs: seq<real>, t: real) returns (n: nat)
    ensures n == Equal(xs, t)
  {
    n := 0;
    for i := |xs| downto 0
      invariant n == Equal(xs[i..], t)
    {
      assert xs[i..][1..] == xs[i + 1..];
      n := n + if xs[i] == t then 1 else 0;
    }
  }

  // ----- the Kaplan-Meier product -----

  predicate RealLe(a: real, b: real) { a <= b }

  /** Censored ages, clipped at zero as the estimator does. */
  function Clipped(censored: seq<real>): seq<real> {
    seq(|censored|, i requires 0 <= i < |censored| => Max(0.0, censored[i]))
  }

  function AtRisk(events: seq<real>, clipped: seq<real>, t: real): nat {
    AtLeast(events, t) + AtLeast(clipped, t)
  }

  /** The product over the first `k` event times of one minus events over units at risk. */
  ghost function Product(events: seq<real>, clipped: seq<real>, times: seq<real>, k: nat): real
    requires k <= |times|
  {
    if k == 0 then 1.0
    else Factored(Product(events, clipped, times, k - 1),
                  Equal(events, times[k - 1]), AtRisk(events, clipped, times[k - 1]))
  }

  function Factored(v: real, events: nat, atRisk: nat): real {
    if atRisk == 0 then v else v * (1.0 - events as real / atRisk as real)
  }

  function Observations(events: seq<real>, clipped: seq<real>): nat {
    |events| + |clipped|
  }

  /** The units left once the first `k` event times have passed. */
  ghost function Left(events: seq<real>, clipped: seq<real>, times: seq<real>, k: nat): int
    requires k <= |times|
  {
    if k == 0 then Observations(events, clipped)
    else AtRisk(events, clipped, times[k - 1]) - Equal(events, times[k - 1])
  }

  /** `times` is the increasing list of the distinct completed durations. */
  ghost predicate IsTimeline(times: seq<real>, events: seq<real>) {
    && (forall i, j :: 0 <= i < j < |times| ==> times[i] < times[j])
    && (forall t :: t in times ==> t in events)
    && (forall t :: t in events ==> t in times)
  }

  lemma AtRiskBounds(events: seq<real>, clipped: seq<real>, t: real)
    ensures AtRisk(events, clipped, t) == Equal(events, t) + Above(events, t) + AtLeast(clipped, t)
    ensures Above(events, t) + AtMost(events, t) == |events|
    ensures AtLeast(clipped, t) >= Above(clipped, t)
    ensures AtRisk(events, clipped, t) <= Observations(events, clipped)
  {
    CountSplits(events, From(t), At(t), Past(t));
    CountAll(events);
    CountMonotone(events, At(t), UpTo(t));
    CountSplits(events, Anything, Past(t), UpTo(t));
    CountMonotone(clipped, Past(t), From(t));
    CountAll(clipped);
    CountMonotone(clipped, From(t), Anything);
  }

  /** Between consecutive event times nobody completes: whoever is seen later was left. */
  lemma LaterAreLeft(events: seq<real>, clipped: seq<real>, times: seq<real>, k: nat, t: real)
    requires IsTimeline(times, events) && k <= |times|
    requires k > 0 ==> times[k - 1] < t
    ensures AtRisk(events, clipped, t) <= Left(events, clipped, times, k)
  {
    AtRiskBounds(events, clipped, t);
    if k > 0 {
      var u := times[k - 1];
      AtRiskBounds(events, clipped, u);
      CountMonotone(events, From(t), Past(u));
      CountMonotone(clipped, From(t), From(u));
    }
  }

  lemma ProductLower(a: real, b: real, q: real)
    requires a >= b && q >= 0.0
    ensures a * q >= b * q
  {
  }

  lemma UnitQuotient(b: real, a: real)
    requires 0.0 <= b <= a && a > 0.0
    ensures 0.0 <= b / a <= 1.0 && (b / a) * a == b
  {
  }

  lemma FactorInUnit(v: real, q: real)
    requires 0.0 <= v && 0.0 <= q <= 1.0
    ensures 0.0 <= v * q <= v
  {
    ProductLower(q, 0.0, v);
    ProductLower(1.0, q, v);
  }

  lemma Expand(v: real, q: real, total: real)
    ensures v * (1.0 - q) * total == v * total - v * total * q
  {
  }

  /** One more factor `1 - q`, where `q` is the fraction `d` of the `n` units at risk. */
  lemma RatioBounds(v: real, total: real, n: real, d: real, q: real, v': real)
    requires v * total >= n && 0.0 <= q <= 1.0 && q * n == d && v' == v * (1.0 - q)
    ensures v' * total >= n - d
    ensures v' * total <= v * total - d
  {
    Expand(v, q, total);
    var w := v * total;
    ProductLower(w, n, q);
    ProductLower(w, n, 1.0 - q);
    assert n * q == d && w * q >= d;
    assert w * (1.0 - q) == w - w * q && n * (1.0 - q) == n - d;
  }

  /** `v` lies between the fraction left and one minus the fraction completed. */
  ghost predicate Bracketed(v: real, total: nat, left: int, completed: nat) {
    0.0 <= v <= 1.0 && left as real <= v * total as real <= (total - completed) as real
  }

  ghost predicate Bounded(events: seq<real>, clipped: seq<real>, times: seq<real>, k: nat)
    requires k <= |times|
  {
    Bracketed(Product(events, clipped, times, k), Observations(events, clipped),
            Left(events, clipped, times, k), Completed(events, times, k))
  }

  ghost function Completed(events: seq<real>, times: seq<real>, k: nat): nat
    requires k <= |times|
  {
    if k == 0 then 0 else AtMost(events, times[k - 1])
  }

  /**
   Both bounds of the product: at least the fraction of units left, at most one minus the
   fraction completed. The upper bound needs the lower one at the step before.
   */
  lemma {:induction false} ProductBounds(events: seq<real>, clipped: seq<real>, times: seq<real>, k: nat)
    requires IsTimeline(times, events) && k <= |times|
    ensures Bounded(events, clipped, times, k)
    ensures k > 0 ==> Product(events, clipped, times, k) <= Product(events, clipped, times, k - 1)
    ensures k > 0 ==> AtRisk(events, clipped, times[k - 1]) > 0
  {
    if k > 0 {
      ProductBounds(events, clipped, times, k - 1);
      LaterAreLeft(events, clipped, times, k - 1, times[k - 1]);
      CompletedSoFar(events, times, k);
      NextFactor(events, clipped, times, k);
    }
  }

  lemma NextFactor(events: seq<real>, clipped: seq<real>, times: seq<real>, k: nat)
    requires 0 < k <= |times| && times[k - 1] in events
    requires Bounded(events, clipped, times, k - 1)
    requires AtRisk(events, clipped, times[k - 1]) <= Left(events, clipped, times, k - 1)
    requires Completed(events, times, k) == Completed(events, times, k - 1) + Equal(events, times[k - 1])
    ensures AtRisk(events, clipped, times[k - 1]) > 0
    ensures Bounded(events, clipped, times, k)
    ensures Product(events, clipped, times, k) <= Product(events, clipped, times, k - 1)
  {
    var t := times[k - 1];
    AtRiskBounds(events, clipped, t);
    CountPositive(events, At(t), t);
    NextBounds(Product(events, clipped, times, k - 1), Observations(events, clipped),
               Left(events, clipped, times, k - 1), AtRisk(events, clipped, t), Equal(events, t),
               Completed(events, times, k - 1), Product(events, clipped, times, k));
    assert Left(events, clipped, times, k) == AtRisk(events, clipped, t) - Equal(events, t);
  }

  lemma NextBounds(v: real, total: nat, left: int, n: nat, d: nat, c: nat, v': real)
    requires Bracketed(v, total, left, c) && d <= n && 0 < n <= left
    requires v' == Factored(v, d, n)
    ensures Bracketed(v', total, n - d, c + d) && v' <= v
  {
    var m, e, w := n as real, d as real, total as real;
    var q := e / m;
    UnitQuotient(e, m);
    FactorInUnit(v, 1.0 - q);
    RatioBounds(v, w, m, e, q, v');
  }

  /** The completions up to an event time are those up to the one before plus those at it. */
  lemma CompletedSoFar(events: seq<real>, times: seq<real>, k: nat)
    requires IsTimeline(times, events) && 0 < k <= |times|
    ensures Completed(events, times, k) == Completed(events, times, k - 1) + Equal(events, times[k - 1])
  {
    var t := times[k - 1];
    forall x | x in events && x < t ensures k > 1 && x <= times[k - 2] {
      var i :| 0 <= i < |times| && times[i] == x;
      assert i < k - 1;
    }
    if k == 1 {
      CountMonotone(events, UpTo(t), At(t));
      CountMonotone(events, At(t), UpTo(t));
    } else {
      var u := times[k - 2];
      CountSplits(events, UpTo(t), UpTo(u), At(t));
    }
  }

  lemma ProductInUnit(events: seq<real>, clipped: seq<real>, times: seq<real>, k: nat)
    requires IsTimeline(times, events) && k <= |times|
    ensures 0.0 <= Product(events, clipped, times, k) <= 1.0
  {
    ProductBounds(events, clipped, times, k);
  }

  // ----- the estimator -----

  /** One `(event_time, survival)` entry of the step function. */
  datatype KmStep = KmStep(time: real, survival: real)

  function Times(steps: seq<KmStep>): seq<real> {
    seq(|steps|, i requires 0 <= i < |steps| => steps[i].time)
  }

  ghost predicate IsKaplanMeier(steps: seq<KmStep>, events: seq<real>, clipped: seq<real>) {
    && IsTimeline(Times(steps), events)
    && forall i :: 0 <= i < |steps| ==> steps[i].survival == Product(events, clipped, Times(steps), i + 1)
  }

  lemma ProductStart(events: seq<real>, clipped: seq<real>, times: seq<real>)
    ensures Product(events, clipped, times, 0) == 1.0
  {
  }

  lemma ProductStep(events: seq<real>, clipped: seq<real>, times: seq<real>, k: nat)
    requires k < |times|
    ensures AtRisk(events, clipped, times[k]) == AtLeast(events, times[k]) + AtLeast(clipped, times[k])
    ensures Product(events, clipped, times, k + 1)
         == Factored(Product(events, clipped, times, k), Equal(events, times[k]), AtRisk(events, clipped, times[k]))
  {
  }

  lemma RealLeIsTotalOrder()
    ensures TotalPreorder(RealLe) && Antisymmetric(RealLe)
  {
  }

  // ----- the estimator on the ages as given -----

  /** The open units at risk at an event time: those at least that old, and at time zero or before, all of them. */
  ghost function OpenAtRisk(ages: seq<real>, t: real): nat {
    if t > 0.0 then AtLeast(ages, t) else |ages|
  }

  /**
   The Kaplan-Meier recurrence on the observations themselves. There is one step per distinct
   completed duration, in increasing order, and each multiplies the curve by the fraction of
   the units at risk, completed and open, that do not complete then.
   */
  ghost predicate Estimates(steps: seq<KmStep>, completed: seq<real>, ages: seq<real>) {
    && (forall i, j :: 0 <= i < j < |steps| ==> steps[i].time < steps[j].time)
    && (forall i :: 0 <= i < |steps| ==> steps[i].time in completed)
    && (forall t :: t in completed ==> exists i :: 0 <= i < |steps| && steps[i].time == t)
    && forall i :: 0 <= i < |steps| ==>
         StepFits(if i == 0 then 1.0 else steps[i - 1].survival, steps[i], completed, ages)
  }

  ghost predicate StepFits(before: real, step: KmStep, completed: seq<real>, ages: seq<real>) {
    var n := AtLeast(completed, step.time) + OpenAtRisk(ages, step.time);
    n > 0 && step.survival * n as real == before * (n - Equal(completed, step.time)) as real
  }

  lemma {:induction false} ClippedAtRisk(ages: seq<real>, t: real)
    ensures AtLeast(Clipped(ages), t) == OpenAtRisk(ages, t)
  {
    if ages != [] {
      assert Clipped(ages)[1..] == Clipped(ages[1..]);
      ClippedAtRisk(ages[1..], t);
    }
  }

  lemma {:induction false} ClippedAbove(ages: seq<real>, day: real)
    requires day >= 0.0
    ensures Above(Clipped(ages), day) == Above(ages, day)
  {
    if ages != [] {
      assert Clipped(ages)[1..] == Clipped(ages[1..]);
      ClippedAbove(ages[1..], day);
    }
  }

  lemma EstimatesOnAges(steps: seq<KmStep>, completed: seq<real>, ages: seq<real>)
    requires IsKaplanMeier(steps, completed, Clipped(ages))
    ensures Estimates(steps, completed, ages)
  {
    hide Product, Factored, AtRisk, Clipped, StepFits;
    var times, clipped := Times(steps), Clipped(ages);
    forall i, j | 0 <= i < j < |steps| ensures steps[i].time < steps[j].time {
      assert times[i] < times[j];
    }
    forall i | 0 <= i < |steps| ensures steps[i].time in completed {
      assert times[i] in times;
    }
    forall i | 0 <= i < |steps|
      ensures StepFits(if i == 0 then 1.0 else steps[i - 1].survival, steps[i], completed, ages)
    {
      ProductStart(completed, clipped, times);
      ProductStep(completed, clipped, times, i);
      ProductBounds(completed, clipped, times, i + 1);
      ClippedAtRisk(ages, times[i]);
      StepFactor(Product(completed, clipped, times, i), steps[i], completed, ages,
                 AtRisk(completed, clipped, times[i]));
    }
    forall t | t in completed ensures exists i :: 0 <= i < |steps| && steps[i].time == t {
      var i :| 0 <= i < |times| && times[i] == t;
      assert steps[i].time == t;
    }
  }

  lemma StepFactor(before: real, step: KmStep, completed: seq<real>, ages: seq<real>, n: nat)
    requires n == AtLeast(completed, step.time) + OpenAtRisk(ages, step.time) && n > 0
    requires step.survival == Factored(before, Equal(completed, step.time), n)
    ensures StepFits(before, step, completed, ages)
  {
    FactorTimes(before, Equal(completed, step.time) as real, n as real);
  }

  lemma FactorTimes(v: real, d: real, n: real)
    requires n > 0.0
    ensures v * (1.0 - d / n) * n == v * (n - d)
  {
    var q := d / n;
    assert q * n == d;
    assert v * (1.0 - q) * n == v * n - v * (q * n);
  }

  /** The lower bound of the curve on the ages as given: it never falls below the fraction seen after the day. */
  lemma KaplanMeierCountsOpenUnits(steps: seq<KmStep>, completed: seq<real>, ages: seq<real>, day: real)
    requires IsKaplanMeier(steps, completed, Clipped(ages)) && |completed| + |ages| > 0 && day >= 0.0
    ensures (Above(completed, day) + Above(ages, day)) as real / (|completed| + |ages|) as real <= StepValue(steps, day)
    ensures StepValue(steps, day) <= 1.0 - AtMost(completed, day) as real / (|completed| + |ages|) as real
  {
    ClippedAbove(ages, day);
    KaplanMeierBounds(steps, completed, Clipped(ages), day);
  }

  // ----- the loop -----

  /** `_kaplan_meier`: the running product over the sorted distinct event times, clamped. */
  method KaplanMeier(completed: seq<real>, censored: seq<real>) returns (steps: seq<KmStep>)
    ensures IsKaplanMeier(steps, completed, Clipped(censored))
    ensures Estimates(steps, completed, censored)
  {
    hide Factored, Product, AtRisk, Clipped, AtLeast, Equal;
    var clipped := Clipped(censored);
    RealLeIsTotalOrder();
    var timeline := SortedList((set t | t in completed), RealLe);
    assert IsTimeline(timeline, completed);
    steps := [];
    var survival := 1.0;
    ProductStart(completed, clipped, timeline);
    for i := 0 to |timeline|
      invariant Times(steps) == timeline[..i]
      invariant survival == Product(completed, clipped, timeline, i)
      invariant forall j :: 0 <= j < i ==> steps[j].survival == Product(completed, clipped, timeline, j + 1)
    {
      var t := timeline[i];
      var seenEvents := CountAtLeast(completed, t);
      var seenCensored := CountAtLeast(clipped, t);
      var atRisk := seenEvents + seenCensored;
      var events := CountEqual(completed, t);
      ProductStep(completed, clipped, timeline, i);
      survival := Factored(survival, events, atRisk);
      ProductInUnit(completed, clipped, timeline, i + 1);
      steps := steps + [KmStep(t, Max(0.0, Min(1.0, survival)))];
    }
    assert Times(steps) == timeline;
    hide Estimates;
    EstimatesOnAges(steps, completed, censored);
  }

  /** How many steps have been taken by a given day. */
  function StepsTaken(steps: seq<KmStep>, day: real): (k: nat)
    ensures k <= |steps|
    ensures forall i :: 0 <= i < k ==> steps[i].time <= day
    ensures k < |steps| ==> steps[k].time > day
  {
    if steps == [] || steps[0].time > day then 0 else 1 + StepsTaken(steps[1..], day)
  }

  function StepValue(steps: seq<KmStep>, day: real): real {
    var k := StepsTaken(steps, day);
    if k == 0 then 1.0 else steps[k - 1].survival
  }

  /** `survival_at`: scan the steps until one lies after the day. */
  method SurvivalAt(steps: seq<KmStep>, day: real) returns (r: real)
    ensures r == StepValue(steps, day)
  {
    r := 1.0;
    var i := 0;
    while i < |steps| && steps[i].time <= day
      invariant 0 <= i <= |steps|
      invariant StepsTaken(steps, day) == i + StepsTaken(steps[i..], day)
      invariant r == if i == 0 then 1.0 else steps[i - 1].survival
    {
      assert steps[i..][1..] == steps[i + 1..];
      r := steps[i].survival;
      i := i + 1;
    }
  }

  /**
   The Kaplan-Meier curve on every day: never below the fraction of all units observed
   longer than that day, never above one minus the fraction known to have completed by it.
   */
  lemma KaplanMeierBounds(steps: seq<KmStep>, events: seq<real>, clipped: seq<real>, day: real)
    requires IsKaplanMeier(steps, events, clipped) && Observations(events, clipped) > 0
    ensures var total := Observations(events, clipped) as real;
            && 0.0 <= StepValue(steps, day) <= 1.0
            && (Above(events, day) + Above(clipped, day)) as real / total <= StepValue(steps, day)
            && StepValue(steps, day) <= 1.0 - AtMost(events, day) as real / total
  {
    var times := Times(steps);
    var k := StepsTaken(steps, day);
    var v := Product(events, clipped, times, k);
    assert StepValue(steps, day) == v;
    ProductBounds(events, clipped, times, k);
    SeenAfter(events, clipped, times, k, day);
    CompletedBy(events, times, k, day);
    BracketedFractions(v, Observations(events, clipped), Left(events, clipped, times, k), AtMost(events, day),
                     Above(events, day) + Above(clipped, day));
  }

  lemma BracketedFractions(v: real, total: nat, left: int, completed: nat, seen: nat)
    requires Bracketed(v, total, left, completed) && seen <= left && total > 0
    ensures seen as real / total as real <= v <= 1.0 - completed as real / total as real
  {
    var n := total as real;
    QuotientBelow(seen as real, n, v);
    assert (1.0 - v) * n == n - v * n;
    QuotientBelow(completed as real, n, 1.0 - v);
  }

  lemma QuotientBelow(a: real, n: real, v: real)
    requires n > 0.0 && a <= v * n
    ensures a / n <= v
  {
    var x := a / n;
    assert x * n == a;
    if x > v { ProductStrict(x, v, n); }
  }

  lemma ProductStrict(a: real, b: real, q: real)
    requires a > b && q > 0.0
    ensures a * q > b * q
  {
  }

  lemma SeenAfter(events: seq<real>, clipped: seq<real>, times: seq<real>, k: nat, day: real)
    requires IsTimeline(times, events) && k <= |times| && (k > 0 ==> times[k - 1] <= day)
    ensures Above(events, day) + Above(clipped, day) <= Left(events, clipped, times, k)
  {
    AtRiskBounds(events, clipped, day);
    if k > 0 {
      var u := times[k - 1];
      AtRiskBounds(events, clipped, u);
      CountMonotone(events, Past(day), Past(u));
      CountMonotone(clipped, Past(day), From(u));
    }
  }

  lemma CompletedBy(events: seq<real>, times: seq<real>, k: nat, day: real)
    requires IsTimeline(times, events) && k <= |times|
    requires k > 0 ==> times[k - 1] <= day
    requires k < |times| ==> times[k] > day
    ensures AtMost(events, day) == Completed(events, times, k)
  {
    forall x | x in events && x <= day ensures k > 0 && x <= times[k - 1] {
      var i :| 0 <= i < |times| && times[i] == x;
      assert i < k;
    }
    if k == 0 {
      CountNone(events, UpTo(day));
    } else {
      CountMonotone(events, UpTo(day), UpTo(times[k - 1]));
      CountMonotone(events, UpTo(times[k - 1]), UpTo(day));
    }
  }

  /** Without censored ages the curve is the empirical fraction of durations above the day. */
  lemma KaplanMeierIsEmpirical(steps: seq<KmStep>, events: seq<real>, day: real)
    requires IsKaplanMeier(steps, events, []) && events != []
    ensures StepValue(steps, day) == Above(events, day) as real / |events| as real
  {
    KaplanMeierBounds(steps, events, [], day);
    AtRiskBounds(events, [], day);
    Squeeze(StepValue(steps, day), |events|, Above(events, day), AtMost(events, day));
  }

  lemma Squeeze(v: real, n: nat, a: nat, c: nat)
    requires n > 0 && a + c == n && a as real / n as real <= v <= 1.0 - c as real / n as real
    ensures v == a as real / n as real
  {
    FractionsAddUp(a as real, c as real, n as real);
  }

  lemma FractionsAddUp(a: real, c: real, n: real)
    requires n > 0.0 && a + c == n
    ensures a / n + c / n == 1.0
  {
    assert a / n + c / n == (a + c) / n;
  }

  /** A survival curve: within the unit interval and never rising. */
  ghost predicate SurvivalCurve(s: real -> real) {
    && (forall d :: 0.0 <= s(d) <= 1.0)
    && (forall d, e :: d <= e ==> s(e) <= s(d))
  }

  lemma KaplanMeierIsSurvivalCurve(steps: seq<KmStep>, events: seq<real>, clipped: seq<real>)
    requires IsKaplanMeier(steps, events, clipped)
    ensures SurvivalCurve(day => StepValue(steps, day))
  {
    var s := (day: real) => StepValue(steps, day);
    forall d ensures 0.0 <= s(d) <= 1.0 {
      ProductBounds(events, clipped, Times(steps), StepsTaken(steps, d));
    }
    forall d, e | d <= e ensures s(e) <= s(d) {
      var k, l := StepsTaken(steps, d), StepsTaken(steps, e);
      ProductFalls(events, clipped, Times(steps), k, l);
    }
  }

  lemma {:induction false} ProductFalls(events: seq<real>, clipped: seq<real>, times: seq<real>, k: nat, l: nat)
    requires IsTimeline(times, events) && k <= l <= |times|
    ensures Product(events, clipped, times, l) <= Product(events, clipped, times, k)
    decreases l
  {
    if k < l {
      ProductFalls(events, clipped, times, k, l - 1);
      ProductBounds(events, clipped, times, l);
    }
  }

  // ----- age-conditioned return probability -----

  const MIN_SURVIVAL := 0.000000000001

  /** `_conditional_return_probability`. */
  function ReturnProbability(s: real -> real, age: real, horizon: int, multiplier: real): real
    requires multiplier > 0.0
  {
    if horizon <= 0 then 0.0
    else if s(age) <= MIN_SURVIVAL then 0.0
    else Max(0.0, Min(1.0, 1.0 - s(age + horizon as real / multiplier) / s(age)))
  }

  /** For a survival curve the clamp never acts: above the floor this is the conditional probability itself. */
  lemma ReturnProbabilityIsConditional(s: real -> real, age: real, horizon: int, multiplier: real)
    requires SurvivalCurve(s) && multiplier > 0.0
    ensures var p := ReturnProbability(s, age, horizon, multiplier);
            && 0.0 <= p <= 1.0
            && (horizon > 0 && s(age) > MIN_SURVIVAL ==> (1.0 - p) * s(age) == s(age + horizon as real / multiplier))
  {
    if horizon > 0 && s(age) > MIN_SURVIVAL {
      var step := horizon as real / multiplier;
      QuotientPositive(horizon as real, multiplier);
      var a, b := s(age), s(age + step);
      assert 0.0 <= b <= a;
      UnitQuotient(b, a);
    }
  }

  lemma QuotientPositive(x: real, m: real)
    requires x > 0.0 && m > 0.0
    ensures x / m > 0.0
  {
  }

  lemma QuotientMonotone(b: real, c: real, a: real)
    requires b <= c && a > 0.0
    ensures b / a <= c / a
  {
  }

  /** Looking further ahead never lowers the probability. */
  lemma LongerHorizonReturnsMore(s: real -> real, age: real, h: int, h': int, multiplier: real)
    requires SurvivalCurve(s) && multiplier > 0.0 && h <= h'
    ensures ReturnProbability(s, age, h, multiplier) <= ReturnProbability(s, age, h', multiplier)
  {
    ReturnProbabilityIsConditional(s, age, h', multiplier);
    if h > 0 && s(age) > MIN_SURVIVAL {
      QuotientMonotone(h as real, h' as real, multiplier);
      QuotientMonotone(s(age + h' as real / multiplier), s(age + h as real / multiplier), s(age));
    }
  }

  lemma SlowerIsShorter(h: real, m: real, m': real)
    requires h >= 0.0 && 0.0 < m <= m'
    ensures h / m' <= h / m
  {
    var a, b := h / m', h / m;
    assert a * m' == h && b * m == h;
    if a > b {
      ProductStrict(a, b, m);
      ProductLower(m', m, a);
    }
  }

  /** A slower turn-around time never raises the probability. */
  lemma SlowerTurnaroundReturnsLess(s: real -> real, age: real, horizon: int, m: real, m': real)
    requires SurvivalCurve(s) && 0.0 < m <= m'
    ensures ReturnProbability(s, age, horizon, m') <= ReturnProbability(s, age, horizon, m)
  {
    if horizon > 0 && s(age) > MIN_SURVIVAL {
      SlowerIsShorter(horizon as real, m, m');
      QuotientMonotone(s(age + horizon as real / m), s(age + horizon as real / m'), s(age));
    }
  }

  /** Both curve values of a chain are above the floor, or the chain has nothing left to lose. */
  predicate ChainsAt(s: real -> real, age: real, h1: nat, h2: nat) {
    || s(age) <= MIN_SURVIVAL
    || s(age + h1 as real) > MIN_SURVIVAL
    || h2 == 0
    || s(age + h1 as real) == s(age + h1 as real + h2 as real)
  }

  /**
   Surviving `h1` and then `h2` days is surviving `h1 + h2` days, exactly when the floor does
   not cut in between: if the curve has dropped to the floor at the intermediate age, the
   second factor is one, which is right only if the curve falls no further.
   */
  lemma ProbabilitiesChain(s: real -> real, age: real, h1: nat, h2: nat)
    requires SurvivalCurve(s)
    ensures Composes(ReturnProbability(s, age, h1, 1.0),
                     ReturnProbability(s, age + h1 as real, h2, 1.0),
                     ReturnProbability(s, age, h1 + h2, 1.0))
            <==> ChainsAt(s, age, h1, h2)
  {
    var mid := age + h1 as real;
    var end := mid + h2 as real;
    var p1 := ReturnProbability(s, age, h1, 1.0);
    var p2 := ReturnProbability(s, mid, h2, 1.0);
    var p := ReturnProbability(s, age, h1 + h2, 1.0);
    NextValue(s, age, h1, mid);
    NextValue(s, mid, h2, end);
    NextValue(s, age, h1 + h2, end);
    if s(age) <= MIN_SURVIVAL {
      ComposeWithOne(p1, p2, p);
    } else if s(mid) > MIN_SURVIVAL {
      ComposeFactors(s(age), s(mid), s(end), p1, p2, p);
    } else {
      SameFactor(s(age), s(mid), s(end), p1, p2, p);
    }
  }

  /** Staying out for both stretches is staying out for the whole. */
  ghost predicate Composes(p1: real, p2: real, p: real) {
    (1.0 - p1) * (1.0 - p2) == 1.0 - p
  }

  /** From an age with curve value `a` to one with value `b`, a unit returns with probability `p`. */
  ghost predicate Carries(a: real, p: real, b: real) {
    (1.0 - p) * a == b
  }

  lemma ComposeWithOne(p1: real, p2: real, p: real)
    requires p2 == 0.0
    ensures Composes(p1, p2, p) <==> p1 == p
  {
  }

  /** The complement of the return probability carries the curve from one age to the next. */
  lemma NextValue(s: real -> real, age: real, h: nat, next: real)
    requires SurvivalCurve(s) && next == age + h as real
    ensures var p := ReturnProbability(s, age, h, 1.0);
            if s(age) > MIN_SURVIVAL then Carries(s(age), p, s(next)) else p == 0.0
  {
    ReturnProbabilityIsConditional(s, age, h, 1.0);
    assert age + h as real / 1.0 == next;
  }

  lemma ComposeFactors(a: real, b: real, c: real, p1: real, p2: real, p: real)
    requires a > 0.0 && Carries(a, p1, b) && Carries(b, p2, c) && Carries(a, p, c)
    ensures Composes(p1, p2, p)
  {
    var q1, q2, q := 1.0 - p1, 1.0 - p2, 1.0 - p;
    assert (q1 * q2) * a == q2 * (q1 * a);
    CancelFactor(q1 * q2, q, a);
  }

  lemma SameFactor(a: real, b: real, c: real, p1: real, p2: real, p: real)
    requires a > 0.0 && p2 == 0.0 && Carries(a, p1, b) && Carries(a, p, c)
    ensures Composes(p1, p2, p) <==> b == c
  {
    ComposeWithOne(p1, p2, p);
    if b == c { CancelFactor(1.0 - p1, 1.0 - p, a); }
  }

  lemma CancelFactor(x: real, y: real, a: real)
    requires a > 0.0 && x * a == y * a
    ensures x == y
  {
    if x < y { ProductStrict(y, x, a); }
    if y < x { ProductStrict(x, y, a); }
  }

  /** The floor does break the chain: a curve that drops to it at age ten and to zero at twenty. */
  lemma ChainBreaksAtTheFloor()
    ensures var s := (d: real) => if d < 10.0 then 1.0 else if d < 20.0 then MIN_SURVIVAL / 2.0 else 0.0;
            SurvivalCurve(s)
            && !Composes(ReturnProbability(s, 5.0, 5, 1.0), ReturnProbability(s, 10.0, 10, 1.0),
                         ReturnProbability(s, 5.0, 15, 1.0))
  {
    var s := (d: real) => if d < 10.0 then 1.0 else if d < 20.0 then MIN_SURVIVAL / 2.0 else 0.0;
    assert SurvivalCurve(s);
    ProbabilitiesChain(s, 5.0, 5, 10);
    assert s(10.0) != s(20.0);
    assert 5.0 + 5 as real == 10.0;
  }
}
