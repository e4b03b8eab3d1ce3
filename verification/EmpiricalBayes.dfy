/**
 The Gamma-Poisson primitives of `eb.py`, over the reals: a prior fitted by moments, and the
 posterior rate it gives a part.
 */
module EmpiricalBayes {
  import opened Wrappers
  import opened Filtering
  import opened Reals
  import opened Sequences

  const EPS: real := 0.000000001

  /** Shape and rate of a Gamma prior; its mean is alpha / beta. */
  datatype GammaPrior = GammaPrior(alpha: real, beta: real) {
    predicate Valid() {
      alpha > 0.0 && beta > 0.0
    }

    function Mean(): real
      requires beta != 0.0
    {
      alpha / beta
    }
  }

  datatype Error = NotPositive | ZeroDivision

  // ----- sums -----

  function Sum(xs: seq<real>): (r: real)
    ensures xs != [] && (forall x :: x in xs ==> x > 0.0) ==> r > 0.0
  {
    if xs == [] then 0.0
    else
      assert xs[0] in xs && forall x :: x in xs[1..] ==> x in xs;
      xs[0] + Sum(xs[1..])
  }

  function Average(xs: seq<real>): (r: real)
    requires xs != []
    ensures (forall x :: x in xs ==> x > 0.0) ==> r > 0.0
  {
    Sum(xs) / |xs| as real
  }

  function Positive(xs: seq<real>): (r: seq<real>)
    ensures forall x :: x in r ==> x > 0.0
  {
    Filter(xs, x => x > 0.0)
  }

  function SquareAround(x: real, m: real): real {
    (x - m) * (x - m)
  }

  function SquaresAround(xs: seq<real>, m: real): real {
    Sum(Map(x => SquareAround(x, m), xs))
  }

  // ----- fitting -----

  /** The sample variance with Bessel's correction. */
  function SampleVariance(rates: seq<real>): real
    requires |rates| >= 2
  {
    SquaresAround(rates, Average(rates)) / (|rates| - 1) as real
  }

  function SumOfSquares(xs: seq<real>): real {
    if xs == [] then 0.0 else SquareAround(xs[0], 0.0) + SumOfSquares(xs[1..])
  }

  /** The squares around `m` of `n` numbers, by their sum and the sum of their squares. */
  ghost predicate Expands(around: real, squares: real, sum: real, n: real, m: real) {
    around == squares - 2.0 * (m * sum) + n * (m * m)
  }

  /** The variance by the textbook identity: squares less `n` times the squared mean, over `n - 1`. */
  lemma VarianceIdentity(rates: seq<real>)
    requires |rates| >= 2
    ensures Average(rates) * |rates| as real == Sum(rates)
    ensures SampleVariance(rates) * (|rates| - 1) as real
         == SumOfSquares(rates) - |rates| as real * (Average(rates) * Average(rates))
  {
    hide *;
    var m := Average(rates);
    SquaresExpand(rates, m);
    AverageTimes(rates);
    VarianceTimes(rates);
    AtTheMean(SquaresAround(rates, m), SumOfSquares(rates), Sum(rates), |rates| as real, m);
  }

  lemma AverageTimes(xs: seq<real>)
    requires xs != []
    ensures Average(xs) * |xs| as real == Sum(xs)
  {
    hide Sum;
    QuotientTimes(Sum(xs), |xs| as real);
  }

  lemma VarianceTimes(rates: seq<real>)
    requires |rates| >= 2
    ensures SampleVariance(rates) * (|rates| - 1) as real == SquaresAround(rates, Average(rates))
  {
    hide SquaresAround, Average;
    QuotientTimes(SquaresAround(rates, Average(rates)), (|rates| - 1) as real);
  }

  lemma QuotientTimes(x: real, d: real)
    requires d > 0.0
    ensures x / d * d == x
  {
  }

  lemma AtTheMean(around: real, squares: real, sum: real, n: real, m: real)
    requires Expands(around, squares, sum, n, m) && m * n == sum
    ensures around == squares - n * (m * m)
  {
    assert m * sum == n * (m * m);
  }

  lemma {:induction false} SquaresExpand(xs: seq<real>, m: real)
    ensures Expands(SquaresAround(xs, m), SumOfSquares(xs), Sum(xs), |xs| as real, m)
  {
    if xs == [] {
      NothingExpands(m);
    } else {
      hide *;
      var rest := xs[1..];
      SquaresExpand(rest, m);
      SquaresStep(xs, m);
      SquareFirst(xs);
      NextExpands(SquaresAround(rest, m), SumOfSquares(rest), Sum(rest), |rest| as real, m, xs[0]);
      assert |xs| as real == |rest| as real + 1.0;
    }
  }

  lemma SquareFirst(xs: seq<real>)
    requires xs != []
    ensures SumOfSquares(xs) == SumOfSquares(xs[1..]) + SquareAround(xs[0], 0.0) && Sum(xs) == Sum(xs[1..]) + xs[0]
  {
  }

  lemma NothingExpands(m: real)
    ensures Expands(0.0, 0.0, 0.0, 0.0, m)
  {
  }

  lemma NextExpands(around: real, squares: real, sum: real, n: real, m: real, x: real)
    requires Expands(around, squares, sum, n, m)
    ensures Expands(SquareAround(x, m) + around, squares + SquareAround(x, 0.0), sum + x, n + 1.0, m)
  {
    OneSquare(x, m);
    assert m * (sum + x) == m * sum + m * x;
    assert (n + 1.0) * (m * m) == n * (m * m) + m * m;
  }

  lemma SquaresStep(xs: seq<real>, m: real)
    requires xs != []
    ensures SquaresAround(xs, m) == SquareAround(xs[0], m) + SquaresAround(xs[1..], m)
  {
    var f := (x: real) => SquareAround(x, m);
    assert Map(x => SquareAround(x, m), xs)[1..] == Map(x => SquareAround(x, m), xs[1..]);
  }

  lemma OneSquare(x: real, m: real)
    ensures SquareAround(x, m) == x * x - 2.0 * (m * x) + m * m
  {
  }

  /** What the spread of the rates exceeds Poisson noise by, at the average exposure. */
  function Excess(rates: seq<real>, tBar: real): real
    requires |rates| >= 2 && tBar > 0.0
  {
    SampleVariance(rates) - Average(rates) / tBar
  }

  function MakePrior(alpha: real, beta: real): Result<GammaPrior, Error> {
    if alpha <= 0.0 || beta <= 0.0 then Err(NotPositive) else Ok(GammaPrior(alpha, beta))
  }

  /** A prior is refused exactly for a parameter that is not positive. */
  lemma OnlyPositivePriors(alpha: real, beta: real)
    ensures MakePrior(alpha, beta) ==
              if alpha > 0.0 && beta > 0.0 then Ok(GammaPrior(alpha, beta)) else Err(NotPositive)
  {
  }

  function Clamp(alpha: real, beta: real): Result<GammaPrior, Error> {
    MakePrior(Max(alpha, EPS), Max(beta, EPS))
  }

  function RateFor(m: real, excess: real): real
    requires excess > 0.0
  {
    m / excess
  }

  function ShapeFor(m: real, beta: real): real {
    m * beta
  }

  /** The closed form, from the mean rate, the average exposure and the excess variance if there is one. */
  function FitMoments(m: real, tBar: real, excess: real): Result<GammaPrior, Error> {
    if m > 0.0 && excess > 0.0 then
      Clamp(ShapeFor(m, RateFor(m, excess)), RateFor(m, excess))
    else MakePrior(Max(m, EPS) * tBar, tBar)
  }

  function FitPrior(rates: seq<real>, exposures: seq<real>): Result<GammaPrior, Error> {
    var ts := Positive(exposures);
    if rates == [] || ts == [] then MakePrior(EPS, 1.0)
    else FitMoments(Average(rates), Average(ts), if |rates| >= 2 then Excess(rates, Average(ts)) else 0.0)
  }

  lemma ProductPositive(x: real, y: real)
    requires x > 0.0 && y > 0.0
    ensures x * y > 0.0
  {
  }

  /** Fitting never raises: whatever the rates and exposures, the prior has positive parameters. */
  lemma FitIsValid(rates: seq<real>, exposures: seq<real>)
    ensures FitPrior(rates, exposures).Ok? && FitPrior(rates, exposures).value.Valid()
  {
    var ts := Positive(exposures);
    if rates != [] && ts != [] {
      ProductPositive(Max(Average(rates), EPS), Average(ts));
    }
  }

  /** The rates vary more than Poisson noise explains. */
  predicate Overdispersed(rates: seq<real>, exposures: seq<real>) {
    var ts := Positive(exposures);
    |rates| >= 2 && ts != [] && Average(rates) > 0.0 && Excess(rates, Average(ts)) > 0.0
  }

  /** Neither parameter falls below the floor. */
  predicate Unclamped(m: real, excess: real) {
    m * m >= EPS * excess && m >= EPS * excess
  }

  lemma QuotientAtLeast(x: real, d: real, e: real)
    requires d > 0.0 && x >= e * d
    ensures x / d >= e
  {
    var q := x / d;
    assert q * d == x;
    if q < e {
      ProductPositive(e - q, d);
    }
  }

  /** The prior has the mean `m` and its own variance is `excess`. */
  predicate Matches(p: GammaPrior, m: real, excess: real)
    requires p.Valid()
  {
    p.Mean() == m && p.Mean() / p.beta == excess
  }

  lemma UnclampedMatches(m: real, excess: real, alpha: real, beta: real)
    requires m > 0.0 && excess > 0.0 && beta == RateFor(m, excess) && alpha == ShapeFor(m, beta)
    requires Unclamped(m, excess)
    ensures alpha >= EPS && beta >= EPS && Matches(GammaPrior(alpha, beta), m, excess)
  {
    QuotientAtLeast(m, excess, EPS);
    QuotientAtLeast(m * m, excess, EPS);
    ScaledQuotient(m, excess);
    CancelFactor(m, beta);
    CancelFactor(excess, beta);
  }

  /** Only the unclamped parameters give both moments. */
  lemma MatchingIsUnclamped(m: real, excess: real, a: real, b: real)
    requires m > 0.0 && excess > 0.0 && a >= EPS && b >= EPS && Matches(GammaPrior(a, b), m, excess)
    ensures Unclamped(m, excess)
  {
    assert a == m * b;
    assert m == excess * b;
    ProductAtLeast(b, EPS, excess);
    assert m * m == a * excess;
    ProductAtLeast(a, EPS, excess);
  }

  lemma ProductAtLeast(x: real, e: real, d: real)
    requires x >= e && d > 0.0
    ensures x * d >= e * d
  {
  }

  lemma MomentsOfFit(m: real, tBar: real, excess: real)
    requires m > 0.0 && excess > 0.0
    ensures FitMoments(m, tBar, excess).Ok? && FitMoments(m, tBar, excess).value.Valid()
    ensures Matches(FitMoments(m, tBar, excess).value, m, excess) <==> Unclamped(m, excess)
  {
    var beta := RateFor(m, excess);
    var alpha := ShapeFor(m, beta);
    assert FitMoments(m, tBar, excess) == Clamp(alpha, beta);
    var a, b := Max(alpha, EPS), Max(beta, EPS);
    assert Clamp(alpha, beta) == Ok(GammaPrior(a, b));
    if Unclamped(m, excess) {
      UnclampedMatches(m, excess, alpha, beta);
    }
    hide RateFor, ShapeFor, Unclamped, FitMoments, Clamp;
    if Matches(GammaPrior(a, b), m, excess) {
      MatchingIsUnclamped(m, excess, a, b);
    }
  }

  lemma ScaledQuotient(m: real, d: real)
    requires d > 0.0
    ensures m * (m / d) == m * m / d
    ensures d * (m / d) == m
  {
  }

  lemma CancelFactor(m: real, d: real)
    requires d > 0.0
    ensures m * d / d == m
  {
  }

  /**
   For overdispersed rates the fitted prior matches the sample exactly when no floor acts: its mean
   is the sample mean, and its variance with the Poisson noise added is the sample variance.
   */
  lemma FitMatchesMoments(rates: seq<real>, exposures: seq<real>)
    requires Overdispersed(rates, exposures)
    ensures FitPrior(rates, exposures).Ok? && FitPrior(rates, exposures).value.Valid()
    ensures var p := FitPrior(rates, exposures).value;
            && p.Mean() == Average(rates)
            && p.Mean() / p.beta + Average(rates) / Average(Positive(exposures)) == SampleVariance(rates)
            <==> Unclamped(Average(rates), Excess(rates, Average(Positive(exposures))))
  {
    hide Average, SampleVariance, Positive, FitMoments, Unclamped;
    var m, t := Average(rates), Average(Positive(exposures));
    MomentsOfFit(m, t, Excess(rates, t));
  }

  /** The parameters for overdispersed rates: those of the moments, each raised to the floor where it falls below. */
  lemma OverdispersedFit(rates: seq<real>, exposures: seq<real>)
    requires Overdispersed(rates, exposures)
    ensures FitPrior(rates, exposures).Ok?
    ensures var p, m := FitPrior(rates, exposures).value, Average(rates);
            var excess := Excess(rates, Average(Positive(exposures)));
            && (if m < 0.000000001 * excess then p.beta == 0.000000001 else p.beta * excess == m)
            && (if m * m < 0.000000001 * excess then p.alpha == 0.000000001 else p.alpha * excess == m * m)
  {
    hide Average, SampleVariance, Positive;
    var m, t := Average(rates), Average(Positive(exposures));
    FloorsOfFit(m, t, Excess(rates, t));
  }

  lemma FloorsOfFit(m: real, tBar: real, excess: real)
    requires m > 0.0 && excess > 0.0
    ensures FitMoments(m, tBar, excess).Ok?
    ensures var p := FitMoments(m, tBar, excess).value;
            && (if m < EPS * excess then p.beta == EPS else p.beta * excess == m)
            && (if m * m < EPS * excess then p.alpha == EPS else p.alpha * excess == m * m)
  {
    var beta := RateFor(m, excess);
    var alpha := ShapeFor(m, beta);
    ScaledQuotient(m, excess);
    assert beta * excess == m && alpha * excess == m * m;
    FloorByProduct(beta, excess, m);
    FloorByProduct(alpha, excess, m * m);
  }

  lemma FloorByProduct(x: real, d: real, y: real)
    requires d > 0.0 && x * d == y
    ensures y < EPS * d <==> x < EPS
  {
    if x < EPS { ProductPositive(EPS - x, d); }
    if x >= EPS { ProductAtLeast(x, EPS, d); }
  }

  /** Two days, nothing on one and four billion events on the other: the rate parameter sits at its floor. */
  lemma ClampedSample()
    ensures var rates, exposures := [0.0, 4000000000.0], [1.0, 1.0];
            && Overdispersed(rates, exposures)
            && FitPrior(rates, exposures).Ok? && FitPrior(rates, exposures).value.beta == EPS
            && FitPrior(rates, exposures).value.Mean() != Average(rates)
  {
    var rates, exposures := [0.0, 4000000000.0], [1.0, 1.0];
    assert rates[1..] == [4000000000.0] && [4000000000.0][1..] == [];
    assert Sum([4000000000.0]) == 4000000000.0;
    var m := 2000000000.0;
    assert Average(rates) == m;
    assert exposures[1..] == [1.0] && [1.0][1..] == [];
    assert Filter([1.0], x => x > 0.0) == [1.0];
    assert Positive(exposures) == exposures;
    assert Sum([1.0]) == 1.0 && Average(exposures) == 1.0;
    var squares := Map(x => SquareAround(x, m), rates);
    assert squares == [4000000000000000000.0, 4000000000000000000.0];
    assert squares[1..] == [4000000000000000000.0] && [4000000000000000000.0][1..] == [];
    assert Sum(squares) == 8000000000000000000.0;
    assert SampleVariance(rates) == 8000000000000000000.0;
  }

  /** Without overdispersion the prior weighs as much as one average exposure. */
  lemma FallbackMatchesExposure(rates: seq<real>, exposures: seq<real>)
    requires rates != [] && Positive(exposures) != [] && !Overdispersed(rates, exposures)
    ensures var p := FitPrior(rates, exposures).value;
            p.Valid() && p.beta == Average(Positive(exposures)) && p.Mean() == Max(Average(rates), EPS)
  {
    hide Average, SampleVariance, Positive;
    var t, m := Average(Positive(exposures)), Max(Average(rates), EPS);
    assert t > 0.0;
    ProductPositive(m, t);
    CancelFactor(m, t);
  }

  // ----- order -----

  lemma {:induction false} SumWithout(xs: seq<real>, i: nat)
    requires i < |xs|
    ensures Sum(xs) == xs[i] + Sum(Without(xs, i))
  {
    if i == 0 {
      assert Without(xs, 0) == xs[1..];
    } else {
      SumWithout(xs[1..], i - 1);
      assert Without(xs, i) == [xs[0]] + Without(xs[1..], i - 1);
    }
  }

  lemma {:induction false} SumPermuted(xs: seq<real>, ys: seq<real>)
    requires multiset(xs) == multiset(ys)
    ensures Sum(xs) == Sum(ys)
    decreases |xs|
  {
    PermutationLength(xs, ys);
    if xs != [] {
      var j := FindFirst(xs, ys);
      WithoutMultiset(xs, 0);
      WithoutMultiset(ys, j);
      WithoutAt(xs, 0, 0);
      SumPermuted(Without(xs, 0), Without(ys, j));
      SumWithout(xs, 0);
      SumWithout(ys, j);
    }
  }

  lemma AverageIgnoresOrder(xs: seq<real>, ys: seq<real>)
    requires multiset(xs) == multiset(ys) && xs != []
    ensures ys != [] && Average(xs) == Average(ys)
  {
    PermutationLength(xs, ys);
    SumPermuted(xs, ys);
  }

  lemma VarianceIgnoresOrder(xs: seq<real>, ys: seq<real>)
    requires multiset(xs) == multiset(ys) && |xs| >= 2
    ensures |ys| >= 2 && SampleVariance(xs) == SampleVariance(ys)
  {
    PermutationLength(xs, ys);
    AverageIgnoresOrder(xs, ys);
    SquaresIgnoreOrder(xs, ys, Average(xs));
  }

  lemma SquaresIgnoreOrder(xs: seq<real>, ys: seq<real>, m: real)
    requires multiset(xs) == multiset(ys)
    ensures SquaresAround(xs, m) == SquaresAround(ys, m)
  {
    MapPermuted(x => SquareAround(x, m), xs, ys);
    hide Map, Sum;
    SumPermuted(Map(x => SquareAround(x, m), xs), Map(x => SquareAround(x, m), ys));
  }

  /** The prior depends on which rates and exposures there are, not on their order. */
  lemma FitIgnoresOrder(rates: seq<real>, rates': seq<real>, exposures: seq<real>, exposures': seq<real>)
    requires multiset(rates) == multiset(rates') && multiset(exposures) == multiset(exposures')
    ensures FitPrior(rates, exposures) == FitPrior(rates', exposures')
  {
    var ts, ts' := Positive(exposures), Positive(exposures');
    FilterPermuted(exposures, exposures', x => x > 0.0);
    hide Average, SampleVariance, FitMoments, Positive;
    PermutationLength(rates, rates');
    PermutationLength(ts, ts');
    if rates != [] && ts != [] {
      AverageIgnoresOrder(rates, rates');
      AverageIgnoresOrder(ts, ts');
      if |rates| >= 2 {
        VarianceIgnoresOrder(rates, rates');
      }
    }
  }

  // ----- the posterior -----

  function PosteriorRate(prior: GammaPrior, count: real, exposure: real): Result<real, Error> {
    if prior.beta + exposure == 0.0 then Err(ZeroDivision)
    else Ok((prior.alpha + count) / (prior.beta + exposure))
  }

  function PredictiveVariance(prior: GammaPrior, count: real, exposure: real): Result<real, Error> {
    match PosteriorRate(prior, count, exposure)
    case Err(e) => Err(e)
    case Ok(lam) => Ok(lam * (1.0 + 1.0 / (prior.beta + exposure)))
  }

  /** The posterior mean of the Gamma prior: events over exposure, both counted on top of the prior's own. */
  lemma PosteriorCounts(prior: GammaPrior, count: real, exposure: real)
    ensures PosteriorRate(prior, count, exposure).Err? <==> prior.beta + exposure == 0.0
    ensures PosteriorRate(prior, count, exposure).Ok? ==>
              PosteriorRate(prior, count, exposure).value * (prior.beta + exposure) == prior.alpha + count
    ensures prior.Valid() ==> PosteriorRate(prior, 0.0, 0.0) == Ok(prior.Mean())
  {
    assert prior.alpha + 0.0 == prior.alpha && prior.beta + 0.0 == prior.beta;
  }

  /** `x` lies on the segment between `a` and `b`, at an inner point when they differ. */
  predicate Between(a: real, x: real, b: real) {
    (a < b ==> a < x < b) && (a > b ==> a > x > b) && (a == b ==> x == a)
  }

  /** The posterior rate shrinks a part's own rate towards the prior mean, and never past it. */
  lemma PosteriorShrinks(prior: GammaPrior, count: real, exposure: real)
    requires prior.Valid() && exposure > 0.0
    ensures PosteriorRate(prior, count, exposure).Ok?
    ensures Between(prior.Mean(), PosteriorRate(prior, count, exposure).value, count / exposure)
  {
    var a, c, x := prior.Mean(), count / exposure, PosteriorRate(prior, count, exposure).value;
    assert prior.alpha == a * prior.beta && count == c * exposure;
    Mediant(a, prior.beta, c, exposure, x);
  }

  /** A weighted mean of two numbers lies between them. */
  lemma Mediant(a: real, p: real, c: real, q: real, x: real)
    requires p > 0.0 && q > 0.0 && x * (p + q) == a * p + c * q
    ensures Between(a, x, c)
  {
    assert (x - a) * (p + q) == (c - a) * q;
    assert (c - x) * (p + q) == (c - a) * p;
    SameSign(x - a, p + q, c - a, q);
    SameSign(c - x, p + q, c - a, p);
  }

  lemma SameSign(u: real, r: real, v: real, s: real)
    requires r > 0.0 && s > 0.0 && u * r == v * s
    ensures (u > 0.0 <==> v > 0.0) && (u < 0.0 <==> v < 0.0)
  {
    if u > 0.0 { ProductPositive(u, r); }
    if u < 0.0 { ProductPositive(-u, r); }
    if v > 0.0 { ProductPositive(v, s); }
    if v < 0.0 { ProductPositive(-v, s); }
  }

  /** The predictive variance is at least the Poisson variance exactly when the evidence is not negative. */
  lemma PredictiveVarianceIsWider(prior: GammaPrior, count: real, exposure: real)
    requires prior.beta + exposure != 0.0
    ensures PredictiveVariance(prior, count, exposure).Ok? && PosteriorRate(prior, count, exposure).Ok?
    ensures prior.alpha + count >= 0.0 <==>
              PredictiveVariance(prior, count, exposure).value >= PosteriorRate(prior, count, exposure).value
  {
    var n, d := prior.alpha + count, prior.beta + exposure;
    var lam := n / d;
    var extra := lam * (1.0 / d);
    assert lam * (1.0 + 1.0 / d) == lam + extra;
    assert extra * (d * d) == n;
    SquarePositive(d);
    SameSign(extra, d * d, n, 1.0);
  }

  /** Two negative corrections to the count make the predictive variance narrower. */
  lemma NegativeEvidenceIsNarrower()
    ensures var prior := GammaPrior(1.0, 1.0);
            && prior.Valid() && PosteriorRate(prior, -2.0, 1.0) == Ok(-0.5)
            && PredictiveVariance(prior, -2.0, 1.0) == Ok(-0.75)
  {
  }

  lemma SquarePositive(d: real)
    requires d != 0.0
    ensures d * d > 0.0
  {
    if d > 0.0 { ProductPositive(d, d); } else { ProductPositive(-d, -d); }
  }
}
