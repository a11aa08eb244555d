/**
 The NR-to-FR calibration fit over exact reals: the least-squares line, the
 two-sigma threshold, Pearson's r and the write gate.
 */
module Calibration {
  import opened Reals
  import opened Options
  import opened RealSums

  datatype Sample = Sample(nrScore: real, frScore: real)

  datatype Fit = Fit(a: real, b: real, residuals: Vector)

  datatype Quality = Quality(passed: bool, reasons: nat)

  datatype Calibrated = Calibrated(
    a: real, b: real, sigma: real, deltaFast: real, plcc: Option<real>, quality: Quality)

  const TINY: real := 0.000_000_000_001
  const DESIGN_DEFAULT: real := 8.0

  /** `math.sqrt`, of which only its defining equation is used. */
  ghost predicate IsSqrt(sqrt: real -> real) {
    forall v: real :: v >= 0.0 ==> sqrt(v) >= 0.0 && Mul(sqrt(v), sqrt(v)) == v
  }

  function Denominator(x: Vector): real {
    Mul(Size(x), Dot(x, x)) - Mul(Sum(x), Sum(x))
  }

  function Degenerate(x: Vector): bool {
    Abs(Denominator(x)) < TINY
  }

  /** y - (a * x + b) */
  function Residuals(x: Vector, y: Vector, a: real, b: real): Vector
    requires |x| == |y|
  {
    Minus(y, Line(x, a, b))
  }

  /** n times the sum of products, minus the product of the sums. */
  function CoMoment(x: Vector, y: Vector): real
    requires |x| == |y|
  {
    Mul(Size(x), Dot(x, y)) - Mul(Sum(x), Sum(y))
  }

  /** The fitted slope: zero when all NR scores are, within tolerance, identical. */
  function Slope(x: Vector, y: Vector): real
    requires |x| == |y|
  {
    if Degenerate(x) then 0.0 else CoMoment(x, y) / Denominator(x)
  }

  function Intercept(x: Vector, y: Vector): real
    requires |x| == |y| && x != []
  {
    if Degenerate(x) then Sum(y) / Size(x) - Mul(Slope(x, y), Sum(x)) / Size(x)
    else (Sum(y) - Mul(Slope(x, y), Sum(x))) / Size(x)
  }

  function LinearRegression(x: Vector, y: Vector): Result<Fit> {
    if |x| < 2 then Raise("Need at least 2 samples for regression")
    else if |y| != |x| then Raise("zip() arguments have different lengths")
    else
      var a, b := Slope(x, y), Intercept(x, y);
      Ok(Fit(a, b, Residuals(x, y, a, b)))
  }

  function Mean(v: Vector): real
    requires v != []
  {
    Sum(v) / Size(v)
  }

  function Centred(v: Vector): Vector
    requires v != []
  {
    Minus(v, Constant(|v|, Mean(v)))
  }

  /** max(1, n - 1) */
  function Degrees(v: Vector): (d: real)
    ensures d >= 1.0
  {
    if Size(v) - 1.0 > 1.0 then Size(v) - 1.0 else 1.0
  }

  function ComputeDeltaFast(residuals: Vector, sqrt: real -> real): real {
    var n := |residuals|;
    if n < 2 then DESIGN_DEFAULT
    else
      var deviations := Centred(residuals);
      2.0 * sqrt(Dot(deviations, deviations) / Degrees(residuals))
  }

  /** Pearson's r, or None where the code returns NaN. */
  function PearsonR(x: Vector, y: Vector, sqrt: real -> real): Option<real>
    requires |x| == |y|
  {
    if |x| < 2 then None
    else
      var dx, dy := Centred(x), Centred(y);
      var denom := sqrt(Mul(Dot(dx, dx), Dot(dy, dy)));
      if denom < TINY then None else Some(Dot(dx, dy) / denom)
  }

  function EvaluateQuality(count: nat, plcc: Option<real>, minSamples: int, minPlcc: real): Quality {
    var few := if count < minSamples then 1 else 0;
    var weak := if plcc.None? || plcc.value < minPlcc then 1 else 0;
    Quality(few + weak == 0, few + weak)
  }

  function NrScores(samples: seq<Sample>): Vector {
    seq(|samples|, i requires 0 <= i < |samples| => samples[i].nrScore)
  }

  function FrScores(samples: seq<Sample>): Vector {
    seq(|samples|, i requires 0 <= i < |samples| => samples[i].frScore)
  }

  /** The fit of the samples: below two of them, the identity line. */
  function FitOf(samples: seq<Sample>): Fit {
    if |samples| >= 2 then LinearRegression(NrScores(samples), FrScores(samples)).result
    else Fit(1.0, 0.0, seq(|samples|, i requires 0 <= i < |samples| => samples[i].frScore - samples[i].nrScore))
  }

  function FitSamples(samples: seq<Sample>, deltaOverride: Option<real>, minSamples: int, minPlcc: real,
                      sqrt: real -> real): Calibrated
  {
    var fit := FitOf(samples);
    var sigma := sqrt(Dot(fit.residuals, fit.residuals) / Degrees(fit.residuals));
    var delta := if deltaOverride.Some? then deltaOverride.value else ComputeDeltaFast(fit.residuals, sqrt);
    var plcc := PearsonR(NrScores(samples), FrScores(samples), sqrt);
    Calibrated(fit.a, fit.b, sigma, delta, plcc, EvaluateQuality(|samples|, plcc, minSamples, minPlcc))
  }

  // ----- The normal equations

  /** The sum of squared residuals of a line. */
  function Sse(x: Vector, y: Vector, a: real, b: real): real
    requires |x| == |y|
  {
    Dot(Residuals(x, y, a, b), Residuals(x, y, a, b))
  }

  lemma SumOfResiduals(x: Vector, y: Vector, a: real, b: real)
    requires |x| == |y|
    ensures Sum(Residuals(x, y, a, b)) == Sum(y) - Mul(a, Sum(x)) - Mul(b, Size(x))
  {
    SumOfMinus(y, Line(x, a, b));
    SumOfLine(x, a, b);
  }

  lemma DotOfResiduals(w: Vector, x: Vector, y: Vector, a: real, b: real)
    requires |x| == |y| == |w|
    ensures Dot(w, Residuals(x, y, a, b)) == Dot(w, y) - Mul(a, Dot(w, x)) - Mul(b, Sum(w))
  {
    DotOfMinus(w, y, Line(x, a, b));
    DotOfLine(w, x, a, b);
  }

  /** Moving to another line subtracts a line from the residuals. */
  lemma ResidualsOfOtherLine(x: Vector, y: Vector, a: real, b: real, p: real, q: real)
    requires |x| == |y|
    ensures Residuals(x, y, a + p, b + q) == Minus(Residuals(x, y, a, b), Line(x, p, q))
  {}

  lemma AddSlopes(a: real, p: real, z: real)
    ensures Mul(a + p, z) == Mul(a, z) + Mul(p, z)
  {}

  lemma SseOfOtherLine(x: Vector, y: Vector, a: real, b: real, p: real, q: real)
    requires |x| == |y|
    ensures var r, d := Residuals(x, y, a, b), Line(x, p, q);
            Sse(x, y, a + p, b + q) == Sse(x, y, a, b) - 2.0 * (Mul(p, Dot(x, r)) + Mul(q, Sum(r))) + Dot(d, d)
  {
    var r, d := Residuals(x, y, a, b), Line(x, p, q);
    ResidualsOfOtherLine(x, y, a, b, p, q);
    SquareOfMinus(r, d);
    DotOfLine(r, x, p, q);
    DotCommutes(r, x);
  }

  // ----- The fit satisfies the normal equations

  lemma DivideAndMultiply(p: real, n: real)
    requires n != 0.0
    ensures Mul(p / n, n) == p
  {}

  /** The intercept puts the line through the point of means. */
  lemma InterceptEquation(x: Vector, y: Vector)
    requires |x| == |y| && x != []
    ensures Mul(Intercept(x, y), Size(x)) == Sum(y) - Mul(Slope(x, y), Sum(x))
  {
    if Degenerate(x) {
      DegenerateIntercept(Size(x), Sum(x), Sum(y), Intercept(x, y));
    } else {
      DivideAndMultiply(Sum(y) - Mul(Slope(x, y), Sum(x)), Size(x));
    }
  }

  lemma SlopeEquation(x: Vector, y: Vector)
    requires |x| == |y| && x != []
    ensures Mul(Slope(x, y), Denominator(x)) == if Degenerate(x) then 0.0 else CoMoment(x, y)
  {}

  lemma DegenerateIntercept(n: real, sx: real, sy: real, b: real)
    requires n > 0.0 && b == sy / n - Mul(0.0, sx) / n
    ensures Mul(b, n) == sy - Mul(0.0, sx)
  {}

  lemma SlopeAlgebra(n: real, sx: real, sy: real, sxx: real, sxy: real, a: real, b: real,
                     denom: real, co: real, d: real)
    requires Mul(b, n) == sy - Mul(a, sx)
    requires denom == Mul(n, sxx) - Mul(sx, sx) && co == Mul(n, sxy) - Mul(sx, sy)
    requires d == sxy - Mul(a, sxx) - Mul(b, sx)
    ensures Mul(n, d) == co - Mul(a, denom)
  {}

  lemma ResidualsSumToZero(x: Vector, y: Vector, a: real, b: real)
    requires |x| == |y| && Mul(b, Size(x)) == Sum(y) - Mul(a, Sum(x))
    ensures Sum(Residuals(x, y, a, b)) == 0.0
  {
    SumOfResiduals(x, y, a, b);
  }

  lemma ResidualsAgainstX(x: Vector, y: Vector, a: real, b: real, explained: real)
    requires |x| == |y| && Mul(b, Size(x)) == Sum(y) - Mul(a, Sum(x))
    requires Mul(a, Denominator(x)) == explained
    ensures Mul(Size(x), Dot(x, Residuals(x, y, a, b))) == CoMoment(x, y) - explained
  {
    DotOfResiduals(x, x, y, a, b);
    SlopeAlgebra(Size(x), Sum(x), Sum(y), Dot(x, x), Dot(x, y), a, b, Denominator(x), CoMoment(x, y),
                 Dot(x, Residuals(x, y, a, b)));
  }

  function FitResiduals(x: Vector, y: Vector): Vector
    requires |x| == |y| && x != []
  {
    Residuals(x, y, Slope(x, y), Intercept(x, y))
  }

  /** Either way the residuals sum to zero. */
  lemma FitIsUnbiased(x: Vector, y: Vector)
    requires |x| == |y| && x != []
    ensures Sum(FitResiduals(x, y)) == 0.0
  {
    InterceptEquation(x, y);
    ResidualsSumToZero(x, y, Slope(x, y), Intercept(x, y));
  }

  /** Only a degenerate fit can leave residuals correlated with x. */
  lemma FitAgainstX(x: Vector, y: Vector)
    requires |x| == |y| && x != []
    ensures Mul(Size(x), Dot(x, FitResiduals(x, y))) == if Degenerate(x) then CoMoment(x, y) else 0.0
  {
    InterceptEquation(x, y);
    SlopeEquation(x, y);
    ResidualsAgainstX(x, y, Slope(x, y), Intercept(x, y), if Degenerate(x) then 0.0 else CoMoment(x, y));
  }

  lemma TimesZero(a: real)
    ensures Mul(a, 0.0) == 0.0
  {}

  lemma ZeroTimes(a: real, b: real)
    requires a == 0.0
    ensures Mul(a, b) == 0.0
  {}

  /** The fit is no worse than any line. */
  ghost predicate Optimal(x: Vector, y: Vector, a: real, b: real)
    requires |x| == |y|
  {
    forall a': real, b': real :: Sse(x, y, a, b) <= Sse(x, y, a', b')
  }

  lemma NormalIsOptimal(x: Vector, y: Vector, a: real, b: real)
    requires |x| == |y|
    requires Sum(Residuals(x, y, a, b)) == 0.0 && Dot(x, Residuals(x, y, a, b)) == 0.0
    ensures Optimal(x, y, a, b)
  {
    forall a': real, b': real
      ensures Sse(x, y, a, b) <= Sse(x, y, a', b')
    {
      var p, q := a' - a, b' - b;
      assert a + p == a' && b + q == b';
      SseOfOtherLine(x, y, a, b, p, q);
      TimesZero(p);
      TimesZero(q);
      SquaresAreNonNegative(Line(x, p, q));
    }
  }

  /** Least squares: a non-degenerate fit is optimal, with normal residuals. */
  lemma FitIsOptimal(x: Vector, y: Vector)
    requires |x| == |y| >= 2 && !Degenerate(x)
    ensures var fit := LinearRegression(x, y).result;
            && Optimal(x, y, fit.a, fit.b)
            && Sum(fit.residuals) == 0.0 && Dot(x, fit.residuals) == 0.0
  {
    FitIsUnbiased(x, y);
    FitAgainstX(x, y);
    ZeroFactor(Size(x), Dot(x, FitResiduals(x, y)));
    NormalIsOptimal(x, y, Slope(x, y), Intercept(x, y));
  }

  lemma ZeroFactor(n: real, z: real)
    requires n > 0.0 && Mul(n, z) == 0.0
    ensures z == 0.0
  {}

  // ----- The degenerate branch

  lemma LineAlongX(x: Vector, p: real, q: real) returns (dx: real, ds: real)
    ensures dx == Mul(p, Dot(x, x)) + Mul(q, Sum(x))
    ensures ds == Mul(p, Sum(x)) + Mul(q, Size(x))
    ensures Dot(Line(x, p, q), Line(x, p, q)) == Mul(p, dx) + Mul(q, ds)
  {
    var d := Line(x, p, q);
    dx, ds := Dot(d, x), Sum(d);
    DotOfLine(d, x, p, q);
    SumOfLine(x, p, q);
    DotCommutes(d, x);
    DotOfLine(x, x, p, q);
  }

  /** If the residuals still correlate with x, tilting the line improves it. */
  lemma TiltImproves(x: Vector, y: Vector, a: real, b: real) returns (a': real)
    requires |x| == |y| && Dot(x, Residuals(x, y, a, b)) != 0.0
    ensures Sse(x, y, a', b) < Sse(x, y, a, b)
  {
    var r, sxx := Residuals(x, y, a, b), Dot(x, x);
    SquaresAreNonNegative(x);
    var p := Dot(x, r) / (sxx + 1.0);
    a' := a + p;
    assert b + 0.0 == b;
    SseOfOtherLine(x, y, a, b, p, 0.0);
    var dx, ds := LineAlongX(x, p, 0.0);
    DivideAndMultiply(Dot(x, r), sxx + 1.0);
    TiltAlgebra(p, Dot(x, r), sxx, Sum(x), Sum(r), dx, ds);
  }

  lemma TiltAlgebra(p: real, g: real, sxx: real, sx: real, sr: real, dx: real, ds: real)
    requires sxx >= 0.0 && g != 0.0 && Mul(p, sxx + 1.0) == g
    requires dx == Mul(p, sxx) + Mul(0.0, sx)
    ensures -2.0 * (Mul(p, g) + Mul(0.0, sr)) + (Mul(p, dx) + Mul(0.0, ds)) < 0.0
  {
    ZeroTimes(0.0, sx);
    ZeroTimes(0.0, sr);
    ZeroTimes(0.0, ds);
    assert p != 0.0 by {
      if p == 0.0 {
        ZeroTimes(p, sxx + 1.0);
      }
    }
    SquareSign(p);
    TiltSquare(p, g, sxx);
    PositiveProduct(Mul(p, p), sxx + 2.0);
  }

  lemma TiltSquare(p: real, g: real, sxx: real)
    requires Mul(p, sxx + 1.0) == g
    ensures 2.0 * Mul(p, g) - Mul(p, Mul(p, sxx)) == Mul(Mul(p, p), sxx + 2.0)
  {}

  /** The fallback to the mean bias is a least-squares fit exactly when x and y do not co-vary. */
  lemma DegenerateIsOptimalIff(x: Vector, y: Vector)
    requires |x| == |y| >= 2 && Degenerate(x)
    ensures var fit := LinearRegression(x, y).result;
            && Sum(fit.residuals) == 0.0
            && (Optimal(x, y, fit.a, fit.b) <==> CoMoment(x, y) == 0.0)
  {
    FitIsUnbiased(x, y);
    FitAgainstX(x, y);
    if CoMoment(x, y) == 0.0 {
      ZeroFactor(Size(x), Dot(x, FitResiduals(x, y)));
      NormalIsOptimal(x, y, Slope(x, y), Intercept(x, y));
    } else {
      NonZeroFactor(Size(x), Dot(x, FitResiduals(x, y)));
      var a' := TiltImproves(x, y, Slope(x, y), Intercept(x, y));
    }
  }

  lemma NonZeroFactor(n: real, z: real)
    requires Mul(n, z) != 0.0
    ensures z != 0.0
  {}

  /** In particular it is when all NR scores are identical. */
  lemma IdenticalScoresDoNotCoVary(x: Vector, y: Vector, c: real)
    requires |x| == |y| && x == Constant(|x|, c)
    ensures CoMoment(x, y) == 0.0 && Denominator(x) == 0.0 && Degenerate(x)
  {
    CoMomentOfConstant(x, y, c);
    CoMomentOfConstant(x, x, c);
  }

  lemma CoMomentOfConstant(x: Vector, y: Vector, c: real)
    requires |x| == |y| && x == Constant(|x|, c)
    ensures CoMoment(x, y) == 0.0
  {
    SumOfConstant(x, c);
    DotOfConstant(y, c);
    DotCommutes(x, y);
    ConstantAlgebra(Size(x), c, Sum(y), Sum(x), Dot(x, y));
  }

  lemma ConstantAlgebra(n: real, c: real, sy: real, sx: real, sxy: real)
    requires sx == Mul(c, n) && sxy == Mul(c, sy)
    ensures Mul(n, sxy) - Mul(sx, sy) == 0.0
  {}
}
