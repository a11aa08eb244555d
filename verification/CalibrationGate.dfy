/** What Pearson's r, the threshold and the write gate say about the fit. */
module CalibrationGate {
  import opened Reals
  import opened Options
  import opened RealSums
  import opened Calibration

  // ----- Centred moments

  function Sxx(x: Vector): real
    requires x != []
  {
    Dot(Centred(x), Centred(x))
  }

  function Sxy(x: Vector, y: Vector): real
    requires |x| == |y| && x != []
  {
    Dot(Centred(x), Centred(y))
  }

  lemma SameSize(x: Vector, y: Vector)
    requires |x| == |y|
    ensures Size(x) == Size(y)
  {}

  lemma MeanEquation(x: Vector)
    requires x != []
    ensures Mul(Mean(x), Size(x)) == Sum(x)
  {}

  lemma CentredSumsToZero(x: Vector)
    requires x != []
    ensures Sum(Centred(x)) == 0.0
  {
    SumOfMinus(x, Constant(|x|, Mean(x)));
    SumOfConstant(x, Mean(x));
    MeanEquation(x);
  }

  /** Subtracting a constant from one factor changes nothing when the other sums to zero. */
  lemma DotWithCentred(u: Vector, y: Vector)
    requires |u| == |y| && y != [] && Sum(u) == 0.0
    ensures Dot(u, Centred(y)) == Dot(u, y)
  {
    DotOfMinus(u, y, Constant(|y|, Mean(y)));
    DotOfConstant(u, Mean(y));
    TimesZero(Mean(y));
  }

  lemma CentredMoment(x: Vector, y: Vector)
    requires |x| == |y| && x != []
    ensures Mul(Size(x), Sxy(x, y)) == CoMoment(x, y)
  {
    CentredSumsToZero(x);
    DotWithCentred(Centred(x), y);
    DotCommutes(Centred(x), y);
    DotOfMinus(y, x, Constant(|x|, Mean(x)));
    DotOfConstant(y, Mean(x));
    DotCommutes(x, y);
    MeanEquation(x);
    CentredAlgebra(Size(x), Mean(x), Sum(x), Sum(y), Dot(x, y), Sxy(x, y));
  }

  lemma CentredAlgebra(n: real, m: real, sx: real, sy: real, sxy: real, s: real)
    requires Mul(m, n) == sx && s == sxy - Mul(m, sy)
    ensures Mul(n, s) == Mul(n, sxy) - Mul(sx, sy)
  {}

  // ----- The residuals of the fit in centred form

  lemma InterceptIsBetweenMeans(x: Vector, y: Vector)
    requires |x| == |y| && x != []
    ensures Intercept(x, y) == Mean(y) - Mul(Slope(x, y), Mean(x))
  {
    InterceptEquation(x, y);
    MeanEquation(x);
    MeanEquation(y);
    SameSize(x, y);
    MeansAlgebra(Size(x), Sum(x), Sum(y), Mean(x), Mean(y), Slope(x, y), Intercept(x, y));
  }

  lemma MeansAlgebra(n: real, sx: real, sy: real, mx: real, my: real, a: real, b: real)
    requires n > 0.0 && Mul(mx, n) == sx && Mul(my, n) == sy && Mul(b, n) == sy - Mul(a, sx)
    ensures b == my - Mul(a, mx)
  {}

  lemma ResidualsAreCentred(x: Vector, y: Vector)
    requires |x| == |y| && x != []
    ensures FitResiduals(x, y) == Minus(Centred(y), Scale(Centred(x), Slope(x, y)))
  {
    InterceptIsBetweenMeans(x, y);
    var a, b := Slope(x, y), Intercept(x, y);
    forall i | 0 <= i < |x|
      ensures Residuals(x, y, a, b)[i] == Minus(Centred(y), Scale(Centred(x), a))[i]
    {
      SubtractSlopes(a, x[i], Mean(x));
    }
    assert Residuals(x, y, a, b) == Minus(Centred(y), Scale(Centred(x), a));
  }

  lemma SubtractSlopes(a: real, z: real, m: real)
    ensures Mul(a, z - m) == Mul(a, z) - Mul(a, m)
  {}

  /** The slope maps the spread of x to its co-variation with y, unless the fit is degenerate. */
  lemma SlopeOnSpread(x: Vector, y: Vector)
    requires |x| == |y| && x != []
    ensures Mul(Slope(x, y), Sxx(x)) == if Degenerate(x) then 0.0 else Sxy(x, y)
  {
    SlopeEquation(x, y);
    CentredMoment(x, y);
    CentredMoment(x, x);
    if Degenerate(x) {
      ZeroTimes(Slope(x, y), Sxx(x));
    } else {
      SpreadAlgebra(Size(x), Slope(x, y), Sxx(x), Sxy(x, y), Denominator(x), CoMoment(x, y));
    }
  }

  lemma SpreadAlgebra(n: real, a: real, sxx: real, sxy: real, denom: real, co: real)
    requires n > 0.0 && Mul(n, sxx) == denom && Mul(n, sxy) == co && Mul(a, denom) == co
    ensures Mul(a, sxx) == sxy
  {}

  /** The residual sum of squares is what the slope leaves of the spread of y. */
  lemma SseOfFit(x: Vector, y: Vector)
    requires |x| == |y| && x != []
    ensures Dot(FitResiduals(x, y), FitResiduals(x, y)) == Sxx(y) - Mul(Slope(x, y), Sxy(x, y))
  {
    var a, dx, dy := Slope(x, y), Centred(x), Centred(y);
    ResidualsAreCentred(x, y);
    SquareOfMinus(dy, Scale(dx, a));
    DotOfScale(dy, dx, a);
    DotOfScaled(dx, dx, a, a);
    DotCommutes(dx, dy);
    SlopeOnSpread(x, y);
  }

  // ----- Pearson's r

  /** What a defined r is: a normalised co-variation, between -1 and 1. */
  lemma PearsonIsNormalised(x: Vector, y: Vector, sqrt: real -> real)
    requires |x| == |y| && IsSqrt(sqrt) && PearsonR(x, y, sqrt).Some?
    ensures var r := PearsonR(x, y, sqrt).value;
            && -1.0 <= r <= 1.0
            && Sxx(x) > 0.0 && Sxx(y) > 0.0
            && Mul(Mul(r, r), Mul(Sxx(x), Sxx(y))) == Mul(Sxy(x, y), Sxy(x, y))
            && (r > 0.0 <==> Sxy(x, y) > 0.0)
  {
    SquaresAreNonNegative(Centred(x));
    SquaresAreNonNegative(Centred(y));
    CauchySchwarz(Centred(x), Centred(y));
    ProductIsNonNegative(Sxx(x), Sxx(y));
    var s := RootOf(Mul(Sxx(x), Sxx(y)), sqrt);
    PearsonAlgebra(PearsonR(x, y, sqrt).value, s, Sxx(x), Sxx(y), Sxy(x, y));
  }

  lemma RootOf(v: real, sqrt: real -> real) returns (s: real)
    requires IsSqrt(sqrt) && v >= 0.0
    ensures s == sqrt(v) && s >= 0.0 && Mul(s, s) == v
  {
    s := sqrt(v);
  }

  lemma ProductIsNonNegative(a: real, b: real)
    requires a >= 0.0 && b >= 0.0
    ensures Mul(a, b) >= 0.0
  {}

  lemma PearsonAlgebra(r: real, s: real, sxx: real, syy: real, sxy: real)
    requires s >= TINY && sxx >= 0.0 && syy >= 0.0 && Mul(s, s) == Mul(sxx, syy) && r == sxy / s
    requires Mul(sxy, sxy) <= Mul(sxx, syy)
    ensures -1.0 <= r <= 1.0 && sxx > 0.0 && syy > 0.0
    ensures Mul(Mul(r, r), Mul(sxx, syy)) == Mul(sxy, sxy)
    ensures r > 0.0 <==> sxy > 0.0
  {
    DivideAndMultiply(sxy, s);
    PositiveProduct(s, s);
    if sxx == 0.0 {
      ZeroTimes(sxx, syy);
    }
    if syy == 0.0 {
      TimesZero(sxx);
    }
    assert (r * r) * (s * s) == (r * s) * (r * s);
    UnitInterval(r, s, sxy);
    SignOfProduct(r, s);
  }

  lemma SignOfProduct(r: real, s: real)
    requires s > 0.0
    ensures Mul(r, s) > 0.0 <==> r > 0.0
  {}

  lemma Stretch(r: real, s: real)
    requires r > 1.0 && s > 0.0
    ensures Mul(r, s) > s
  {}

  lemma LargerSquare(t: real, s: real)
    requires t > s > 0.0
    ensures Mul(t, t) > Mul(s, s)
  {}

  lemma UnitInterval(r: real, s: real, t: real)
    requires s > 0.0 && t == Mul(r, s) && Mul(t, t) <= Mul(s, s)
    ensures -1.0 <= r <= 1.0
  {
    if r > 1.0 {
      Stretch(r, s);
      LargerSquare(t, s);
    } else if r < -1.0 {
      Stretch(-r, s);
      assert Mul(-r, s) == -t;
      LargerSquare(-t, s);
      NegateBoth(t, t);
    }
  }

  /** r squared is the share of the spread of y that the fit explains. */
  lemma SseIsUnexplained(x: Vector, y: Vector, sqrt: real -> real)
    requires |x| == |y| && IsSqrt(sqrt) && PearsonR(x, y, sqrt).Some? && !Degenerate(x)
    ensures var r := PearsonR(x, y, sqrt).value;
            Dot(FitResiduals(x, y), FitResiduals(x, y)) == Mul(1.0 - Mul(r, r), Sxx(y))
  {
    PearsonIsNormalised(x, y, sqrt);
    SseOfFit(x, y);
    SlopeOnSpread(x, y);
    UnexplainedAlgebra(PearsonR(x, y, sqrt).value, Slope(x, y), Sxx(x), Sxx(y), Sxy(x, y));
  }

  lemma UnexplainedAlgebra(r: real, a: real, sxx: real, syy: real, sxy: real)
    requires sxx > 0.0 && Mul(Mul(r, r), Mul(sxx, syy)) == Mul(sxy, sxy) && Mul(a, sxx) == sxy
    ensures syy - Mul(a, sxy) == Mul(1.0 - Mul(r, r), syy)
  {}

  // ----- The write gate

  /**
   An accepted calibration has at least the required correlation.  It leaves at
   most a share 1 - m^2 of the spread unexplained, and has a positive slope,
   exactly when the NR scores do not take the degenerate branch.
   */
  lemma GateIsSound(samples: seq<Sample>, deltaOverride: Option<real>, minSamples: int, minPlcc: real,
                    sqrt: real -> real)
    requires IsSqrt(sqrt) && minPlcc > 0.0
    requires FitSamples(samples, deltaOverride, minSamples, minPlcc, sqrt).quality.passed
    ensures var c := FitSamples(samples, deltaOverride, minSamples, minPlcc, sqrt);
            var x, y := NrScores(samples), FrScores(samples);
            && |samples| >= 2 && |samples| >= minSamples
            && c.plcc.Some? && minPlcc <= c.plcc.value <= 1.0
            && (c.a > 0.0 <==> !Degenerate(x))
            && (Sse(x, y, c.a, c.b) <= Mul(1.0 - Mul(minPlcc, minPlcc), Sxx(y)) <==> !Degenerate(x))
  {
    var x, y := NrScores(samples), FrScores(samples);
    var r := PearsonR(x, y, sqrt).value;
    PearsonIsNormalised(x, y, sqrt);
    SlopeOnSpread(x, y);
    SignOfProduct(Slope(x, y), Sxx(x));
    if !Degenerate(x) {
      SseIsUnexplained(x, y, sqrt);
      GateAlgebra(r, minPlcc, Sxx(y));
    } else {
      SseOfFit(x, y);
      ZeroTimes(Slope(x, y), Sxy(x, y));
      NothingExplained(minPlcc, Sxx(y));
    }
  }

  lemma NothingExplained(m: real, syy: real)
    requires 0.0 < m && syy > 0.0
    ensures syy > Mul(1.0 - Mul(m, m), syy)
  {
    SquareSign(m);
    PositiveProduct(Mul(m, m), syy);
  }

  lemma GateAlgebra(r: real, m: real, syy: real)
    requires 0.0 < m <= r && syy > 0.0
    ensures Mul(1.0 - Mul(r, r), syy) <= Mul(1.0 - Mul(m, m), syy)
  {}

  lemma SumOfTwo(p: real, q: real)
    ensures Sum([p, q]) == p + q
    ensures Size([p, q]) == 2.0
  {
    assert [p, q][..1] == [p] && [p][..0] == [];
    assert Sum([p]) == p && Size([p]) == 1.0;
  }

  lemma DotOfTwo(p: real, q: real, u: real, v: real)
    ensures Dot([p, q], [u, v]) == p * u + q * v
  {
    assert Products([p, q], [u, v]) == [Mul(p, u), Mul(q, v)];
    SumOfTwo(Mul(p, u), Mul(q, v));
  }

  lemma CentredTwo(p: real, q: real)
    requires p == -q
    ensures Centred([0.0, q - p]) == [p, q]
  {
    SumOfTwo(0.0, q - p);
    assert Mean([0.0, q - p]) == q;
    assert Centred([0.0, q - p])[0] == p && Centred([0.0, q - p])[1] == q;
  }

  /** The moment of two two-point samples that start at zero, in terms of half their spreads. */
  lemma TwoPointMoment(p: real, q: real, x: Vector, y: Vector)
    requires x == [0.0, p + p] && y == [0.0, q + q]
    ensures Sxy(x, y) == 2.0 * Mul(p, q)
  {
    CentredTwo(-p, p);
    CentredTwo(-q, q);
    DotOfTwo(-p, p, -q, q);
  }

  lemma SquareOfProduct(p: real, q: real, t: real)
    requires t == 2.0 * Mul(p, q)
    ensures Mul(2.0 * Mul(p, p), 2.0 * Mul(q, q)) == Mul(t, t)
  {}

  lemma RootIsUnique(s: real, t: real)
    requires s >= 0.0 && t > 0.0 && Mul(s, s) == Mul(t, t)
    ensures s == t
  {
    if s > t {
      LargerSquare(s, t);
    } else if t > s > 0.0 {
      LargerSquare(t, s);
    } else {
      TimesZero(0.0);
      SquareSign(t);
    }
  }

  /** Two points with wide enough spreads for Pearson's r to be defined correlate perfectly. */
  lemma TwoPointCorrelation(p: real, q: real, x: Vector, y: Vector, sqrt: real -> real)
    requires x == [0.0, p + p] && y == [0.0, q + q] && TINY <= 2.0 * Mul(p, q) && IsSqrt(sqrt)
    ensures PearsonR(x, y, sqrt) == Some(1.0)
  {
    TwoPointMoment(p, p, x, x);
    TwoPointMoment(q, q, y, y);
    TwoPointMoment(p, q, x, y);
    var t := 2.0 * Mul(p, q);
    SquareOfProduct(p, q, t);
    SquareSign(t);
    var s := RootOf(Mul(Sxx(x), Sxx(y)), sqrt);
    RootIsUnique(s, t);
    DivideBySelf(t);
  }

  lemma DivideBySelf(t: real)
    requires t > 0.0
    ensures t / t == 1.0
  {}

  lemma NarrowIsDegenerate(p: real, x: Vector)
    requires x == [0.0, p + p] && 4.0 * Mul(p, p) < TINY
    ensures Degenerate(x)
  {
    SumOfTwo(0.0, p + p);
    DotOfTwo(0.0, p + p, 0.0, p + p);
    SquareSign(p);
  }

  /**
   Perfect correlation passes the gate with a slope of zero when the NR spread, but not its
   product with the FR spread, is below the cut-off that both tests share.
   */
  lemma AcceptedWithoutSlope(p: real, q: real, sqrt: real -> real)
    requires 4.0 * Mul(p, p) < 0.000_000_000_001 <= 2.0 * Mul(p, q) && IsSqrt(sqrt)
    ensures var c := FitSamples([Sample(0.0, 0.0), Sample(p + p, q + q)], None, 2, 1.0, sqrt);
            c.quality.passed && c.plcc == Some(1.0) && c.a == 0.0
  {
    var samples := [Sample(0.0, 0.0), Sample(p + p, q + q)];
    assert NrScores(samples) == [0.0, p + p] && FrScores(samples) == [0.0, q + q];
    NarrowIsDegenerate(p, NrScores(samples));
    TwoPointCorrelation(p, q, NrScores(samples), FrScores(samples), sqrt);
  }

  /** Such samples lie on the VMAF scale: an NR spread of 2e-7 over an FR spread of 40. */
  lemma NarrowSpreadsExist() returns (p: real, q: real)
    ensures 4.0 * Mul(p, p) < 0.000_000_000_001 <= 2.0 * Mul(p, q) && p + p == 0.000_000_2 && q + q == 40.0
  {
    p, q := 0.000_000_1, 20.0;
  }

  // ----- The threshold

  /** How many residuals are larger than `delta` in absolute value. */
  function Exceeding(v: Vector, delta: real): nat {
    if v == [] then 0
    else Exceeding(v[..|v| - 1], delta) + if Abs(v[|v| - 1]) > delta then 1 else 0
  }

  /** Without an override, the threshold is twice the uncentred sigma of the fit. */
  lemma DeltaIsTwoSigma(samples: seq<Sample>, minSamples: int, minPlcc: real, sqrt: real -> real)
    requires |samples| >= 2
    ensures var c := FitSamples(samples, None, minSamples, minPlcc, sqrt);
            c.deltaFast == 2.0 * c.sigma
  {
    var x, y := NrScores(samples), FrScores(samples);
    FitIsUnbiased(x, y);
    var r := FitResiduals(x, y);
    assert Centred(r) == r by {
      assert Mean(r) == 0.0;
      assert forall i :: 0 <= i < |r| ==> Centred(r)[i] == r[i];
    }
  }

  lemma SquareAbove(z: real, delta: real)
    requires Abs(z) > delta >= 0.0
    ensures Mul(z, z) > Mul(delta, delta)
  {
    NegateBoth(z, z);
    if delta > 0.0 {
      LargerSquare(Abs(z), delta);
    } else {
      TimesZero(0.0);
      SquareSign(z);
    }
  }

  lemma {:induction false} ExceedingMass(v: Vector, delta: real) returns (count: real)
    requires delta >= 0.0
    ensures count == Exceeding(v, delta) as real
    ensures Mul(count, Mul(delta, delta)) <= Dot(v, v)
    ensures Exceeding(v, delta) > 0 ==> Mul(count, Mul(delta, delta)) < Dot(v, v)
  {
    if v == [] {
      count := 0.0;
      ZeroTimes(0.0, Mul(delta, delta));
      assert Products(v, v) == [];
    } else {
      var n := |v| - 1;
      var before := ExceedingMass(v[..n], delta);
      assert Products(v, v)[..n] == Products(v[..n], v[..n]);
      SquareSign(v[n]);
      if Abs(v[n]) > delta {
        count := before + 1.0;
        SquareAbove(v[n], delta);
        AddSlopes(before, 1.0, Mul(delta, delta));
        assert Mul(1.0, Mul(delta, delta)) == Mul(delta, delta);
      } else {
        count := before;
      }
    }
  }

  lemma Chebyshev(r: Vector, sigma: real, delta: real)
    requires sigma >= 0.0 && delta == 2.0 * sigma && Mul(sigma, sigma) == Dot(r, r) / Degrees(r)
    ensures Exceeding(r, delta) > 0 ==> 4.0 * Exceeding(r, delta) as real < Degrees(r)
  {
    DivideAndMultiply(Dot(r, r), Degrees(r));
    var count := ExceedingMass(r, delta);
    if Exceeding(r, delta) > 0 {
      ChebyshevAlgebra(count, delta, sigma, Dot(r, r) / Degrees(r), Dot(r, r), Degrees(r));
    }
  }

  lemma IntegerBound(k: nat, n: nat, d: real)
    requires n >= 2 && d == (n - 1) as real
    requires k > 0 ==> 4.0 * k as real < d
    ensures 4 * k <= n - 1
  {}

  lemma ChebyshevCount(r: Vector, sigma: real, delta: real)
    requires |r| >= 2 && sigma >= 0.0 && delta == 2.0 * sigma && Mul(sigma, sigma) == Dot(r, r) / Degrees(r)
    ensures 4 * Exceeding(r, delta) <= |r| - 1
  {
    Chebyshev(r, sigma, delta);
    DegreesOfFreedom(r);
    IntegerBound(Exceeding(r, delta), |r|, Degrees(r));
  }

  lemma DegreesOfFreedom(r: Vector)
    requires |r| >= 2
    ensures Degrees(r) == (|r| - 1) as real
  {
    SizeIsLength(r);
  }

  lemma ChebyshevAlgebra(count: real, delta: real, sigma: real, variance: real, s: real, d: real)
    requires delta == 2.0 * sigma && Mul(sigma, sigma) == variance && Mul(variance, d) == s
    requires Mul(count, Mul(delta, delta)) < s
    ensures 4.0 * count < d
  {}

  lemma QuotientIsNonNegative(a: real, d: real)
    requires a >= 0.0 && d > 0.0
    ensures a / d >= 0.0
  {}

  lemma ThresholdCount(r: Vector, sqrt: real -> real, delta: real)
    requires |r| >= 2 && IsSqrt(sqrt) && delta == 2.0 * sqrt(Dot(r, r) / Degrees(r))
    ensures 4 * Exceeding(r, delta) <= |r| - 1
  {
    SquaresAreNonNegative(r);
    QuotientIsNonNegative(Dot(r, r), Degrees(r));
    var sigma := RootOf(Dot(r, r) / Degrees(r), sqrt);
    ChebyshevCount(r, sigma, delta);
  }

  /** By Chebyshev, at most a quarter of n - 1 residuals exceed the threshold. */
  lemma FewResidualsExceed(samples: seq<Sample>, minSamples: int, minPlcc: real, sqrt: real -> real)
    requires |samples| >= 2 && IsSqrt(sqrt)
    ensures var c := FitSamples(samples, None, minSamples, minPlcc, sqrt);
            4 * Exceeding(FitOf(samples).residuals, c.deltaFast) <= |samples| - 1
  {
    DeltaIsTwoSigma(samples, minSamples, minPlcc, sqrt);
    var c := FitSamples(samples, None, minSamples, minPlcc, sqrt);
    ThresholdCount(FitResiduals(NrScores(samples), FrScores(samples)), sqrt, c.deltaFast);
  }
}
