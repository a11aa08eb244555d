/** Exactly which samples are accepted, which are fitted, and what sigma and the defaults are. */
module CalibrationAcceptance {
  import opened Options
  import opened RealSums
  import opened Calibration
  import opened CalibrationGate

  // ----- When r is defined, and when it passes

  lemma RootIs(v: real, s: real, sqrt: real -> real)
    requires IsSqrt(sqrt) && s >= 0.0 && Mul(s, s) == v
    ensures sqrt(v) == s
  {
    SquareSign(s);
    var t := RootOf(v, sqrt);
    if s > 0.0 {
      RootIsUnique(t, s);
    } else {
      TimesZero(0.0);
      SquareSign(t);
    }
  }

  lemma QuotientTimes(p: real, s: real)
    requires s > 0.0
    ensures Mul(p / s, s) == p
  {}

  /** r is defined when there are two samples and the spreads are not too small; then it is Sxy over s. */
  lemma PearsonIsDefinedExactlyWhen(x: Vector, y: Vector, sqrt: real -> real, s: real)
    requires |x| == |y| && x != [] && IsSqrt(sqrt)
    requires s >= 0.0 && s * s == Sxx(x) * Sxx(y)
    ensures PearsonR(x, y, sqrt).Some? <==> |x| >= 2 && s >= TINY
    ensures PearsonR(x, y, sqrt).Some? ==> Mul(PearsonR(x, y, sqrt).value, s) == Sxy(x, y)
  {
    assert Mul(s, s) == Mul(Sxx(x), Sxx(y));
    RootIs(Mul(Sxx(x), Sxx(y)), s, sqrt);
    if |x| >= 2 && s >= TINY {
      QuotientTimes(Sxy(x, y), s);
    }
  }

  lemma PassesWhen(r: real, s: real, sxy: real, m: real)
    requires s > 0.0 && Mul(r, s) == sxy
    ensures r >= m <==> sxy >= m * s
  {
    if r >= m {
      ProductIsNonNegative(r - m, s);
    } else {
      PositiveProduct(m - r, s);
    }
    SubtractProducts(r, m, s);
  }

  lemma SubtractProducts(r: real, m: real, s: real)
    ensures Mul(r - m, s) == Mul(r, s) - m * s
    ensures Mul(m - r, s) == m * s - Mul(r, s)
  {}

  /** The write gate, for all samples and thresholds. */
  lemma AcceptedExactlyWhen(samples: seq<Sample>, deltaOverride: Option<real>, minSamples: int, minPlcc: real,
                            sqrt: real -> real, s: real)
    requires IsSqrt(sqrt) && samples != []
    requires s >= 0.0 && s * s == Sxx(NrScores(samples)) * Sxx(FrScores(samples))
    ensures FitSamples(samples, deltaOverride, minSamples, minPlcc, sqrt).quality.passed <==>
            && |samples| >= 2 && |samples| >= minSamples && s >= TINY
            && Sxy(NrScores(samples), FrScores(samples)) >= minPlcc * s
    ensures var q := FitSamples(samples, deltaOverride, minSamples, minPlcc, sqrt).quality;
            (q.passed <==> q.reasons == 0) && (q.reasons == 2 ==> |samples| < minSamples)
  {
    var x, y := NrScores(samples), FrScores(samples);
    PearsonIsDefinedExactlyWhen(x, y, sqrt, s);
    if PearsonR(x, y, sqrt).Some? {
      PassesWhen(PearsonR(x, y, sqrt).value, s, Sxy(x, y), minPlcc);
    }
  }

  /** Fewer than two samples are never accepted: the line is the identity, and the threshold the default. */
  lemma TooFewSamples(samples: seq<Sample>, minSamples: int, minPlcc: real, sqrt: real -> real)
    requires |samples| < 2
    ensures var c := FitSamples(samples, None, minSamples, minPlcc, sqrt);
            c.a == 1.0 && c.b == 0.0 && c.deltaFast == 8.0 && c.plcc == None && !c.quality.passed
  {}

  /** The sigma of one sample is the distance of its two scores. */
  lemma SigmaOfOne(sample: Sample, deltaOverride: Option<real>, minSamples: int, minPlcc: real, sqrt: real -> real,
                   d: real)
    requires IsSqrt(sqrt) && d >= 0.0 && (d == sample.frScore - sample.nrScore || d == sample.nrScore - sample.frScore)
    ensures FitSamples([sample], deltaOverride, minSamples, minPlcc, sqrt).sigma == d
  {
    var z := sample.frScore - sample.nrScore;
    assert FitOf([sample]).residuals == [z];
    DotOfOne([z], z);
    NegateBoth(z, z);
    RootIs(Mul(z, z), d, sqrt);
  }

  lemma DotOfOne(r: Vector, z: real)
    requires r == [z]
    ensures Dot(r, r) / Degrees(r) == Mul(z, z)
  {
    SizeIsLength(r);
    var squares := Products(r, r);
    assert squares == [Mul(z, z)] && squares[..0] == [];
    assert Sum(squares[..0]) == 0.0;
  }

  /** An override replaces the threshold, and nothing else. */
  lemma OverrideIsUsed(samples: seq<Sample>, delta: real, minSamples: int, minPlcc: real, sqrt: real -> real)
    ensures var c, c' := FitSamples(samples, Some(delta), minSamples, minPlcc, sqrt),
                         FitSamples(samples, None, minSamples, minPlcc, sqrt);
            c.deltaFast == delta && c == c'.(deltaFast := delta)
  {}

  // ----- Which samples are fitted

  lemma {:induction false} TwoTermsOf(v: Vector, i: nat, j: nat)
    requires i < j < |v| && forall k :: 0 <= k < |v| ==> v[k] >= 0.0
    ensures Sum(v) >= v[i] + v[j]
  {
    var n := |v| - 1;
    if j < n {
      TwoTermsOf(v[..n], i, j);
    } else {
      OneTermOf(v[..n], i);
    }
  }

  lemma {:induction false} OneTermOf(v: Vector, i: nat)
    requires i < |v| && forall k :: 0 <= k < |v| ==> v[k] >= 0.0
    ensures Sum(v) >= v[i]
  {
    var n := |v| - 1;
    if i < n {
      OneTermOf(v[..n], i);
    } else {
      SumOfNonNegatives(v[..n]);
    }
  }

  lemma SpreadOfTwo(p: real, q: real, d: real)
    requires d == p - q
    ensures 2.0 * (Mul(p, p) + Mul(q, q)) >= d * d
  {
    SquareSign(p + q);
    assert 2.0 * (Mul(p, p) + Mul(q, q)) == d * d + Mul(p + q, p + q);
  }

  /** The denominator of the slope is n times the spread. */
  lemma DenominatorIsSpread(x: Vector)
    requires x != []
    ensures Denominator(x) == Mul(Size(x), Sxx(x))
  {
    CentredMoment(x, x);
  }

  lemma SpreadCovers(x: Vector, i: nat, j: nat)
    requires i < j < |x|
    ensures 2.0 * Sxx(x) >= (x[i] - x[j]) * (x[i] - x[j])
  {
    var c := Centred(x);
    var squares := Products(c, c);
    forall k | 0 <= k < |squares| ensures squares[k] >= 0.0 {
      SquareSign(c[k]);
    }
    TwoTermsOf(squares, i, j);
    SpreadOfTwo(c[i], c[j], x[i] - x[j]);
  }

  lemma SizeTimes(n: real, sxx: real, d: real)
    requires n >= 2.0 && 2.0 * sxx >= d && sxx >= 0.0
    ensures Mul(n, sxx) >= d
  {
    ProductIsNonNegative(n - 2.0, sxx);
  }

  /** Two NR scores that differ by a millionth or more are enough for the least-squares fit. */
  lemma WideScoresAreFitted(x: Vector, y: Vector, i: nat, j: nat)
    requires |x| == |y| && i < j < |x| && (x[i] - x[j]) * (x[i] - x[j]) >= 0.000_000_000_001
    ensures !Degenerate(x)
    ensures var fit := LinearRegression(x, y).result;
            Optimal(x, y, fit.a, fit.b)
  {
    SizeIsLength(x);
    SquaresAreNonNegative(Centred(x));
    SpreadCovers(x, i, j);
    SizeTimes(Size(x), Sxx(x), (x[i] - x[j]) * (x[i] - x[j]));
    DenominatorIsSpread(x);
    FitIsOptimal(x, y);
  }

  // ----- Sigma

  lemma VarianceTimes(v: real, d: real, s: real)
    requires d > 0.0 && Mul(s, s) == v / d
    ensures Mul(d, Mul(s, s)) == v
  {}

  lemma DeviationOf(r: Vector, sqrt: real -> real)
    requires IsSqrt(sqrt) && |r| >= 2
    ensures var s := sqrt(Dot(r, r) / Degrees(r));
            s >= 0.0 && Mul((|r| - 1) as real, Mul(s, s)) == Dot(r, r)
  {
    SquaresAreNonNegative(r);
    DegreesOfFreedom(r);
    QuotientIsNonNegative(Dot(r, r), Degrees(r));
    var s := RootOf(Dot(r, r) / Degrees(r), sqrt);
    VarianceTimes(Dot(r, r), Degrees(r), s);
  }

  /** Sigma squared, times one less than the number of samples, is the residual sum of squares. */
  lemma SigmaIsResidualDeviation(samples: seq<Sample>, deltaOverride: Option<real>, minSamples: int, minPlcc: real,
                                 sqrt: real -> real)
    requires IsSqrt(sqrt) && |samples| >= 2
    ensures var c := FitSamples(samples, deltaOverride, minSamples, minPlcc, sqrt);
            && c.sigma >= 0.0
            && Mul((|samples| - 1) as real, Mul(c.sigma, c.sigma))
               == Sse(NrScores(samples), FrScores(samples), c.a, c.b)
  {
    DeviationOf(FitOf(samples).residuals, sqrt);
  }
}
