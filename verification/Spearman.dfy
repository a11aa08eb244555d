/** The correlation of two rank vectors, and the classic formula for it. */
module Spearman {
  import opened Collections
  import opened Ranks

  function Total(a: seq<nat>, n: nat): nat
    requires n <= |a|
  {
    if n == 0 then 0 else Total(a, n - 1) + a[n - 1]
  }

  function Inner(a: seq<nat>, b: seq<nat>, n: nat): nat
    requires n <= |a| == |b|
  {
    if n == 0 then 0 else Inner(a, b, n - 1) + a[n - 1] * b[n - 1]
  }

  function SquaredGap(x: int, y: int): int {
    (x - y) * (x - y)
  }

  /** The sum of the squared rank differences. */
  function Distance(a: seq<nat>, b: seq<nat>, n: nat): int
    requires n <= |a| == |b|
  {
    if n == 0 then 0 else Distance(a, b, n - 1) + SquaredGap(a[n - 1], b[n - 1])
  }

  function Cov(n: nat, dot: nat, sum: nat, sum': nat): int {
    n * dot - sum * sum'
  }

  /** n^2 times the covariance. */
  function Co(a: seq<nat>, b: seq<nat>): int
    requires |a| == |b|
  {
    Cov(|a|, Inner(a, b, |a|), Total(a, |a|), Total(b, |b|))
  }

  /** root is the square root of the product of two variances. */
  predicate IsRootOf(root: real, v: int, v': int) {
    root >= 0.0 && root * root == v as real * v' as real
  }

  function Scaled(x: int, y: int): int {
    x * y
  }

  /** n (n^2 - 1), which is 12 times n times the variance of n ranks. */
  function RankScale(n: nat): int {
    n * (n * n - 1)
  }

  /** The textbook coefficient for a sum of squared rank differences. */
  function Classic(distance: int, scale: int): real
    requires scale > 0
  {
    1.0 - 6.0 * distance as real / scale as real
  }

  /** The off-diagonal entry of corrcoef, over that root. */
  function Corrcoef(a: seq<nat>, b: seq<nat>, root: real): real
    requires |a| == |b| && root > 0.0
  {
    Co(a, b) as real / root
  }

  // ----- Sums over a permutation

  /** The same sums taken only over entries below m. */
  function SumBelow(a: seq<nat>, n: nat, m: nat): nat
    requires n <= |a|
  {
    if n == 0 then 0 else SumBelow(a, n - 1, m) + if a[n - 1] < m then a[n - 1] else 0
  }

  function SquaresBelow(a: seq<nat>, n: nat, m: nat): nat
    requires n <= |a|
  {
    if n == 0 then 0 else SquaresBelow(a, n - 1, m) + if a[n - 1] < m then a[n - 1] * a[n - 1] else 0
  }

  /** Raising the limit by one admits the one entry with that value. */
  lemma {:induction false} OneMore(a: seq<nat>, n: nat, m: nat, at: nat)
    requires n <= |a| && IsPermutation(a) && at < |a| && a[at] == m
    ensures SumBelow(a, n, m + 1) == SumBelow(a, n, m) + if at < n then m else 0
    ensures SquaresBelow(a, n, m + 1) == SquaresBelow(a, n, m) + if at < n then m * m else 0
  {
    if n > 0 {
      OneMore(a, n - 1, m, at);
    }
  }

  function Pyramid(m: nat): nat {
    if m == 0 then 0 else Pyramid(m - 1) + (m - 1) * (m - 1)
  }

  lemma {:induction false} NoneBelowZero(a: seq<nat>, n: nat)
    requires n <= |a|
    ensures SumBelow(a, n, 0) == 0 && SquaresBelow(a, n, 0) == 0
  {
    if n > 0 {
      NoneBelowZero(a, n - 1);
    }
  }

  /** places[v] is where the value v sits. */
  lemma {:induction false} BelowAre(a: seq<nat>, places: seq<nat>, m: nat)
    requires IsPermutation(a) && |places| == |a| && m <= |a|
    requires forall v :: 0 <= v < |a| ==> places[v] < |a| && a[places[v]] == v
    ensures 2 * SumBelow(a, |a|, m) == m * (m - 1)
    ensures SquaresBelow(a, |a|, m) == Pyramid(m)
  {
    if m == 0 {
      NoneBelowZero(a, |a|);
    } else {
      BelowAre(a, places, m - 1);
      OneMore(a, |a|, m - 1, places[m - 1]);
      assert (m - 1) * (m - 2) + 2 * (m - 1) == m * (m - 1);
    }
  }

  lemma {:induction false} AllBelow(a: seq<nat>, n: nat)
    requires n <= |a| && IsPermutation(a)
    ensures SumBelow(a, n, |a|) == Total(a, n) && SquaresBelow(a, n, |a|) == Inner(a, a, n)
  {
    if n > 0 {
      AllBelow(a, n - 1);
    }
  }

  lemma {:induction false} PyramidFormula(m: nat)
    ensures 6 * Pyramid(m) == (m - 1) * m * (2 * m - 1)
  {
    if m > 0 {
      PyramidFormula(m - 1);
      PyramidStep(m);
    }
  }

  lemma PyramidStep(m: int)
    ensures (m - 2) * (m - 1) * (2 * m - 3) + 6 * ((m - 1) * (m - 1)) == (m - 1) * m * (2 * m - 1)
  {}

  ghost predicate HasRankSums(ranks: seq<nat>, n: nat) {
    |ranks| == n && 2 * Total(ranks, n) == n * (n - 1) && Inner(ranks, ranks, n) == Pyramid(n)
  }

  /** Every rank vector has the sums of 0, ..., n - 1. */
  lemma RankSums(ranks: seq<nat>, order: seq<nat>, p: seq<real>)
    requires IsDoubleArgsort(ranks, order, p)
    ensures HasRankSums(ranks, |p|)
  {
    RanksInvertOrder(ranks, order, p);
    BelowAre(ranks, order, |p|);
    AllBelow(ranks, |p|);
  }

  // ----- The classic formula

  lemma SquareExpands(x: int, y: int)
    ensures SquaredGap(x, y) == x * x + y * y - 2 * (x * y)
  {}

  lemma {:induction false} DistanceExpands(a: seq<nat>, b: seq<nat>, n: nat)
    requires n <= |a| == |b|
    ensures Distance(a, b, n) == Inner(a, a, n) + Inner(b, b, n) - 2 * Inner(a, b, n)
  {
    if n > 0 {
      DistanceExpands(a, b, n - 1);
      SquareExpands(a[n - 1], b[n - 1]);
    }
  }

  lemma {:induction false} DistanceIsZeroWhen(a: seq<nat>, b: seq<nat>, n: nat)
    requires n <= |a| == |b|
    ensures Distance(a, b, n) >= 0 && (Distance(a, b, n) == 0 <==> a[..n] == b[..n])
  {
    if n > 0 {
      DistanceIsZeroWhen(a, b, n - 1);
      GapIsZeroWhen(a[n - 1], b[n - 1]);
      assert a[..n] == a[..n - 1] + [a[n - 1]] && b[..n] == b[..n - 1] + [b[n - 1]];
    }
  }

  lemma GapIsZeroWhen(x: int, y: int)
    ensures SquaredGap(x, y) >= 0 && (SquaredGap(x, y) == 0 <==> x == y)
  {}

  lemma VarianceFormula(n: nat, s: nat, q: nat)
    requires 2 * s == n * (n - 1) && 6 * q == (n - 1) * n * (2 * n - 1)
    ensures 12 * Cov(n, q, s, s) == Scaled(n, RankScale(n))
  {}

  /** n^2 times the variance of a rank vector. */
  lemma RankVariance(ranks: seq<nat>, n: nat)
    requires HasRankSums(ranks, n)
    ensures 12 * Co(ranks, ranks) == Scaled(n, RankScale(n))
  {
    PyramidFormula(n);
    VarianceFormula(n, Total(ranks, n), Inner(ranks, ranks, n));
  }

  lemma Halves(n: nat, q: nat, d: nat, s: nat, distance: int)
    requires distance == q + q - 2 * d
    ensures 2 * Cov(n, d, s, s) == 2 * Cov(n, q, s, s) - Scaled(n, distance)
  {}

  lemma SameSum(n: nat, s: nat, s': nat)
    requires 2 * s == n * (n - 1) && 2 * s' == n * (n - 1)
    ensures s == s'
  {}

  lemma RankCovariance(rp: seq<nat>, rt: seq<nat>, n: nat)
    requires HasRankSums(rp, n) && HasRankSums(rt, n)
    ensures Co(rp, rp) == Co(rt, rt) && 2 * Co(rp, rt) == 2 * Co(rp, rp) - Scaled(n, Distance(rp, rt, n))
  {
    SameSum(n, Total(rp, n), Total(rt, n));
    DistanceExpands(rp, rt, n);
    Halves(n, Pyramid(n), Inner(rp, rt, n), Total(rp, n), Distance(rp, rt, n));
  }

  lemma RootIsUnique(root: real, v: real)
    requires root > 0.0 && v > 0.0 && root * root == v * v
    ensures root == v
  {}

  lemma Ratio(co: real, v: real, n: real, distance: real, m: real)
    requires v > 0.0 && m > 0.0 && 2.0 * co == 2.0 * v - n * distance && 12.0 * v == n * m
    ensures co / v == 1.0 - 6.0 * distance / m
  {
    var x := 6.0 * distance / m;
    assert x * m == 6.0 * distance;
    Scale(v, n, m, x, distance);
    QuotientIs(co, v, 1.0 - x);
  }

  lemma QuotientIs(co: real, v: real, y: real)
    requires v > 0.0 && co == v * y
    ensures co / v == y
  {}

  lemma Scale(v: real, n: real, m: real, x: real, distance: real)
    requires 12.0 * v == n * m && x * m == 6.0 * distance
    ensures 2.0 * (v * x) == n * distance
  {}

  lemma ScaleIsPositive(n: nat)
    requires n >= 2
    ensures RankScale(n) > 0
  {}

  lemma PositiveFactor(n: int, m: int, v: int)
    requires n > 0 && m > 0 && 12 * v == Scaled(n, m)
    ensures v > 0
  {}

  lemma AsRealProducts(co: int, v: int, n: nat, distance: int, m: int)
    requires 2 * co == 2 * v - Scaled(n, distance) && 12 * v == Scaled(n, m)
    ensures 2.0 * co as real == 2.0 * v as real - n as real * distance as real
    ensures 12.0 * v as real == n as real * m as real
  {}

  lemma FormulaFromNumbers(co: int, v: int, n: nat, distance: int, m: int, root: real)
    requires n > 0 && m > 0 && 2 * co == 2 * v - Scaled(n, distance) && 12 * v == Scaled(n, m) && IsRootOf(root, v, v)
    ensures root > 0.0 && co as real / root == Classic(distance, m)
  {
    PositiveFactor(n, m, v);
    RootIsUnique(root, v as real);
    AsRealProducts(co, v, n, distance, m);
    Ratio(co as real, v as real, n as real, distance as real, m as real);
  }

  lemma FormulaFromSums(rp: seq<nat>, rt: seq<nat>, n: nat, root: real)
    requires HasRankSums(rp, n) && HasRankSums(rt, n) && n >= 2 && IsRootOf(root, Co(rp, rp), Co(rt, rt))
    ensures RankScale(n) > 0 && root > 0.0
    ensures Corrcoef(rp, rt, root) == Classic(Distance(rp, rt, n), RankScale(n))
  {
    ScaleIsPositive(n);
    RankVariance(rp, n);
    RankCovariance(rp, rt, n);
    FormulaFromNumbers(Co(rp, rt), Co(rp, rp), n, Distance(rp, rt, n), RankScale(n), root);
  }

  /** The coefficient is 1 - 6 sum d^2 / (n (n^2 - 1)) for all inputs, and 1 exactly on equal ranks. */
  lemma SpearmanFormula(rp: seq<nat>, op: seq<nat>, p: seq<real>, rt: seq<nat>, ot: seq<nat>, t: seq<real>, root: real)
    requires IsDoubleArgsort(rp, op, p) && IsDoubleArgsort(rt, ot, t) && |p| == |t| >= 2
    requires IsRootOf(root, Co(rp, rp), Co(rt, rt))
    ensures RankScale(|p|) > 0 && root > 0.0
    ensures Corrcoef(rp, rt, root) == Classic(Distance(rp, rt, |p|), RankScale(|p|))
    ensures Corrcoef(rp, rt, root) == 1.0 <==> rp == rt
  {
    RankSums(rp, op, p);
    RankSums(rt, ot, t);
    FormulaFromSums(rp, rt, |p|, root);
    DistanceIsZeroWhen(rp, rt, |p|);
    assert rp[..|p|] == rp && rt[..|p|] == rt;
    OneExactlyWhen(Distance(rp, rt, |p|), RankScale(|p|));
  }

  lemma OneExactlyWhen(distance: int, scale: int)
    requires scale > 0
    ensures Classic(distance, scale) == 1.0 <==> distance == 0
  {}

  /** A strictly increasing transform of distinct predictions does not change the coefficient. */
  lemma CoefficientIsInvariant(p: seq<real>, q: seq<real>, rp: seq<nat>, op: seq<nat>, rq: seq<nat>, oq: seq<nat>,
                               rt: seq<nat>, root: real)
    requires Distinct(p) && SameOrder(p, q) && |rt| == |p| && root > 0.0
    requires IsDoubleArgsort(rp, op, p) && IsDoubleArgsort(rq, oq, q)
    ensures |rp| == |rq| == |rt| && Corrcoef(rq, rt, root) == Corrcoef(rp, rt, root)
  {
    TransformKeepsRanks(p, q, rp, op, rq, oq);
  }
}
