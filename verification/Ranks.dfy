/** Ranks by a double argsort, with argsort known only as some permutation that sorts. */
module Ranks {
  import opened Collections

  predicate IsPermutation(a: seq<nat>) {
    (forall k :: 0 <= k < |a| ==> a[k] < |a|) && forall i, j :: 0 <= i < j < |a| ==> a[i] != a[j]
  }

  /** What argsort promises; the order of equal values is the library's. */
  predicate IsArgsort(a: seq<nat>, p: seq<real>) {
    |a| == |p| && IsPermutation(a) && forall i, j :: 0 <= i < j < |a| ==> p[a[i]] <= p[a[j]]
  }

  function AsReals(a: seq<nat>): seq<real> {
    seq(|a|, k requires 0 <= k < |a| => a[k] as real)
  }

  /** ranks is argsort(argsort(p)), with order the inner result. */
  predicate IsDoubleArgsort(ranks: seq<nat>, order: seq<nat>, p: seq<real>) {
    IsArgsort(order, p) && IsArgsort(ranks, AsReals(order))
  }

  // ----- The second argsort inverts the first

  ghost predicate ClimbsTo(b: seq<nat>) {
    (forall i, j :: 0 <= i < j < |b| ==> b[i] < b[j]) && forall i :: 0 <= i < |b| ==> b[i] < |b|
  }

  lemma {:induction false} ClimbsFromBelow(b: seq<nat>, i: nat)
    requires ClimbsTo(b) && i < |b|
    ensures i <= b[i]
  {
    if i > 0 {
      ClimbsFromBelow(b, i - 1);
    }
  }

  lemma {:induction false} ClimbsFromAbove(b: seq<nat>, i: nat)
    requires ClimbsTo(b) && i < |b|
    ensures b[i] <= i
    decreases |b| - i
  {
    if i < |b| - 1 {
      ClimbsFromAbove(b, i + 1);
    }
  }

  /** ranks[i] is the place of i in the sorted order, and order lists the places. */
  lemma RanksInvertOrder(ranks: seq<nat>, order: seq<nat>, p: seq<real>)
    requires IsDoubleArgsort(ranks, order, p)
    ensures forall i :: 0 <= i < |p| ==> order[ranks[i]] == i
    ensures forall k :: 0 <= k < |p| ==> ranks[order[k]] == k
  {
    var b := seq(|p|, i requires 0 <= i < |p| => order[ranks[i]]);
    var keys := AsReals(order);
    forall i, j | 0 <= i < j < |p| ensures b[i] < b[j] {
      assert keys[ranks[i]] <= keys[ranks[j]];
    }
    forall i | 0 <= i < |p| ensures order[ranks[i]] == i {
      ClimbsFromBelow(b, i);
      ClimbsFromAbove(b, i);
      assert b[i] == order[ranks[i]];
    }
  }

  // ----- Ranks count smaller values

  function Places(order: seq<nat>, m: nat): set<nat>
    requires m <= |order|
  {
    set k | 0 <= k < m :: order[k]
  }

  lemma NewPlace(order: seq<nat>, m: nat)
    requires m < |order| && IsPermutation(order)
    ensures order[m] !in Places(order, m) && Places(order, m + 1) == Places(order, m) + {order[m]}
  {}

  lemma {:induction false} PlacesCount(order: seq<nat>, m: nat)
    requires m <= |order| && IsPermutation(order)
    ensures |Places(order, m)| == m
  {
    if m == 0 {
      assert Places(order, 0) == {};
    } else {
      PlacesCount(order, m - 1);
      NewPlace(order, m - 1);
    }
  }

  function Smaller(p: seq<real>, i: nat): set<nat>
    requires i < |p|
  {
    set j: nat | j < |p| && p[j] < p[i]
  }

  function NotLarger(p: seq<real>, i: nat): set<nat>
    requires i < |p|
  {
    set j: nat | j < |p| && j != i && p[j] <= p[i]
  }

  lemma SmallerComesEarlier(order: seq<nat>, p: seq<real>, a: nat, b: nat)
    requires IsArgsort(order, p) && a < |p| && b < |p| && p[order[a]] < p[order[b]]
    ensures a < b
  {}

  /** In general a rank lies between the number of smaller and of no larger other values. */
  lemma RankBounds(ranks: seq<nat>, order: seq<nat>, p: seq<real>, i: nat)
    requires IsDoubleArgsort(ranks, order, p) && i < |p|
    ensures |Smaller(p, i)| <= ranks[i] <= |NotLarger(p, i)|
  {
    RanksInvertOrder(ranks, order, p);
    var before := Places(order, ranks[i]);
    PlacesCount(order, ranks[i]);
    forall j | j in Smaller(p, i) ensures j in before {
      assert order[ranks[j]] == j;
      SmallerComesEarlier(order, p, ranks[j], ranks[i]);
    }
    SubsetSize(Smaller(p, i), before);
    SubsetSize(before, NotLarger(p, i));
  }

  /** With distinct values it is exactly the number of smaller ones. */
  lemma RankCountsSmaller(ranks: seq<nat>, order: seq<nat>, p: seq<real>, i: nat)
    requires IsDoubleArgsort(ranks, order, p) && Distinct(p) && i < |p|
    ensures ranks[i] == |Smaller(p, i)|
  {
    RankBounds(ranks, order, p, i);
    assert Smaller(p, i) == NotLarger(p, i);
  }

  // ----- Ranks see only the order of the values

  ghost predicate SameOrder(p: seq<real>, q: seq<real>) {
    |p| == |q| && forall i, j :: 0 <= i < |p| && 0 <= j < |p| ==> (p[i] < p[j] <==> q[i] < q[j])
  }

  /** A strictly increasing transform keeps the order, and so the possible argsorts. */
  lemma TransformKeepsArgsorts(p: seq<real>, f: real -> real, a: seq<nat>)
    requires forall x, y :: x < y ==> f(x) < f(y)
    ensures var q := seq(|p|, i requires 0 <= i < |p| => f(p[i]));
            SameOrder(p, q) && (IsArgsort(a, p) <==> IsArgsort(a, q))
  {}

  /** With distinct values the ranks are the same, whichever argsort was used. */
  lemma TransformKeepsRanks(p: seq<real>, q: seq<real>, ranks: seq<nat>, order: seq<nat>,
                            ranks': seq<nat>, order': seq<nat>)
    requires Distinct(p) && SameOrder(p, q)
    requires IsDoubleArgsort(ranks, order, p) && IsDoubleArgsort(ranks', order', q)
    ensures ranks == ranks'
  {
    forall i: nat | i < |p| ensures ranks[i] == ranks'[i] {
      RankCountsSmaller(ranks, order, p, i);
      assert Distinct(q) by {
        forall h, j | 0 <= h < j < |q| ensures q[h] != q[j] {
          assert p[h] < p[j] || p[j] < p[h];
        }
      }
      RankCountsSmaller(ranks', order', q, i);
      assert Smaller(p, i) == Smaller(q, i);
    }
  }
}
