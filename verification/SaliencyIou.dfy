/** Intersection over union of block masks, per pair and over all pairs. */
module SaliencyIou {
  import opened Collections
  import opened Options
  import opened Tensors
  import opened RealSums

  datatype Score = Score(intersection: nat, union: nat, iou: real)

  function Count(a: seq<bool>): nat {
    if a == [] then 0 else Count(Front(a)) + if Last(a) then 1 else 0
  }

  function And(a: seq<bool>, b: seq<bool>): seq<bool>
    requires |a| == |b|
  {
    seq(|a|, i requires 0 <= i < |a| => a[i] && b[i])
  }

  function Or(a: seq<bool>, b: seq<bool>): seq<bool>
    requires |a| == |b|
  {
    seq(|a|, i requires 0 <= i < |a| => a[i] || b[i])
  }

  function Ratio(intersection: nat, union: nat): real {
    if union == 0 then 1.0 else intersection as real / union as real
  }

  function BlockIou(pred: Tensor<bool>, gt: Tensor<bool>): Result<Score>
    requires pred.WellFormed() && gt.WellFormed()
  {
    if pred.shape != gt.shape then Raise("block shapes differ")
    else
      var intersection, union := Count(And(pred.data, gt.data)), Count(Or(pred.data, gt.data));
      Ok(Score(intersection, union, Ratio(intersection, union)))
  }

  lemma FrontOfBoth(a: seq<bool>, b: seq<bool>)
    requires |a| == |b| && a != []
    ensures Front(And(a, b)) == And(Front(a), Front(b)) && Front(Or(a, b)) == Or(Front(a), Front(b))
  {}

  lemma {:induction false} CountsConserve(a: seq<bool>, b: seq<bool>)
    requires |a| == |b|
    ensures Count(a) + Count(b) == Count(And(a, b)) + Count(Or(a, b))
  {
    if a != [] {
      CountsConserve(Front(a), Front(b));
      FrontOfBoth(a, b);
    }
  }

  lemma {:induction false} CountsAgree(a: seq<bool>, b: seq<bool>)
    requires |a| == |b|
    ensures Count(And(a, b)) <= Count(Or(a, b))
    ensures Count(And(a, b)) == Count(Or(a, b)) <==> a == b
  {
    if a != [] {
      CountsAgree(Front(a), Front(b));
      FrontOfBoth(a, b);
      assert a == Front(a) + [Last(a)] && b == Front(b) + [Last(b)];
    }
  }

  lemma RatioBounds(intersection: nat, union: nat)
    requires intersection <= union
    ensures 0.0 <= Ratio(intersection, union) <= 1.0
    ensures Ratio(intersection, union) == 1.0 <==> intersection == union
  {}

  /** A score lies in [0, 1], is 1 exactly on equal masks, and its counts add up. */
  lemma ScoreIsSound(pred: Tensor<bool>, gt: Tensor<bool>)
    requires pred.WellFormed() && gt.WellFormed() && pred.shape == gt.shape
    ensures var s := BlockIou(pred, gt).result;
            Count(pred.data) + Count(gt.data) == s.intersection + s.union && s.intersection <= s.union &&
            0.0 <= s.iou <= 1.0 && (s.iou == 1.0 <==> pred == gt)
  {
    CountsConserve(pred.data, gt.data);
    CountsAgree(pred.data, gt.data);
    RatioBounds(Count(And(pred.data, gt.data)), Count(Or(pred.data, gt.data)));
  }

  function Marked(a: seq<bool>): set<nat> {
    set i: nat | i < |a| && a[i]
  }

  lemma {:induction false} CountIsMarked(a: seq<bool>)
    ensures Count(a) == |Marked(a)|
  {
    if a != [] {
      CountIsMarked(Front(a));
      assert Marked(a) == Marked(Front(a)) + if Last(a) then {|a| - 1} else {};
    }
  }

  /** The intersection counts the blocks set in both masks, the union those set in either. */
  lemma ScoreCountsBlocks(pred: Tensor<bool>, gt: Tensor<bool>)
    requires pred.WellFormed() && gt.WellFormed() && pred.shape == gt.shape
    ensures var s, n := BlockIou(pred, gt).result, |pred.data|;
            && s.intersection == |set i: nat | i < n && pred.data[i] && gt.data[i]|
            && s.union == |set i: nat | i < n && (pred.data[i] || gt.data[i])|
            && (s.union > 0 ==> s.iou == s.intersection as real / s.union as real)
            && (s.union == 0 ==> s.iou == 1.0)
  {
    var n := |pred.data|;
    CountIsMarked(And(pred.data, gt.data));
    CountIsMarked(Or(pred.data, gt.data));
    assert Marked(And(pred.data, gt.data)) == set i: nat | i < n && pred.data[i] && gt.data[i];
    assert Marked(Or(pred.data, gt.data)) == set i: nat | i < n && (pred.data[i] || gt.data[i]);
  }

  // ----- All pairs

  function Intersections(rows: seq<Score>): nat {
    if rows == [] then 0 else Intersections(Front(rows)) + Last(rows).intersection
  }

  function Unions(rows: seq<Score>): nat {
    if rows == [] then 0 else Unions(Front(rows)) + Last(rows).union
  }

  function MicroIou(rows: seq<Score>): real {
    Ratio(Intersections(rows), Unions(rows))
  }

  ghost predicate Scored(rows: seq<Score>) {
    forall i :: 0 <= i < |rows| ==>
      rows[i].intersection <= rows[i].union && rows[i].iou == Ratio(rows[i].intersection, rows[i].union)
  }

  /** bound is at most, or at least, the ratio of every pair with a nonempty union. */
  ghost predicate Below(bound: real, rows: seq<Score>) {
    forall i :: 0 <= i < |rows| && rows[i].union > 0 ==> bound <= rows[i].iou
  }

  ghost predicate Above(bound: real, rows: seq<Score>) {
    forall i :: 0 <= i < |rows| && rows[i].union > 0 ==> rows[i].iou <= bound
  }

  lemma {:induction false} TotalsFollowBounds(rows: seq<Score>, low: real, high: real)
    requires Scored(rows) && Below(low, rows) && Above(high, rows)
    ensures Mul(low, Unions(rows) as real) <= Intersections(rows) as real <= Mul(high, Unions(rows) as real)
  {
    if rows != [] {
      var last := Last(rows);
      TotalsFollowBounds(Front(rows), low, high);
      PairFollowsBounds(last, low, high);
      Distribute(low, Unions(Front(rows)) as real, last.union as real);
      Distribute(high, Unions(Front(rows)) as real, last.union as real);
    }
  }

  lemma PairFollowsBounds(s: Score, low: real, high: real)
    requires s.intersection <= s.union && s.iou == Ratio(s.intersection, s.union)
    requires s.union > 0 ==> low <= s.iou <= high
    ensures Mul(low, s.union as real) <= s.intersection as real <= Mul(high, s.union as real)
  {}

  lemma QuotientBetween(a: real, b: real, low: real, high: real)
    requires b > 0.0 && Mul(low, b) <= a <= Mul(high, b)
    ensures low <= a / b <= high
  {}

  /** The pooled ratio lies between the least and the greatest ratio of the pairs that have a union. */
  lemma MicroIouIsBetween(rows: seq<Score>, low: real, high: real)
    requires Scored(rows) && Below(low, rows) && Above(high, rows) && Unions(rows) > 0
    ensures low <= MicroIou(rows) <= high
  {
    TotalsFollowBounds(rows, low, high);
    QuotientBetween(Intersections(rows) as real, Unions(rows) as real, low, high);
  }

  /** And it is 1 exactly when every pair agrees. */
  lemma {:induction false} MicroIouIsOneExactlyWhen(rows: seq<Score>)
    requires Scored(rows)
    ensures Intersections(rows) <= Unions(rows)
    ensures MicroIou(rows) == 1.0 <==> forall i :: 0 <= i < |rows| ==> rows[i].intersection == rows[i].union
  {
    PooledCounts(rows);
    RatioBounds(Intersections(rows), Unions(rows));
  }

  lemma {:induction false} PooledCounts(rows: seq<Score>)
    requires Scored(rows)
    ensures Intersections(rows) <= Unions(rows)
    ensures Intersections(rows) == Unions(rows) <==>
            forall i :: 0 <= i < |rows| ==> rows[i].intersection == rows[i].union
  {
    if rows != [] {
      PooledCounts(Front(rows));
      assert rows == Front(rows) + [Last(rows)];
    }
  }
}
