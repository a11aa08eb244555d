/**
 Exactly when the spliced subgraph agrees with the segment sum: the two read
 negative ids differently.
 */
module SegmentSumExact {
  import opened Options
  import opened OnnxGraph
  import opened SegmentSumRewrite

  /** The slot a scatter index denotes; negative indices count from the end. */
  function Slots(ids: seq<int>, count: nat): seq<int> {
    seq(|ids|, t requires 0 <= t < |ids| => if ids[t] < 0 then ids[t] + count else ids[t])
  }

  predicate Scatterable(ids: seq<int>, count: nat) {
    forall t :: 0 <= t < |ids| ==> 0 <= ids[t] + count < 2 * count
  }

  lemma {:induction false} ScatterKeepsLength(acc: seq<int>, ids: seq<int>, updates: seq<int>)
    requires |ids| == |updates|
    ensures Scatter(acc, ids, updates).Some? ==> |Scatter(acc, ids, updates).value| == |acc|
  {
    if ids != [] {
      ScatterKeepsLength(acc, ids[..|ids| - 1], updates[..|ids| - 1]);
    }
  }

  lemma {:induction false} ScatterSucceeds(acc: seq<int>, ids: seq<int>, updates: seq<int>)
    requires |ids| == |updates|
    ensures Scatter(acc, ids, updates).Some? <==> Scatterable(ids, |acc|)
  {
    if ids != [] {
      var n := |ids| - 1;
      ScatterSucceeds(acc, ids[..n], updates[..n]);
      ScatterKeepsLength(acc, ids[..n], updates[..n]);
      assert forall t :: 0 <= t < n ==> ids[..n][t] == ids[t];
      assert ids == ids[..n] + [ids[n]];
    }
  }

  lemma {:induction false} ScatterBySlot(acc: seq<int>, ids: seq<int>, updates: seq<int>)
    requires |ids| == |updates| && Scatterable(ids, |acc|)
    ensures Scatter(acc, ids, updates) == Scatter(acc, Slots(ids, |acc|), updates)
  {
    if ids != [] {
      var n := |ids| - 1;
      assert Slots(ids, |acc|)[..n] == Slots(ids[..n], |acc|);
      ScatterBySlot(acc, ids[..n], updates[..n]);
      ScatterKeepsLength(acc, ids[..n], updates[..n]);
    }
  }

  /** A matrix that is 1 at one place and 0 elsewhere. */
  function OneHot(size: nat, at: nat): seq<int> {
    seq(size, t => if t == at then 1 else 0)
  }

  lemma {:induction false} OneHotTotal(size: nat, at: nat, ids: seq<int>, segment: int, n: nat)
    requires at < size == |ids| && n <= size
    ensures FlatTotal(OneHot(size, at), ids, segment, n) == if at < n && ids[at] == segment then 1 else 0
  {
    if n > 0 {
      OneHotTotal(size, at, ids, segment, n - 1);
    }
  }

  ghost predicate AgreeOn(data: Tensor, ids: Tensor, count: Tensor)
    requires |count.data| == 1 && count.data[0] >= 0
  {
    Spliced(data, ids, count.data[0]) == SegmentSumRank2(data, ids, count)
  }

  /** A data matrix of the ids' shape. */
  predicate Fits(data: Tensor, ids: Tensor) {
    data.dtype.Int32? && data.shape == ids.shape && |data.data| == |ids.data|
  }

  predicate MatrixOfIds(ids: Tensor) {
    |ids.shape| == 2 && !ids.dtype.OtherType? && |ids.data| == ids.shape[0] * ids.shape[1]
  }

  /** The scatter adds the one nonzero entry at the slot its negative id wraps to. */
  lemma ScatterAtSlot(data: Tensor, ids: Tensor, n: nat, at: nat)
    requires at < |ids.data| && data.dtype.Int32? && data.data == OneHot(|ids.data|, at)
    requires Scatterable(ids.data, n)
    ensures Spliced(data, ids, n).Some? && |Spliced(data, ids, n).value.data| == n
    ensures 0 <= Slots(ids.data, n)[at] < n && Spliced(data, ids, n).value.data[Slots(ids.data, n)[at]] == 1
  {
    var slots := Slots(ids.data, n);
    SplicedFlat(data, ids, n);
    ScatterSucceeds(Zeros(n), ids.data, data.data);
    ScatterBySlot(Zeros(n), ids.data, data.data);
    ScatterTotals(data.data, slots, n);
    OneHotTotal(|ids.data|, at, slots, slots[at], |ids.data|);
  }

  /** SegmentSum leaves nothing there: the entry belongs to no segment. */
  lemma SegmentSumAtSlot(data: Tensor, ids: Tensor, count: Tensor, at: nat, slot: nat)
    requires at < |ids.data| && data.dtype.Int32? && data.data == OneHot(|ids.data|, at)
    requires SegmentSumRank2(data, ids, count).Some? && slot < count.data[0] && ids.data[at] != slot
    ensures |SegmentSumRank2(data, ids, count).value.data| == count.data[0]
    ensures SegmentSumRank2(data, ids, count).value.data[slot] == 0
  {
    FlatTotalIsSegmentTotal(data.data, ids.data, data.shape[1], slot, data.shape[0]);
    OneHotTotal(|ids.data|, at, ids.data, slot, |ids.data|);
  }

  lemma NegativeIdDisagrees(ids: Tensor, count: Tensor, at: nat) returns (data: Tensor)
    requires MatrixOfIds(ids) && |count.data| == 1 && count.data[0] >= 0
    requires at < |ids.data| && ids.data[at] < 0
    requires forall t :: 0 <= t < |ids.data| ==> ids.data[t] < count.data[0]
    ensures Fits(data, ids) && !AgreeOn(data, ids, count)
  {
    var n: nat := count.data[0];
    data := Tensor(Int32, ids.shape, OneHot(|ids.data|, at));
    assert SegmentSumRank2(data, ids, count).Some?;
    if Scatterable(ids.data, n) {
      ScatterAtSlot(data, ids, n, at);
      SegmentSumAtSlot(data, ids, count, at, Slots(ids.data, n)[at]);
    } else {
      SplicedFlat(data, ids, n);
      ScatterSucceeds(Zeros(n), ids.data, data.data);
    }
  }

  /**
   For a matrix of ids, the spliced subgraph computes the segment sum of every
   data matrix exactly when no id is negative, or some id is so large that both
   reject the input.
   */
  lemma AgreesExactlyWhen(ids: Tensor, count: Tensor)
    requires MatrixOfIds(ids) && |count.data| == 1 && count.data[0] >= 0
    ensures (forall data :: Fits(data, ids) ==> AgreeOn(data, ids, count)) <==>
            || (forall t :: 0 <= t < |ids.data| ==> ids.data[t] >= 0)
            || (exists t :: 0 <= t < |ids.data| && ids.data[t] >= count.data[0])
  {
    var n: nat := count.data[0];
    if exists t :: 0 <= t < |ids.data| && ids.data[t] >= n {
      forall data | Fits(data, ids)
        ensures AgreeOn(data, ids, count)
      {
        SplicedFlat(data, ids, n);
        ScatterSucceeds(Zeros(n), ids.data, data.data);
      }
    } else if at :| 0 <= at < |ids.data| && ids.data[at] < 0 {
      var data := NegativeIdDisagrees(ids, count, at);
    } else {
      forall data | Fits(data, ids)
        ensures AgreeOn(data, ids, count)
      {
        SplicedIsSegmentSum(data, ids, count);
      }
    }
  }
}
