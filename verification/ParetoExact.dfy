/** The frontier with zero tolerances, and its independence of the input order. */
module ParetoExact {
  import opened Collections
  import opened ParetoSweep
  import opened ParetoCover

  const EXACT := Tolerance(0.0, 0.0)

  predicate SamePoint(a: Row, b: Row) {
    a.bitrate == b.bitrate && a.vmaf == b.vmaf
  }

  /** At least as good in both directions and not the same point. */
  predicate Dominates(a: Row, b: Row) {
    a.bitrate <= b.bitrate && a.vmaf >= b.vmaf && !SamePoint(a, b)
  }

  ghost predicate NonDominated(r: Row, rows: seq<Row>) {
    forall other :: other in rows ==> !Dominates(other, r)
  }

  /** What each seen row says about each slot: the holder wins every tie. */
  ghost predicate Beaten(r: Row, slot: Slot) {
    && slot.held == slot.first && slot.replaced == 0
    && (r.bitrate < slot.held.bitrate ==> r.vmaf < slot.held.vmaf)
    && (r.bitrate == slot.held.bitrate ==> r.vmaf <= slot.held.vmaf)
    && (SamePoint(r, slot.held) ==> slot.held.time <= r.time)
  }

  /** The replacement branch is unreachable: a tie at the same bitrate sorts later in time. */
  lemma NeverReplaces(slots: seq<Slot>, row: Row)
    requires slots != [] && Leq(Last(slots).held, row) && Last(slots).held == Last(slots).first
    requires !Opens(slots, row, EXACT)
    ensures !Replaces(slots, row, EXACT)
  {}

  lemma {:induction false} HoldersAreFirst(ordered: seq<Row>, n: nat)
    requires n <= |ordered| && Sorted(ordered)
    ensures forall j :: 0 <= j < |SweepOf(ordered[..n], EXACT)| ==>
                          SweepOf(ordered[..n], EXACT)[j].held == SweepOf(ordered[..n], EXACT)[j].first &&
                          SweepOf(ordered[..n], EXACT)[j].replaced == 0
  {
    if n > 0 {
      HoldersAreFirst(ordered, n - 1);
      SweepSnoc(ordered, n - 1, EXACT);
      var slots := SweepOf(ordered[..n - 1], EXACT);
      if slots != [] && !Opens(slots, ordered[n - 1], EXACT) {
        var i := HoldersAreRows(ordered, n - 1, EXACT, |slots| - 1);
        assert Leq(ordered[i], ordered[n - 1]);
        NeverReplaces(slots, ordered[n - 1]);
      }
    }
  }

  lemma {:induction false} HoldersBeat(ordered: seq<Row>, n: nat, i: nat, j: nat)
    requires i < n <= |ordered| && Sorted(ordered) && j < |SweepOf(ordered[..n], EXACT)|
    ensures Beaten(ordered[i], SweepOf(ordered[..n], EXACT)[j])
  {
    if j >= |SweepOf(ordered[..n - 1], EXACT)| {
      NewHolderBeats(ordered, n, i, j);
    } else {
      HoldersStay(ordered, n, j);
      if i < n - 1 {
        HoldersBeat(ordered, n - 1, i, j);
      } else {
        HolderBeatsNext(ordered, n - 1, j);
      }
    }
  }

  lemma HolderBeatsNext(ordered: seq<Row>, n: nat, j: nat)
    requires n < |ordered| && Sorted(ordered) && j < |SweepOf(ordered[..n], EXACT)|
    ensures Beaten(ordered[n], SweepOf(ordered[..n], EXACT)[j])
  {
    HoldersAreFirst(ordered, n);
    var k := HoldersAreRows(ordered, n, EXACT, j);
    assert Leq(ordered[k], ordered[n]);
  }

  lemma NewHolderBeats(ordered: seq<Row>, n: nat, i: nat, j: nat)
    requires i < n <= |ordered| && Sorted(ordered)
    requires |SweepOf(ordered[..n - 1], EXACT)| <= j < |SweepOf(ordered[..n], EXACT)|
    ensures Beaten(ordered[i], SweepOf(ordered[..n], EXACT)[j])
  {
    SweepSnoc(ordered, n - 1, EXACT);
    if i < n - 1 {
      SweepSees(ordered, n - 1, EXACT, i);
      assert Leq(ordered[i], ordered[n - 1]);
    }
  }

  lemma HoldersStay(ordered: seq<Row>, n: nat, j: nat)
    requires 0 < n <= |ordered| && Sorted(ordered) && j < |SweepOf(ordered[..n - 1], EXACT)|
    ensures j < |SweepOf(ordered[..n], EXACT)|
    ensures SweepOf(ordered[..n], EXACT)[j] == SweepOf(ordered[..n - 1], EXACT)[j]
  {
    SweepSnoc(ordered, n - 1, EXACT);
    HoldersAreFirst(ordered, n - 1);
    var slots := SweepOf(ordered[..n - 1], EXACT);
    if !Opens(slots, ordered[n - 1], EXACT) {
      var i := HoldersAreRows(ordered, n - 1, EXACT, |slots| - 1);
      assert Leq(ordered[i], ordered[n - 1]);
      NeverReplaces(slots, ordered[n - 1]);
    }
  }

  lemma ExactSlots(rows: seq<Row>, r: Row, j: nat)
    requires r in rows && j < |Frontier(rows, EXACT)|
    ensures Beaten(r, Slots(rows, EXACT)[j])
  {
    SortSorts(rows);
    var i := RowOfSort(rows, r);
    assert Sort(rows)[..|Sort(rows)|] == Sort(rows);
    HoldersBeat(Sort(rows), |Sort(rows)|, i, j);
  }

  /** Every hull row is a non-dominated input row with the least encode time at its point. */
  lemma ExactHullIsOptimal(rows: seq<Row>, j: nat)
    requires j < |Frontier(rows, EXACT)|
    ensures var h := Frontier(rows, EXACT)[j];
            && h in rows && NonDominated(h, rows)
            && forall r :: r in rows && SamePoint(r, h) ==> h.time <= r.time
  {
    HoldersAreInput(rows, EXACT, j);
    forall r | r in rows
      ensures !Dominates(r, Frontier(rows, EXACT)[j])
      ensures SamePoint(r, Frontier(rows, EXACT)[j]) ==> Frontier(rows, EXACT)[j].time <= r.time
    {
      ExactSlots(rows, r, j);
    }
  }

  /** And every non-dominated point has exactly one hull row. */
  lemma ExactHullIsComplete(rows: seq<Row>, r: Row) returns (j: nat)
    requires r in rows && NonDominated(r, rows)
    ensures j < |Frontier(rows, EXACT)| && SamePoint(Frontier(rows, EXACT)[j], r)
    ensures forall k :: 0 <= k < |Frontier(rows, EXACT)| && SamePoint(Frontier(rows, EXACT)[k], r) ==> k == j
  {
    j := FrontierCovers(rows, EXACT, r);
    assert !Dominates(Frontier(rows, EXACT)[j], r);
    ExactSlots(rows, r, j);
    ExactHasNoDrift(rows, j);
    forall k | 0 <= k < |Frontier(rows, EXACT)| && SamePoint(Frontier(rows, EXACT)[k], r)
      ensures k == j
    {
      if k < j {
        FrontierOrder(rows, EXACT, k, j);
      } else if j < k {
        FrontierOrder(rows, EXACT, j, k);
      }
    }
  }

  lemma ExactHasNoDrift(rows: seq<Row>, j: nat)
    requires j < |Frontier(rows, EXACT)|
    ensures Slots(rows, EXACT)[j].replaced == 0
  {
    SortSorts(rows);
    HoldersAreFirst(Sort(rows), |Sort(rows)|);
    assert Sort(rows)[..|Sort(rows)|] == Sort(rows);
  }
}
