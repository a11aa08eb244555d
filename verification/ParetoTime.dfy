/**
 Encode time under any tolerances: no input row of the same bitrate is faster than a hull
 row without being worse than it in VMAF.
 */
module ParetoTime {
  import opened Reals
  import opened Collections
  import opened ParetoSweep
  import opened ParetoCover

  /** Row k of the sorted rows opened a slot or took one over. */
  predicate Placed(ordered: seq<Row>, k: nat, tol: Tolerance)
    requires k < |ordered|
  {
    var slots := SweepOf(ordered[..k], tol);
    Opens(slots, ordered[k], tol) || Replaces(slots, ordered[k], tol)
  }

  lemma VisitPlaces(slots: seq<Slot>, row: Row, tol: Tolerance, j: nat)
    requires j < |Visit(slots, row, tol)|
    ensures var slot := Visit(slots, row, tol)[j];
            || (j < |slots| && slot.held == slots[j].held)
            || (slot.held == row && (Opens(slots, row, tol) || Replaces(slots, row, tol)))
  {}

  lemma {:induction false} HoldersWerePlaced(ordered: seq<Row>, n: nat, tol: Tolerance, j: nat) returns (k: nat)
    requires n <= |ordered| && j < |SweepOf(ordered[..n], tol)|
    ensures k < n && SweepOf(ordered[..n], tol)[j].held == ordered[k] && Placed(ordered, k, tol)
  {
    SweepSnoc(ordered, n - 1, tol);
    var before := SweepOf(ordered[..n - 1], tol);
    VisitPlaces(before, ordered[n - 1], tol, j);
    if j < |before| && SweepOf(ordered[..n], tol)[j].held == before[j].held {
      k := HoldersWerePlaced(ordered, n - 1, tol, j);
    } else {
      k := n - 1;
    }
  }

  /**
   After r was seen: nothing of its VMAF or less opens a slot, and nothing of its bitrate and
   of its VMAF or less takes over the last one, unless the holder is at least as fast as r.
   */
  ghost predicate Met(slots: seq<Slot>, r: Row, tol: Tolerance) {
    && slots != []
    && r.vmaf <= Last(slots).first.vmaf + tol.vmaf
    && (|| r.vmaf < Last(slots).first.vmaf - tol.vmaf
        || Abs(Last(slots).held.bitrate - r.bitrate) > tol.bitrate
        || Last(slots).held.time <= r.time)
  }

  lemma VisitMeets(slots: seq<Slot>, r: Row, tol: Tolerance)
    requires tol.vmaf >= 0.0
    ensures Met(Visit(slots, r, tol), r, tol)
  {}

  lemma VisitKeepsMet(slots: seq<Slot>, r: Row, x: Row, tol: Tolerance)
    requires tol.vmaf >= 0.0 && Met(slots, r, tol) && x.bitrate == r.bitrate && x.vmaf <= r.vmaf
    ensures Met(Visit(slots, x, tol), r, tol)
    ensures Opens(slots, x, tol) || Replaces(slots, x, tol) ==> x.time < r.time
  {}

  lemma SortedBetween(ordered: seq<Row>, i: nat, m: nat, k: nat)
    requires Sorted(ordered) && i < m <= k < |ordered|
    requires ordered[i].bitrate == ordered[k].bitrate
    ensures ordered[m].bitrate == ordered[i].bitrate && ordered[m].vmaf <= ordered[i].vmaf
  {
    assert Leq(ordered[i], ordered[m]);
    assert m < k ==> Leq(ordered[m], ordered[k]);
  }

  lemma {:induction false} StaysMet(ordered: seq<Row>, i: nat, m: nat, k: nat, tol: Tolerance)
    requires Sorted(ordered) && i < m <= k < |ordered| && tol.vmaf >= 0.0
    requires ordered[i].bitrate == ordered[k].bitrate
    ensures Met(SweepOf(ordered[..m], tol), ordered[i], tol)
  {
    SweepSnoc(ordered, m - 1, tol);
    if m == i + 1 {
      VisitMeets(SweepOf(ordered[..i], tol), ordered[i], tol);
    } else {
      StaysMet(ordered, i, m - 1, k, tol);
      SortedBetween(ordered, i, m - 1, k);
      VisitKeepsMet(SweepOf(ordered[..m - 1], tol), ordered[i], ordered[m - 1], tol);
    }
  }

  lemma PlacedIsFastest(ordered: seq<Row>, i: nat, k: nat, tol: Tolerance)
    requires Sorted(ordered) && i < |ordered| && k < |ordered| && tol.vmaf >= 0.0
    requires Placed(ordered, k, tol)
    requires ordered[i].bitrate == ordered[k].bitrate && ordered[i].vmaf >= ordered[k].vmaf
    ensures ordered[k].time <= ordered[i].time
  {
    if i < k {
      StaysMet(ordered, i, k, k, tol);
      VisitKeepsMet(SweepOf(ordered[..k], tol), ordered[i], ordered[k], tol);
    } else if k < i {
      assert Leq(ordered[k], ordered[i]);
    }
  }

  /** A hull row is the fastest of the input rows with its bitrate and at least its VMAF. */
  lemma HullIsFastest(rows: seq<Row>, tol: Tolerance, r: Row, h: Row)
    requires Valid(tol) && r in rows && h in Frontier(rows, tol)
    requires r.bitrate == h.bitrate && r.vmaf >= h.vmaf
    ensures h.time <= r.time
  {
    var ordered := Sort(rows);
    SortSorts(rows);
    assert ordered[..|ordered|] == ordered;
    assert r in multiset(ordered);
    var i: nat :| i < |ordered| && ordered[i] == r;
    var j: nat :| j < |Frontier(rows, tol)| && Frontier(rows, tol)[j] == h;
    var k := HoldersWerePlaced(ordered, |ordered|, tol, j);
    PlacedIsFastest(ordered, i, k, tol);
  }

  // ----- Two rows

  /** The tolerances are inclusive, and times are compared strictly: all of the hull of two rows. */
  lemma HullOfTwo(a: Row, b: Row, tol: Tolerance)
    requires Leq(a, b)
    ensures Frontier([a, b], tol) ==
            if b.vmaf > a.vmaf + tol.vmaf then [a, b]
            else if Abs(b.vmaf - a.vmaf) <= tol.vmaf && b.bitrate - a.bitrate <= tol.bitrate && b.time < a.time then [b]
            else [a]
  {
    SortFixesSorted([a, b]);
    SweepOfTwo(a, b, tol);
    var slots := Visit([Slot(a, a, 0)], b, tol);
    assert Held(slots) == if |slots| == 2 then [a, b] else if slots[0].held == b then [b] else [a];
  }

  // ----- The sort is stable

  /** The rows with the key of k, in order. */
  function Alike(rows: seq<Row>, k: Row): seq<Row> {
    if rows == [] then []
    else (if Leq(rows[0], k) && Leq(k, rows[0]) then [rows[0]] else []) + Alike(rows[1..], k)
  }

  lemma {:induction false} InsertIsStable(row: Row, sorted: seq<Row>, k: Row)
    ensures Alike(Insert(row, sorted), k) == Alike([row] + sorted, k)
  {
    if sorted != [] && !Leq(row, sorted[0]) {
      InsertIsStable(row, sorted[1..], k);
      assert Insert(row, sorted)[1..] == Insert(row, sorted[1..]);
      assert ([row] + sorted)[1..] == sorted && ([row] + sorted[1..])[1..] == sorted[1..];
    } else {
      assert Insert(row, sorted) == [row] + sorted;
    }
  }

  /** Rows with equal bitrate, VMAF and time keep their input order. */
  lemma {:induction false} SortIsStable(rows: seq<Row>, k: Row)
    ensures Alike(Sort(rows), k) == Alike(rows, k)
  {
    if rows != [] {
      SortIsStable(rows[1..], k);
      InsertIsStable(rows[0], Sort(rows[1..]), k);
      assert ([rows[0]] + Sort(rows[1..]))[1..] == Sort(rows[1..]);
    }
  }
}
