/**
 The per-slice Pareto frontier of the encoder knob sweep: sort by bitrate, sweep
 the running maximum of VMAF, replace the tail on near ties.  The two tolerances
 are parameters, so that the exact case is the instance with zero.
 */
module ParetoSweep {
  import opened Reals
  import opened Collections
  import opened Options

  /** `id` stands for the fields the sweep does not look at. */
  datatype Row = Row(bitrate: real, vmaf: real, time: real, id: int)

  const HULL_VMAF_TOL: real := 0.000_001
  const HULL_BITRATE_TOL: real := 0.000_001

  // ----- Sorting by (bitrate, -vmaf, encode time)

  predicate Leq(a: Row, b: Row) {
    a.bitrate < b.bitrate ||
    (a.bitrate == b.bitrate &&
     (a.vmaf > b.vmaf || (a.vmaf == b.vmaf && a.time <= b.time)))
  }

  predicate Sorted(rows: seq<Row>) {
    forall i, j :: 0 <= i < j < |rows| ==> Leq(rows[i], rows[j])
  }

  /** Puts a row before the first one that does not come strictly earlier. */
  function Insert(row: Row, sorted: seq<Row>): seq<Row> {
    if sorted == [] || Leq(row, sorted[0]) then [row] + sorted
    else [sorted[0]] + Insert(row, sorted[1..])
  }

  /** The stable sort by key. */
  function Sort(rows: seq<Row>): seq<Row> {
    if rows == [] then [] else Insert(rows[0], Sort(rows[1..]))
  }

  lemma {:induction false} InsertKeepsRows(row: Row, sorted: seq<Row>)
    ensures multiset(Insert(row, sorted)) == multiset{row} + multiset(sorted)
  {
    if sorted != [] && !Leq(row, sorted[0]) {
      InsertKeepsRows(row, sorted[1..]);
      assert sorted == [sorted[0]] + sorted[1..];
    }
  }

  lemma {:induction false} InsertSorts(row: Row, sorted: seq<Row>)
    requires Sorted(sorted)
    ensures Sorted(Insert(row, sorted))
  {
    if sorted != [] && !Leq(row, sorted[0]) {
      InsertSorts(row, sorted[1..]);
      InsertKeepsRows(row, sorted[1..]);
      var rest := Insert(row, sorted[1..]);
      forall j | 0 <= j < |rest|
        ensures Leq(sorted[0], rest[j])
      {
        assert rest[j] in multiset(rest);
        assert rest[j] == row || rest[j] in sorted[1..];
      }
    }
  }

  lemma {:induction false} SortSorts(rows: seq<Row>)
    ensures Sorted(Sort(rows)) && multiset(Sort(rows)) == multiset(rows)
  {
    if rows != [] {
      SortSorts(rows[1..]);
      InsertSorts(rows[0], Sort(rows[1..]));
      InsertKeepsRows(rows[0], Sort(rows[1..]));
      assert rows == [rows[0]] + rows[1..];
    }
  }

  lemma {:induction false} SortFixesSorted(rows: seq<Row>)
    requires Sorted(rows)
    ensures Sort(rows) == rows
  {
    if rows != [] {
      SortFixesSorted(rows[1..]);
      assert |rows| > 1 ==> Leq(rows[0], rows[1]);
    }
  }

  // ----- The sweep

  datatype Tolerance = Tolerance(vmaf: real, bitrate: real)

  const CODE_TOLERANCE := Tolerance(HULL_VMAF_TOL, HULL_BITRATE_TOL)

  /** One hull position: who holds it, who opened it, and how often the holder changed. */
  datatype Slot = Slot(held: Row, first: Row, replaced: nat)

  /** The running maximum is the VMAF of the row that opened the last slot. */
  predicate Opens(slots: seq<Slot>, row: Row, tol: Tolerance) {
    slots == [] || row.vmaf > Last(slots).first.vmaf + tol.vmaf
  }

  predicate Replaces(slots: seq<Slot>, row: Row, tol: Tolerance)
    requires slots != []
  {
    var last := Last(slots);
    && Abs(row.vmaf - last.first.vmaf) <= tol.vmaf
    && Abs(last.held.bitrate - row.bitrate) <= tol.bitrate
    && row.time < last.held.time
  }

  function Replace(slots: seq<Slot>, row: Row): seq<Slot>
    requires slots != []
  {
    slots[..|slots| - 1] + [Slot(row, Last(slots).first, Last(slots).replaced + 1)]
  }

  function Visit(slots: seq<Slot>, row: Row, tol: Tolerance): seq<Slot> {
    if Opens(slots, row, tol) then slots + [Slot(row, row, 0)]
    else if Replaces(slots, row, tol) then Replace(slots, row)
    else slots
  }

  function SweepOf(ordered: seq<Row>, tol: Tolerance): seq<Slot> {
    if ordered == [] then []
    else Visit(SweepOf(ordered[..|ordered| - 1], tol), ordered[|ordered| - 1], tol)
  }

  function Held(slots: seq<Slot>): seq<Row> {
    seq(|slots|, j requires 0 <= j < |slots| => slots[j].held)
  }

  function Frontier(rows: seq<Row>, tol: Tolerance): seq<Row> {
    Held(SweepOf(Sort(rows), tol))
  }

  /** k times the bitrate tolerance. */
  function Drift(k: nat, tol: real): real {
    if k == 0 then 0.0 else Drift(k - 1, tol) + tol
  }

  lemma {:induction false} DriftIsProduct(k: nat, tol: real)
    ensures Drift(k, tol) == k as real * tol
  {
    if k > 0 {
      DriftIsProduct(k - 1, tol);
      assert k as real * tol == (k - 1) as real * tol + tol;
    }
  }

  // ----- The invariant of the sweep

  ghost predicate SlotOk(slot: Slot, tol: Tolerance) {
    && -tol.vmaf <= slot.held.vmaf - slot.first.vmaf <= tol.vmaf
    && slot.first.bitrate <= slot.held.bitrate <= slot.first.bitrate + Drift(slot.replaced, tol.bitrate)
    && slot.held.time <= slot.first.time
  }

  ghost predicate InStep(slot: Slot, next: Slot, tol: Tolerance) {
    next.first.vmaf > slot.first.vmaf + tol.vmaf && slot.held.bitrate <= next.first.bitrate
  }

  ghost predicate Shape(slots: seq<Slot>, tol: Tolerance) {
    && (forall j :: 0 <= j < |slots| ==> SlotOk(slots[j], tol))
    && (forall i, j :: 0 <= i < j < |slots| ==> InStep(slots[i], slots[j], tol))
  }

  ghost predicate Valid(tol: Tolerance) {
    tol.vmaf >= 0.0 && tol.bitrate >= 0.0
  }

  /** No holder has a larger bitrate than the row to come. */
  ghost predicate Behind(slots: seq<Slot>, row: Row) {
    forall j :: 0 <= j < |slots| ==> slots[j].held.bitrate <= row.bitrate
  }

  lemma VisitKeepsShape(slots: seq<Slot>, row: Row, tol: Tolerance)
    requires Shape(slots, tol) && Valid(tol) && Behind(slots, row)
    ensures Shape(Visit(slots, row, tol), tol)
  {}

  /** The slot opened at no larger bitrate, and `r` does not clearly exceed its VMAF. */
  ghost predicate Covers(slot: Slot, r: Row, tol: Tolerance) {
    slot.first.bitrate <= r.bitrate && r.vmaf <= slot.first.vmaf + tol.vmaf
  }

  /** A row clearly better than the slot is no cheaper than its holder. */
  ghost predicate Justifies(slot: Slot, r: Row, tol: Tolerance) {
    r.vmaf <= slot.first.vmaf + tol.vmaf || r.bitrate >= slot.held.bitrate
  }

  ghost predicate Seen(r: Row, slots: seq<Slot>, tol: Tolerance) {
    && slots != [] && r.vmaf <= Last(slots).first.vmaf + tol.vmaf
    && (exists j :: 0 <= j < |slots| && Covers(slots[j], r, tol))
    && (forall j :: 0 <= j < |slots| ==> Justifies(slots[j], r, tol))
  }

  lemma VisitKeepsSeen(slots: seq<Slot>, row: Row, tol: Tolerance, r: Row)
    requires Valid(tol) && Seen(r, slots, tol)
    ensures Seen(r, Visit(slots, row, tol), tol)
  {
    var j :| 0 <= j < |slots| && Covers(slots[j], r, tol);
    var slots' := Visit(slots, row, tol);
    assert Covers(slots'[j], r, tol);
    forall k | 0 <= k < |slots'|
      ensures Justifies(slots'[k], r, tol)
    {
      if k < |slots| {
        assert Justifies(slots[k], r, tol);
      }
    }
  }

  lemma VisitSeesRow(slots: seq<Slot>, row: Row, tol: Tolerance)
    requires Valid(tol) && Shape(slots, tol) && Behind(slots, row)
    ensures Seen(row, Visit(slots, row, tol), tol)
  {}

  lemma SweepSnoc(ordered: seq<Row>, i: nat, tol: Tolerance)
    requires i < |ordered|
    ensures SweepOf(ordered[..i + 1], tol) == Visit(SweepOf(ordered[..i], tol), ordered[i], tol)
  {
    assert ordered[..i + 1][..i] == ordered[..i];
  }

  lemma {:induction false} HoldersAreRows(ordered: seq<Row>, n: nat, tol: Tolerance, j: nat) returns (i: nat)
    requires n <= |ordered| && j < |SweepOf(ordered[..n], tol)|
    ensures i < n && SweepOf(ordered[..n], tol)[j].held == ordered[i]
  {
    SweepSnoc(ordered, n - 1, tol);
    if SweepOf(ordered[..n], tol)[j].held == ordered[n - 1] {
      i := n - 1;
    } else {
      i := HoldersAreRows(ordered, n - 1, tol, j);
    }
  }

  lemma HoldersAreBehind(ordered: seq<Row>, n: nat, tol: Tolerance)
    requires n < |ordered| && Sorted(ordered)
    ensures Behind(SweepOf(ordered[..n], tol), ordered[n])
  {
    forall j | 0 <= j < |SweepOf(ordered[..n], tol)|
      ensures SweepOf(ordered[..n], tol)[j].held.bitrate <= ordered[n].bitrate
    {
      var i := HoldersAreRows(ordered, n, tol, j);
      assert Leq(ordered[i], ordered[n]);
    }
  }

  lemma {:induction false} SweepShape(ordered: seq<Row>, n: nat, tol: Tolerance)
    requires n <= |ordered| && Sorted(ordered) && Valid(tol)
    ensures Shape(SweepOf(ordered[..n], tol), tol)
  {
    if n > 0 {
      SweepShape(ordered, n - 1, tol);
      SweepSnoc(ordered, n - 1, tol);
      HoldersAreBehind(ordered, n - 1, tol);
      VisitKeepsShape(SweepOf(ordered[..n - 1], tol), ordered[n - 1], tol);
    }
  }

  lemma {:induction false} SweepSees(ordered: seq<Row>, n: nat, tol: Tolerance, i: nat)
    requires i < n <= |ordered| && Sorted(ordered) && Valid(tol)
    ensures Seen(ordered[i], SweepOf(ordered[..n], tol), tol)
  {
    SweepSnoc(ordered, n - 1, tol);
    if i < n - 1 {
      SweepSees(ordered, n - 1, tol, i);
      VisitKeepsSeen(SweepOf(ordered[..n - 1], tol), ordered[n - 1], tol, ordered[i]);
    } else {
      SweepShape(ordered, n - 1, tol);
      HoldersAreBehind(ordered, n - 1, tol);
      VisitSeesRow(SweepOf(ordered[..n - 1], tol), ordered[n - 1], tol);
    }
  }

  // ----- The code

  method ParetoFrontier(rows: seq<Row>, tol: Tolerance) returns (hull: seq<Row>)
    ensures hull == Frontier(rows, tol)
  {
    hull := [];
    if rows == [] {
      return;
    }
    var ordered := Sort(rows);
    var bestVmaf: Option<real> := None;
    ghost var slots: seq<Slot> := [];
    for i := 0 to |ordered|
      invariant slots == SweepOf(ordered[..i], tol) && hull == Held(slots)
      invariant bestVmaf == if slots == [] then None else Some(Last(slots).first.vmaf)
    {
      var row := ordered[i];
      SweepSnoc(ordered, i, tol);
      HeldOfVisit(slots, row, tol, hull);
      slots := Visit(slots, row, tol);
      if bestVmaf.None? || row.vmaf > bestVmaf.value + tol.vmaf {
        hull := hull + [row];
        bestVmaf := Some(row.vmaf);
        continue;
      }
      if hull != [] && Abs(row.vmaf - bestVmaf.value) <= tol.vmaf {
        var tail := hull[|hull| - 1];
        var sameBitrate := Abs(tail.bitrate - row.bitrate) <= tol.bitrate;
        if sameBitrate && row.time < tail.time {
          hull := hull[|hull| - 1 := row];
        }
      }
    }
    assert ordered[..|ordered|] == ordered;
  }

  lemma HeldOfVisit(slots: seq<Slot>, row: Row, tol: Tolerance, hull: seq<Row>)
    requires hull == Held(slots)
    ensures |hull| == |slots| && (hull != [] ==> hull[|hull| - 1] == Last(slots).held)
    ensures Opens(slots, row, tol) ==> Held(Visit(slots, row, tol)) == hull + [row]
    ensures !Opens(slots, row, tol) && Replaces(slots, row, tol) ==>
              Held(Visit(slots, row, tol)) == hull[|hull| - 1 := row]
    ensures !Opens(slots, row, tol) && !Replaces(slots, row, tol) ==> Held(Visit(slots, row, tol)) == hull
    ensures Visit(slots, row, tol) != []
    ensures Last(Visit(slots, row, tol)).first == if Opens(slots, row, tol) then row else Last(slots).first
  {}
}
