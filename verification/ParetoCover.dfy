/** What the knob-sweep frontier promises, with tolerances and without. */
module ParetoCover {
  import opened ParetoSweep

  function Slots(rows: seq<Row>, tol: Tolerance): seq<Slot> {
    SweepOf(Sort(rows), tol)
  }

  lemma RowOfSort(rows: seq<Row>, r: Row) returns (i: nat)
    requires r in rows
    ensures i < |Sort(rows)| && Sort(rows)[i] == r
  {
    SortSorts(rows);
    assert r in multiset(rows);
    assert r in Sort(rows);
    i :| i < |Sort(rows)| && Sort(rows)[i] == r;
  }

  lemma SlotsOk(rows: seq<Row>, tol: Tolerance)
    requires Valid(tol)
    ensures Shape(Slots(rows, tol), tol)
  {
    SortSorts(rows);
    SweepShape(Sort(rows), |Sort(rows)|, tol);
    assert Sort(rows)[..|Sort(rows)|] == Sort(rows);
  }

  lemma SlotsSee(rows: seq<Row>, tol: Tolerance, r: Row)
    requires Valid(tol) && r in rows
    ensures Seen(r, Slots(rows, tol), tol)
  {
    SortSorts(rows);
    var i := RowOfSort(rows, r);
    SweepSees(Sort(rows), |Sort(rows)|, tol, i);
    assert Sort(rows)[..|Sort(rows)|] == Sort(rows);
  }

  lemma HoldersAreInput(rows: seq<Row>, tol: Tolerance, j: nat)
    requires j < |Frontier(rows, tol)|
    ensures Frontier(rows, tol)[j] in rows
  {
    SortSorts(rows);
    assert Sort(rows)[..|Sort(rows)|] == Sort(rows);
    var i := HoldersAreRows(Sort(rows), |Sort(rows)|, tol, j);
    assert Sort(rows)[i] in multiset(Sort(rows));
  }

  /** A hull row at most two tolerances worse, and one bitrate tolerance dearer per replacement. */
  ghost predicate CoveredBy(rows: seq<Row>, tol: Tolerance, r: Row, j: nat) {
    && j < |Frontier(rows, tol)| && Frontier(rows, tol)[j] in rows
    && Frontier(rows, tol)[j].vmaf >= r.vmaf - 2.0 * tol.vmaf
    && Frontier(rows, tol)[j].bitrate <= r.bitrate + Drift(Slots(rows, tol)[j].replaced, tol.bitrate)
  }

  /** Every input row has such a hull row. */
  lemma FrontierCovers(rows: seq<Row>, tol: Tolerance, r: Row) returns (j: nat)
    requires Valid(tol) && r in rows
    ensures CoveredBy(rows, tol, r, j)
  {
    SlotsOk(rows, tol);
    SlotsSee(rows, tol, r);
    var slots := Slots(rows, tol);
    j :| 0 <= j < |slots| && Covers(slots[j], r, tol);
    assert SlotOk(slots[j], tol);
    HoldersAreInput(rows, tol, j);
  }

  /** An input row clearly better than a hull row is not cheaper. */
  lemma BetterIsNotCheaper(rows: seq<Row>, tol: Tolerance, r: Row, j: nat)
    requires Valid(tol) && r in rows && j < |Frontier(rows, tol)|
    ensures r.vmaf > Frontier(rows, tol)[j].vmaf + 2.0 * tol.vmaf ==> r.bitrate >= Frontier(rows, tol)[j].bitrate
  {
    SlotsOk(rows, tol);
    SlotsSee(rows, tol, r);
    var slots := Slots(rows, tol);
    assert Justifies(slots[j], r, tol) && SlotOk(slots[j], tol);
  }

  /**
   Bitrates never fall along the hull; VMAF falls by less than one tolerance,
   and rises whenever two or more steps are taken.
   */
  lemma FrontierOrder(rows: seq<Row>, tol: Tolerance, i: nat, j: nat)
    requires Valid(tol) && i < j < |Frontier(rows, tol)|
    ensures Frontier(rows, tol)[i].bitrate <= Frontier(rows, tol)[j].bitrate
    ensures Frontier(rows, tol)[j].vmaf > Frontier(rows, tol)[i].vmaf - tol.vmaf
    ensures i + 2 <= j ==> Frontier(rows, tol)[j].vmaf > Frontier(rows, tol)[i].vmaf
  {
    SlotsOk(rows, tol);
    var slots := Slots(rows, tol);
    assert SlotOk(slots[i], tol) && SlotOk(slots[j], tol) && InStep(slots[i], slots[j], tol);
    if i + 2 <= j {
      assert InStep(slots[i], slots[i + 1], tol) && InStep(slots[i + 1], slots[j], tol);
    }
  }

  lemma SweepOfTwo(a: Row, b: Row, tol: Tolerance)
    ensures SweepOf([a, b], tol) == Visit([Slot(a, a, 0)], b, tol)
  {
    assert [a, b][..1] == [a] && [a][..0] == [];
    assert SweepOf([a], tol) == [Slot(a, a, 0)];
  }

  lemma SweepOfFour(a: Row, b: Row, c: Row, d: Row, tol: Tolerance)
    ensures SweepOf([a, b, c, d], tol) == Visit(Visit(SweepOf([a, b], tol), c, tol), d, tol)
  {
    assert [a, b, c, d][..3] == [a, b, c] && [a, b, c][..2] == [a, b];
  }

  const ROW_A := Row(1.0, 50.0, 4.0, 0)
  const ROW_B := Row(1.000_000_5, 50.000_001, 3.0, 1)
  const ROW_C := Row(1.000_000_6, 50.000_001_1, 2.0, 2)
  const ROW_D := Row(1.000_000_7, 50.000_000_5, 1.0, 3)

  lemma FirstPair()
    ensures SweepOf([ROW_A, ROW_B], CODE_TOLERANCE) == [Slot(ROW_B, ROW_A, 1)]
  {
    SweepOfTwo(ROW_A, ROW_B, CODE_TOLERANCE);
    assert Replaces([Slot(ROW_A, ROW_A, 0)], ROW_B, CODE_TOLERANCE);
  }

  lemma SecondPair()
    ensures Visit([Slot(ROW_B, ROW_A, 1)], ROW_C, CODE_TOLERANCE) == [Slot(ROW_B, ROW_A, 1), Slot(ROW_C, ROW_C, 0)]
    ensures Visit([Slot(ROW_B, ROW_A, 1), Slot(ROW_C, ROW_C, 0)], ROW_D, CODE_TOLERANCE) ==
            [Slot(ROW_B, ROW_A, 1), Slot(ROW_D, ROW_C, 1)]
  {}

  /** With the code's tolerances VMAF can fall from one hull row to the next. */
  lemma HullCanDecrease()
    ensures Frontier([ROW_A, ROW_B, ROW_C, ROW_D], CODE_TOLERANCE) == [ROW_B, ROW_D]
    ensures ROW_D.vmaf < ROW_B.vmaf
  {
    SortFixesSorted([ROW_A, ROW_B, ROW_C, ROW_D]);
    SweepOfFour(ROW_A, ROW_B, ROW_C, ROW_D, CODE_TOLERANCE);
    FirstPair();
    SecondPair();
    assert Held([Slot(ROW_B, ROW_A, 1), Slot(ROW_D, ROW_C, 1)]) == [ROW_B, ROW_D];
  }
}
