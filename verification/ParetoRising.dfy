/** Exactly when the VMAF of the hull rises strictly, which tail replacement can prevent. */
module ParetoRising {
  import opened Collections
  import opened ParetoSweep
  import opened ParetoCover

  ghost predicate Rising(slots: seq<Slot>) {
    forall i, j :: 0 <= i < j < |slots| ==> slots[i].held.vmaf < slots[j].held.vmaf
  }

  /** The row replaces the tail of the hull, and is no better than the row before the tail. */
  predicate Lowers(slots: seq<Slot>, row: Row, tol: Tolerance) {
    && |slots| >= 2 && !Opens(slots, row, tol) && Replaces(slots, row, tol)
    && row.vmaf <= slots[|slots| - 2].held.vmaf
  }

  /** A row that opens a slot is better than every holder; only a replacement can break the rise. */
  lemma VisitRisesExactlyWhen(slots: seq<Slot>, row: Row, tol: Tolerance)
    requires Valid(tol) && Shape(slots, tol) && Rising(slots)
    ensures Rising(Visit(slots, row, tol)) <==> !Lowers(slots, row, tol)
  {
    var after := Visit(slots, row, tol);
    if Opens(slots, row, tol) {
      forall i | 0 <= i < |slots| ensures slots[i].held.vmaf < row.vmaf {
        assert SlotOk(slots[i], tol);
        assert i < |slots| - 1 ==> InStep(slots[i], Last(slots), tol);
      }
    } else if Replaces(slots, row, tol) && |slots| >= 2 {
      assert after[|slots| - 2].held == slots[|slots| - 2].held && after[|slots| - 1].held == row;
    }
  }

  /** Every prefix of the sweep has a rising hull. */
  ghost predicate AlwaysRising(ordered: seq<Row>, n: nat, tol: Tolerance)
    requires n <= |ordered|
  {
    Rising(SweepOf(ordered[..n], tol)) && (n > 0 ==> AlwaysRising(ordered, n - 1, tol))
  }

  predicate NeverLowers(ordered: seq<Row>, n: nat, tol: Tolerance)
    requires n <= |ordered|
  {
    n == 0 || (NeverLowers(ordered, n - 1, tol) && !Lowers(SweepOf(ordered[..n - 1], tol), ordered[n - 1], tol))
  }

  lemma SweepRises(ordered: seq<Row>, n: nat, tol: Tolerance)
    requires n < |ordered| && Sorted(ordered) && Valid(tol) && Rising(SweepOf(ordered[..n], tol))
    ensures Rising(SweepOf(ordered[..n + 1], tol)) <==> !Lowers(SweepOf(ordered[..n], tol), ordered[n], tol)
  {
    SweepShape(ordered, n, tol);
    SweepSnoc(ordered, n, tol);
    VisitRisesExactlyWhen(SweepOf(ordered[..n], tol), ordered[n], tol);
  }

  lemma {:induction false} SweepRisesExactlyWhen(ordered: seq<Row>, n: nat, tol: Tolerance)
    requires n <= |ordered| && Sorted(ordered) && Valid(tol)
    ensures AlwaysRising(ordered, n, tol) <==> NeverLowers(ordered, n, tol)
  {
    if n == 0 {
      assert ordered[..0] == [];
    } else {
      SweepRisesExactlyWhen(ordered, n - 1, tol);
      if AlwaysRising(ordered, n - 1, tol) {
        SweepRises(ordered, n - 1, tol);
      }
    }
  }

  /** Throughout the sweep the hull rises strictly exactly when no replacement lowers the tail that far. */
  lemma SweepAlwaysRisesExactlyWhen(rows: seq<Row>, tol: Tolerance)
    requires Valid(tol)
    ensures AlwaysRising(Sort(rows), |Sort(rows)|, tol) <==> NeverLowers(Sort(rows), |Sort(rows)|, tol)
  {
    SortSorts(rows);
    SweepRisesExactlyWhen(Sort(rows), |Sort(rows)|, tol);
  }

  // ----- The returned hull: a lowered tail may be lifted again before the next row opens

  /** After n rows the last replacement of the tail, if any, left it no better than the row before it. */
  predicate Low(ordered: seq<Row>, n: nat, tol: Tolerance)
    requires n <= |ordered|
  {
    n > 0 && NextLow(SweepOf(ordered[..n - 1], tol), ordered[n - 1], tol, Low(ordered, n - 1, tol))
  }

  predicate NextLow(slots: seq<Slot>, row: Row, tol: Tolerance, low: bool) {
    if Opens(slots, row, tol) then false
    else if Replaces(slots, row, tol) then Lowers(slots, row, tol)
    else low
  }

  /** No row opens a position while the tail is low. */
  predicate NeverOpensWhileLow(ordered: seq<Row>, n: nat, tol: Tolerance)
    requires n <= |ordered|
  {
    n == 0 ||
    (NeverOpensWhileLow(ordered, n - 1, tol) &&
     !(Opens(SweepOf(ordered[..n - 1], tol), ordered[n - 1], tol) && Low(ordered, n - 1, tol)))
  }

  /** The tail is no better than the row before it. */
  predicate TailIsLow(slots: seq<Slot>) {
    |slots| >= 2 && Last(slots).held.vmaf <= slots[|slots| - 2].held.vmaf
  }

  lemma RisingSplits(slots: seq<Slot>)
    requires slots != []
    ensures Rising(slots) <==> Rising(Front(slots)) && !TailIsLow(slots)
  {
    if Rising(slots) {
      assert forall i :: 0 <= i < |Front(slots)| ==> Front(slots)[i] == slots[i];
    }
    if Rising(Front(slots)) && !TailIsLow(slots) {
      RisingJoins(slots);
    }
  }

  lemma RisingJoins(slots: seq<Slot>)
    requires slots != [] && Rising(Front(slots)) && !TailIsLow(slots)
    ensures Rising(slots)
  {
    forall i, j | 0 <= i < j < |slots| ensures slots[i].held.vmaf < slots[j].held.vmaf {
      assert j < |slots| - 1 ==> Front(slots)[i].held.vmaf < Front(slots)[j].held.vmaf;
      assert i < |slots| - 2 ==> Front(slots)[i].held.vmaf < Front(slots)[|slots| - 2].held.vmaf;
    }
  }

  /** Opening after a shape-respecting sweep always lifts the tail. */
  lemma OpeningIsNotLow(slots: seq<Slot>, row: Row, tol: Tolerance)
    requires Valid(tol) && Shape(slots, tol) && Opens(slots, row, tol)
    ensures !TailIsLow(Visit(slots, row, tol)) && Front(Visit(slots, row, tol)) == slots
  {
    assert slots != [] ==> SlotOk(Last(slots), tol);
  }

  lemma ReplacingIsLowWhen(slots: seq<Slot>, row: Row, tol: Tolerance)
    requires slots != [] && !Opens(slots, row, tol) && Replaces(slots, row, tol)
    ensures TailIsLow(Visit(slots, row, tol)) <==> Lowers(slots, row, tol)
    ensures Front(Visit(slots, row, tol)) == Front(slots)
  {}

  lemma NextLowMeans(slots: seq<Slot>, row: Row, tol: Tolerance)
    requires Valid(tol) && Shape(slots, tol)
    ensures NextLow(slots, row, tol, TailIsLow(slots)) <==> TailIsLow(Visit(slots, row, tol))
  {
    if Opens(slots, row, tol) {
      OpeningIsNotLow(slots, row, tol);
    } else if Replaces(slots, row, tol) {
      ReplacingIsLowWhen(slots, row, tol);
    }
  }

  lemma NextLowAt(ordered: seq<Row>, n: nat, tol: Tolerance)
    requires n < |ordered| && Sorted(ordered) && Valid(tol)
    ensures NextLow(SweepOf(ordered[..n], tol), ordered[n], tol, TailIsLow(SweepOf(ordered[..n], tol))) <==>
            TailIsLow(SweepOf(ordered[..n + 1], tol))
  {
    SweepShape(ordered, n, tol);
    SweepSnoc(ordered, n, tol);
    NextLowMeans(SweepOf(ordered[..n], tol), ordered[n], tol);
  }

  lemma {:induction false} LowMeans(ordered: seq<Row>, n: nat, tol: Tolerance)
    requires n <= |ordered| && Sorted(ordered) && Valid(tol)
    ensures Low(ordered, n, tol) <==> TailIsLow(SweepOf(ordered[..n], tol))
  {
    if n == 0 {
      assert ordered[..0] == [];
    } else {
      LowMeans(ordered, n - 1, tol);
      NextLowAt(ordered, n - 1, tol);
    }
  }

  /** A visit either opens behind the whole hull or leaves all but its tail alone. */
  lemma VisitFront(slots: seq<Slot>, row: Row, tol: Tolerance)
    requires Valid(tol) && Shape(slots, tol)
    ensures Visit(slots, row, tol) != []
    ensures Rising(Front(Visit(slots, row, tol))) <==>
            if slots == [] then true
            else Rising(Front(slots)) && !(Opens(slots, row, tol) && TailIsLow(slots))
  {
    if Opens(slots, row, tol) {
      OpeningIsNotLow(slots, row, tol);
      if slots != [] {
        RisingSplits(slots);
      }
    } else if Replaces(slots, row, tol) {
      ReplacingIsLowWhen(slots, row, tol);
    }
  }

  lemma FrontAt(ordered: seq<Row>, n: nat, tol: Tolerance)
    requires n < |ordered| && Sorted(ordered) && Valid(tol)
    ensures SweepOf(ordered[..n + 1], tol) != []
    ensures var before := SweepOf(ordered[..n], tol);
            Rising(Front(SweepOf(ordered[..n + 1], tol))) <==>
            if before == [] then true
            else Rising(Front(before)) && !(Opens(before, ordered[n], tol) && TailIsLow(before))
  {
    SweepShape(ordered, n, tol);
    SweepSnoc(ordered, n, tol);
    VisitFront(SweepOf(ordered[..n], tol), ordered[n], tol);
  }

  /** What the rows before the tail do was settled when the tail was opened. */
  lemma {:induction false} FrontRisesExactlyWhen(ordered: seq<Row>, n: nat, tol: Tolerance)
    requires 0 < n <= |ordered| && Sorted(ordered) && Valid(tol)
    ensures SweepOf(ordered[..n], tol) != []
    ensures Rising(Front(SweepOf(ordered[..n], tol))) <==> NeverOpensWhileLow(ordered, n, tol)
  {
    FrontAt(ordered, n - 1, tol);
    if n == 1 {
      assert ordered[..0] == [];
    } else {
      FrontRisesExactlyWhen(ordered, n - 1, tol);
      LowMeans(ordered, n - 1, tol);
    }
  }

  /** The returned hull rises strictly exactly when no row opened while the tail was low and it does not end low. */
  lemma FrontierRisesExactlyWhen(rows: seq<Row>, tol: Tolerance)
    requires Valid(tol)
    ensures var ordered := Sort(rows);
            (forall i, j :: 0 <= i < j < |Frontier(rows, tol)| ==>
               Frontier(rows, tol)[i].vmaf < Frontier(rows, tol)[j].vmaf) <==>
            NeverOpensWhileLow(ordered, |ordered|, tol) && !Low(ordered, |ordered|, tol)
  {
    var ordered := Sort(rows);
    var n := |ordered|;
    SortSorts(rows);
    assert ordered[..n] == ordered;
    if n > 0 {
      FrontRisesExactlyWhen(ordered, n, tol);
      LowMeans(ordered, n, tol);
      RisingSplits(SweepOf(ordered, tol));
    }
    RisingIsOfHeld(SweepOf(ordered, tol), Frontier(rows, tol));
  }

  lemma RisingIsOfHeld(slots: seq<Slot>, hull: seq<Row>)
    requires hull == Held(slots)
    ensures Rising(slots) <==> forall i, j :: 0 <= i < j < |hull| ==> hull[i].vmaf < hull[j].vmaf
  {
    assert forall i :: 0 <= i < |hull| ==> hull[i] == slots[i].held;
  }

  // ----- A fall needs two replacements

  lemma VisitHolders(slots: seq<Slot>, row: Row, tol: Tolerance, j: nat)
    requires j < |Visit(slots, row, tol)| && Visit(slots, row, tol)[j].replaced == 0
    ensures var slot := Visit(slots, row, tol)[j];
            slot.held == slot.first || (j < |slots| && slot == slots[j])
  {}

  lemma {:induction false} UnreplacedHolders(ordered: seq<Row>, n: nat, tol: Tolerance, j: nat)
    requires n <= |ordered| && j < |SweepOf(ordered[..n], tol)| && SweepOf(ordered[..n], tol)[j].replaced == 0
    ensures SweepOf(ordered[..n], tol)[j].held == SweepOf(ordered[..n], tol)[j].first
  {
    if n > 0 {
      SweepSnoc(ordered, n - 1, tol);
      var before := SweepOf(ordered[..n - 1], tol);
      VisitHolders(before, ordered[n - 1], tol, j);
      if j < |before| && SweepOf(ordered[..n], tol)[j] == before[j] {
        UnreplacedHolders(ordered, n - 1, tol, j);
      }
    }
  }

  /** Where the hull does not rise, both neighbouring positions changed hands. */
  lemma FallNeedsReplacements(rows: seq<Row>, tol: Tolerance, i: nat)
    requires Valid(tol) && i + 1 < |Frontier(rows, tol)|
    requires Frontier(rows, tol)[i + 1].vmaf <= Frontier(rows, tol)[i].vmaf
    ensures Slots(rows, tol)[i].replaced > 0 && Slots(rows, tol)[i + 1].replaced > 0
  {
    var ordered := Sort(rows);
    var slots := Slots(rows, tol);
    SlotsOk(rows, tol);
    assert SlotOk(slots[i], tol) && SlotOk(slots[i + 1], tol) && InStep(slots[i], slots[i + 1], tol);
    assert ordered[..|ordered|] == ordered;
    if slots[i].replaced == 0 {
      UnreplacedHolders(ordered, |ordered|, tol, i);
    }
    if slots[i + 1].replaced == 0 {
      UnreplacedHolders(ordered, |ordered|, tol, i + 1);
    }
  }
}
