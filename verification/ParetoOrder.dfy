/** The key triples of the frontier do not depend on the order of the input. */
module ParetoOrder {
  import opened ParetoSweep

  /** A row reduced to the three fields the sweep looks at. */
  function Key(row: Row): Row {
    row.(id := 0)
  }

  function Keys(rows: seq<Row>): seq<Row> {
    seq(|rows|, i requires 0 <= i < |rows| => Key(rows[i]))
  }

  lemma KeysCons(row: Row, rows: seq<Row>)
    ensures Keys([row] + rows) == [Key(row)] + Keys(rows)
  {}

  lemma {:induction false} InsertKeys(row: Row, sorted: seq<Row>)
    ensures Keys(Insert(row, sorted)) == Insert(Key(row), Keys(sorted))
  {
    if sorted == [] || Leq(row, sorted[0]) {
      KeysCons(row, sorted);
    } else {
      InsertKeys(row, sorted[1..]);
      KeysCons(sorted[0], Insert(row, sorted[1..]));
      assert Keys(sorted)[1..] == Keys(sorted[1..]);
    }
  }

  lemma {:induction false} SortKeys(rows: seq<Row>)
    ensures Keys(Sort(rows)) == Sort(Keys(rows))
  {
    if rows != [] {
      SortKeys(rows[1..]);
      InsertKeys(rows[0], Sort(rows[1..]));
      assert Keys(rows)[1..] == Keys(rows[1..]);
    }
  }

  function SlotKeys(slots: seq<Slot>): seq<Slot> {
    seq(|slots|, j requires 0 <= j < |slots| => Slot(Key(slots[j].held), Key(slots[j].first), slots[j].replaced))
  }

  lemma VisitKeys(slots: seq<Slot>, row: Row, tol: Tolerance)
    ensures SlotKeys(Visit(slots, row, tol)) == Visit(SlotKeys(slots), Key(row), tol)
  {}

  lemma {:induction false} SweepKeys(ordered: seq<Row>, tol: Tolerance)
    ensures SlotKeys(SweepOf(ordered, tol)) == SweepOf(Keys(ordered), tol)
  {
    if ordered != [] {
      var n := |ordered| - 1;
      SweepKeys(ordered[..n], tol);
      VisitKeys(SweepOf(ordered[..n], tol), ordered[n], tol);
      assert Keys(ordered)[..n] == Keys(ordered[..n]);
    }
  }

  lemma FrontierKeys(rows: seq<Row>, tol: Tolerance)
    ensures Keys(Frontier(rows, tol)) == Frontier(Keys(rows), tol)
  {
    SortKeys(rows);
    SweepKeys(Sort(rows), tol);
    assert Keys(Held(SweepOf(Sort(rows), tol))) == Held(SlotKeys(SweepOf(Sort(rows), tol)));
  }

  // ----- Sorting keys is canonical

  lemma LeqIsAntisymmetricOnKeys(a: Row, b: Row)
    requires Leq(a, b) && Leq(b, a)
    ensures Key(a) == Key(b)
  {}

  lemma {:induction false} SortedIsUnique(a: seq<Row>, b: seq<Row>)
    requires Sorted(a) && Sorted(b) && multiset(a) == multiset(b)
    requires (forall r :: r in a ==> r.id == 0) && (forall r :: r in b ==> r.id == 0)
    ensures a == b
  {
    if a == [] {
      assert |multiset(b)| == 0;
    } else {
      assert |multiset(b)| == |multiset(a)|;
      assert a[0] in multiset(b) && b[0] in multiset(a);
      HeadIsLeast(a, b[0]);
      HeadIsLeast(b, a[0]);
      LeqIsAntisymmetricOnKeys(a[0], b[0]);
      assert a == [a[0]] + a[1..] && b == [b[0]] + b[1..];
      assert multiset(a[1..]) == multiset(a) - multiset{a[0]};
      SortedIsUnique(a[1..], b[1..]);
    }
  }

  lemma HeadIsLeast(a: seq<Row>, r: Row)
    requires Sorted(a) && r in a
    ensures Leq(a[0], r)
  {}

  function RemoveAt(rows: seq<Row>, i: nat): seq<Row>
    requires i < |rows|
  {
    rows[..i] + rows[i + 1..]
  }

  lemma RemoveAtKeepsOthers(rows: seq<Row>, i: nat)
    requires i < |rows|
    ensures multiset(rows) == multiset(RemoveAt(rows, i)) + multiset{rows[i]}
  {
    assert rows == rows[..i] + [rows[i]] + rows[i + 1..];
  }

  lemma KeysOfRemoveAt(rows: seq<Row>, i: nat)
    requires i < |rows|
    ensures Keys(RemoveAt(rows, i)) == RemoveAt(Keys(rows), i)
  {}

  lemma {:induction false} KeysOfPermutation(a: seq<Row>, b: seq<Row>)
    requires multiset(a) == multiset(b)
    ensures multiset(Keys(a)) == multiset(Keys(b))
  {
    if a == [] {
      assert |multiset(b)| == 0;
    } else {
      assert a[0] in multiset(b);
      var i :| 0 <= i < |b| && b[i] == a[0];
      RemoveAtKeepsOthers(a, 0);
      RemoveAtKeepsOthers(b, i);
      assert multiset(RemoveAt(a, 0)) == multiset(a) - multiset{a[0]};
      assert multiset(RemoveAt(b, i)) == multiset(b) - multiset{b[i]};
      KeysOfPermutation(RemoveAt(a, 0), RemoveAt(b, i));
      KeysOfRemoveAt(a, 0);
      KeysOfRemoveAt(b, i);
      RemoveAtKeepsOthers(Keys(a), 0);
      RemoveAtKeepsOthers(Keys(b), i);
    }
  }

  /** Permuting the input rows permutes nothing in the frontier's key triples. */
  lemma FrontierIsOrderFree(rows: seq<Row>, permuted: seq<Row>, tol: Tolerance)
    requires multiset(rows) == multiset(permuted)
    ensures Keys(Frontier(rows, tol)) == Keys(Frontier(permuted, tol))
  {
    KeysOfPermutation(rows, permuted);
    SortSorts(Keys(rows));
    SortSorts(Keys(permuted));
    KeysHaveNoId(rows);
    KeysHaveNoId(permuted);
    SortedIsUnique(Sort(Keys(rows)), Sort(Keys(permuted)));
    FrontierKeys(rows, tol);
    FrontierKeys(permuted, tol);
  }

  lemma KeysHaveNoId(rows: seq<Row>)
    ensures forall r :: r in Sort(Keys(rows)) ==> r.id == 0
  {
    SortSorts(Keys(rows));
    forall r | r in Sort(Keys(rows))
      ensures r.id == 0
    {
      assert r in multiset(Keys(rows));
    }
  }
}
