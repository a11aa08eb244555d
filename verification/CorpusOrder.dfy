/**
 Exactly when the order of the inputs can change how tight the kept row of a key is.
 A repeat is skipped only while its own corpus is kept, so to lose every tightest row
 an order has to keep, in turn, a row of each of their corpora: a chain of ever tighter
 rows from alternating corpora.
 */
module CorpusOrder {
  import opened Collections
  import opened Options
  import opened CorpusRows
  import opened CorpusDedup

  ghost predicate Occurs(rows: seq<Row>, key: string) {
    exists r :: r in rows && Key(r) == key
  }

  /** No row of the key is tighter. */
  ghost predicate Tightest(rows: seq<Row>, key: string, r: Row) {
    r in rows && Key(r) == key &&
    forall other :: other in rows && Key(other) == key ==> UncertaintyOf(r).AtMost(UncertaintyOf(other))
  }

  ghost predicate SameRows(rows: seq<Row>, rows': seq<Row>) {
    forall r :: r in rows <==> r in rows'
  }

  ghost predicate KeepsTightest(rows: seq<Row>, key: string) {
    key in Kept(rows, |rows|) && Tightest(rows, key, Kept(rows, |rows|)[key])
  }

  /** Ever tighter rows of the key from alternating corpora, none of them a tightest one. */
  ghost predicate Chain(rows: seq<Row>, key: string, chain: seq<Row>) {
    chain == [] ||
    (&& Chain(rows, key, Front(chain))
     && Last(chain) in rows && Key(Last(chain)) == key && !Tightest(rows, key, Last(chain))
     && (|chain| > 1 ==>
           Tighter(Last(chain), Last(Front(chain))) && Last(chain).source != Last(Front(chain)).source))
  }

  predicate Visits(chain: seq<Row>, source: string) {
    exists c :: c in chain && c.source == source
  }

  /** A chain through the corpus of every tightest row. */
  ghost predicate Evades(rows: seq<Row>, key: string, chain: seq<Row>) {
    Chain(rows, key, chain) && forall r :: Tightest(rows, key, r) ==> Visits(chain, r.source)
  }

  lemma TightestOfSame(rows: seq<Row>, rows': seq<Row>, key: string, r: Row)
    requires SameRows(rows, rows')
    ensures Tightest(rows, key, r) <==> Tightest(rows', key, r)
  {}

  // ----- An order that keeps no tightest row leaves a chain behind

  /** The rows held so far, with every tightest row skipped on the way in a corpus they visit. */
  ghost predicate Held(rows: seq<Row>, n: nat, key: string, chain: seq<Row>)
    requires n <= |rows|
  {
    && Chain(rows, key, chain)
    && (chain == [] <==> key !in Kept(rows, n))
    && (key in Kept(rows, n) ==> Kept(rows, n)[key] == Last(chain))
    && (forall i: nat :: i < n && Tightest(rows, key, rows[i]) ==> Visits(chain, rows[i].source))
  }

  /** What one insertion does to the kept row of a key. */
  lemma InsertMeans(keyed: Keyed, row: Row, key: string)
    ensures Key(row) != key ==> (key in Insert(keyed, row) <==> key in keyed)
    ensures Key(row) != key && key in keyed ==> Insert(keyed, row)[key] == keyed[key]
    ensures Key(row) == key ==> key in Insert(keyed, row)
    ensures Key(row) == key && key !in keyed ==> Insert(keyed, row)[key] == row
    ensures Key(row) == key && key in keyed ==>
              Insert(keyed, row)[key] ==
              if keyed[key].source != row.source && Tighter(row, keyed[key]) then row else keyed[key]
  {}

  lemma ChainExtends(rows: seq<Row>, key: string, chain: seq<Row>, r: Row)
    requires Chain(rows, key, chain) && r in rows && Key(r) == key && !Tightest(rows, key, r)
    requires chain != [] ==> Tighter(r, Last(chain)) && r.source != Last(chain).source
    ensures Chain(rows, key, chain + [r])
    ensures forall source :: Visits(chain + [r], source) <==> Visits(chain, source) || source == r.source
  {
    assert Front(chain + [r]) == chain && Last(chain + [r]) == r;
    forall source ensures Visits(chain + [r], source) <==> Visits(chain, source) || source == r.source {
      if Visits(chain, source) {
        var c: Row :| c in chain && c.source == source;
        assert c in chain + [r];
      } else if source == r.source {
        assert r in chain + [r];
      }
    }
  }

  lemma AtMostTightest(rows: seq<Row>, key: string, t: Row, r: Row)
    requires Tightest(rows, key, t) && r in rows && Key(r) == key
    ensures Tightest(rows, key, r) <==> UncertaintyOf(r).AtMost(UncertaintyOf(t))
  {
    if UncertaintyOf(r).AtMost(UncertaintyOf(t)) {
      forall other | other in rows && Key(other) == key ensures UncertaintyOf(r).AtMost(UncertaintyOf(other)) {
        assert UncertaintyOf(t).AtMost(UncertaintyOf(other));
      }
    }
  }

  lemma ChainEnd(rows: seq<Row>, key: string, chain: seq<Row>)
    requires Chain(rows, key, chain) && chain != []
    ensures Last(chain) in rows && Key(Last(chain)) == key && !Tightest(rows, key, Last(chain))
    ensures Visits(chain, Last(chain).source)
  {}

  lemma NextHeld(rows: seq<Row>, n: nat, key: string, chain: seq<Row>) returns (chain': seq<Row>)
    requires n < |rows| && Held(rows, n, key, chain)
    requires key in Kept(rows, n + 1) ==> !Tightest(rows, key, Kept(rows, n + 1)[key])
    ensures Held(rows, n + 1, key, chain')
  {
    var row, keyed := rows[n], Kept(rows, n);
    InsertMeans(keyed, row, key);
    assert Kept(rows, n + 1) == Insert(keyed, row);
    if Key(row) == key && (key !in keyed || (keyed[key].source != row.source && Tighter(row, keyed[key]))) {
      ChainExtends(rows, key, chain, row);
      chain' := chain + [row];
    } else {
      chain' := chain;
      if Key(row) == key {
        ChainEnd(rows, key, chain);
        if Tightest(rows, key, row) {
          AtMostTightest(rows, key, row, Last(chain));
        }
      }
    }
  }

  /** Once a tightest row is kept, one stays kept. */
  lemma {:induction false} TightestStays(rows: seq<Row>, n: nat, m: nat, key: string)
    requires n <= m <= |rows| && key in Kept(rows, n) && Tightest(rows, key, Kept(rows, n)[key])
    ensures key in Kept(rows, m) && Tightest(rows, key, Kept(rows, m)[key])
  {
    if n < m {
      TightestStays(rows, n, m - 1, key);
      InsertMeans(Kept(rows, m - 1), rows[m - 1], key);
      assert rows[m - 1] in rows;
    }
  }

  lemma {:induction false} HeldRowsForm(rows: seq<Row>, n: nat, key: string) returns (chain: seq<Row>)
    requires n <= |rows| && !KeepsTightest(rows, key)
    ensures Held(rows, n, key, chain)
  {
    if n == 0 {
      chain := [];
    } else {
      chain := HeldRowsForm(rows, n - 1, key);
      if key in Kept(rows, n) && Tightest(rows, key, Kept(rows, n)[key]) {
        TightestStays(rows, n, |rows|, key);
      } else {
        chain := NextHeld(rows, n - 1, key, chain);
      }
    }
  }

  lemma LosingOrderEvades(rows: seq<Row>, rows': seq<Row>, key: string) returns (chain: seq<Row>)
    requires SameRows(rows, rows') && !KeepsTightest(rows', key)
    ensures Evades(rows, key, chain)
  {
    chain := HeldRowsForm(rows', |rows'|, key);
    ChainOfSame(rows, rows', key, chain);
    forall r | Tightest(rows, key, r) ensures Visits(chain, r.source) {
      TightestOfSame(rows, rows', key, r);
      var i: nat :| i < |rows'| && rows'[i] == r;
    }
  }

  lemma {:induction false} ChainOfSame(rows: seq<Row>, rows': seq<Row>, key: string, chain: seq<Row>)
    requires SameRows(rows, rows') && Chain(rows', key, chain)
    ensures Chain(rows, key, chain)
  {
    if chain != [] {
      ChainOfSame(rows, rows', key, Front(chain));
      TightestOfSame(rows, rows', key, Last(chain));
    }
  }

  // ----- A chain through the corpora of all tightest rows gives an order that keeps none of them

  lemma {:induction false} KeptPrefix(a: seq<Row>, b: seq<Row>, n: nat)
    requires n <= |a|
    ensures Kept(a + b, n) == Kept(a, n)
  {
    if n > 0 {
      KeptPrefix(a, b, n - 1);
    }
  }

  lemma KeptAppend(a: seq<Row>, r: Row)
    ensures Kept(a + [r], |a| + 1) == Insert(Kept(a, |a|), r)
  {
    KeptPrefix(a, [r], |a|);
  }

  /** Rows of the corpus that is kept are skipped. */
  lemma {:induction false} RepeatsAreSkipped(order: seq<Row>, more: seq<Row>, key: string, kept: Row)
    requires key in Kept(order, |order|) && Kept(order, |order|)[key] == kept
    requires forall r :: r in more ==> Key(r) == key && r.source == kept.source
    ensures key in Kept(order + more, |order + more|) && Kept(order + more, |order + more|)[key] == kept
  {
    if more == [] {
      assert order + more == order;
    } else {
      RepeatsAreSkipped(order, Front(more), key, kept);
      assert order + more == order + Front(more) + [Last(more)];
      KeptAppend(order + Front(more), Last(more));
    }
  }

  /** Rows that are not tightest never make a tightest one kept. */
  lemma {:induction false} OthersKeepNoTightest(rows: seq<Row>, order: seq<Row>, more: seq<Row>, key: string)
    requires key in Kept(order, |order|) && !Tightest(rows, key, Kept(order, |order|)[key])
    requires forall r :: r in more ==> !Tightest(rows, key, r)
    ensures key in Kept(order + more, |order + more|)
    ensures !Tightest(rows, key, Kept(order + more, |order + more|)[key])
  {
    if more == [] {
      assert order + more == order;
    } else {
      OthersKeepNoTightest(rows, order, Front(more), key);
      assert order + more == order + Front(more) + [Last(more)];
      KeptAppend(order + Front(more), Last(more));
      InsertMeans(Kept(order + Front(more), |order + Front(more)|), Last(more), key);
    }
  }

  /** Each row of a chain is tighter than all before it, hence none of them. */
  lemma {:induction false} ChainDescends(rows: seq<Row>, key: string, chain: seq<Row>, c: Row)
    requires Chain(rows, key, chain) && chain != [] && c in Front(chain)
    ensures Tighter(Last(chain), c)
  {
    if c != Last(Front(chain)) {
      ChainDescends(rows, key, Front(chain), c);
    }
  }

  /** The tightest rows of one corpus, and the others. */
  lemma {:induction false} SplitTightest(rows: seq<Row>, key: string, source: string, rest: seq<Row>)
    returns (out: seq<Row>, others: seq<Row>)
    ensures multiset(out) + multiset(others) == multiset(rest)
    ensures forall r :: r in out ==> Tightest(rows, key, r) && r.source == source
    ensures forall r :: r in others ==> !(Tightest(rows, key, r) && r.source == source)
  {
    out, others := [], [];
    if rest != [] {
      out, others := SplitTightest(rows, key, source, Front(rest));
      assert rest == Front(rest) + [Last(rest)];
      if Tightest(rows, key, Last(rest)) && Last(rest).source == source {
        out := out + [Last(rest)];
      } else {
        others := others + [Last(rest)];
      }
    }
  }

  lemma TakeOne(rest: seq<Row>, r: Row) returns (others: seq<Row>)
    requires r in rest
    ensures multiset(rest) == multiset(others) + multiset{r}
  {
    var i: nat :| i < |rest| && rest[i] == r;
    others := rest[..i] + rest[i + 1..];
    assert rest == rest[..i] + [rest[i]] + rest[i + 1..];
  }

  /** The rows split in two: after the first the end of the chain is kept, and its corpora have no tightest row left. */
  ghost predicate Stalls(rows: seq<Row>, key: string, chain: seq<Row>, order: seq<Row>, rest: seq<Row>) {
    && multiset(order) + multiset(rest) == multiset(rows)
    && (chain == [] ==> order == [])
    && (chain != [] ==> key in Kept(order, |order|) && Kept(order, |order|)[key] == Last(chain))
    && (forall r :: r in order ==> r in chain || Tightest(rows, key, r))
    && (forall r :: r in rest && Tightest(rows, key, r) ==> !Visits(chain, r.source))
  }

  lemma {:induction false} ChainStalls(rows: seq<Row>, key: string, chain: seq<Row>)
    returns (order: seq<Row>, rest: seq<Row>)
    requires Chain(rows, key, chain)
    ensures Stalls(rows, key, chain, order, rest)
  {
    if chain == [] {
      order, rest := [], rows;
    } else {
      order, rest := ChainStalls(rows, key, Front(chain));
      order, rest := NextStall(rows, key, chain, order, rest);
    }
  }

  lemma NextIsLeft(rows: seq<Row>, key: string, chain: seq<Row>, order: seq<Row>, rest: seq<Row>)
    requires Chain(rows, key, chain) && chain != [] && Stalls(rows, key, Front(chain), order, rest)
    ensures Last(chain) in rest
  {
    var c := Last(chain);
    assert c in multiset(order) + multiset(rest);
    if c in order {
      ChainDescends(rows, key, chain, c);
    }
  }

  lemma NextIsKept(rows: seq<Row>, key: string, chain: seq<Row>, order: seq<Row>, rest: seq<Row>)
    requires Chain(rows, key, chain) && chain != [] && Stalls(rows, key, Front(chain), order, rest)
    ensures var order' := order + [Last(chain)];
            key in Kept(order', |order'|) && Kept(order', |order'|)[key] == Last(chain)
  {
    KeptAppend(order, Last(chain));
  }

  lemma NextStall(rows: seq<Row>, key: string, chain: seq<Row>, order: seq<Row>, rest: seq<Row>)
    returns (order': seq<Row>, rest': seq<Row>)
    requires Chain(rows, key, chain) && chain != [] && Stalls(rows, key, Front(chain), order, rest)
    ensures Stalls(rows, key, chain, order', rest')
  {
    var c := Last(chain);
    NextIsLeft(rows, key, chain, order, rest);
    NextIsKept(rows, key, chain, order, rest);
    var others := TakeOne(rest, c);
    var out;
    out, rest' := SplitTightest(rows, key, c.source, others);
    order' := order + [c] + out;
    RepeatsAreSkipped(order + [c], out, key, c);
    assert multiset(order') == multiset(order) + multiset{c} + multiset(out);
    OnlyUnvisitedLeft(rows, key, chain, order, rest, rest');
  }

  lemma OnlyUnvisitedLeft(
      rows: seq<Row>, key: string, chain: seq<Row>, order: seq<Row>, rest: seq<Row>, rest': seq<Row>)
    requires chain != [] && Stalls(rows, key, Front(chain), order, rest) && multiset(rest') <= multiset(rest)
    requires forall r :: r in rest' ==> !(Tightest(rows, key, r) && r.source == Last(chain).source)
    ensures forall r :: r in rest' && Tightest(rows, key, r) ==> !Visits(chain, r.source)
  {
    assert chain == Front(chain) + [Last(chain)];
    forall r | r in rest' && Tightest(rows, key, r) ensures !Visits(chain, r.source) {
      assert r in multiset(rest);
    }
  }

  lemma EvadingOrderLoses(rows: seq<Row>, key: string, chain: seq<Row>) returns (rows': seq<Row>)
    requires Occurs(rows, key) && Evades(rows, key, chain)
    ensures multiset(rows') == multiset(rows) && !KeepsTightest(rows', key)
  {
    var t := SomeTightest(rows, key);
    var order, rest := ChainStalls(rows, key, chain);
    rows' := order + rest;
    assert forall r :: r in rest ==> r in multiset(rows);
    OthersKeepNoTightest(rows, order, rest, key);
    PermutedIsSame(rows, rows');
    TightestOfSame(rows, rows', key, Kept(rows', |rows'|)[key]);
  }

  // ----- The exact conditions

  lemma {:induction false} SomeTightest(rows: seq<Row>, key: string) returns (t: Row)
    requires Occurs(rows, key)
    ensures Tightest(rows, key, t)
  {
    var last, before := Last(rows), Front(rows);
    assert rows == before + [last];
    if Occurs(before, key) {
      t := SomeTightest(before, key);
      if Key(last) == key && Tighter(last, t) {
        t := last;
      }
    } else {
      t := last;
    }
  }

  lemma PermutedIsSame(rows: seq<Row>, rows': seq<Row>)
    requires multiset(rows') == multiset(rows)
    ensures SameRows(rows, rows')
  {
    forall r ensures r in rows <==> r in rows' {
      assert r in multiset(rows) <==> r in multiset(rows');
    }
  }

  ghost predicate CanBeEvaded(rows: seq<Row>, key: string) {
    exists chain :: Evades(rows, key, chain)
  }

  /**
   Whatever the order of the rows, a tightest one is kept, exactly when no chain evades them;
   repeating rows makes no difference.
   */
  lemma AlwaysTightestExactlyWhen(rows: seq<Row>, key: string)
    requires Occurs(rows, key)
    ensures (forall rows' :: SameRows(rows, rows') ==> KeepsTightest(rows', key)) <==> !CanBeEvaded(rows, key)
    ensures (forall rows' :: multiset(rows') == multiset(rows) ==> KeepsTightest(rows', key))
       <==> !CanBeEvaded(rows, key)
  {
    if CanBeEvaded(rows, key) {
      var chain :| Evades(rows, key, chain);
      var rows' := EvadingOrderLoses(rows, key, chain);
      PermutedIsSame(rows, rows');
    } else {
      forall rows' | SameRows(rows, rows') ensures KeepsTightest(rows', key) {
        if !KeepsTightest(rows', key) {
          var chain := LosingOrderEvades(rows, rows', key);
        }
      }
      forall rows' | multiset(rows') == multiset(rows) ensures KeepsTightest(rows', key) {
        PermutedIsSame(rows, rows');
      }
    }
  }

  /** How tight the kept row of a key is, if there is one. */
  function KeptUncertainty(rows: seq<Row>, key: string): Option<Uncertainty> {
    if key in Kept(rows, |rows|) then Some(UncertaintyOf(Kept(rows, |rows|)[key])) else None
  }

  /** An order that starts with a tightest row keeps a tightest row. */
  lemma SomeOrderKeeps(rows: seq<Row>, key: string) returns (rows': seq<Row>)
    requires Occurs(rows, key)
    ensures multiset(rows') == multiset(rows) && KeepsTightest(rows', key)
  {
    var t := SomeTightest(rows, key);
    var others := TakeOne(rows, t);
    rows' := [t] + others;
    PermutedIsSame(rows, rows');
    TightestOfSame(rows, rows', key, t);
    assert Kept(rows', 1) == Insert(Kept(rows', 0), t);
    TightestStays(rows', 1, |rows'|, key);
  }

  /** Two orders of the same rows keep equally tight rows when one keeps a tightest row exactly when the other does. */
  lemma TightestHasUncertainty(rows: seq<Row>, rows': seq<Row>, rows'': seq<Row>, key: string)
    requires SameRows(rows, rows') && SameRows(rows, rows'') && KeepsTightest(rows', key)
    ensures KeepsTightest(rows'', key) ==> KeptUncertainty(rows', key) == KeptUncertainty(rows'', key)
    ensures key in Kept(rows'', |rows''|) && Kept(rows'', |rows''|)[key] in rows &&
            Key(Kept(rows'', |rows''|)[key]) == key && !KeepsTightest(rows'', key) ==>
              KeptUncertainty(rows', key) != KeptUncertainty(rows'', key)
  {
    var t := Kept(rows', |rows'|)[key];
    TightestOfSame(rows, rows', key, t);
    if key in Kept(rows'', |rows''|) {
      var r := Kept(rows'', |rows''|)[key];
      TightestOfSame(rows, rows'', key, r);
      if r in rows && Key(r) == key {
        AtMostTightest(rows, key, t, r);
      }
    }
  }

  /** The order of the inputs never changes how tight the kept row of a key is exactly when no chain evades. */
  lemma OrderNeverMattersExactlyWhen(rows: seq<Row>, key: string)
    requires Occurs(rows, key)
    ensures (forall rows' :: SameRows(rows, rows') ==> KeptUncertainty(rows', key) == KeptUncertainty(rows, key))
       <==> !CanBeEvaded(rows, key)
    ensures (forall rows' :: multiset(rows') == multiset(rows) ==>
               KeptUncertainty(rows', key) == KeptUncertainty(rows, key)) <==> !CanBeEvaded(rows, key)
  {
    AlwaysTightestExactlyWhen(rows, key);
    if CanBeEvaded(rows, key) {
      var good := SomeOrderKeeps(rows, key);
      var bad :| multiset(bad) == multiset(rows) && !KeepsTightest(bad, key);
      PermutedIsSame(rows, good);
      PermutedIsSame(rows, bad);
      KeptIsOccurring(bad, key);
      TightestHasUncertainty(rows, good, bad, key);
    } else {
      forall rows' | SameRows(rows, rows') ensures KeptUncertainty(rows', key) == KeptUncertainty(rows, key) {
        TightestHasUncertainty(rows, rows, rows', key);
      }
      forall rows' | multiset(rows') == multiset(rows) ensures SameRows(rows, rows') {
        PermutedIsSame(rows, rows');
      }
    }
  }

  lemma KeptIsOccurring(rows: seq<Row>, key: string)
    requires Occurs(rows, key)
    ensures key in Kept(rows, |rows|) && Kept(rows, |rows|)[key] in rows && Key(Kept(rows, |rows|)[key]) == key
  {
    var i: nat :| i < |rows| && Key(rows[i]) == key;
    var j := KeptIsLeftmostTightest(rows, |rows|, key);
  }

  // ----- Special cases

  lemma {:induction false} ChainRows(rows: seq<Row>, key: string, chain: seq<Row>, c: Row)
    requires Chain(rows, key, chain) && c in chain
    ensures c in rows && Key(c) == key && !Tightest(rows, key, c)
  {
    if c != Last(chain) {
      ChainRows(rows, key, Front(chain), c);
    }
  }

  /** A kept row that only one corpus can supply is safe exactly when that corpus has no other, wider row. */
  lemma SoleCorpusEvadedExactlyWhen(rows: seq<Row>, key: string, source: string)
    requires Occurs(rows, key) && forall t :: Tightest(rows, key, t) ==> t.source == source
    ensures CanBeEvaded(rows, key)
       <==> exists r :: r in rows && Key(r) == key && r.source == source && !Tightest(rows, key, r)
  {
    var t := SomeTightest(rows, key);
    if CanBeEvaded(rows, key) {
      var chain :| Evades(rows, key, chain);
      assert Visits(chain, t.source);
      var c: Row :| c in chain && c.source == source;
      ChainRows(rows, key, chain, c);
    }
    if r :| r in rows && Key(r) == key && r.source == source && !Tightest(rows, key, r) {
      ChainExtends(rows, key, [], r);
      assert [] + [r] == [r];
      assert Evades(rows, key, [r]);
    }
  }

  lemma AgreementCannotBeEvaded(rows: seq<Row>, key: string)
    requires Occurs(rows, key) && OneUncertainty(rows, key)
    ensures !CanBeEvaded(rows, key)
  {
    if CanBeEvaded(rows, key) {
      var chain :| Evades(rows, key, chain);
      var t := SomeTightest(rows, key);
      assert Visits(chain, t.source);
      var c: Row :| c in chain && c.source == t.source;
      ChainRows(rows, key, chain, c);
      AtMostTightest(rows, key, t, c);
    }
  }

  /** When each corpus agrees on the uncertainty, the order and the repetition of the inputs do not matter. */
  lemma UncertaintyIsOrderFree(rows: seq<Row>, rows': seq<Row>, key: string)
    requires OneUncertainty(rows, key) && SameRows(rows, rows')
    ensures KeptUncertainty(rows, key) == KeptUncertainty(rows', key)
  {
    if Occurs(rows, key) {
      AgreementCannotBeEvaded(rows, key);
      OrderNeverMattersExactlyWhen(rows, key);
    } else {
      OnlySeenKeys(rows, |rows|, key);
      OnlySeenKeys(rows', |rows'|, key);
    }
  }

  /** Two rows of one corpus are enough for the order to decide. */
  lemma RepeatCanBeEvaded(rows: seq<Row>)
    requires rows == [Rated("lsvq", 2.0), Rated("lsvq", 1.0)]
    ensures Occurs(rows, "sha") && CanBeEvaded(rows, "sha")
  {
    assert rows[0] in rows && rows[1] in rows && Key(rows[0]) == "sha";
    assert !UncertaintyOf(rows[0]).AtMost(UncertaintyOf(rows[1]));
    SoleCorpusEvadedExactlyWhen(rows, "sha", "lsvq");
  }

  lemma RepeatMakesOrderMatter()
    ensures var rows := [Rated("lsvq", 2.0), Rated("lsvq", 1.0)];
            exists rows' :: multiset(rows') == multiset(rows) &&
                            KeptUncertainty(rows', "sha") != KeptUncertainty(rows, "sha")
  {
    var rows := [Rated("lsvq", 2.0), Rated("lsvq", 1.0)];
    RepeatCanBeEvaded(rows);
    OrderNeverMattersExactlyWhen(rows, "sha");
  }
}
