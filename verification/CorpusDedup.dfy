/** Folding converted rows into one row per content key. */
module CorpusDedup {
  import opened CorpusRows

  /** The dispersion of a row; an unusable or non-positive one is unbounded. */
  datatype Uncertainty = Bounded(value: real) | Unbounded
  {
    predicate AtMost(other: Uncertainty) {
      other.Unbounded? || (Bounded? && value <= other.value)
    }
  }

  function UncertaintyOf(row: Row): Uncertainty {
    if row.deviation.Number? && row.deviation.value > 0.0 then Bounded(row.deviation.value) else Unbounded
  }

  predicate Tighter(a: Row, b: Row) {
    !UncertaintyOf(b).AtMost(UncertaintyOf(a))
  }

  function ResolveDuplicate(existing: Row, candidate: Row): Row {
    if UncertaintyOf(existing).AtMost(UncertaintyOf(candidate)) then existing else candidate
  }

  function Key(row: Row): string {
    if row.sha.ShaText? && row.sha.text != "" then row.sha.text
    else "__nokey__/" + row.src + "/" + row.source
  }

  type Keyed = map<string, Row>

  predicate IsRepeat(keyed: Keyed, row: Row) {
    Key(row) in keyed && keyed[Key(row)].source == row.source
  }

  predicate IsCrossDuplicate(keyed: Keyed, row: Row) {
    Key(row) in keyed && keyed[Key(row)].source != row.source
  }

  function Insert(keyed: Keyed, row: Row): Keyed {
    var key := Key(row);
    if key !in keyed then keyed[key := row]
    else if keyed[key].source == row.source then keyed
    else keyed[key := ResolveDuplicate(keyed[key], row)]
  }

  /** The rows kept after the first n. */
  function Kept(rows: seq<Row>, n: nat): Keyed
    requires n <= |rows|
  {
    if n == 0 then map[] else Insert(Kept(rows, n - 1), rows[n - 1])
  }

  function Repeats(rows: seq<Row>, n: nat): nat
    requires n <= |rows|
  {
    if n == 0 then 0 else Repeats(rows, n - 1) + if IsRepeat(Kept(rows, n - 1), rows[n - 1]) then 1 else 0
  }

  function CrossDuplicates(rows: seq<Row>, n: nat): nat
    requires n <= |rows|
  {
    if n == 0 then 0
    else CrossDuplicates(rows, n - 1) + if IsCrossDuplicate(Kept(rows, n - 1), rows[n - 1]) then 1 else 0
  }

  /** Every row is kept, or lost to another corpus, or a repeat within its corpus. */
  lemma {:induction false} RowsAreConserved(rows: seq<Row>, n: nat)
    requires n <= |rows|
    ensures |Kept(rows, n)| + CrossDuplicates(rows, n) + Repeats(rows, n) == n
  {
    if n > 0 {
      RowsAreConserved(rows, n - 1);
    }
  }

  /** Row i was not thrown out unseen as a repeat of the corpus kept at that moment. */
  predicate Compared(rows: seq<Row>, i: nat)
    requires i < |rows|
  {
    !IsRepeat(Kept(rows, i), rows[i])
  }

  /** Row j is the leftmost tightest among the compared rows of its key before n. */
  ghost predicate LeftmostTightest(rows: seq<Row>, n: nat, j: nat)
    requires j < n <= |rows|
  {
    Compared(rows, j) &&
    forall i: nat :: i < n && Key(rows[i]) == Key(rows[j]) && Compared(rows, i) ==>
      UncertaintyOf(rows[j]).AtMost(UncertaintyOf(rows[i])) && (i < j ==> Tighter(rows[j], rows[i]))
  }

  /** One more row keeps the leftmost tightest of a key, or takes its place. */
  lemma NextLeftmost(rows: seq<Row>, n: nat, j: nat) returns (j': nat)
    requires j < n < |rows| && LeftmostTightest(rows, n, j)
    requires Key(rows[j]) in Kept(rows, n) && Kept(rows, n)[Key(rows[j])] == rows[j]
    ensures j' <= n && Key(rows[j']) == Key(rows[j]) && LeftmostTightest(rows, n + 1, j')
    ensures Kept(rows, n + 1) == Insert(Kept(rows, n), rows[n])
    ensures Key(rows[j]) in Kept(rows, n + 1) && Kept(rows, n + 1)[Key(rows[j])] == rows[j']
  {
    j' := if Key(rows[n]) == Key(rows[j]) && Compared(rows, n) && Tighter(rows[n], rows[j]) then n else j;
  }

  /** A key some row has is kept, by the leftmost tightest of the rows that were compared. */
  lemma {:induction false} KeptIsLeftmostTightest(rows: seq<Row>, n: nat, key: string) returns (j: nat)
    requires n <= |rows| && exists i: nat :: i < n && Key(rows[i]) == key
    ensures key in Kept(rows, n) && j < n && Key(rows[j]) == key && Kept(rows, n)[key] == rows[j]
    ensures LeftmostTightest(rows, n, j)
  {
    if exists i: nat :: i < n - 1 && Key(rows[i]) == key {
      j := KeptIsLeftmostTightest(rows, n - 1, key);
      j := NextLeftmost(rows, n - 1, j);
    } else {
      OnlySeenKeys(rows, n - 1, key);
      j := n - 1;
    }
  }

  lemma {:induction false} OnlySeenKeys(rows: seq<Row>, n: nat, key: string)
    requires n <= |rows| && forall i: nat :: i < n ==> Key(rows[i]) != key
    ensures key !in Kept(rows, n)
  {
    if n > 0 {
      OnlySeenKeys(rows, n - 1, key);
    }
  }

  ghost predicate FirstOfCorpus(rows: seq<Row>, i: nat)
    requires i < |rows|
  {
    forall h: nat :: h < i && Key(rows[h]) == Key(rows[i]) ==> rows[h].source != rows[i].source
  }

  lemma FirstIsCompared(rows: seq<Row>, i: nat)
    requires i < |rows| && FirstOfCorpus(rows, i)
    ensures Compared(rows, i)
  {
    if exists h: nat :: h < i && Key(rows[h]) == Key(rows[i]) {
      var j := KeptIsLeftmostTightest(rows, i, Key(rows[i]));
    } else {
      OnlySeenKeys(rows, i, Key(rows[i]));
    }
  }

  /** The kept row is at least as tight as the first row of every corpus that has the key. */
  lemma KeptBeatsEveryFirst(rows: seq<Row>, i: nat)
    requires i < |rows| && FirstOfCorpus(rows, i)
    ensures Key(rows[i]) in Kept(rows, |rows|)
    ensures UncertaintyOf(Kept(rows, |rows|)[Key(rows[i])]).AtMost(UncertaintyOf(rows[i]))
  {
    FirstIsCompared(rows, i);
    var j := KeptIsLeftmostTightest(rows, |rows|, Key(rows[i]));
  }

  /** It is the tightest row of its key exactly when no skipped repeat is tighter than every compared row. */
  lemma KeptIsTightestExactlyWhen(rows: seq<Row>, key: string)
    requires exists i: nat :: i < |rows| && Key(rows[i]) == key
    ensures key in Kept(rows, |rows|)
    ensures (forall i: nat :: i < |rows| && Key(rows[i]) == key ==>
               UncertaintyOf(Kept(rows, |rows|)[key]).AtMost(UncertaintyOf(rows[i])))
       <==> (forall i: nat :: i < |rows| && Key(rows[i]) == key && !Compared(rows, i) ==>
               exists h: nat :: h < |rows| && Key(rows[h]) == key && Compared(rows, h) && !Tighter(rows[i], rows[h]))
  {
    var j := KeptIsLeftmostTightest(rows, |rows|, key);
  }

  // ----- Corpora without internal repeats

  ghost predicate NoCorpusRepeats(rows: seq<Row>) {
    forall i: nat :: i < |rows| ==> FirstOfCorpus(rows, i)
  }

  /** Then every row is compared, and the kept row is the leftmost tightest of all. */
  lemma KeptIsLeftmostMinimum(rows: seq<Row>, key: string) returns (j: nat)
    requires NoCorpusRepeats(rows) && exists i: nat :: i < |rows| && Key(rows[i]) == key
    ensures key in Kept(rows, |rows|) && j < |rows| && Key(rows[j]) == key && Kept(rows, |rows|)[key] == rows[j]
    ensures forall i: nat :: i < |rows| && Key(rows[i]) == key ==>
              UncertaintyOf(rows[j]).AtMost(UncertaintyOf(rows[i])) && (i < j ==> Tighter(rows[j], rows[i]))
    ensures Repeats(rows, |rows|) == 0
  {
    j := KeptIsLeftmostTightest(rows, |rows|, key);
    forall i: nat | i < |rows| ensures Compared(rows, i) {
      FirstIsCompared(rows, i);
    }
    AllCompared(rows, |rows|);
  }

  lemma {:induction false} AllCompared(rows: seq<Row>, n: nat)
    requires n <= |rows| && forall i: nat :: i < |rows| ==> Compared(rows, i)
    ensures Repeats(rows, n) == 0
  {
    if n > 0 {
      AllCompared(rows, n - 1);
      assert Compared(rows, n - 1);
    }
  }

  // ----- Repeats that agree on the uncertainty do no harm either

  /** All rows of one corpus with the key have the same uncertainty. */
  ghost predicate OneUncertainty(rows: seq<Row>, key: string) {
    forall r, r' :: r in rows && r' in rows && Key(r) == Key(r') == key && r.source == r'.source ==>
      UncertaintyOf(r) == UncertaintyOf(r')
  }

  lemma {:induction false} FirstOfItsCorpus(rows: seq<Row>, i: nat) returns (f: nat)
    requires i < |rows|
    ensures f <= i && FirstOfCorpus(rows, f) && Key(rows[f]) == Key(rows[i]) && rows[f].source == rows[i].source
  {
    if FirstOfCorpus(rows, i) {
      f := i;
    } else {
      var h: nat :| h < i && Key(rows[h]) == Key(rows[i]) && rows[h].source == rows[i].source;
      f := FirstOfItsCorpus(rows, h);
    }
  }

  /** Then the kept row is a tightest one. */
  lemma KeptIsTightest(rows: seq<Row>, key: string) returns (j: nat)
    requires OneUncertainty(rows, key) && exists i: nat :: i < |rows| && Key(rows[i]) == key
    ensures key in Kept(rows, |rows|) && j < |rows| && Key(rows[j]) == key && Kept(rows, |rows|)[key] == rows[j]
    ensures forall i: nat :: i < |rows| && Key(rows[i]) == key ==> UncertaintyOf(rows[j]).AtMost(UncertaintyOf(rows[i]))
  {
    j := KeptIsLeftmostTightest(rows, |rows|, key);
    forall i: nat | i < |rows| && Key(rows[i]) == key
      ensures UncertaintyOf(rows[j]).AtMost(UncertaintyOf(rows[i]))
    {
      var f := FirstOfItsCorpus(rows, i);
      KeptBeatsEveryFirst(rows, f);
      assert rows[f] in rows && rows[i] in rows;
    }
  }

  /** Corpora without repeats are a special case. */
  lemma NoRepeatsAgree(rows: seq<Row>, key: string)
    requires NoCorpusRepeats(rows)
    ensures OneUncertainty(rows, key)
  {
    forall r, r' | r in rows && r' in rows && Key(r) == Key(r') == key && r.source == r'.source
      ensures UncertaintyOf(r) == UncertaintyOf(r')
    {
      var i: nat :| i < |rows| && rows[i] == r;
      var i': nat :| i' < |rows| && rows[i'] == r';
      assert FirstOfCorpus(rows, i) && FirstOfCorpus(rows, i');
    }
  }

  // ----- With a repeated corpus the kept row need not be the tightest

  function Rated(source: string, deviation: real): Row {
    Row("clip", ShaText("sha"), 50.0, 3.0, "1-5-acr", Number(deviation), source, "")
  }

  lemma RepeatCanBeTightest()
    ensures var rows := [Rated("lsvq", 2.0), Rated("lsvq", 1.0)];
            "sha" in Kept(rows, 2) && Tighter(rows[1], Kept(rows, 2)["sha"])
  {}

  /** The other order keeps the tighter row. */
  lemma OtherOrderIsTighter()
    ensures var rows := [Rated("lsvq", 2.0), Rated("lsvq", 1.0)];
            var rows' := [Rated("lsvq", 1.0), Rated("lsvq", 2.0)];
            multiset(rows) == multiset(rows') && "sha" in Kept(rows, 2) && "sha" in Kept(rows', 2) &&
            Tighter(Kept(rows', 2)["sha"], Kept(rows, 2)["sha"])
  {}
}
