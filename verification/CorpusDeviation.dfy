/**
 Which row of a key is kept, in terms of the rating deviations the rows report: a
 positive number says how far the raters were apart, anything else says nothing.
 */
module CorpusDeviation {
  import opened CorpusRows
  import opened CorpusDedup

  /** The row reports a spread of v. */
  predicate Reports(row: Row, v: real) {
    row.deviation == Number(v) && v > 0.0
  }

  /** A row that is the first of its corpus and reports a spread is beaten by no row without a smaller one. */
  lemma KeptReportsNoMore(rows: seq<Row>, i: nat, v: real) returns (u: real)
    requires i < |rows| && rows[i].deviation == Number(v) && v > 0.0
    requires forall h: nat :: h < i && Key(rows[h]) == Key(rows[i]) ==> rows[h].source != rows[i].source
    ensures Key(rows[i]) in Kept(rows, |rows|)
    ensures Kept(rows, |rows|)[Key(rows[i])].deviation == Number(u) && 0.0 < u <= v
  {
    assert FirstOfCorpus(rows, i);
    KeptBeatsEveryFirst(rows, i);
    u := Kept(rows, |rows|)[Key(rows[i])].deviation.value;
  }

  /** The row has no usable number for it. */
  predicate Silent(row: Row) {
    !row.deviation.Number? || row.deviation.value <= 0.0
  }

  lemma SilentIsNotTighter(row: Row, other: Row)
    requires Silent(row)
    ensures !Tighter(row, other)
  {}

  lemma LeftmostBeats(rows: seq<Row>, i: nat, j: nat)
    requires i < |rows| && j < |rows| && LeftmostTightest(rows, |rows|, j)
    requires Key(rows[i]) == Key(rows[j]) && Compared(rows, i) && Silent(rows[j])
    ensures j <= i
  {
    SilentIsNotTighter(rows[j], rows[i]);
  }

  lemma FirstOfKey(rows: seq<Row>, i: nat, key: string)
    requires i < |rows| && Key(rows[i]) == key && forall h: nat :: h < i ==> Key(rows[h]) != key
    ensures Compared(rows, i)
  {
    FirstIsCompared(rows, i);
  }

  /** When no row of a key reports a spread, the first of them is kept. */
  lemma SilentKeepsFirst(rows: seq<Row>, i: nat, key: string)
    requires i < |rows| && Key(rows[i]) == key && forall h: nat :: h < i ==> Key(rows[h]) != key
    requires forall k: nat :: k < |rows| && Key(rows[k]) == key ==> Silent(rows[k])
    ensures key in Kept(rows, |rows|) && Kept(rows, |rows|)[key] == rows[i]
  {
    FirstOfKey(rows, i, key);
    var j := KeptIsLeftmostTightest(rows, |rows|, key);
    LeftmostBeats(rows, i, j);
    assert j == i;
  }

  /** When no corpus repeats the key and some row reports a spread, the first row with the least one is kept. */
  lemma LeastReportIsKept(rows: seq<Row>, i: nat, v: real) returns (j: nat, u: real)
    requires i < |rows| && Reports(rows[i], v)
    requires forall g: nat, h: nat :: g < h < |rows| && Key(rows[g]) == Key(rows[h]) == Key(rows[i]) ==>
               rows[g].source != rows[h].source
    ensures j < |rows| && Key(rows[j]) == Key(rows[i]) && Reports(rows[j], u)
    ensures Key(rows[i]) in Kept(rows, |rows|) && Kept(rows, |rows|)[Key(rows[i])] == rows[j]
    ensures forall k: nat, w :: k < |rows| && Key(rows[k]) == Key(rows[i]) && Reports(rows[k], w) ==>
              u <= w && (k < j ==> u < w)
  {
    j := KeptIsLeftmostTightest(rows, |rows|, Key(rows[i]));
    forall k: nat | k < |rows| && Key(rows[k]) == Key(rows[i]) ensures Compared(rows, k) {
      assert FirstOfCorpus(rows, k);
      FirstIsCompared(rows, k);
    }
    assert Compared(rows, i);
    u := rows[j].deviation.value;
  }

  // ----- The key

  /** Rows with a hash share a key exactly when they share the hash. */
  lemma HashIsKey(a: Row, b: Row, hash: string, hash': string)
    requires a.sha == ShaText(hash) && b.sha == ShaText(hash') && hash != "" && hash' != ""
    ensures Key(a) == Key(b) <==> hash == hash'
  {}

  predicate NoHash(row: Row) {
    !row.sha.ShaText? || row.sha == ShaText("")
  }

  lemma NoHashKeyIs(row: Row)
    requires NoHash(row)
    ensures Key(row) == "__nokey__/" + (row.src + "/" + row.source)
  {}

  lemma CancelPrefix(p: string, x: string, y: string)
    requires p + x == p + y
    ensures x == y
  {
    assert (p + x)[|p|..] == x && (p + y)[|p|..] == y;
  }

  /** Rows without one share a key exactly when they are one source file in one corpus. */
  lemma NoHashKey(a: Row, b: Row)
    requires NoHash(a) && NoHash(b) && ScaleOf(a.source).Some? && ScaleOf(b.source).Some?
    ensures Key(a) == Key(b) <==> a.src == b.src && a.source == b.source
  {
    NoHashKeyIs(a);
    NoHashKeyIs(b);
    if Key(a) == Key(b) {
      CancelPrefix("__nokey__/", a.src + "/" + a.source, b.src + "/" + b.source);
      CorpusHasNoSlash(a.source);
      CorpusHasNoSlash(b.source);
      SplitAtSlash(a.src, a.source, b.src, b.source);
    }
  }

  lemma CorpusHasNoSlash(source: string)
    requires ScaleOf(source).Some?
    ensures '/' !in source
  {}

  lemma SlashInside(a: string, s: string, b: string, t: string)
    requires a + "/" + s == b + "/" + t && |a| < |b|
    ensures '/' in s
  {
    var whole := a + "/" + s;
    assert whole[|b|] == (b + "/" + t)[|b|] == '/';
    assert whole[|b|] == s[|b| - |a| - 1];
  }

  lemma SplitAtSlash(a: string, s: string, b: string, t: string)
    requires '/' !in s && '/' !in t && a + "/" + s == b + "/" + t
    ensures a == b && s == t
  {
    if |a| < |b| {
      SlashInside(a, s, b, t);
    } else if |b| < |a| {
      SlashInside(b, t, a, s);
    } else {
      assert a == (a + "/" + s)[..|a|] == b;
      assert s == (a + "/" + s)[|a| + 1..] == t;
    }
  }
}
