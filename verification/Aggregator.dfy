/** The driver that merges corpus shards into one row per key, with its counters. */
module Aggregator {
  import opened Options
  import opened CorpusRows
  import opened CorpusDedup
  import opened OutputOrder

  /** One --inputs path: absent on disk, or the rows of the file and its label override. */
  datatype Shard = Absent | Present(rows: seq<RawRow>, override: Option<string>)

  predicate AllHaveKeys(rows: seq<RawRow>) {
    forall i :: 0 <= i < |rows| ==> rows[i].hasKeys
  }

  predicate ShardsHaveKeys(shards: seq<Shard>) {
    forall i :: 0 <= i < |shards| && shards[i].Present? ==> AllHaveKeys(shards[i].rows)
  }

  // ----- The verdicts of a run, and the counters as functions of them

  function JudgeAll(rows: seq<RawRow>, override: Option<string>): seq<Verdict> {
    seq(|rows|, i requires 0 <= i < |rows| => Judge(rows[i], override))
  }

  function ShardVerdicts(shard: Shard): seq<Verdict> {
    if shard.Present? then JudgeAll(shard.rows, shard.override) else []
  }

  function VerdictsOf(shards: seq<Shard>): seq<Verdict> {
    if shards == [] then [] else VerdictsOf(shards[..|shards| - 1]) + ShardVerdicts(shards[|shards| - 1])
  }

  /** The rows that convert, in order. */
  function Accepted(verdicts: seq<Verdict>): seq<Row> {
    if verdicts == [] then []
    else
      var last := verdicts[|verdicts| - 1];
      Accepted(verdicts[..|verdicts| - 1]) + if last.Converted? then [last.row] else []
  }

  function Count(verdicts: seq<Verdict>, verdict: Verdict): nat {
    if verdicts == [] then 0
    else Count(verdicts[..|verdicts| - 1], verdict) + if verdicts[|verdicts| - 1] == verdict then 1 else 0
  }

  lemma VerdictsSnoc(verdicts: seq<Verdict>, last: Verdict, verdicts': seq<Verdict>)
    requires verdicts' == verdicts + [last]
    ensures last.Converted? ==> Accepted(verdicts') == Accepted(verdicts) + [last.row]
    ensures !last.Converted? ==> Accepted(verdicts') == Accepted(verdicts)
    ensures Count(verdicts', UnknownCorpus) == Count(verdicts, UnknownCorpus) + if last == UnknownCorpus then 1 else 0
    ensures Count(verdicts', BadScale) == Count(verdicts, BadScale) + if last == BadScale then 1 else 0
  {
    assert verdicts'[..|verdicts|] == verdicts;
  }

  lemma JudgeAllSnoc(rows: seq<RawRow>, override: Option<string>, i: nat)
    requires i < |rows|
    ensures JudgeAll(rows[..i + 1], override) == JudgeAll(rows[..i], override) + [Judge(rows[i], override)]
    ensures AllHaveKeys(rows[..i + 1]) <==> AllHaveKeys(rows[..i]) && rows[i].hasKeys
  {
    assert rows[..i + 1] == rows[..i] + [rows[i]];
  }

  lemma {:induction false} VerdictsPartition(verdicts: seq<Verdict>)
    ensures |Accepted(verdicts)| + Count(verdicts, UnknownCorpus) + Count(verdicts, BadScale) + Count(verdicts, Invalid)
         == |verdicts|
  {
    if verdicts != [] {
      VerdictsPartition(verdicts[..|verdicts| - 1]);
    }
  }

  function Given(verdicts: seq<Verdict>, verdict: Verdict): set<nat> {
    set i: nat | i < |verdicts| && verdicts[i] == verdict
  }

  lemma {:induction false} CountIs(verdicts: seq<Verdict>, verdict: Verdict)
    ensures Count(verdicts, verdict) == |Given(verdicts, verdict)|
    ensures Given(verdicts, verdict) == set i: nat | i < |verdicts| && verdicts[i] == verdict
  {
    if verdicts != [] {
      var n := |verdicts| - 1;
      CountIs(verdicts[..n], verdict);
      assert Given(verdicts, verdict) == Given(verdicts[..n], verdict) + if verdicts[n] == verdict then {n} else {};
    }
  }

  lemma {:induction false} NoInvalid(shards: seq<Shard>)
    requires ShardsHaveKeys(shards)
    ensures Invalid !in VerdictsOf(shards)
  {
    if shards != [] {
      NoInvalid(shards[..|shards| - 1]);
    }
  }

  lemma {:induction false} CountAbsent(verdicts: seq<Verdict>, verdict: Verdict)
    requires verdict !in verdicts
    ensures Count(verdicts, verdict) == 0
  {
    if verdicts != [] {
      CountAbsent(verdicts[..|verdicts| - 1], verdict);
    }
  }

  /** rows_in = rows_out + unknown corpus + bad scale + cross-corpus duplicates + same-corpus repeats. */
  lemma EveryRowIsAccountedFor(shards: seq<Shard>)
    requires ShardsHaveKeys(shards)
    ensures var verdicts := VerdictsOf(shards);
            var rows := Accepted(verdicts);
            |verdicts| == |Kept(rows, |rows|)| + Count(verdicts, UnknownCorpus) + Count(verdicts, BadScale)
                          + CrossDuplicates(rows, |rows|) + Repeats(rows, |rows|)
  {
    var verdicts := VerdictsOf(shards);
    NoInvalid(shards);
    CountAbsent(verdicts, Invalid);
    VerdictsPartition(verdicts);
    RowsAreConserved(Accepted(verdicts), |Accepted(verdicts)|);
  }

  lemma {:induction false} KeptOfPrefix(rows: seq<Row>, more: seq<Row>, n: nat)
    requires n <= |rows|
    ensures Kept(rows + more, n) == Kept(rows, n) && CrossDuplicates(rows + more, n) == CrossDuplicates(rows, n)
  {
    if n > 0 {
      KeptOfPrefix(rows, more, n - 1);
      assert (rows + more)[n - 1] == rows[n - 1];
    }
  }

  lemma ShardsSnoc(shards: seq<Shard>, i: nat)
    requires i < |shards|
    ensures VerdictsOf(shards[..i + 1]) == VerdictsOf(shards[..i]) + ShardVerdicts(shards[i])
    ensures ShardsHaveKeys(shards[..i + 1]) <==>
            ShardsHaveKeys(shards[..i]) && (shards[i].Present? ==> AllHaveKeys(shards[i].rows))
  {
    assert shards[..i + 1] == shards[..i] + [shards[i]];
    assert shards[..i + 1][..i] == shards[..i];
  }

  // ----- The run

  class Aggregation {
    var keyed: Keyed
    var rowsIn: nat
    var rowsOut: nat
    var droppedUnknownCorpus: nat
    var droppedBadScale: nat
    var crossCorpusDedups: nat
    var inputsSeen: nat
    var inputsMissing: nat
    /** What became of every row read so far. */
    ghost var verdicts: seq<Verdict>

    ghost predicate Valid()
      reads this
    {
      Merged(Accepted(verdicts)) && rowsIn == |verdicts| &&
      droppedUnknownCorpus == Count(verdicts, UnknownCorpus) && droppedBadScale == Count(verdicts, BadScale)
    }

    ghost predicate Merged(rows: seq<Row>)
      reads this
    {
      keyed == Kept(rows, |rows|) && crossCorpusDedups == CrossDuplicates(rows, |rows|)
    }

    constructor ()
      ensures Valid() && verdicts == [] && rowsOut == inputsSeen == inputsMissing == 0
    {
      keyed, verdicts := map[], [];
      rowsIn, rowsOut, droppedUnknownCorpus, droppedBadScale, crossCorpusDedups := 0, 0, 0, 0, 0;
      inputsSeen, inputsMissing := 0, 0;
    }

    /** Inserts one converted row, resolving a duplicate from another corpus. */
    method AddConvertedRow(converted: Row, ghost rows: seq<Row>)
      requires Merged(rows)
      modifies this`keyed, this`crossCorpusDedups
      ensures Merged(rows + [converted])
    {
      var key := Key(converted);
      KeptOfPrefix(rows, [converted], |rows|);
      if key !in keyed {
        keyed := keyed[key := converted];
        return;
      }
      var existing := keyed[key];
      if existing.source == converted.source {
        return;
      }
      crossCorpusDedups := crossCorpusDedups + 1;
      keyed := keyed[key := ResolveDuplicate(existing, converted)];
    }

    /** Folds one row in, or stops the run when it lacks a required key. */
    method MergeRow(raw: RawRow, override: Option<string>) returns (outcome: Result<()>)
      requires Valid()
      modifies this`keyed, this`crossCorpusDedups, this`verdicts,
               this`rowsIn, this`droppedUnknownCorpus, this`droppedBadScale
      ensures Valid() && verdicts == old(verdicts) + [Judge(raw, override)]
      ensures outcome.Ok? <==> raw.hasKeys
    {
      ghost var rows := Accepted(verdicts);
      VerdictsSnoc(verdicts, Judge(raw, override), verdicts + [Judge(raw, override)]);
      verdicts := verdicts + [Judge(raw, override)];
      rowsIn := rowsIn + 1;
      if !raw.hasKeys {
        return Raise("missing required keys");
      }
      var source := ResolveCorpusSource(raw, override);
      if source.None? {
        droppedUnknownCorpus := droppedUnknownCorpus + 1;
        return Ok(());
      }
      var converted := TransformRow(raw, source.value);
      if converted.Raise? {
        droppedBadScale := droppedBadScale + 1;
        return Ok(());
      }
      AddConvertedRow(converted.result, rows);
      return Ok(());
    }

    /** Folds one shard in; stops with an error at the first row that lacks a required key. */
    method MergeInput(rows: seq<RawRow>, override: Option<string>) returns (outcome: Result<()>)
      requires Valid()
      modifies this`keyed, this`crossCorpusDedups, this`verdicts,
               this`rowsIn, this`droppedUnknownCorpus, this`droppedBadScale
      ensures Valid() && (outcome.Ok? <==> AllHaveKeys(rows))
      ensures outcome.Ok? ==> verdicts == old(verdicts) + JudgeAll(rows, override)
    {
      for i := 0 to |rows|
        invariant Valid() && AllHaveKeys(rows[..i]) && verdicts == old(verdicts) + JudgeAll(rows[..i], override)
      {
        JudgeAllSnoc(rows, override, i);
        outcome := MergeRow(rows[i], override);
        if outcome.Raise? {
          return;
        }
      }
      assert rows[..|rows|] == rows;
      return Ok(());
    }

    /** One path of the driver loop. */
    method MergeShard(shard: Shard) returns (outcome: Result<()>)
      requires Valid()
      modifies this`keyed, this`crossCorpusDedups, this`verdicts, this`rowsIn,
               this`droppedUnknownCorpus, this`droppedBadScale, this`inputsSeen, this`inputsMissing
      ensures Valid() && (outcome.Ok? <==> shard.Absent? || AllHaveKeys(shard.rows))
      ensures outcome.Ok? ==> verdicts == old(verdicts) + ShardVerdicts(shard)
      ensures inputsSeen == old(inputsSeen) + if shard.Present? then 1 else 0
      ensures inputsMissing == old(inputsMissing) + if shard.Absent? then 1 else 0
    {
      if shard.Absent? {
        inputsMissing := inputsMissing + 1;
        return Ok(());
      }
      inputsSeen := inputsSeen + 1;
      outcome := MergeInput(shard.rows, shard.override);
    }

    /**
     Writes every kept row once, sorted by corpus, content hash and key; raises, and
     writes nothing, exactly when two kept rows of one corpus have hashes without an order.
     */
    method WriteKeyedRows() returns (outcome: Result<seq<Row>>, ghost order: seq<OutputKey>)
      requires rowsOut == 0
      modifies this`rowsOut
      ensures outcome.Ok? <==> Sortable(keyed)
      ensures outcome.Raise? ==> rowsOut == 0
      ensures outcome.Ok? ==>
                && IsSortedKeys(order, keyed) && (forall k :: k in order ==> k.key in keyed)
                && outcome.result == RowsOf(keyed, order) && rowsOut == |outcome.result| == |keyed|
    {
      order := [];
      var sorted := SortedKeys(keyed);
      if sorted.Raise? {
        return Raise(sorted.message), order;
      }
      order := sorted.result;
      SortedKeysAreKept(order, keyed);
      var output := WriteInOrder(sorted.result);
      return Ok(output), order;
    }

    method WriteInOrder(order: seq<OutputKey>) returns (output: seq<Row>)
      requires rowsOut == 0 && forall k :: k in order ==> k.key in keyed
      modifies this`rowsOut
      ensures output == RowsOf(keyed, order) && rowsOut == |output|
    {
      output := [];
      for i := 0 to |order|
        invariant rowsOut == i && output == RowsOf(keyed, order[..i])
      {
        assert order[..i + 1] == order[..i] + [order[i]];
        output := output + [keyed[order[i].key]];
        rowsOut := rowsOut + 1;
      }
      assert order[..|order|] == order;
    }
  }

  function PresentCount(shards: seq<Shard>): nat {
    if shards == [] then 0
    else PresentCount(shards[..|shards| - 1]) + if shards[|shards| - 1].Present? then 1 else 0
  }

  lemma PresentSnoc(shards: seq<Shard>, i: nat)
    requires i < |shards|
    ensures PresentCount(shards[..i + 1]) == PresentCount(shards[..i]) + if shards[i].Present? then 1 else 0
  {
    assert shards[..i + 1][..i] == shards[..i];
  }

  lemma {:induction false} SomePresent(shards: seq<Shard>)
    ensures PresentCount(shards) > 0 <==> exists i :: 0 <= i < |shards| && shards[i].Present?
  {
    if shards != [] {
      SomePresent(shards[..|shards| - 1]);
      assert forall i :: 0 <= i < |shards| - 1 ==> shards[..|shards| - 1][i] == shards[i];
    }
  }

  /** The rows that are kept after merging the shards. */
  function KeptOf(shards: seq<Shard>): Keyed {
    var rows := Accepted(VerdictsOf(shards));
    Kept(rows, |rows|)
  }

  /** Exactly when a run succeeds. */
  ghost predicate Succeeds(shards: seq<Shard>) {
    && (exists i :: 0 <= i < |shards| && shards[i].Present?)
    && ShardsHaveKeys(shards)
    && Sortable(KeptOf(shards))
  }

  /** Merges every shard that exists, then writes; nothing is written on an error. */
  method Aggregate(shards: seq<Shard>)
    returns (outcome: Result<seq<Row>>, agg: Aggregation, ghost order: seq<OutputKey>)
    ensures outcome.Ok? <==> Succeeds(shards)
    ensures outcome.Raise? ==> agg.rowsOut == 0
    ensures outcome.Ok? ==>
              var verdicts := VerdictsOf(shards);
              && agg.keyed == KeptOf(shards) && agg.rowsIn == |verdicts|
              && agg.droppedUnknownCorpus == |set i: nat | i < |verdicts| && verdicts[i] == UnknownCorpus|
              && agg.droppedBadScale == |set i: nat | i < |verdicts| && verdicts[i] == BadScale|
              && agg.crossCorpusDedups == CrossDuplicates(Accepted(verdicts), |Accepted(verdicts)|)
    ensures outcome.Ok? ==>
              && IsSortedKeys(order, agg.keyed) && (forall k :: k in order ==> k.key in agg.keyed)
              && outcome.result == RowsOf(agg.keyed, order) && agg.rowsOut == |outcome.result|
              && forall row :: row in outcome.result <==> row in agg.keyed.Values
    ensures outcome.Ok? ==>
              && agg.inputsSeen == PresentCount(shards) && agg.inputsMissing == |shards| - PresentCount(shards)
              && agg.rowsIn == agg.rowsOut + agg.droppedUnknownCorpus + agg.droppedBadScale + agg.crossCorpusDedups
                               + Repeats(Accepted(VerdictsOf(shards)), |Accepted(VerdictsOf(shards))|)
  {
    agg := new Aggregation();
    order := [];
    SomePresent(shards);
    for i := 0 to |shards|
      invariant fresh(agg) && agg.Valid() && ShardsHaveKeys(shards[..i]) && agg.rowsOut == 0
      invariant agg.verdicts == VerdictsOf(shards[..i])
      invariant agg.inputsSeen == PresentCount(shards[..i]) && agg.inputsMissing == i - agg.inputsSeen
    {
      ShardsSnoc(shards, i);
      PresentSnoc(shards, i);
      var merged := agg.MergeShard(shards[i]);
      if merged.Raise? {
        return Raise(merged.message), agg, order;
      }
    }
    assert shards[..|shards|] == shards;
    if agg.inputsSeen == 0 {
      return Raise("no input JSONL files exist on disk"), agg, order;
    }
    outcome, order := agg.WriteKeyedRows();
    if outcome.Ok? {
      OutputIsDetermined(agg.keyed, order, order);
      EveryRowIsAccountedFor(shards);
      CountIs(VerdictsOf(shards), UnknownCorpus);
      CountIs(VerdictsOf(shards), BadScale);
    }
  }

  // ----- A row without a hash beside one with a hash

  function Clip(src: string, sha: Sha): RawRow {
    RawRow(true, src, sha, Label.Absent, Text("lsvq"), Number(3.0), Number(0.5), Usable(""))
  }

  lemma ClipConverts(src: string, sha: Sha)
    ensures Judge(Clip(src, sha), None).Converted?
    ensures var row := Judge(Clip(src, sha), None).row;
            row.src == src && row.sha == sha && row.source == "lsvq"
  {
    assert ScaleOf("lsvq") == Some(Scale(25.0, -25.0, 1.0, 5.0, "1-5-acr"));
  }

  /** Two valid rows of one corpus, one with a null hash: both are kept, and nothing is written. */
  lemma NullHashBesideTextFails(a: string, b: string, hash: string)
    requires hash != "" && hash != "__nokey__/" + a + "/lsvq"
    ensures var shards := [Present([Clip(a, ShaNull), Clip(b, ShaText(hash))], None)];
            ShardsHaveKeys(shards) && |KeptOf(shards)| == 2 && !Succeeds(shards)
  {
    var raws := [Clip(a, ShaNull), Clip(b, ShaText(hash))];
    ClipConverts(a, ShaNull);
    ClipConverts(b, ShaText(hash));
    var r, r' := Judge(raws[0], None).row, Judge(raws[1], None).row;
    assert JudgeAll(raws, None) == [Converted(r), Converted(r')];
    OneShard(raws);
    TwoAccepted(r, r');
    TwoKept(r, r');
  }

  lemma OneShard(raws: seq<RawRow>)
    ensures VerdictsOf([Present(raws, None)]) == JudgeAll(raws, None)
  {
    assert [Present(raws, None)][..0] == [];
  }

  lemma TwoAccepted(a: Row, b: Row)
    ensures Accepted([Converted(a), Converted(b)]) == [a, b]
  {
    VerdictsSnoc([], Converted(a), [Converted(a)]);
    VerdictsSnoc([Converted(a)], Converted(b), [Converted(a), Converted(b)]);
  }

  lemma TwoKept(a: Row, b: Row)
    requires Key(a) != Key(b) && a.source == b.source && !ShaComparable(a.sha, b.sha)
    ensures |Kept([a, b], 2)| == 2 && !Sortable(Kept([a, b], 2))
  {
    assert Kept([a, b], 1) == Insert(Kept([a, b], 0), a) == map[Key(a) := a];
    var kept := Kept([a, b], 2);
    assert kept == Insert(Kept([a, b], 1), b) == map[Key(a) := a][Key(b) := b];
    assert !KeysComparable(OutputKeyOf(kept, Key(a)), OutputKeyOf(kept, Key(b)));
  }
}
