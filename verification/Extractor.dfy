/**
 The extractor's own control flow over the durable files.  Every method keeps a
 ghost log of protocol events, and promises that the log leads the journal from
 where it was to the files as they now are.
 */
module Extractor {
  import opened Collections
  import opened Options
  import opened StagingLog
  import opened Journal
  import opened JournalSafety
  import opened JournalVerdict
  import opened JournalRows

  /** What one worker future yields, and which of the two appends then fault. */
  datatype JobResult =
    | WorkerFailed
    | Extracted(payload: int, stageFault: Option<Tear>, markFault: bool)

  datatype Completion = Completion(clip: Name, result: JobResult)

  function ClipsOf(completions: seq<Completion>): set<Name> {
    set c | c in completions :: c.clip
  }

  /** Every pending clip completes once, in any order, and tears only its own row. */
  predicate Resolves(completions: seq<Completion>, pending: set<Name>) {
    && ClipsOf(completions) == pending
    && (forall i, j :: 0 <= i < j < |completions| ==> completions[i].clip != completions[j].clip)
    && (forall c :: c in completions && c.result.Extracted? && c.result.stageFault.Some? ==>
                      c.result.stageFault.value.Hits({c.clip}))
  }

  /** The clip's row reaches the row list and its name the checkpoint. */
  predicate Succeeds(c: Completion, recovered: set<Name>) {
    c.result.Extracted? && !c.result.markFault && (c.clip in recovered || c.result.stageFault.None?)
  }

  /** The row reaches the row list but the checkpoint append faults. */
  predicate MissesCheckpoint(c: Completion, recovered: set<Name>) {
    c.result.Extracted? && c.result.markFault && (c.clip in recovered || c.result.stageFault.None?)
  }

  /** The rows one completion adds to the row list. */
  function KeptBy(c: Completion, recovered: set<Name>): seq<Row> {
    if Succeeds(c, recovered) || MissesCheckpoint(c, recovered) then [Row(c.clip, c.result.payload)] else []
  }

  /** The durable effect of one completion. */
  function DiskAfter(disk: Disk, c: Completion, recovered: set<Name>): Disk {
    if c.result.WorkerFailed? then disk
    else
      var staging :=
        if c.clip in recovered then disk.staging
        else if c.result.stageFault.Some? then disk.staging + c.result.stageFault.value.Residue()
        else AppendRow(disk.staging, Row(c.clip, c.result.payload));
      Disk(if Succeeds(c, recovered) then disk.done + [c.clip] else disk.done, staging, disk.parquet)
  }

  /** The volatile effect of one completion. */
  function BatchAfter(b: Batch, c: Completion): Batch {
    var recovered := Names(b.recovered);
    Batch(b.outstanding - {c.clip}, b.recovered, b.rows + KeptBy(c, recovered),
          b.ok + (if Succeeds(c, recovered) then 1 else 0),
          b.fail + (if Succeeds(c, recovered) then 0 else 1),
          b.markFaults + (if MissesCheckpoint(c, recovered) then 1 else 0))
  }

  /** The rows all completions add, in the order they complete. */
  function NewRows(completions: seq<Completion>, recovered: set<Name>): seq<Row> {
    if completions == [] then [] else NewRows(Front(completions), recovered) + KeptBy(Last(completions), recovered)
  }

  /** The clips that get their checkpoint. */
  function Succeeded(completions: seq<Completion>, recovered: set<Name>): set<Name> {
    set c | c in completions && Succeeds(c, recovered) :: c.clip
  }

  lemma NextSucceeded(disk: Disk, completions: seq<Completion>, i: nat, recovered: set<Name>)
    requires i < |completions|
    ensures Succeeded(completions[..i + 1], recovered) ==
            Succeeded(completions[..i], recovered)
            + if Succeeds(completions[i], recovered) then {completions[i].clip} else {}
    ensures DiskAfter(disk, completions[i], recovered).parquet == disk.parquet
    ensures disk.staging <= DiskAfter(disk, completions[i], recovered).staging
    ensures DiskAfter(disk, completions[i], recovered).DoneSet() ==
            disk.DoneSet() + if Succeeds(completions[i], recovered) then {completions[i].clip} else {}
  {
    assert completions[..i + 1] == completions[..i] + [completions[i]];
  }

  /** The row list after i completions. */
  function RowList(recovered: seq<Row>, completions: seq<Completion>, i: nat): seq<Row>
    requires i <= |completions|
  {
    recovered + NewRows(completions[..i], Names(recovered))
  }

  lemma NextRows(recovered: seq<Row>, completions: seq<Completion>, i: nat)
    requires i < |completions|
    ensures RowList(recovered, completions, i + 1) ==
            RowList(recovered, completions, i) + KeptBy(completions[i], Names(recovered))
  {
    assert Front(completions[..i + 1]) == completions[..i];
  }

  lemma RowListEnds(recovered: seq<Row>, completions: seq<Completion>)
    ensures RowList(recovered, completions, 0) == recovered
    ensures RowList(recovered, completions, |completions|) == recovered + NewRows(completions, Names(recovered))
  {
    assert completions[..|completions|] == completions;
  }

  lemma {:induction false} NewRowsAre(completions: seq<Completion>, recovered: set<Name>, r: Row)
    ensures r in NewRows(completions, recovered) <==> exists c :: c in completions && KeptBy(c, recovered) == [r]
  {
    if completions != [] {
      NewRowsAre(Front(completions), recovered, r);
      assert completions == Front(completions) + [Last(completions)];
    }
  }

  lemma {:induction false} NewRowsAreDistinct(completions: seq<Completion>, recovered: set<Name>)
    requires forall i, j :: 0 <= i < j < |completions| ==> completions[i].clip != completions[j].clip
    ensures DistinctClips(NewRows(completions, recovered))
  {
    if completions != [] {
      var before, last := Front(completions), Last(completions);
      NewRowsAreDistinct(before, recovered);
      forall r | r in NewRows(before, recovered) ensures r.clip != last.clip {
        NewRowsAre(before, recovered, r);
      }
    }
  }

  /** The row is one a completion of this run brought to the row list. */
  ghost predicate Brought(completions: seq<Completion>, recovered: set<Name>, r: Row) {
    exists c :: c in completions && KeptBy(c, recovered) == [r]
  }

  /**
   What a commit of recovered and new rows leaves: the new ones, and of every other clip the
   last of the rows found.
   */
  ghost predicate Leaves(parquet: seq<Row>, found: seq<Row>, completions: seq<Completion>) {
    forall r :: r in parquet <==>
      || Brought(completions, Names(found), r)
      || (IsLastOf(found, r) && forall r' :: Brought(completions, Names(found), r') ==> r'.clip != r.clip)
  }

  lemma CommitLeaves(found: seq<Row>, completions: seq<Completion>, parquet: seq<Row>)
    requires forall i, j :: 0 <= i < j < |completions| ==> completions[i].clip != completions[j].clip
    requires parquet == KeepLast(found + NewRows(completions, Names(found)))
    ensures Leaves(parquet, found, completions)
  {
    var added := NewRows(completions, Names(found));
    NewRowsAreDistinct(completions, Names(found));
    forall r ensures r in added <==> Brought(completions, Names(found), r) {
      NewRowsAre(completions, Names(found), r);
    }
    forall r ensures r in parquet <==> r in added || (r.clip !in Names(added) && IsLastOf(found, r)) {
      KeepLastOfAppend(found, added, r);
    }
  }

  /** When every clip succeeds, each extracted row is there, and no other row of a pending clip. */
  lemma CompleteLeaves(found: seq<Row>, completions: seq<Completion>, parquet: seq<Row>, r: Row)
    requires Leaves(parquet, found, completions)
    requires forall c :: c in completions ==> Succeeds(c, Names(found))
    ensures r in parquet <==>
            || (exists c :: c in completions && c.result.Extracted? && r == Row(c.clip, c.result.payload))
            || (r.clip !in ClipsOf(completions) && IsLastOf(found, r))
  {
    if c :| c in completions && c.clip == r.clip {
      assert KeptBy(c, Names(found)) == [Row(c.clip, c.result.payload)];
      assert Brought(completions, Names(found), Row(c.clip, c.result.payload));
    }
  }

  /** What the rows in the parquet are, by the status a run ends with. */
  ghost predicate EndsWith(outcome: Outcome, was: seq<Row>, parquet: seq<Row>, found: seq<Row>,
                           completions: seq<Completion>, pending: set<Name>)
  {
    && (outcome.Complete? ==> forall r :: r in parquet <==>
          || (exists c :: c in completions && c.result.Extracted? && r == Row(c.clip, c.result.payload))
          || (r.clip !in pending && IsLastOf(found, r)))
    && (outcome.Failed? ==>
          if found == [] && forall r :: !Brought(completions, Names(found), r) then parquet == was
          else Leaves(parquet, found, completions))
    && (pending == {} ==> if found == [] then parquet == was else forall r :: r in parquet <==> IsLastOf(found, r))
    && (outcome.Refused? && pending != {} ==> parquet == was)
  }

  /** A refused batch, or a run without a single row, leaves the staging file. */
  ghost predicate KeepsStaging(outcome: Outcome, found: seq<Row>, completions: seq<Completion>, pending: set<Name>) {
    || (outcome.Refused? && pending != {})
    || (found == [] && forall r :: !Brought(completions, Names(found), r))
  }

  lemma NoRows(found: seq<Row>, completions: seq<Completion>)
    ensures found + NewRows(completions, Names(found)) == [] <==>
            found == [] && forall r :: !Brought(completions, Names(found), r)
  {
    var added := NewRows(completions, Names(found));
    forall r ensures r in added <==> Brought(completions, Names(found), r) {
      NewRowsAre(completions, Names(found), r);
    }
    if added != [] {
      assert added[0] in added;
    }
  }

  lemma BatchEnds(outcome: Outcome, was: seq<Row>, parquet: seq<Row>, found: seq<Row>,
                  completions: seq<Completion>, pending: set<Name>)
    requires Resolves(completions, pending) && pending != {}
    requires outcome.Complete? <==> forall c :: c in completions ==> Succeeds(c, Names(found))
    requires outcome.Refused? ==> parquet == was
    requires !outcome.Refused? ==> parquet == Committed(was, found + NewRows(completions, Names(found)))
    ensures EndsWith(outcome, was, parquet, found, completions, pending)
  {
    if !outcome.Refused? {
      forall r ensures r in NewRows(completions, Names(found)) <==> Brought(completions, Names(found), r) {
        NewRowsAre(completions, Names(found), r);
      }
      if found + NewRows(completions, Names(found)) != [] {
        CommitLeaves(found, completions, parquet);
        if outcome.Complete? {
          forall r
            ensures r in parquet <==>
              || (exists c :: c in completions && c.result.Extracted? && r == Row(c.clip, c.result.payload))
              || (r.clip !in pending && IsLastOf(found, r))
          {
            CompleteLeaves(found, completions, parquet, r);
          }
        }
      }
    }
  }

  lemma NothingCompletes(completions: seq<Completion>, recovered: set<Name>)
    requires ClipsOf(completions) == {}
    ensures completions == [] && Succeeded(completions, recovered) == {}
    ensures NewRows(completions, recovered) == []
  {
    SomeCompletes(completions);
  }

  lemma SomeCompletes(completions: seq<Completion>)
    ensures completions != [] ==> ClipsOf(completions) != {}
  {
    if completions != [] {
      assert completions[0].clip in ClipsOf(completions);
    }
  }

  lemma NoopEnds(outcome: Outcome, was: seq<Row>, parquet: seq<Row>, found: seq<Row>, completions: seq<Completion>)
    requires outcome.Refused? || outcome.CompleteNoop?
    requires parquet == Committed(was, found)
    ensures EndsWith(outcome, was, parquet, found, completions, {})
  {
    assert found + [] == found;
    forall r ensures r in KeepLast(found) <==> IsLastOf(found, r) {
      KeepLastOfAppend(found, [], r);
    }
  }

  function EventsOf(c: Completion, recovered: set<Name>): seq<Event> {
    if c.result.WorkerFailed? then [WorkerFail(c.clip)]
    else if c.clip !in recovered && c.result.stageFault.Some? then [StageFault(c.clip, c.result.stageFault.value)]
    else [Stage(Row(c.clip, c.result.payload)), if c.result.markFault then MarkFault else MarkDone]
  }

  lemma StepsOfKept(disk: Disk, b: Batch, c: Completion)
    requires c.clip in b.outstanding && KeptBy(c, Names(b.recovered)) != []
    ensures var row := Row(c.clip, c.result.payload);
            var s := State(disk, Collecting(b));
            && Step(s, Stage(row)).Some?
            && Step(Step(s, Stage(row)).value, if c.result.markFault then MarkFault else MarkDone) ==
               Some(State(DiskAfter(disk, c, Names(b.recovered)), Collecting(BatchAfter(b, c))))
  {}

  lemma StepOfLost(disk: Disk, b: Batch, c: Completion)
    requires c.clip in b.outstanding && KeptBy(c, Names(b.recovered)) == []
    requires c.result.Extracted? && c.result.stageFault.Some? ==> c.result.stageFault.value.Hits({c.clip})
    ensures var events := EventsOf(c, Names(b.recovered));
            |events| == 1 &&
            Step(State(disk, Collecting(b)), events[0]) ==
            Some(State(DiskAfter(disk, c, Names(b.recovered)), Collecting(BatchAfter(b, c))))
  {
    assert b.rows + [] == b.rows;
  }

  lemma ExecOne(s: State, e: Event)
    ensures Exec(s, [e]) == Step(s, e)
  {
    ExecSnoc(s, [], e);
  }

  lemma ExecTwo(s: State, e: Event, e': Event)
    ensures Exec(s, [e, e']) == match Step(s, e) case None => None case Some(mid) => Step(mid, e')
  {
    ExecOne(s, e);
    ExecSnoc(s, [e], e');
    assert [e] + [e'] == [e, e'];
  }

  lemma EventsRun(disk: Disk, b: Batch, c: Completion)
    requires c.clip in b.outstanding
    requires c.result.Extracted? && c.result.stageFault.Some? ==> c.result.stageFault.value.Hits({c.clip})
    ensures Exec(State(disk, Collecting(b)), EventsOf(c, Names(b.recovered))) ==
            Some(State(DiskAfter(disk, c, Names(b.recovered)), Collecting(BatchAfter(b, c))))
  {
    var s, events := State(disk, Collecting(b)), EventsOf(c, Names(b.recovered));
    if KeptBy(c, Names(b.recovered)) == [] {
      StepOfLost(disk, b, c);
      ExecOne(s, events[0]);
    } else {
      StepsOfKept(disk, b, c);
      ExecTwo(s, events[0], events[1]);
    }
  }

  /** The protocol takes one completion to the same files and counters. */
  lemma CompletionIsExecution(log: seq<Event>, disk: Disk, b: Batch, c: Completion)
    requires Exec(INITIAL, log) == Some(State(disk, Collecting(b))) && c.clip in b.outstanding
    requires c.result.Extracted? && c.result.stageFault.Some? ==> c.result.stageFault.value.Hits({c.clip})
    ensures Exec(INITIAL, log + EventsOf(c, Names(b.recovered))) ==
            Some(State(DiskAfter(disk, c, Names(b.recovered)), Collecting(BatchAfter(b, c))))
  {
    EventsRun(disk, b, c);
    ExecAppend(INITIAL, log, EventsOf(c, Names(b.recovered)));
  }

  /** A log extension by collection events only. */
  ghost predicate Quiet(log: seq<Event>, log': seq<Event>) {
    log <= log' && forall e :: e in log'[|log|..] ==> !e.Start? && !e.Crash? && !e.Commit? && !e.Unlink?
  }

  /** The clips without a checkpoint, in the order they were enumerated. */
  function Pending(clips: seq<Name>, doneSet: set<Name>): seq<Name> {
    if clips == [] then []
    else Pending(Front(clips), doneSet) + if Last(clips) in doneSet then [] else [Last(clips)]
  }

  /** The pending clips keep the order of the enumeration. */
  lemma {:induction false} PendingKeepsOrder(clips: seq<Name>, doneSet: set<Name>)
    ensures Among(Pending(clips, doneSet), clips)
  {
    if clips != [] {
      var before, last := Front(clips), Last(clips);
      PendingKeepsOrder(before, doneSet);
      assert clips == before + [last];
      if last in doneSet {
        assert Pending(clips, doneSet) == Pending(before, doneSet);
        AmongSkip(Pending(before, doneSet), before, last);
      } else {
        AmongSnoc(Pending(before, doneSet), before, last);
      }
    }
  }

  lemma SetOfSnoc(names: seq<Name>, name: Name)
    ensures SetOf(names + [name]) == SetOf(names) + {name}
  {}

  /** The protocol folds staged rows in two steps. */
  lemma FoldIsExecution(log: seq<Event>, disk: Disk)
    requires Exec(INITIAL, log) == Some(State(disk, Folding(Load(disk.staging)))) && Load(disk.staging) != []
    ensures var disk' := Disk(disk.done, [], KeepLast(Load(disk.staging)));
            Exec(INITIAL, log + [Commit, Unlink]) == Some(State(disk', NoopVerdict(disk')))
  {
    ExecSnoc(INITIAL, log, Commit);
    ExecSnoc(INITIAL, log + [Commit], Unlink);
    assert log + [Commit] + [Unlink] == log + [Commit, Unlink];
  }

  class Files {
    var done: seq<Name>
    var staging: Text
    var parquet: seq<Row>

    constructor ()
      ensures Now() == EMPTY_DISK
    {
      done, staging, parquet := [], [], [];
    }

    ghost function Now(): Disk
      reads this
    {
      Disk(done, staging, parquet)
    }

    method AppendDone(clip: Name)
      modifies this`done
      ensures done == old(done) + [clip]
    {
      done := done + [clip];
    }

    /** Appends one row; an append that raises may leave a torn piece behind. */
    method AppendRowToStaging(row: Row, fault: Option<Tear>) returns (raised: bool)
      modifies this`staging
      ensures raised == fault.Some?
      ensures staging == if raised then old(staging) + fault.value.Residue() else AppendRow(old(staging), row)
    {
      if fault.Some? {
        staging := staging + fault.value.Residue();
        return true;
      }
      staging := staging + [Object(row), Newline];
      return false;
    }

    method WriteParquetFromRows(rows: seq<Row>)
      modifies this`parquet
      ensures parquet == if rows == [] then old(parquet) else KeepLast(rows)
    {
      if rows == [] {
        return;
      }
      parquet := KeepLast(rows);
    }

    method UnlinkStaging()
      modifies this`staging
      ensures staging == []
    {
      staging := [];
    }

    /** Enumerate the clips and drop the checkpointed ones, in order. */
    method MakeExtractionPlan(clips: seq<Name>) returns (doneSet: set<Name>, pending: seq<Name>)
      ensures doneSet == Now().DoneSet()
      ensures pending == Pending(clips, doneSet) && SetOf(pending) == SetOf(clips) - doneSet
      ensures pending == [] <==> SetOf(clips) - doneSet == {}
    {
      doneSet := set name | name in done;
      pending := [];
      for i := 0 to |clips|
        invariant pending == Pending(clips[..i], doneSet) && SetOf(pending) == SetOf(clips[..i]) - doneSet
      {
        assert clips[..i + 1] == clips[..i] + [clips[i]] && Front(clips[..i + 1]) == clips[..i];
        SetOfSnoc(clips[..i], clips[i]);
        SetOfSnoc(pending, clips[i]);
        if clips[i] !in doneSet {
          pending := pending + [clips[i]];
        }
      }
      assert clips[..|clips|] == clips;
      assert pending != [] ==> pending[0] in SetOf(pending);
    }

    /** Fold staged rows into the parquet and remove the staging file. */
    method RecoverStagedRows(ghost log: seq<Event>) returns (recovered: seq<Row>, ghost log': seq<Event>)
      requires Exec(INITIAL, log) == Some(State(Now(), Folding(Load(staging))))
      modifies this
      ensures done == old(done) && recovered == old(Load(staging))
      ensures log' == if recovered == [] then log else log + [Commit, Unlink]
      ensures recovered == [] ==> Now() == old(Now())
      ensures recovered != [] ==>
                && parquet == KeepLast(recovered) && staging == []
                && Exec(INITIAL, log') == Some(State(Now(), NoopVerdict(Now())))
    {
      var skipped: nat;
      recovered, skipped := LoadStagingRows(staging);
      log' := log;
      if recovered != [] {
        FoldIsExecution(log, Now());
        WriteParquetFromRows(recovered);
        UnlinkStaging();
        log' := log + [Commit, Unlink];
      }
    }

    /** The parquet must have a row for each checkpointed clip; only counts are compared. */
    method VerifyNoopConsistency(doneSet: set<Name>, recovered: seq<Row>) returns (raised: bool)
      ensures raised <==> |doneSet| > |parquet|
    {
      var parquetRows := |parquet|;
      var accounted := if recovered != [] then parquetRows else parquetRows + |recovered|;
      raised := !(|doneSet| <= accounted);
    }

    method FinishNoop(doneSet: set<Name>, ghost log: seq<Event>) returns (outcome: Outcome, ghost log': seq<Event>)
      requires doneSet == Now().DoneSet()
      requires Exec(INITIAL, log) == Some(State(Now(), Folding(Load(staging))))
      modifies this
      ensures log <= log'
      ensures forall e :: e in log'[|log|..] ==> e.Commit? || e.Unlink?
      ensures outcome.Refused? || outcome.CompleteNoop?
      ensures parquet == Committed(old(parquet), old(Load(staging)))
      ensures done == old(done) && staging == if old(Load(staging)) == [] then old(staging) else []
      ensures Exec(INITIAL, log') == Some(State(Now(), Idle(outcome)))
    {
      var recovered: seq<Row>;
      recovered, log' := RecoverStagedRows(log);
      var raised := VerifyNoopConsistency(doneSet, recovered);
      if recovered == [] {
        ExecSnoc(INITIAL, log, Commit);
        log' := log + [Commit];
      }
      outcome := if raised then Refused else CompleteNoop;
    }

    /** One future: stage the row, keep it, checkpoint the clip; count what faults. */
    method CollectOne(c: Completion, recoveredNames: set<Name>) returns (kept: seq<Row>, good: bool)
      modifies this
      ensures Now() == DiskAfter(old(Now()), c, recoveredNames)
      ensures good == Succeeds(c, recoveredNames)
      ensures kept == KeptBy(c, recoveredNames)
    {
      if c.result.WorkerFailed? {
        return [], false;
      }
      var row := Row(c.clip, c.result.payload);
      if c.clip !in recoveredNames {
        var raised := AppendRowToStaging(row, c.result.stageFault);
        if raised {
          return [], false;
        }
      }
      kept := [row];
      if c.result.markFault {
        return kept, false;
      }
      AppendDone(c.clip);
      good := true;
    }

    /** The loop over the futures: files and counters after all of them. */
    method CollectAll(completions: seq<Completion>, recovered: seq<Row>)
      returns (rows: seq<Row>, ok: nat, fail: nat)
      modifies this
      ensures Now() == DiskAll(old(Now()), completions, Names(recovered), |completions|)
      ensures var b := BatchAll(recovered, completions, |completions|);
              rows == b.rows && ok == b.ok && fail == b.fail
    {
      rows, ok, fail := recovered, 0, 0;
      var recoveredNames := Names(recovered);
      ghost var b := BatchAll(recovered, completions, 0);
      for i := 0 to |completions|
        invariant Now() == DiskAll(old(Now()), completions, recoveredNames, i)
        invariant b == BatchAll(recovered, completions, i) && b.recovered == recovered
        invariant rows == b.rows && ok == b.ok && fail == b.fail
      {
        b := BatchAfter(b, completions[i]);
        var kept, good := CollectOne(completions[i], recoveredNames);
        rows := rows + kept;
        if good {
          ok := ok + 1;
        } else {
          fail := fail + 1;
        }
      }
    }

    /** Collect worker results, staging each row before checkpointing its clip. */
    method CollectExtractJobs(completions: seq<Completion>, recovered: seq<Row>, ghost log: seq<Event>)
      returns (rows: seq<Row>, ok: nat, fail: nat, ghost b: Batch, ghost log': seq<Event>)
      requires Resolves(completions, ClipsOf(completions))
      requires Exec(INITIAL, log) ==
               Some(State(Now(), Collecting(Batch(ClipsOf(completions), recovered, recovered, 0, 0, 0))))
      modifies this
      ensures parquet == old(parquet) && old(staging) <= staging
      ensures Now().DoneSet() == old(Now().DoneSet()) + Succeeded(completions, Names(recovered))
      ensures Quiet(log, log')
      ensures b == Batch({}, recovered, rows, ok, fail, b.markFaults)
      ensures rows == recovered + NewRows(completions, Names(recovered))
      ensures ok + fail == |completions| && |rows| == |recovered| + ok + b.markFaults
      ensures fail == 0 <==> forall c :: c in completions ==> Succeeds(c, Names(recovered))
      ensures b.markFaults == 0 <==> forall c :: c in completions ==> !MissesCheckpoint(c, Names(recovered))
      ensures Exec(INITIAL, log') == Some(State(Now(), Collecting(b)))
    {
      rows, ok, fail := CollectAll(completions, recovered);
      b := BatchAll(recovered, completions, |completions|);
      log' := log + AllEvents(completions, Names(recovered), |completions|);
      CollectionIsExecution(log, old(Now()), recovered, completions);
      AllIsQuiet(log, completions, Names(recovered));
      AllCollected(recovered, completions);
      AllDurable(old(Now()), completions, Names(recovered));
    }

    /** Check the row accounting, then replace the parquet and drop the staging file. */
    method WriteBatchRows(rows: seq<Row>, recoveredCount: nat, ok: nat, ghost b: Batch, ghost log: seq<Event>)
      returns (raised: bool, ghost log': seq<Event>)
      requires b.rows == rows && |b.recovered| == recoveredCount && b.ok == ok && b.outstanding == {}
      requires Exec(INITIAL, log) == Some(State(Now(), Collecting(b)))
      modifies this
      ensures log' == log + if rows == [] || raised then [Commit] else [Commit, Unlink]
      ensures raised <==> rows != [] && |rows| != recoveredCount + ok
      ensures parquet == if raised then old(parquet) else Committed(old(parquet), rows)
      ensures done == old(done) && staging == if raised || rows == [] then old(staging) else []
      ensures Exec(INITIAL, log') == Some(State(Now(), if raised then Idle(Refused) else EndOf(b)))
    {
      raised := false;
      ExecSnoc(INITIAL, log, Commit);
      log' := log + [Commit];
      if rows == [] {
        return;
      }
      var expected := recoveredCount + ok;
      if |rows| != expected {
        raised := true;
        return;
      }
      WriteParquetFromRows(rows);
      assert Exec(INITIAL, log') == Some(State(Now(), Written(b)));
      ExecSnoc(INITIAL, log', Unlink);
      UnlinkStaging();
      log' := log' + [Unlink];
    }

    /** Extract the pending clips, then commit and report the process status. */
    method RunPendingBatch(completions: seq<Completion>, ghost clips: set<Name>, ghost log: seq<Event>)
      returns (outcome: Outcome, ghost log': seq<Event>)
      requires Resolves(completions, ClipsOf(completions)) && ClipsOf(completions) != {}
      requires ClipsOf(completions) == clips - Now().DoneSet()
      requires Exec(INITIAL, log) == Some(State(Now(), Begin(Now(), clips)))
      modifies this
      ensures Closes(log, log', outcome)
      ensures Exec(INITIAL, log') == Some(State(Now(), Idle(outcome)))
      ensures outcome.Refused? || outcome.Complete? || outcome.Failed?
      ensures outcome.Complete? <==> forall c :: c in completions ==> Succeeds(c, Names(old(Load(staging))))
      ensures outcome.Refused? <==> exists c :: c in completions && MissesCheckpoint(c, Names(old(Load(staging))))
      ensures Now().DoneSet() == old(Now().DoneSet()) + Succeeded(completions, Names(old(Load(staging))))
      ensures var found := old(Load(staging));
              if outcome.Refused? || found + NewRows(completions, Names(found)) == [] then old(staging) <= staging
              else staging == []
      ensures outcome.Refused? ==> parquet == old(parquet)
      ensures !outcome.Refused? ==>
                var found := old(Load(staging));
                parquet == Committed(old(parquet), found + NewRows(completions, Names(found)))
    {
      var recovered, skipped := LoadStagingRows(staging);
      var rows, ok, fail;
      ghost var b, mid;
      rows, ok, fail, b, mid := CollectExtractJobs(completions, recovered, log);
      var raised;
      raised, log' := WriteBatchRows(rows, |recovered|, ok, b, mid);
      outcome := if raised then Refused else if fail == 0 then Complete else Failed;
      BatchCloses(log, mid, log', outcome);
    }

    /**
     One invocation.  `history` is everything that happened to the files before;
     the log it is extended to is an execution of the protocol that ends in these
     files, so every theorem about executions applies to it.
     */
    method Run(clips: seq<Name>, completions: seq<Completion>, ghost history: seq<Event>, ghost last: Outcome)
      returns (outcome: Outcome, ghost log: seq<Event>)
      requires Exec(INITIAL, history) == Some(State(Now(), Idle(last)))
      requires Resolves(completions, SetOf(clips) - Now().DoneSet())
      modifies this
      ensures Exec(INITIAL, log) == Some(State(Now(), Idle(outcome)))
      ensures Closes(history + [Start(SetOf(clips))], log, outcome)
      // What the exit status says about this run.
      ensures SetOf(clips) - old(Now().DoneSet()) == {} ==> outcome.Refused? || outcome.CompleteNoop?
      ensures SetOf(clips) - old(Now().DoneSet()) != {} ==>
                var recovered := Names(old(Load(staging)));
                && (outcome.Refused? || outcome.Complete? || outcome.Failed?)
                && (outcome.Complete? <==> forall c :: c in completions ==> Succeeds(c, recovered))
                && (outcome.Refused? <==> exists c :: c in completions && MissesCheckpoint(c, recovered))
      // What a complete run has written, and exactly when that is a row for every clip.
      ensures outcome.Complete? ==>
                && Names(parquet) == Names(old(Load(staging))) + (SetOf(clips) - old(Now().DoneSet()))
                && SetOf(clips) <= Now().DoneSet() && staging == []
                && (SetOf(clips) <= Names(parquet) <==>
                      SetOf(clips) * old(Now().DoneSet()) <= Names(old(Load(staging))))
      // Which clips it has checkpointed, what it leaves in the staging file, and which rows in the parquet.
      ensures Now().DoneSet() == old(Now().DoneSet()) + Succeeded(completions, Names(old(Load(staging))))
      ensures if KeepsStaging(outcome, old(Load(staging)), completions, SetOf(clips) - old(Now().DoneSet()))
              then old(staging) <= staging else staging == []
      ensures EndsWith(outcome, old(parquet), parquet, old(Load(staging)), completions,
                       SetOf(clips) - old(Now().DoneSet()))
    {
      ghost var start := Now();
      var doneSet, pending := MakeExtractionPlan(clips);
      ghost var all := SetOf(clips);
      ExecSnoc(INITIAL, history, Start(all));
      log := history + [Start(all)];
      if pending == [] {
        outcome, log := FinishNoop(doneSet, log);
        NoRows(Load(start.staging), completions);
        NothingCompletes(completions, Names(Load(start.staging)));
        NoopEnds(outcome, start.parquet, parquet, Load(start.staging), completions);
      } else {
        outcome, log := RunPendingBatch(completions, all, log);
        NoRows(Load(start.staging), completions);
        BatchEnds(outcome, start.parquet, parquet, Load(start.staging), completions, SetOf(pending));
      }
      if outcome.Complete? {
        RunIsComplete(history, all, log, outcome, start, Now());
      }
    }
  }

  /** How one run's log continues: collection, then at most one commit and unlink. */
  ghost predicate Closes(log: seq<Event>, log': seq<Event>, outcome: Outcome) {
    && log <= log'
    && (forall e :: e in log'[|log|..] ==> !e.Start? && !e.Crash?)
    && (outcome.Complete? ==>
          exists before :: Quiet(log, before) && (log' == before + [Commit] || log' == before + [Commit, Unlink]))
  }

  lemma BatchCloses(log: seq<Event>, mid: seq<Event>, log': seq<Event>, outcome: Outcome)
    requires Quiet(log, mid) && (log' == mid + [Commit] || log' == mid + [Commit, Unlink])
    ensures Closes(log, log', outcome)
  {
    assert log'[|log|..] == mid[|log|..] + log'[|mid|..];
  }

  lemma LogSplits(history: seq<Event>, clips: set<Name>, log: seq<Event>) returns (rest: seq<Event>)
    requires history + [Start(clips)] <= log && forall e :: e in log[|history| + 1..] ==> !e.Start?
    ensures log == history + [Start(clips)] + rest && OneRun(rest)
  {
    rest := log[|history| + 1..];
  }

  /** A run that reports complete, as the journal sees it. */
  lemma RunIsComplete(history: seq<Event>, clips: set<Name>, log: seq<Event>, outcome: Outcome, start: Disk, end: Disk)
    requires exists last :: Exec(INITIAL, history) == Some(State(start, Idle(last)))
    requires Closes(history + [Start(clips)], log, outcome) && outcome.Complete?
    requires Exec(INITIAL, log) == Some(State(end, Idle(outcome)))
    ensures Names(end.parquet) == Names(Load(start.staging)) + (clips - start.DoneSet())
    ensures clips <= end.DoneSet() && end.staging == []
    ensures clips <= Names(end.parquet) <==> clips * start.DoneSet() <= Names(Load(start.staging))
  {
    var rest := LogSplits(history, clips, log);
    CompleteWrites(history, clips, rest, start, end);
    CompleteIsTotalExactlyWhen(history, clips, rest, start, end);
  }

  /**
   What the exit status of a run says, after any history of runs, crashed or not.
   `complete` has a row for every clip exactly when the checkpointed clips of the list
   were readable in the staging file it found; so it has when, over the same clips and
   whole-line appends, no earlier run with a failed clip dropped that file.
   `complete-noop` over the same clips always means three equal sets of names.
   */
  lemma ExitStatusIsTrustworthy(clips: set<Name>, history: seq<Event>, log: seq<Event>,
                                start: Disk, end: Disk, outcome: Outcome)
    requires exists last :: Exec(INITIAL, history) == Some(State(start, Idle(last)))
    requires Closes(history + [Start(clips)], log, outcome)
    requires Exec(INITIAL, log) == Some(State(end, Idle(outcome)))
    ensures outcome.Complete? ==>
              && clips <= end.DoneSet() && end.staging == []
              && Names(end.parquet) == Names(Load(start.staging)) + (clips - start.DoneSet())
              && (clips <= Names(end.parquet) <==> clips * start.DoneSet() <= Names(Load(start.staging)))
    ensures outcome.Complete? && FixedClips(history, clips) && NoFailingUnlink(INITIAL, history) ==>
              end.DoneSet() == clips && |clips - Names(end.parquet)| <= Damage(log)
    ensures outcome.CompleteNoop? && FixedClips(history, clips) ==>
              Names(end.parquet) == end.DoneSet() == clips
  {
    SameClips(history, log, clips);
    if outcome.Complete? {
      RunIsComplete(history, clips, log, outcome, start, end);
      if FixedClips(history, clips) && NoFailingUnlink(INITIAL, history) {
        TotalUpToDamage(clips, history, log, end, outcome);
      }
    } else if outcome.CompleteNoop? && FixedClips(history, clips) {
      NoopIsSound(clips, log);
    }
  }

  lemma TotalUpToDamage(clips: set<Name>, history: seq<Event>, log: seq<Event>, end: Disk, outcome: Outcome)
    requires NoFailingUnlink(INITIAL, history) && FixedClips(log, clips)
    requires Closes(history + [Start(clips)], log, outcome) && outcome.Complete?
    requires Exec(INITIAL, log) == Some(State(end, Idle(outcome)))
    ensures end.DoneSet() == clips && |clips - Names(end.parquet)| <= Damage(log)
  {
    var before :| Quiet(history + [Start(clips)], before) &&
                  (log == before + [Commit] || log == before + [Commit, Unlink]);
    CompleteLogIsGuarded(history, before, log, clips);
    CompletionIsTotal(clips, log);
  }

  lemma CompleteLogIsGuarded(history: seq<Event>, before: seq<Event>, log: seq<Event>, clips: set<Name>)
    requires NoFailingUnlink(INITIAL, history) && Quiet(history + [Start(clips)], before)
    requires log == before + [Commit] || log == before + [Commit, Unlink]
    requires match Exec(INITIAL, log) case None => false case Some(s) => s.phase == Idle(Complete)
    ensures NoFailingUnlink(INITIAL, log)
  {
    GuardSnoc(history, Start(clips));
    GuardedUntilCommit(history + [Start(clips)], before);
    GuardSnoc(before, Commit);
    if log == before + [Commit, Unlink] {
      assert log == before + [Commit] + [Unlink];
      UnlinkOfComplete(before + [Commit]);
      GuardSnoc(before + [Commit], Unlink);
    }
  }

  ghost predicate UnlinkIsGuarded(events: seq<Event>) {
    match Exec(INITIAL, events) case None => true case Some(mid) => mid.phase.Written? ==> mid.phase.batch.fail == 0
  }

  lemma GuardSnoc(events: seq<Event>, e: Event)
    requires NoFailingUnlink(INITIAL, events) && (e.Unlink? ==> UnlinkIsGuarded(events))
    ensures NoFailingUnlink(INITIAL, events + [e])
  {
    assert Front(events + [e]) == events;
  }

  lemma UnlinkOfComplete(events: seq<Event>)
    requires match Exec(INITIAL, events + [Unlink]) case None => false case Some(s) => s.phase == Idle(Complete)
    ensures UnlinkIsGuarded(events)
  {
    ExecSnoc(INITIAL, events, Unlink);
  }

  lemma SameClips(history: seq<Event>, log: seq<Event>, clips: set<Name>)
    requires history + [Start(clips)] <= log
    requires forall e :: e in log[|history| + 1..] ==> !e.Start?
    ensures FixedClips(history, clips) ==> FixedClips(log, clips)
  {}

  lemma {:induction false} GuardedUntilCommit(left: seq<Event>, log: seq<Event>)
    requires left <= log && forall e :: e in log[|left|..] ==> !e.Unlink?
    requires NoFailingUnlink(INITIAL, left)
    ensures NoFailingUnlink(INITIAL, log)
  {
    if |left| == |log| {
      assert left == log;
    } else {
      assert log[|left|..] == Front(log)[|left|..] + [Last(log)];
      GuardedUntilCommit(left, Front(log));
    }
  }

  /** What has been collected after i completions. */
  function BatchAll(recovered: seq<Row>, completions: seq<Completion>, i: nat): Batch
    requires i <= |completions|
  {
    if i == 0 then Batch(ClipsOf(completions), recovered, recovered, 0, 0, 0)
    else BatchAfter(BatchAll(recovered, completions, i - 1), completions[i - 1])
  }

  lemma {:induction false} OutstandingAfter(recovered: seq<Row>, completions: seq<Completion>, i: nat)
    requires i <= |completions| && Resolves(completions, ClipsOf(completions))
    ensures BatchAll(recovered, completions, i).outstanding == ClipsOf(completions[i..])
  {
    if i == 0 {
      assert completions[0..] == completions;
    } else {
      OutstandingAfter(recovered, completions, i - 1);
      RestOfCompletions(completions, i - 1);
    }
  }

  lemma {:induction false} RowsAfter(recovered: seq<Row>, completions: seq<Completion>, i: nat)
    requires i <= |completions|
    ensures BatchAll(recovered, completions, i).recovered == recovered
    ensures BatchAll(recovered, completions, i).rows == RowList(recovered, completions, i)
  {
    if i == 0 {
      RowListEnds(recovered, completions);
    } else {
      RowsAfter(recovered, completions, i - 1);
      NextRows(recovered, completions, i - 1);
    }
  }

  lemma {:induction false} CountsAfter(recovered: seq<Row>, completions: seq<Completion>, i: nat)
    requires i <= |completions|
    ensures var b := BatchAll(recovered, completions, i);
            b.recovered == recovered && b.ok + b.fail == i && |b.rows| == |recovered| + b.ok + b.markFaults
  {
    if i > 0 {
      CountsAfter(recovered, completions, i - 1);
    }
  }

  lemma {:induction false} FailsAfter(recovered: seq<Row>, completions: seq<Completion>, i: nat)
    requires i <= |completions|
    ensures BatchAll(recovered, completions, i).fail == 0 <==>
            forall j :: 0 <= j < i ==> Succeeds(completions[j], Names(recovered))
  {
    if i > 0 {
      FailsAfter(recovered, completions, i - 1);
      CountsAfter(recovered, completions, i - 1);
    }
  }

  lemma {:induction false} MarkFaultsAfter(recovered: seq<Row>, completions: seq<Completion>, i: nat)
    requires i <= |completions|
    ensures BatchAll(recovered, completions, i).markFaults == 0 <==>
            forall j :: 0 <= j < i ==> !MissesCheckpoint(completions[j], Names(recovered))
  {
    if i > 0 {
      MarkFaultsAfter(recovered, completions, i - 1);
      CountsAfter(recovered, completions, i - 1);
    }
  }

  lemma NextOutstanding(recovered: seq<Row>, completions: seq<Completion>, i: nat)
    requires i < |completions| && Resolves(completions, ClipsOf(completions))
    ensures BatchAll(recovered, completions, i).recovered == recovered
    ensures completions[i].clip in BatchAll(recovered, completions, i).outstanding
    ensures completions[i] in completions
  {
    CountsAfter(recovered, completions, i);
    OutstandingAfter(recovered, completions, i);
    RestOfCompletions(completions, i);
  }

  lemma AllCollected(recovered: seq<Row>, completions: seq<Completion>)
    requires Resolves(completions, ClipsOf(completions))
    ensures var b := BatchAll(recovered, completions, |completions|);
            && b == Batch({}, recovered, b.rows, b.ok, b.fail, b.markFaults)
            && b.rows == recovered + NewRows(completions, Names(recovered))
            && b.ok + b.fail == |completions| && |b.rows| == |recovered| + b.ok + b.markFaults
            && (b.fail == 0 <==> forall c :: c in completions ==> Succeeds(c, Names(recovered)))
            && (b.markFaults == 0 <==> forall c :: c in completions ==> !MissesCheckpoint(c, Names(recovered)))
  {
    var n := |completions|;
    assert completions[n..] == [];
    OutstandingAfter(recovered, completions, n);
    RowsAfter(recovered, completions, n);
    RowListEnds(recovered, completions);
    CountsAfter(recovered, completions, n);
    FailsAfter(recovered, completions, n);
    MarkFaultsAfter(recovered, completions, n);
  }

  /** The files after i completions. */
  function DiskAll(disk: Disk, completions: seq<Completion>, recovered: set<Name>, i: nat): Disk
    requires i <= |completions|
  {
    if i == 0 then disk else DiskAfter(DiskAll(disk, completions, recovered, i - 1), completions[i - 1], recovered)
  }

  lemma {:induction false} DurableAfter(disk: Disk, completions: seq<Completion>, recovered: set<Name>, i: nat)
    requires i <= |completions|
    ensures var after := DiskAll(disk, completions, recovered, i);
            && after.parquet == disk.parquet && disk.staging <= after.staging
            && after.DoneSet() == disk.DoneSet() + Succeeded(completions[..i], recovered)
  {
    if i > 0 {
      DurableAfter(disk, completions, recovered, i - 1);
      NextSucceeded(DiskAll(disk, completions, recovered, i - 1), completions, i - 1, recovered);
    }
  }

  lemma AllDurable(disk: Disk, completions: seq<Completion>, recovered: set<Name>)
    ensures var after := DiskAll(disk, completions, recovered, |completions|);
            && after.parquet == disk.parquet && disk.staging <= after.staging
            && after.DoneSet() == disk.DoneSet() + Succeeded(completions, recovered)
  {
    DurableAfter(disk, completions, recovered, |completions|);
    assert completions[..|completions|] == completions;
  }

  function AllEvents(completions: seq<Completion>, recovered: set<Name>, i: nat): seq<Event>
    requires i <= |completions|
  {
    if i == 0 then [] else AllEvents(completions, recovered, i - 1) + EventsOf(completions[i - 1], recovered)
  }

  predicate CollectionOnly(events: seq<Event>) {
    forall e :: e in events ==> !e.Start? && !e.Crash? && !e.Commit? && !e.Unlink?
  }

  lemma {:induction false} AllEventsCollect(completions: seq<Completion>, recovered: set<Name>, i: nat)
    requires i <= |completions|
    ensures CollectionOnly(AllEvents(completions, recovered, i))
  {
    if i > 0 {
      AllEventsCollect(completions, recovered, i - 1);
    }
  }

  lemma AllIsQuiet(log: seq<Event>, completions: seq<Completion>, recovered: set<Name>)
    ensures Quiet(log, log + AllEvents(completions, recovered, |completions|))
  {
    var more := AllEvents(completions, recovered, |completions|);
    AllEventsCollect(completions, recovered, |completions|);
    assert (log + more)[|log|..] == more;
  }

  lemma NextEventsRun(s: State, before: seq<Event>, c: Completion, disk: Disk, b: Batch)
    requires Exec(s, before) == Some(State(disk, Collecting(b))) && c.clip in b.outstanding
    requires c.result.Extracted? && c.result.stageFault.Some? ==> c.result.stageFault.value.Hits({c.clip})
    ensures Exec(s, before + EventsOf(c, Names(b.recovered))) ==
            Some(State(DiskAfter(disk, c, Names(b.recovered)), Collecting(BatchAfter(b, c))))
  {
    EventsRun(disk, b, c);
    ExecAppend(s, before, EventsOf(c, Names(b.recovered)));
  }

  /** Completion i is of a clip the batch still waits for, and tears only its own row. */
  predicate Ready(recovered: seq<Row>, completions: seq<Completion>, i: nat)
    requires i < |completions|
  {
    var b, c := BatchAll(recovered, completions, i), completions[i];
    && b.recovered == recovered && c.clip in b.outstanding
    && (c.result.Extracted? && c.result.stageFault.Some? ==> c.result.stageFault.value.Hits({c.clip}))
  }

  /** After i completions the events lead to the files and counters they have then. */
  ghost predicate Leads(s: State, disk: Disk, recovered: seq<Row>, completions: seq<Completion>, i: nat)
    requires i <= |completions|
  {
    Exec(s, AllEvents(completions, Names(recovered), i))
    == Some(State(DiskAll(disk, completions, Names(recovered), i), Collecting(BatchAll(recovered, completions, i))))
  }

  lemma LeadsOn(s: State, disk: Disk, recovered: seq<Row>, completions: seq<Completion>, i: nat)
    requires i < |completions| && Ready(recovered, completions, i) && Leads(s, disk, recovered, completions, i)
    ensures Leads(s, disk, recovered, completions, i + 1)
  {
    NextEventsRun(s, AllEvents(completions, Names(recovered), i), completions[i],
                  DiskAll(disk, completions, Names(recovered), i), BatchAll(recovered, completions, i));
  }

  lemma AllEventsRun(s: State, disk: Disk, recovered: seq<Row>, completions: seq<Completion>)
    requires forall k: nat :: k < |completions| ==> Ready(recovered, completions, k)
    requires Leads(s, disk, recovered, completions, 0)
    ensures Leads(s, disk, recovered, completions, |completions|)
  {
    for i := 0 to |completions|
      invariant Leads(s, disk, recovered, completions, i)
    {
      LeadsOn(s, disk, recovered, completions, i);
    }
  }

  lemma AllReady(recovered: seq<Row>, completions: seq<Completion>)
    requires Resolves(completions, ClipsOf(completions))
    ensures forall k: nat :: k < |completions| ==> Ready(recovered, completions, k)
  {
    forall k: nat | k < |completions| ensures Ready(recovered, completions, k) {
      NextOutstanding(recovered, completions, k);
    }
  }

  /** The protocol takes all completions to the same files and counters. */
  lemma CollectionIsExecution(log: seq<Event>, disk: Disk, recovered: seq<Row>, completions: seq<Completion>)
    requires Resolves(completions, ClipsOf(completions))
    requires Exec(INITIAL, log) == Some(State(disk, Collecting(BatchAll(recovered, completions, 0))))
    ensures Exec(INITIAL, log + AllEvents(completions, Names(recovered), |completions|)) ==
            Some(State(DiskAll(disk, completions, Names(recovered), |completions|),
                       Collecting(BatchAll(recovered, completions, |completions|))))
  {
    AllReady(recovered, completions);
    AllEventsRun(State(disk, Collecting(BatchAll(recovered, completions, 0))), disk, recovered, completions);
    ExecAppend(INITIAL, log, AllEvents(completions, Names(recovered), |completions|));
  }

  lemma RestOfCompletions(completions: seq<Completion>, i: nat)
    requires i < |completions| && Resolves(completions, ClipsOf(completions))
    ensures completions[i].clip in ClipsOf(completions[i..])
    ensures ClipsOf(completions[i..]) - {completions[i].clip} == ClipsOf(completions[i + 1..])
  {}
}
