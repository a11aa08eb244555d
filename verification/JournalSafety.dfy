/**
 What the crash-restart journal guarantees over whole executions: any number of
 runs, any completion order, a crash anywhere, and appends torn anywhere.
 */
module JournalSafety {
  import opened Collections
  import opened Options
  import opened StagingLog
  import opened Journal

  // ----- An invariant of every execution over a fixed clip list

  ghost predicate BatchSane(disk: Disk, b: Batch, inHand: set<Name>, clips: set<Name>) {
    && b.outstanding <= clips
    && Names(b.rows) <= clips
    && Names(b.recovered) <= StagingLog.Written(disk.staging)
    && inHand <= StagingLog.Written(disk.staging)
    && |b.rows| == |b.recovered| + b.ok + b.markFaults
    && b.markFaults <= b.fail
    && (b.fail == 0 ==> clips == disk.DoneSet() + b.outstanding + inHand)
    && (b.fail == 0 && b.rows == [] ==> b.outstanding + inHand != {})
  }

  ghost predicate Sane(s: State, clips: set<Name>) {
    && s.disk.DoneSet() <= clips
    && Names(s.disk.parquet) <= clips
    && StagingLog.Written(s.disk.staging) <= clips
    && DistinctClips(s.disk.parquet)
    && match s.phase
       case Idle(last) => last.CompleteNoop? ==> Names(s.disk.parquet) == s.disk.DoneSet() == clips
       case Collecting(b) => BatchSane(s.disk, b, {}, clips)
       case Staged(b, row) => BatchSane(s.disk, b, {row.clip}, clips)
       case Written(b) =>
         && BatchSane(s.disk, b, {}, clips)
         && b.outstanding == {} && b.rows != [] && b.markFaults == 0
         && s.disk.parquet == KeepLast(b.rows)
       case Folding(recovered) => recovered == Load(s.disk.staging) && clips <= s.disk.DoneSet()
       case Folded => clips <= s.disk.DoneSet() && Names(s.disk.parquet) == Names(Load(s.disk.staging))
  }

  lemma SubsetOfEqualSize(small: set<Name>, big: set<Name>)
    requires small <= big && |big| <= |small|
    ensures small == big
  {
    assert |big - small| == |big| - |small|;
  }

  /** Equal cardinalities do mean equal names, because every name is a clip. */
  lemma NoopVerdictSane(disk: Disk, clips: set<Name>)
    requires disk.DoneSet() == clips && Names(disk.parquet) <= clips && DistinctClips(disk.parquet)
    ensures NoopVerdict(disk).last.CompleteNoop? <==> Names(disk.parquet) == disk.DoneSet()
  {
    DistinctClipsCount(disk.parquet);
    if |disk.DoneSet()| <= |disk.parquet| {
      SubsetOfEqualSize(Names(disk.parquet), clips);
    }
  }

  lemma WrittenGrows(text: Text, row: Row, tear: Tear)
    ensures StagingLog.Written(AppendRow(text, row)) == StagingLog.Written(text) + {row.clip}
    ensures StagingLog.Written(text + tear.Residue()) ==
            StagingLog.Written(text) + if tear.Unterminated? then {tear.row.clip} else {}
  {}

  lemma DoneSnoc(disk: Disk, clip: Name)
    ensures disk.(done := disk.done + [clip]).DoneSet() == disk.DoneSet() + {clip}
  {}

  lemma NothingPending(disk: Disk, clips: set<Name>)
    ensures clips - disk.DoneSet() == {} <==> clips <= disk.DoneSet()
  {
    assert forall clip :: clip in clips && clip !in disk.DoneSet() ==> clip in clips - disk.DoneSet();
  }

  lemma SaneStart(s: State, e: Event, clips: set<Name>)
    requires Sane(s, clips) && Step(s, e).Some? && e == Start(clips)
    ensures Sane(Step(s, e).value, clips)
  {
    WrittenIsLoadedOrSpoiled(s.disk.staging);
    NothingPending(s.disk, clips);
  }

  lemma SaneStage(s: State, e: Event, clips: set<Name>)
    requires Sane(s, clips) && Step(s, e).Some? && e.Stage?
    ensures Sane(Step(s, e).value, clips)
  {}

  lemma SaneMark(s: State, e: Event, clips: set<Name>)
    requires Sane(s, clips) && Step(s, e).Some? && (e.MarkDone? || e.MarkFault?)
    ensures Sane(Step(s, e).value, clips)
  {}

  lemma SaneTear(s: State, e: Event, clips: set<Name>)
    requires Sane(s, clips) && Step(s, e).Some? && (e.WorkerFail? || e.StageFault? || e.Crash?)
    ensures Sane(Step(s, e).value, clips)
  {}

  lemma SaneCommit(s: State, e: Event, clips: set<Name>)
    requires Sane(s, clips) && Step(s, e).Some? && (e.Commit? || e.Unlink?)
    ensures Sane(Step(s, e).value, clips)
  {
    if e.Commit? {
      var rows := if s.phase.Collecting? then s.phase.batch.rows else s.phase.recovered;
      KeepLastNames(rows);
      KeepLastDistinct(rows);
      if s.phase.Folding? {
        WrittenIsLoadedOrSpoiled(s.disk.staging);
        NoopVerdictSane(s.disk, clips);
      }
    } else if s.phase.Folded? {
      NoopVerdictSane(s.disk.(staging := []), clips);
    }
  }

  lemma SaneStep(s: State, e: Event, clips: set<Name>)
    requires Sane(s, clips) && Step(s, e).Some?
    requires e.Start? ==> e.clips == clips
    ensures Sane(Step(s, e).value, clips)
  {
    match e
    case Start(_) => SaneStart(s, e, clips);
    case Stage(_) => SaneStage(s, e, clips);
    case MarkDone => SaneMark(s, e, clips);
    case MarkFault => SaneMark(s, e, clips);
    case Commit => SaneCommit(s, e, clips);
    case Unlink => SaneCommit(s, e, clips);
    case _ => SaneTear(s, e, clips);
  }

  lemma {:induction false} SaneAlways(clips: set<Name>, events: seq<Event>)
    requires Exec(INITIAL, events).Some? && FixedClips(events, clips)
    ensures Sane(Exec(INITIAL, events).value, clips)
  {
    if events != [] {
      assert forall e :: e in Front(events) ==> e in events;
      SaneAlways(clips, Front(events));
      SaneStep(Exec(INITIAL, Front(events)).value, Last(events), clips);
    }
  }

  /** A run that reports `complete-noop` has a row for every clip, and no other. */
  lemma NoopIsSound(clips: set<Name>, events: seq<Event>)
    requires Exec(INITIAL, events).Some? && FixedClips(events, clips)
    requires Exec(INITIAL, events).value.phase == Idle(CompleteNoop)
    ensures var disk := Exec(INITIAL, events).value.disk;
            Names(disk.parquet) == disk.DoneSet() == clips && |disk.parquet| == |clips|
  {
    SaneAlways(clips, events);
    DistinctClipsCount(Exec(INITIAL, events).value.disk.parquet);
  }

  // ----- Coverage

  /**
   Before the first unlink every checkpointed clip was written to the staging
   file.  After it, all clips are done and the parquet holds them.  `lost` are
   the rows that torn appends have destroyed.
   */
  ghost predicate Ledger(s: State, clips: set<Name>, lost: set<Name>) {
    || (&& s.disk.DoneSet() <= StagingLog.Written(s.disk.staging) + lost
        && ((s.phase.Collecting? || s.phase.Staged? || s.phase.Written?) ==>
              s.disk.DoneSet() <= Names(s.phase.batch.rows) + Names(Spoiled(s.disk.staging)) + lost)
        && s.phase != Idle(Complete))
    || Settled(s, clips, lost)
  }

  ghost predicate Settled(s: State, clips: set<Name>, lost: set<Name>) {
    && (s.phase.Idle? || s.phase == Folding([]))
    && s.disk.staging == []
    && clips <= s.disk.DoneSet()
    && clips <= Names(s.disk.parquet) + lost
  }

  lemma SpoiledGrows(text: Text, row: Row, piece: Piece)
    requires !piece.Newline?
    ensures Names(Spoiled(text)) <= Names(Spoiled(AppendRow(text, row)))
    ensures Names(Spoiled(text)) <= Names(Spoiled(text + [piece]))
  {
    ReadingOfSplit(text);
    ReadingOfSplit(text + [piece]);
    SplitSnoc(text, piece);
    ObjectsSnoc(Split(text).tail, piece);
    if Split(text).tail == [] {
      AppendToCleanTail(text, row);
    } else {
      AppendToTornTail(text, row);
    }
  }

  lemma SpoiledGrowsByAppend(text: Text, row: Row)
    ensures Names(Spoiled(text)) <= Names(Spoiled(AppendRow(text, row)))
  {
    SpoiledGrows(text, row, Cut);
  }

  lemma SpoiledGrowsByTear(text: Text, tear: Tear)
    ensures Names(Spoiled(text)) <= Names(Spoiled(text + tear.Residue()))
    ensures Debt(text) <= Debt(text + tear.Residue()) <= Debt(text) + tear.Cost()
  {
    match tear
    case NoTear => assert text + [] == text;
    case Partial(_) => SpoiledGrows(text, Row("", 0), Cut); DebtOfTear(text, Cut);
    case Unterminated(row) => SpoiledGrows(text, row, Object(row)); DebtOfTear(text, Object(row));
  }

  lemma {:induction false} NamesCount(rows: seq<Row>)
    ensures |Names(rows)| <= |rows|
  {
    if rows != [] {
      var n := |rows| - 1;
      assert rows == rows[..n] + [rows[n]];
      NamesSnoc(rows[..n], rows[n]);
      NamesCount(rows[..n]);
    }
  }

  lemma LedgerOfStart(s: State, e: Event, clips: set<Name>, lost: set<Name>)
    requires Ledger(s, clips, lost) && Step(s, e).Some? && e == Start(clips)
    ensures Ledger(Step(s, e).value, clips, lost)
  {
    WrittenIsLoadedOrSpoiled(s.disk.staging);
    if Settled(s, clips, lost) {
      assert clips - s.disk.DoneSet() == {};
    }
  }

  lemma LedgerOfStage(s: State, e: Event, clips: set<Name>, lost: set<Name>)
    requires Ledger(s, clips, lost) && Step(s, e).Some? && e.Stage?
    ensures Ledger(Step(s, e).value, clips, lost)
  {
    WrittenGrows(s.disk.staging, e.row, NoTear);
    SpoiledGrowsByAppend(s.disk.staging, e.row);
  }

  lemma DebtOfStage(s: State, e: Event)
    requires Step(s, e).Some? && e.Stage?
    ensures Debt(Step(s, e).value.disk.staging) == Debt(s.disk.staging)
  {
    DebtOfAppend(s.disk.staging, e.row);
  }

  lemma LedgerOfMark(s: State, e: Event, clips: set<Name>, lost: set<Name>)
    requires Sane(s, clips) && Ledger(s, clips, lost) && Step(s, e).Some? && (e.MarkDone? || e.MarkFault?)
    ensures Ledger(Step(s, e).value, clips, lost)
  {
    NamesSnoc(s.phase.batch.rows, s.phase.row);
    DoneSnoc(s.disk, s.phase.row.clip);
  }

  lemma LedgerOfTear(s: State, e: Event, clips: set<Name>, lost: set<Name>)
    requires Ledger(s, clips, lost) && Step(s, e).Some? && (e.WorkerFail? || e.StageFault? || e.Crash?)
    ensures Ledger(Step(s, e).value, clips, lost)
    ensures Debt(Step(s, e).value.disk.staging) <= Debt(s.disk.staging) + TearOf(e).Cost()
  {
    WrittenGrows(s.disk.staging, Row("", 0), TearOf(e));
    SpoiledGrowsByTear(s.disk.staging, TearOf(e));
    assert s.disk.staging + [] == s.disk.staging;
  }

  lemma LedgerOfCommit(s: State, e: Event, clips: set<Name>, lost: set<Name>)
    requires Sane(s, clips) && Ledger(s, clips, lost) && Step(s, e).Some? && e.Commit?
    ensures Ledger(Step(s, e).value, clips, lost)
  {}

  lemma LedgerOfUnlink(s: State, e: Event, clips: set<Name>, lost: set<Name>)
    requires Sane(s, clips) && Ledger(s, clips, lost) && Step(s, e).Some? && e.Unlink?
    requires s.phase.Written? ==> s.phase.batch.fail == 0
    ensures Settled(Step(s, e).value, clips, lost + Names(Spoiled(s.disk.staging)))
  {
    WrittenIsLoadedOrSpoiled(s.disk.staging);
    if s.phase.Written? {
      KeepLastNames(s.phase.batch.rows);
    }
  }

  lemma {:induction false} LedgerAlways(clips: set<Name>, events: seq<Event>) returns (lost: set<Name>)
    requires Exec(INITIAL, events).Some? && FixedClips(events, clips) && NoFailingUnlink(INITIAL, events)
    ensures var s := Exec(INITIAL, events).value;
            && Ledger(s, clips, lost)
            && |lost| + Debt(s.disk.staging) <= Damage(events)
  {
    if events == [] {
      lost := {};
      assert Split([]) == Pages([], []);
    } else {
      var e := Last(events);
      assert forall e :: e in Front(events) ==> e in events;
      lost := LedgerAlways(clips, Front(events));
      SaneAlways(clips, Front(events));
      var s := Exec(INITIAL, Front(events)).value;
      lost := LedgerStep(s, e, clips, lost);
    }
  }

  lemma LedgerStep(s: State, e: Event, clips: set<Name>, lost: set<Name>) returns (lost': set<Name>)
    requires Sane(s, clips) && Ledger(s, clips, lost) && Step(s, e).Some?
    requires e.Start? ==> e.clips == clips
    requires e.Unlink? && s.phase.Written? ==> s.phase.batch.fail == 0
    ensures var s' := Step(s, e).value;
            && Ledger(s', clips, lost')
            && |lost'| + Debt(s'.disk.staging) <= |lost| + Debt(s.disk.staging) + TearOf(e).Cost()
  {
    lost' := lost;
    match e
    case Start(_) => LedgerOfStart(s, e, clips, lost);
    case Stage(_) => LedgerOfStage(s, e, clips, lost); DebtOfStage(s, e);
    case MarkDone => LedgerOfMark(s, e, clips, lost);
    case MarkFault => LedgerOfMark(s, e, clips, lost);
    case Commit => LedgerOfCommit(s, e, clips, lost);
    case Unlink =>
      LedgerOfUnlink(s, e, clips, lost);
      lost' := lost + Names(Spoiled(s.disk.staging));
      NamesCount(Spoiled(s.disk.staging));
      DebtCoversSpoiled(s.disk.staging);
      assert Split([]) == Pages([], []);
      assert |lost'| <= |lost| + |Names(Spoiled(s.disk.staging))|;
    case _ => LedgerOfTear(s, e, clips, lost);
  }

  /**
   Safety with torn appends.  With a fixed clip list, and no run with a failed
   clip reaching the unlink, every state an execution passes through has lost at
   most one checkpointed row for each cut prefix and two for each object left
   without its newline.
   */
  lemma LossIsBounded(clips: set<Name>, events: seq<Event>)
    requires Exec(INITIAL, events).Some? && FixedClips(events, clips) && NoFailingUnlink(INITIAL, events)
    ensures |Exec(INITIAL, events).value.disk.Lost()| <= Damage(events)
  {
    var lost := LedgerAlways(clips, events);
    SaneAlways(clips, events);
    var disk := Exec(INITIAL, events).value.disk;
    var gone := lost + Names(Spoiled(disk.staging));
    WrittenIsLoadedOrSpoiled(disk.staging);
    DebtCoversSpoiled(disk.staging);
    NamesCount(Spoiled(disk.staging));
    assert |gone| <= |lost| + |Names(Spoiled(disk.staging))|;
    SubsetSize(disk.Lost(), gone);
  }

  /** Safety with whole-line appends: `.done` is always within parquet and staging. */
  lemma CoverageIsSafe(clips: set<Name>, events: seq<Event>)
    requires Exec(INITIAL, events).Some? && FixedClips(events, clips) && NoFailingUnlink(INITIAL, events)
    requires Damage(events) == 0
    ensures Exec(INITIAL, events).value.disk.Covered()
  {
    LossIsBounded(clips, events);
    var disk := Exec(INITIAL, events).value.disk;
    assert disk.Lost() == {};
    assert forall clip :: clip in disk.DoneSet() && clip !in disk.Recoverable() ==> clip in disk.Lost();
  }

  /** A run that ends with no failure leaves one row for every clip, up to torn rows. */
  lemma CompletionIsTotal(clips: set<Name>, events: seq<Event>)
    requires Exec(INITIAL, events).Some? && FixedClips(events, clips) && NoFailingUnlink(INITIAL, events)
    requires Exec(INITIAL, events).value.phase == Idle(Complete)
    ensures var disk := Exec(INITIAL, events).value.disk;
            && disk.DoneSet() == clips && disk.staging == [] && DistinctClips(disk.parquet)
            && Names(disk.parquet) <= clips && |clips - Names(disk.parquet)| <= Damage(events)
            && (Damage(events) == 0 ==> Names(disk.parquet) == clips)
  {
    var lost := LedgerAlways(clips, events);
    SaneAlways(clips, events);
    var disk := Exec(INITIAL, events).value.disk;
    assert Settled(Exec(INITIAL, events).value, clips, lost);
    SubsetSize(clips - Names(disk.parquet), lost);
  }
}
