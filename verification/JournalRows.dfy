/**
 Which row of each clip a commit leaves: a row this run extracted wins over one it
 recovered, the last recovered row of a clip wins over earlier ones, and every row
 there is was extracted once.
 */
module JournalRows {
  import opened Collections
  import opened Options
  import opened StagingLog
  import opened Journal
  import opened JournalVerdict

  /** No later row of these has the clip of r. */
  predicate IsLastOf(rows: seq<Row>, r: Row) {
    exists i :: 0 <= i < |rows| && rows[i] == r && forall j :: i < j < |rows| ==> rows[j].clip != r.clip
  }

  /** Appending rows with distinct clips lets each of them replace what stood before. */
  lemma KeepLastOfAppend(earlier: seq<Row>, later: seq<Row>, r: Row)
    requires DistinctClips(later)
    ensures r in KeepLast(earlier + later) <==> r in later || (r.clip !in Names(later) && IsLastOf(earlier, r))
  {
    var all := earlier + later;
    KeepLastIsLast(all, r);
    if r in later {
      var k: nat :| k < |later| && later[k] == r;
      NewIsLast(earlier, later, k);
    } else if i: nat :| i < |all| && all[i] == r && IsLast(all, i) {
      OldIsLast(earlier, later, i);
    }
    if r.clip !in Names(later) && IsLastOf(earlier, r) {
      var i :| 0 <= i < |earlier| && earlier[i] == r && forall j :: i < j < |earlier| ==> earlier[j].clip != r.clip;
      StaysLast(earlier, later, i);
    }
  }

  lemma NewIsLast(earlier: seq<Row>, later: seq<Row>, k: nat)
    requires DistinctClips(later) && k < |later|
    ensures (earlier + later)[|earlier| + k] == later[k] && IsLast(earlier + later, |earlier| + k)
  {
    forall j | |earlier| + k < j < |earlier + later| ensures (earlier + later)[j].clip != later[k].clip {
      assert (earlier + later)[j] == later[j - |earlier|];
    }
  }

  lemma OldIsLast(earlier: seq<Row>, later: seq<Row>, i: nat)
    requires i < |earlier + later| && (earlier + later)[i] !in later && IsLast(earlier + later, i)
    ensures (earlier + later)[i].clip !in Names(later) && IsLastOf(earlier, (earlier + later)[i])
  {
    var all, r := earlier + later, (earlier + later)[i];
    assert i < |earlier| && earlier[i] == r;
    forall row | row in later ensures row.clip != r.clip {
      var k: nat :| k < |later| && later[k] == row;
      assert all[|earlier| + k] == row;
    }
    forall j | i < j < |earlier| ensures earlier[j].clip != r.clip {
      assert all[j] == earlier[j];
    }
  }

  lemma StaysLast(earlier: seq<Row>, later: seq<Row>, i: nat)
    requires i < |earlier| && earlier[i].clip !in Names(later)
    requires forall j :: i < j < |earlier| ==> earlier[j].clip != earlier[i].clip
    ensures (earlier + later)[i] == earlier[i] && IsLast(earlier + later, i)
  {
    var all := earlier + later;
    forall j | i < j < |all| ensures all[j].clip != earlier[i].clip {
      if j >= |earlier| {
        assert all[j] == later[j - |earlier|] && later[j - |earlier|].clip in Names(later);
      }
    }
  }

  lemma KeptIsGiven(rows: seq<Row>)
    ensures forall r :: r in KeepLast(rows) ==> r in rows
  {
    forall r | r in KeepLast(rows) ensures r in rows {
      KeepLastIsLast(rows, r);
    }
  }

  /** And what is kept stays in order. */
  lemma {:induction false} KeepLastInOrder(rows: seq<Row>)
    ensures Among(KeepLast(rows), rows)
  {
    if rows != [] {
      KeepLastInOrder(rows[1..]);
      assert ([rows[0]] + KeepLast(rows[1..]))[1..] == KeepLast(rows[1..]);
    }
  }

  // ----- The rows of a run

  /** The rows a run extracted and staged, in order. */
  function StagedRows(events: seq<Event>): seq<Row> {
    if events == [] then []
    else StagedRows(Front(events)) + if Last(events).Stage? then [Last(events).row] else []
  }

  lemma {:induction false} StagedRowsAre(events: seq<Event>, r: Row)
    ensures r in StagedRows(events) <==> Stage(r) in events
  {
    if events != [] {
      StagedRowsAre(Front(events), r);
      assert events == Front(events) + [Last(events)];
    }
  }

  /** The rows in hand are the recovered ones, then the ones extracted from the pending clips. */
  ghost predicate BatchRows(b: Batch, rows: seq<Row>, staged: seq<Row>, start: Disk, clips: set<Name>) {
    && rows == Load(start.staging) + staged && clips - start.DoneSet() != {}
    && DistinctClips(staged) && Names(staged) !! b.outstanding
    && Names(staged) + b.outstanding <= clips - start.DoneSet()
    && (b.fail == 0 ==> Names(staged) + b.outstanding == clips - start.DoneSet())
  }

  function Committed(parquet: seq<Row>, rows: seq<Row>): seq<Row> {
    if rows == [] then parquet else KeepLast(rows)
  }

  ghost predicate RowsTrack(s: State, staged: seq<Row>, start: Disk, clips: set<Name>) {
    match s.phase
    case Collecting(b) => BatchRows(b, b.rows, staged, start, clips) && s.disk.parquet == start.parquet
    case Staged(b, row) => BatchRows(b, b.rows + [row], staged, start, clips) && s.disk.parquet == start.parquet
    case Written(b) =>
      && BatchRows(b, b.rows, staged, start, clips) && b.outstanding == {}
      && s.disk.parquet == Committed(start.parquet, b.rows)
    case Folding(recovered) => recovered == Load(start.staging) && s.disk.parquet == start.parquet && staged == []
    case Folded => s.disk.parquet == Committed(start.parquet, Load(start.staging)) && staged == []
    case Idle(last) =>
      && (last.Complete? || last.Failed? ==>
            && s.disk.parquet == Committed(start.parquet, Load(start.staging) + staged)
            && DistinctClips(staged) && Names(staged) <= clips - start.DoneSet() && clips - start.DoneSet() != {})
      && (last.Complete? ==> Names(staged) == clips - start.DoneSet())
      && (last.CompleteNoop? ==> s.disk.parquet == Committed(start.parquet, Load(start.staging)) && staged == [])
  }

  lemma RowsBegin(start: Disk, clips: set<Name>)
    ensures RowsTrack(State(start, Begin(start, clips)), [], start, clips)
  {
    assert Load(start.staging) + [] == Load(start.staging);
  }

  lemma DistinctSnoc(rows: seq<Row>, row: Row)
    requires DistinctClips(rows) && row.clip !in Names(rows)
    ensures DistinctClips(rows + [row])
  {}

  lemma RowsStage(s: State, e: Event, staged: seq<Row>, start: Disk, clips: set<Name>)
    requires RowsTrack(s, staged, start, clips) && Step(s, e).Some? && e.Stage?
    ensures RowsTrack(Step(s, e).value, staged + [e.row], start, clips)
  {
    DistinctSnoc(staged, e.row);
    NamesSnoc(staged, e.row);
    assert Load(start.staging) + (staged + [e.row]) == Load(start.staging) + staged + [e.row];
  }

  lemma RowsCommit(s: State, e: Event, staged: seq<Row>, start: Disk, clips: set<Name>)
    requires RowsTrack(s, staged, start, clips) && Step(s, e).Some? && e.Commit? && s.phase.Collecting?
    ensures RowsTrack(Step(s, e).value, staged, start, clips)
  {}

  lemma RowsFold(s: State, e: Event, staged: seq<Row>, start: Disk, clips: set<Name>)
    requires RowsTrack(s, staged, start, clips) && Step(s, e).Some? && e.Commit? && !s.phase.Collecting?
    ensures RowsTrack(Step(s, e).value, staged, start, clips)
  {}

  lemma RowsUnlink(s: State, e: Event, staged: seq<Row>, start: Disk, clips: set<Name>)
    requires RowsTrack(s, staged, start, clips) && Step(s, e).Some? && e.Unlink?
    ensures RowsTrack(Step(s, e).value, staged, start, clips)
  {}

  lemma RowsOther(s: State, e: Event, staged: seq<Row>, start: Disk, clips: set<Name>)
    requires RowsTrack(s, staged, start, clips) && Step(s, e).Some?
    requires !e.Start? && !e.Stage? && !e.Commit? && !e.Unlink?
    ensures RowsTrack(Step(s, e).value, staged, start, clips)
  {}

  lemma RowsStep(s: State, e: Event, staged: seq<Row>, staged': seq<Row>, start: Disk, clips: set<Name>)
    requires RowsTrack(s, staged, start, clips) && Step(s, e).Some? && !e.Start?
    requires staged' == if e.Stage? then staged + [e.row] else staged
    ensures RowsTrack(Step(s, e).value, staged', start, clips)
  {
    if e.Stage? {
      RowsStage(s, e, staged, start, clips);
    } else if e.Unlink? {
      RowsUnlink(s, e, staged, start, clips);
    } else if e.Commit? && s.phase.Collecting? {
      RowsCommit(s, e, staged, start, clips);
    } else if e.Commit? {
      RowsFold(s, e, staged, start, clips);
    } else {
      RowsOther(s, e, staged, start, clips);
    }
  }

  lemma StagedRowsNext(events: seq<Event>)
    requires events != []
    ensures var before := StagedRows(Front(events));
            StagedRows(events) == if Last(events).Stage? then before + [Last(events).row] else before
  {}

  lemma {:induction false} RowsAlways(s: State, rest: seq<Event>, start: Disk, clips: set<Name>)
    requires RowsTrack(s, [], start, clips) && OneRun(rest) && Exec(s, rest).Some?
    ensures RowsTrack(Exec(s, rest).value, StagedRows(rest), start, clips)
  {
    if rest != [] {
      assert forall e :: e in Front(rest) ==> e in rest;
      RowsAlways(s, Front(rest), start, clips);
      StagedRowsNext(rest);
      RowsStep(Exec(s, Front(rest)).value, Last(rest), StagedRows(Front(rest)), StagedRows(rest), start, clips);
    }
  }

  lemma RunRows(history: seq<Event>, clips: set<Name>, rest: seq<Event>, start: Disk, s: State)
    requires RunReaches(history, clips, rest, start, s)
    ensures RowsTrack(s, StagedRows(rest), start, clips)
  {
    var last :| Exec(INITIAL, history) == Some(State(start, Idle(last)));
    ExecSnoc(INITIAL, history, Start(clips));
    ExecAppend(INITIAL, history + [Start(clips)], rest);
    RowsBegin(start, clips);
    RowsAlways(State(start, Begin(start, clips)), rest, start, clips);
  }

  /**
   A run that ends complete or failed leaves the parquet alone when it had no row at all.
   Otherwise the parquet holds exactly the rows the run extracted, and of every clip it
   extracted none of, the last readable row in the staging file it found.
   */
  lemma CommittedRowsAre(history: seq<Event>, clips: set<Name>, rest: seq<Event>, start: Disk, end: Disk,
                         outcome: Outcome)
    requires RunReaches(history, clips, rest, start, State(end, Idle(outcome)))
    requires outcome.Complete? || outcome.Failed?
    ensures if Load(start.staging) == [] && forall r :: Stage(r) !in rest then end.parquet == start.parquet
            else forall r :: r in end.parquet <==>
                   Stage(r) in rest ||
                   ((forall r' :: Stage(r') in rest ==> r'.clip != r.clip) && IsLastOf(Load(start.staging), r))
  {
    var found, staged := Load(start.staging), StagedRows(rest);
    RunRows(history, clips, rest, start, State(end, Idle(outcome)));
    forall r ensures r in staged <==> Stage(r) in rest {
      StagedRowsAre(rest, r);
    }
    if found + staged == [] {
      assert found == [] && staged == [];
    } else {
      assert found != [] || staged[0] in staged;
      forall r ensures r in end.parquet <==> r in staged || (r.clip !in Names(staged) && IsLastOf(found, r)) {
        KeepLastOfAppend(found, staged, r);
      }
    }
  }

  /**
   After a complete run the parquet holds exactly the rows this run extracted, and the last
   readable row of every clip that was not pending in the staging file it found.
   */
  lemma CompleteRowsAre(history: seq<Event>, clips: set<Name>, rest: seq<Event>, start: Disk, end: Disk, r: Row)
    requires CompleteRun(history, clips, rest, start, end)
    ensures r in end.parquet <==>
            Stage(r) in rest || (r.clip !in clips - start.DoneSet() && IsLastOf(Load(start.staging), r))
  {
    RunRows(history, clips, rest, start, State(end, Idle(Complete)));
    StagedRowsAre(rest, r);
    KeepLastOfAppend(Load(start.staging), StagedRows(rest), r);
    assert StagedRows(rest) != [];
  }

  /** A run with nothing pending leaves the last readable row of each clip, or the parquet as it was. */
  lemma NoopRowsAre(history: seq<Event>, clips: set<Name>, rest: seq<Event>, start: Disk, end: Disk)
    requires RunReaches(history, clips, rest, start, State(end, Idle(CompleteNoop)))
    ensures if Load(start.staging) == [] then end.parquet == start.parquet
            else forall r :: r in end.parquet <==> IsLastOf(Load(start.staging), r)
  {
    RunRows(history, clips, rest, start, State(end, Idle(CompleteNoop)));
    forall r ensures r in KeepLast(Load(start.staging)) <==> IsLastOf(Load(start.staging), r) {
      assert Load(start.staging) + [] == Load(start.staging);
      KeepLastOfAppend(Load(start.staging), [], r);
    }
  }

  // ----- Where rows come from

  /** The row whose whole object an event writes, or starts to write without its newline. */
  function WrittenBy(e: Event): set<Row> {
    if e.Stage? then {e.row} else if TearOf(e).Unterminated? then {TearOf(e).row} else {}
  }

  function Extracted(events: seq<Event>): set<Row> {
    if events == [] then {} else Extracted(Front(events)) + WrittenBy(Last(events))
  }

  lemma {:induction false} ExtractedAre(events: seq<Event>, r: Row)
    requires r in Extracted(events)
    ensures exists e :: e in events && r in WrittenBy(e)
  {
    if r in WrittenBy(Last(events)) {
      assert Last(events) in events;
    } else {
      ExtractedAre(Front(events), r);
      var e :| e in Front(events) && r in WrittenBy(e);
      assert e in events;
    }
  }

  ghost predicate Genuine(s: State, rows: set<Row>) {
    && (forall piece :: piece in s.disk.staging && piece.Object? ==> piece.row in rows)
    && (forall r :: r in s.disk.parquet ==> r in rows)
    && match s.phase
       case Collecting(b) => forall r :: r in b.rows + b.recovered ==> r in rows
       case Staged(b, row) => (forall r :: r in b.rows + b.recovered ==> r in rows) && row in rows
       case Written(b) => true
       case Folding(recovered) => forall r :: r in recovered ==> r in rows
       case Folded => true
       case Idle(_) => true
  }

  /** What is read back was written. */
  lemma LoadIsWritten(text: Text, r: Row)
    requires r in Load(text)
    ensures Object(r) in text
  {
    LoadIsUnspoiledInOrder(text);
    assert r in multiset(Load(text)) && r in multiset(Objects(text));
    ObjectsArePieces(text, r);
  }

  lemma {:induction false} ObjectsArePieces(pieces: seq<Piece>, r: Row)
    requires r in Objects(pieces)
    ensures Object(r) in pieces
  {
    if r in Objects(pieces[..|pieces| - 1]) {
      ObjectsArePieces(pieces[..|pieces| - 1], r);
    }
  }

  lemma GenuineStart(s: State, rows: set<Row>)
    requires Genuine(s, rows)
    ensures forall r :: r in Load(s.disk.staging) ==> r in rows
  {
    forall r | r in Load(s.disk.staging) ensures r in rows {
      LoadIsWritten(s.disk.staging, r);
    }
  }

  lemma GenuineStep(s: State, e: Event, rows: set<Row>, rows': set<Row>)
    requires Genuine(s, rows) && Step(s, e).Some?
    requires rows' == rows + WrittenBy(e)
    ensures Genuine(Step(s, e).value, rows')
  {
    match e
    case Start(_) => GenuineStart(s, rows);
    case Commit =>
      if s.phase.Collecting? {
        KeptIsGiven(s.phase.batch.rows);
      } else {
        KeptIsGiven(s.phase.recovered);
      }
    case _ =>
  }

  lemma {:induction false} AlwaysGenuine(events: seq<Event>)
    requires Exec(INITIAL, events).Some?
    ensures Genuine(Exec(INITIAL, events).value, Extracted(events))
  {
    if events != [] {
      AlwaysGenuine(Front(events));
      GenuineStep(Exec(INITIAL, Front(events)).value, Last(events), Extracted(Front(events)), Extracted(events));
    }
  }

  /** No row in a file was made up: each was extracted, with these very features, by some run. */
  lemma RowsAreGenuine(events: seq<Event>, disk: Disk, r: Row)
    requires exists phase :: Exec(INITIAL, events) == Some(State(disk, phase))
    requires r in disk.parquet || r in Load(disk.staging)
    ensures Stage(r) in events || exists e :: e in events && TearOf(e) == Unterminated(r)
  {
    AlwaysGenuine(events);
    if r in Load(disk.staging) {
      LoadIsWritten(disk.staging, r);
    }
    ExtractedAre(events, r);
  }

  // ----- No clip is readable twice

  ghost predicate ReadOnce(s: State) {
    && DistinctClips(Load(s.disk.staging))
    && (s.phase.Collecting? || s.phase.Staged? ==> s.phase.batch.Unstaged() !! Names(Load(s.disk.staging)))
  }

  lemma AppendReadOnce(text: Text, row: Row)
    requires DistinctClips(Load(text)) && row.clip !in Names(Load(text))
    ensures DistinctClips(Load(AppendRow(text, row)))
    ensures Names(Load(AppendRow(text, row))) <= Names(Load(text)) + {row.clip}
  {
    if Split(text).tail == [] {
      AppendToCleanTail(text, row);
      DistinctSnoc(Load(text), row);
      NamesSnoc(Load(text), row);
    } else {
      AppendToTornTail(text, row);
      ClosedIsPrefix(text);
    }
  }

  lemma ClosedIsPrefix(text: Text)
    ensures ParsedRows(Split(text).closed) <= Load(text)
    ensures Names(ParsedRows(Split(text).closed)) <= Names(Load(text))
  {
    ReadingOfSplit(text);
  }

  lemma PieceReadOnce(text: Text, piece: Piece, clip: Name)
    requires DistinctClips(Load(text)) && clip !in Names(Load(text))
    requires !piece.Newline? && (piece.Object? ==> piece.row.clip == clip)
    ensures DistinctClips(Load(text + [piece]))
    ensures Names(Load(text + [piece])) <= Names(Load(text)) + {clip}
  {
    ReadingOfSplit(text);
    ReadingOfSplit(text + [piece]);
    SplitSnoc(text, piece);
    ClosedIsPrefix(text);
    if piece.Object? && Split(text).tail == [] {
      DistinctSnoc(Load(text), piece.row);
      NamesSnoc(Load(text), piece.row);
      assert Load(text + [piece]) == Load(text) + [piece.row];
    } else {
      assert Load(text + [piece]) == ParsedRows(Split(text).closed);
    }
  }

  lemma TearReadOnce(disk: Disk, tear: Tear, clip: Name)
    requires DistinctClips(Load(disk.staging)) && tear.Hits({clip}) && clip !in Names(Load(disk.staging))
    ensures DistinctClips(Load(Torn(disk, tear).staging))
    ensures Names(Load(Torn(disk, tear).staging)) <= Names(Load(disk.staging)) + {clip}
  {
    match tear
    case NoTear => assert disk.staging + [] == disk.staging;
    case Partial(_) => PieceReadOnce(disk.staging, Cut, clip);
    case Unterminated(row) => PieceReadOnce(disk.staging, Object(row), clip);
  }

  lemma ReadOnceStage(s: State, e: Event)
    requires ReadOnce(s) && Step(s, e).Some? && e.Stage?
    ensures ReadOnce(Step(s, e).value)
  {
    if e.row.clip !in Names(s.phase.batch.recovered) {
      AppendReadOnce(s.disk.staging, e.row);
    }
  }

  lemma ReadOnceFault(s: State, e: Event)
    requires ReadOnce(s) && Step(s, e).Some? && e.StageFault?
    ensures ReadOnce(Step(s, e).value)
  {
    TearReadOnce(s.disk, e.tear, e.clip);
  }

  lemma ReadOnceCrash(s: State, e: Event)
    requires ReadOnce(s) && Step(s, e).Some? && e.Crash?
    ensures ReadOnce(Step(s, e).value)
  {
    match e.tear
    case NoTear => assert s.disk.staging + [] == s.disk.staging;
    case Partial(clip) => TearReadOnce(s.disk, e.tear, clip);
    case Unterminated(row) => TearReadOnce(s.disk, e.tear, row.clip);
  }

  lemma ReadOnceCommit(s: State, e: Event)
    requires ReadOnce(s) && Step(s, e).Some? && (e.Commit? || e.Unlink?)
    ensures ReadOnce(Step(s, e).value)
  {
    CommitStaging(s, e);
    assert Split([]) == Pages([], []);
  }

  lemma CommitStaging(s: State, e: Event)
    requires Step(s, e).Some? && (e.Commit? || e.Unlink?)
    ensures var s' := Step(s, e).value;
            && !s'.phase.Collecting? && !s'.phase.Staged?
            && s'.disk.staging == if e.Commit? then s.disk.staging else []
  {}

  lemma ReadOnceOther(s: State, e: Event)
    requires ReadOnce(s) && Step(s, e).Some? && (e.Start? || e.WorkerFail? || e.MarkDone? || e.MarkFault?)
    ensures ReadOnce(Step(s, e).value)
  {}

  lemma ReadOnceStep(s: State, e: Event)
    requires ReadOnce(s) && Step(s, e).Some?
    ensures ReadOnce(Step(s, e).value)
  {
    match e
    case Stage(_) => ReadOnceStage(s, e);
    case StageFault(_, _) => ReadOnceFault(s, e);
    case Crash(_) => ReadOnceCrash(s, e);
    case Commit => ReadOnceCommit(s, e);
    case Unlink => ReadOnceCommit(s, e);
    case _ => ReadOnceOther(s, e);
  }

  /** Over any executions, torn appends included: a recovered clip is not staged again, so none is readable twice. */
  lemma {:induction false} NoClipIsReadableTwice(events: seq<Event>)
    requires Exec(INITIAL, events).Some?
    ensures ReadOnce(Exec(INITIAL, events).value)
  {
    if events == [] {
      assert Split([]) == Pages([], []);
    } else {
      NoClipIsReadableTwice(Front(events));
      ReadOnceStep(Exec(INITIAL, Front(events)).value, Last(events));
    }
  }
}
