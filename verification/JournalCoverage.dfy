/**
 Exactly when one durable operation loses the row of a checkpointed clip, torn
 appends included, and so exactly which executions never do.
 */
module JournalCoverage {
  import opened Options
  import opened Collections
  import opened StagingLog
  import opened Journal
  import opened JournalExact

  /** Checkpointed clips that only the staging file can still provide. */
  function Needed(disk: Disk): set<Name> {
    disk.DoneSet() - Names(disk.parquet)
  }

  /** Nothing needed is readable on the open last line alone, so gluing onto it is safe. */
  predicate SafeToGlue(disk: Disk) {
    Split(disk.staging).tail == [] || Needed(disk) <= Names(ParsedRows(Split(disk.staging).closed))
  }

  /** The parquet that a commit leaves. */
  function CommittedRows(s: State): seq<Row> {
    match s.phase
    case Collecting(b) => b.rows
    case Folding(recovered) => recovered
    case _ => []
  }

  /** What an operation must respect: the condition is on the files before it. */
  predicate Keeps(s: State, e: Event) {
    match e
    case Stage(row) => s.phase.Collecting? && row.clip !in Names(s.phase.batch.recovered) ==> SafeToGlue(s.disk)
    case StageFault(_, tear) => !tear.NoTear? ==> SafeToGlue(s.disk)
    case Crash(tear) => !tear.NoTear? ==> SafeToGlue(s.disk)
    case MarkDone => s.phase.Staged? ==> s.phase.row.clip in s.disk.Recoverable()
    case Commit => WritesParquet(s, e) ==> OnlyInParquet(s.disk) <= Names(CommittedRows(s))
    case Unlink => Needed(s.disk) == {}
    case _ => true
  }

  lemma CoveredMeans(disk: Disk)
    ensures disk.Covered() <==> Needed(disk) <= Names(Load(disk.staging))
    ensures Needed(disk) == {} <==> disk.DoneSet() <= Names(disk.parquet)
  {
    assert forall c :: c in disk.DoneSet() && c !in Names(disk.parquet) ==> c in Needed(disk);
  }

  /** What is readable after pieces are written to the end of a file. */
  lemma LoadAfterPiece(text: Text, piece: Piece)
    requires !piece.Newline?
    ensures Split(text).tail != [] ==> Load(text + [piece]) == ParsedRows(Split(text).closed)
    ensures Split(text).tail == [] ==> Names(Load(text)) <= Names(Load(text + [piece]))
  {
    ReadingOfSplit(text);
    ReadingOfSplit(text + [piece]);
    SplitSnoc(text, piece);
  }

  lemma LoadAfterAppend(text: Text, row: Row)
    ensures Split(text).tail != [] ==> Load(AppendRow(text, row)) == ParsedRows(Split(text).closed)
    ensures Split(text).tail == [] ==> Names(Load(text)) <= Names(Load(AppendRow(text, row)))
  {
    if Split(text).tail == [] {
      AppendToCleanTail(text, row);
    } else {
      AppendToTornTail(text, row);
    }
  }

  /** A write that leaves the closed lines alone is safe exactly when gluing is. */
  lemma GlueCoverage(disk: Disk, text: Text)
    requires disk.Covered()
    requires Split(disk.staging).tail != [] ==> Load(text) == ParsedRows(Split(disk.staging).closed)
    requires Split(disk.staging).tail == [] ==> Names(Load(disk.staging)) <= Names(Load(text))
    ensures disk.(staging := text).Covered() <==> SafeToGlue(disk)
  {
    CoveredMeans(disk);
    CoveredMeans(disk.(staging := text));
  }

  lemma StageKeeps(s: State, e: Event)
    requires s.disk.Covered() && Step(s, e).Some? && e.Stage?
    ensures Step(s, e).value.disk.Covered() <==> Keeps(s, e)
  {
    var text := AppendRow(s.disk.staging, e.row);
    LoadAfterAppend(s.disk.staging, e.row);
    GlueCoverage(s.disk, text);
    assert Step(s, e).value.disk == s.disk || Step(s, e).value.disk == s.disk.(staging := text);
  }

  lemma TearKeeps(disk: Disk, tear: Tear)
    requires disk.Covered()
    ensures Torn(disk, tear).Covered() <==> (!tear.NoTear? ==> SafeToGlue(disk))
  {
    if tear.NoTear? {
      assert disk.staging + [] == disk.staging;
    } else {
      LoadAfterPiece(disk.staging, tear.Residue()[0]);
      GlueCoverage(disk, disk.staging + tear.Residue());
    }
  }

  lemma MarkKeeps(s: State, e: Event)
    requires s.disk.Covered() && Step(s, e).Some? && (e.MarkDone? || e.MarkFault?)
    ensures Step(s, e).value.disk.Covered() <==> Keeps(s, e)
  {
    if e.MarkDone? {
      var clip := s.phase.row.clip;
      assert s.disk.(done := s.disk.done + [clip]).DoneSet() == s.disk.DoneSet() + {clip};
    }
  }

  lemma CommitKeeps(s: State, e: Event)
    requires s.disk.Covered() && Step(s, e).Some? && e.Commit?
    ensures Step(s, e).value.disk.Covered() <==> Keeps(s, e)
  {
    var rows := KeepLast(CommittedRows(s));
    KeepLastNames(CommittedRows(s));
    ReplacedCoverage(s.disk, rows);
    assert Step(s, e).value.disk == if WritesParquet(s, e) then s.disk.(parquet := rows) else s.disk;
  }

  lemma ReplacedCoverage(disk: Disk, rows: seq<Row>)
    ensures disk.(parquet := rows).Covered() <==> OnlyInParquet(disk) <= Names(rows)
  {
    assert forall c :: c in disk.DoneSet() && c !in Names(Load(disk.staging)) ==> c in OnlyInParquet(disk);
  }

  lemma UnlinkKeeps(s: State, e: Event)
    requires s.disk.Covered() && Step(s, e).Some? && e.Unlink?
    ensures Step(s, e).value.disk.Covered() <==> Keeps(s, e)
  {
    CoveredMeans(s.disk);
    assert Split([]) == Pages([], []);
  }

  /** One operation loses coverage exactly when its condition on the files fails. */
  lemma StepKeepsExactly(s: State, e: Event)
    requires s.disk.Covered() && Step(s, e).Some?
    ensures Step(s, e).value.disk.Covered() <==> Keeps(s, e)
  {
    match e
    case Stage(_) => StageKeeps(s, e);
    case StageFault(_, tear) => TearKeeps(s.disk, tear);
    case Crash(tear) => TearKeeps(s.disk, tear);
    case MarkDone => MarkKeeps(s, e);
    case MarkFault => MarkKeeps(s, e);
    case Commit => CommitKeeps(s, e);
    case Unlink => UnlinkKeeps(s, e);
    case _ =>
  }

  predicate AlwaysKeeps(events: seq<Event>) {
    events == [] ||
    (AlwaysKeeps(Front(events)) &&
     match Exec(INITIAL, Front(events)) case None => false case Some(s) => Keeps(s, Last(events)))
  }

  /** With any clip lists and torn appends, an execution is covered throughout exactly when each operation is safe. */
  lemma {:induction false} CoveredExactlyWhen(events: seq<Event>)
    requires Exec(INITIAL, events).Some?
    ensures AlwaysCovered(events) <==> AlwaysKeeps(events)
  {
    if events == [] {
      assert Split([]) == Pages([], []);
    } else {
      CoveredExactlyWhen(Front(events));
      var s := Exec(INITIAL, Front(events)).value;
      if s.disk.Covered() {
        StepKeepsExactly(s, Last(events));
      } else {
        UncoveredSoFar(Front(events));
      }
    }
  }

  lemma UncoveredSoFar(events: seq<Event>)
    requires Exec(INITIAL, events).Some? && !Exec(INITIAL, events).value.disk.Covered()
    ensures !AlwaysCovered(events)
  {}
}
