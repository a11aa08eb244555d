/**
 Exactly when checkpointing a clip finds its row durable, in terms of the files
 the run started from and the line its own append began.
 */
module JournalMark {
  import opened Collections
  import opened Options
  import opened StagingLog
  import opened Journal
  import opened JournalCoverage
  import opened JournalVerdict

  /** The clips readable on the newline-terminated lines. */
  function ClosedNames(text: Text): set<Name> {
    Names(ParsedRows(Split(text).closed))
  }

  /** The clip readable on the open last line, if any. */
  function TailNames(text: Text): set<Name> {
    var tail := Split(text).tail;
    if Parses(tail) then {tail[0].row.clip} else {}
  }

  /** The last newline-terminated line holds one piece: its append began a fresh line. */
  predicate BeganFreshLine(text: Text) {
    Split(text).closed != [] && |Last(Split(text).closed)| == 1
  }

  lemma ReadNames(text: Text)
    ensures Names(Load(text)) == ClosedNames(text) + TailNames(text)
  {
    ReadingOfSplit(text);
    if Parses(Split(text).tail) {
      NamesSnoc(ParsedRows(Split(text).closed), Split(text).tail[0].row);
    } else {
      assert ParsedRows(Split(text).closed) + [] == ParsedRows(Split(text).closed);
    }
  }

  lemma NamesAfterPiece(text: Text, piece: Piece)
    requires !piece.Newline?
    ensures ClosedNames(text + [piece]) == ClosedNames(text)
    ensures TailNames(text + [piece]) <= if piece.Object? then {piece.row.clip} else {}
  {
    SplitSnoc(text, piece);
  }

  lemma NamesAfterAppend(text: Text, row: Row)
    ensures Split(AppendRow(text, row)).tail == [] && TailNames(AppendRow(text, row)) == {}
    ensures BeganFreshLine(AppendRow(text, row)) <==> Split(text).tail == []
    ensures ClosedNames(AppendRow(text, row)) ==
            ClosedNames(text) + if Split(text).tail == [] then {row.clip} else {}
  {
    var pages := Split(text);
    SplitAppend(text, row);
    LinesSnoc(pages.closed, pages.tail + [Object(row)]);
    NamesSnoc(ParsedRows(pages.closed), row);
    assert Last(Split(AppendRow(text, row)).closed) == pages.tail + [Object(row)];
  }

  /** What a run that found the staging file `found` keeps of it, and what is not readable yet. */
  ghost predicate TextTracks(text: Text, outstanding: set<Name>, found: Text) {
    var recovered := Names(Load(found));
    && ClosedNames(text) * recovered == ClosedNames(found)
    && (text == found || TailNames(text) !! recovered)
    && (outstanding - recovered) !! ClosedNames(text) + TailNames(text)
  }

  ghost predicate BatchMarks(disk: Disk, b: Batch, start: Disk) {
    && disk.parquet == start.parquet
    && b.recovered == Load(start.staging)
    && TextTracks(disk.staging, b.outstanding, start.staging)
  }

  ghost predicate RowMarks(text: Text, clip: Name, found: Text) {
    clip !in Names(Load(found)) ==>
      TailNames(text) == {} && (clip in ClosedNames(text) <==> BeganFreshLine(text))
  }

  ghost predicate Marks(s: State, start: Disk) {
    match s.phase
    case Collecting(b) => BatchMarks(s.disk, b, start)
    case Staged(b, row) =>
      BatchMarks(s.disk, b, start) && RowMarks(s.disk.staging, row.clip, start.staging)
    case _ => true
  }

  lemma MarksBegin(start: Disk, clips: set<Name>)
    ensures Marks(State(start, Begin(start, clips)), start)
  {
    ReadNames(start.staging);
  }

  lemma TextAfterPiece(text: Text, outstanding: set<Name>, found: Text, clip: Name, piece: Piece)
    requires TextTracks(text, outstanding, found) && !piece.Newline?
    requires clip !in Names(Load(found)) && (piece.Object? ==> piece.row.clip == clip)
    ensures TextTracks(text + [piece], outstanding - {clip}, found)
  {
    NamesAfterPiece(text, piece);
  }

  lemma TextAfterAppend(text: Text, outstanding: set<Name>, found: Text, row: Row)
    requires TextTracks(text, outstanding, found) && row.clip in outstanding - Names(Load(found))
    ensures TextTracks(AppendRow(text, row), outstanding - {row.clip}, found)
    ensures RowMarks(AppendRow(text, row), row.clip, found)
  {
    NamesAfterAppend(text, row);
  }

  lemma MarksFault(s: State, e: Event, start: Disk)
    requires Marks(s, start) && Step(s, e).Some? && e.StageFault?
    ensures Marks(Step(s, e).value, start)
  {
    var b := s.phase.batch;
    if e.tear.NoTear? {
      assert s.disk.staging + [] == s.disk.staging;
    } else {
      TextAfterPiece(s.disk.staging, b.outstanding, start.staging, e.clip, e.tear.Residue()[0]);
    }
  }

  lemma MarksStage(s: State, e: Event, start: Disk)
    requires Marks(s, start) && Step(s, e).Some? && e.Stage?
    ensures Marks(Step(s, e).value, start)
  {
    var b := s.phase.batch;
    if e.row.clip !in Names(b.recovered) {
      TextAfterAppend(s.disk.staging, b.outstanding, start.staging, e.row);
    }
  }

  lemma MarksStep(s: State, e: Event, start: Disk)
    requires Marks(s, start) && Step(s, e).Some? && !e.Start?
    ensures Marks(Step(s, e).value, start)
  {
    match e
    case StageFault(_, _) => MarksFault(s, e, start);
    case Stage(_) => MarksStage(s, e, start);
    case _ =>
  }

  lemma {:induction false} MarksAlways(s: State, rest: seq<Event>, start: Disk)
    requires Marks(s, start) && OneRun(rest) && Exec(s, rest).Some?
    ensures Marks(Exec(s, rest).value, start)
  {
    if rest != [] {
      assert forall e :: e in Front(rest) ==> e in rest;
      MarksAlways(s, Front(rest), start);
      MarksStep(Exec(s, Front(rest)).value, Last(rest), start);
    }
  }

  /** The row is in the parquet, or was recovered from a line no append spoiled, or its append began a fresh line. */
  predicate RowIsDurable(start: Disk, text: Text, clip: Name) {
    || clip in Names(start.parquet)
    || (if clip in Names(Load(start.staging)) then clip in ClosedNames(start.staging) || text == start.staging
        else BeganFreshLine(text))
  }

  lemma DurableOfMarks(s: State, start: Disk)
    requires Marks(s, start) && s.phase.Staged?
    ensures s.phase.row.clip in s.disk.Recoverable() <==> RowIsDurable(start, s.disk.staging, s.phase.row.clip)
  {
    ReadNames(s.disk.staging);
    ReadNames(start.staging);
  }

  /** A clip about to be checkpointed keeps its row exactly then. */
  lemma MarkKeepsExactlyWhen(history: seq<Event>, clips: set<Name>, rest: seq<Event>, start: Disk, s: State)
    requires RunReaches(history, clips, rest, start, s) && s.phase.Staged?
    ensures Keeps(s, MarkDone) <==> RowIsDurable(start, s.disk.staging, s.phase.row.clip)
  {
    var last :| Exec(INITIAL, history) == Some(State(start, Idle(last)));
    ExecSnoc(INITIAL, history, Start(clips));
    ExecAppend(INITIAL, history + [Start(clips)], rest);
    MarksBegin(start, clips);
    MarksAlways(State(start, Begin(start, clips)), rest, start);
    DurableOfMarks(s, start);
  }
}
