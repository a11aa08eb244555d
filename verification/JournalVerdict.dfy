/**
 Exactly what a run that ends complete has written: over any history, any clip
 lists and any torn appends, in terms of the files the run started from.
 */
module JournalVerdict {
  import opened Collections
  import opened Options
  import opened StagingLog
  import opened Journal

  /** What the rows of a faultless run account for. */
  function Promised(disk: Disk, clips: set<Name>): set<Name> {
    Names(Load(disk.staging)) + (clips - disk.DoneSet())
  }

  ghost predicate BatchTracks(disk: Disk, b: Batch, inHand: set<Name>, start: Disk, clips: set<Name>) {
    && !(clips <= start.DoneSet())
    && (b.fail == 0 ==>
          && Names(b.rows) + b.outstanding + inHand == Promised(start, clips)
          && clips <= disk.DoneSet() + b.outstanding + inHand)
  }

  /** What holds of every state a run passes through, from the files `start`. */
  ghost predicate Tracks(s: State, start: Disk, clips: set<Name>) {
    match s.phase
    case Collecting(b) => BatchTracks(s.disk, b, {}, start, clips)
    case Staged(b, row) => BatchTracks(s.disk, b, {row.clip}, start, clips)
    case Written(b) =>
      BatchTracks(s.disk, b, {}, start, clips) && b.outstanding == {} && Names(s.disk.parquet) == Names(b.rows)
    case Idle(last) =>
      last.Complete? ==>
        Names(s.disk.parquet) == Promised(start, clips) && clips <= s.disk.DoneSet() && s.disk.staging == []
    case Folding(_) => true
    case Folded => true
  }

  lemma TracksBegin(start: Disk, clips: set<Name>)
    ensures Tracks(State(start, Begin(start, clips)), start, clips)
  {}

  lemma TracksMark(s: State, e: Event, start: Disk, clips: set<Name>)
    requires Tracks(s, start, clips) && Step(s, e).Some? && (e.MarkDone? || e.MarkFault?)
    ensures Tracks(Step(s, e).value, start, clips)
  {
    NamesSnoc(s.phase.batch.rows, s.phase.row);
    assert s.disk.(done := s.disk.done + [s.phase.row.clip]).DoneSet() == s.disk.DoneSet() + {s.phase.row.clip};
  }

  lemma TracksStage(s: State, e: Event, start: Disk, clips: set<Name>)
    requires Tracks(s, start, clips) && Step(s, e).Some? && e.Stage?
    ensures Tracks(Step(s, e).value, start, clips)
  {
    assert s.phase.batch.outstanding == s.phase.batch.outstanding - {e.row.clip} + {e.row.clip};
  }

  lemma TracksCommit(s: State, e: Event, start: Disk, clips: set<Name>)
    requires Tracks(s, start, clips) && Step(s, e).Some? && (e.Commit? || e.Unlink?)
    ensures Tracks(Step(s, e).value, start, clips)
  {
    if s.phase.Collecting? {
      KeepLastNames(s.phase.batch.rows);
      assert s.phase.batch.rows == [] ==> Names(s.phase.batch.rows) == {};
      assert clips <= start.DoneSet() + (clips - start.DoneSet());
    }
  }

  lemma TracksStep(s: State, e: Event, start: Disk, clips: set<Name>)
    requires Tracks(s, start, clips) && Step(s, e).Some? && !e.Start?
    ensures Tracks(Step(s, e).value, start, clips)
  {
    match e
    case Stage(_) => TracksStage(s, e, start, clips);
    case MarkDone => TracksMark(s, e, start, clips);
    case MarkFault => TracksMark(s, e, start, clips);
    case Commit => TracksCommit(s, e, start, clips);
    case Unlink => TracksCommit(s, e, start, clips);
    case _ =>
  }

  predicate OneRun(rest: seq<Event>) {
    forall e :: e in rest ==> !e.Start?
  }

  lemma {:induction false} TracksAlways(s: State, rest: seq<Event>, start: Disk, clips: set<Name>)
    requires Tracks(s, start, clips) && OneRun(rest) && Exec(s, rest).Some?
    ensures Tracks(Exec(s, rest).value, start, clips)
  {
    if rest != [] {
      assert forall e :: e in Front(rest) ==> e in rest;
      TracksAlways(s, Front(rest), start, clips);
      TracksStep(Exec(s, Front(rest)).value, Last(rest), start, clips);
    }
  }

  /** After any history, one run over `clips` from the files `start` has come by `rest` to the state `s`. */
  ghost predicate RunReaches(history: seq<Event>, clips: set<Name>, rest: seq<Event>, start: Disk, s: State) {
    && (exists last :: Exec(INITIAL, history) == Some(State(start, Idle(last))))
    && OneRun(rest)
    && Exec(INITIAL, history + [Start(clips)] + rest) == Some(s)
  }

  /** The run ends complete with the files `end`. */
  ghost predicate CompleteRun(history: seq<Event>, clips: set<Name>, rest: seq<Event>, start: Disk, end: Disk) {
    RunReaches(history, clips, rest, start, State(end, Idle(Complete)))
  }

  /**
   A run that ends complete has checkpointed every clip and replaced the parquet by
   the rows readable in the staging file it found and those of the pending clips.
   */
  lemma CompleteWrites(history: seq<Event>, clips: set<Name>, rest: seq<Event>, start: Disk, end: Disk)
    requires CompleteRun(history, clips, rest, start, end)
    ensures Names(end.parquet) == Names(Load(start.staging)) + (clips - start.DoneSet())
    ensures clips <= end.DoneSet() && end.staging == []
  {
    var last :| Exec(INITIAL, history) == Some(State(start, Idle(last)));
    ExecSnoc(INITIAL, history, Start(clips));
    ExecAppend(INITIAL, history + [Start(clips)], rest);
    TracksBegin(start, clips);
    TracksAlways(State(start, Begin(start, clips)), rest, start, clips);
  }

  /**
   So the clips it has no row for are the checkpointed ones that were not readable in
   the staging file, and complete means total exactly when there is none of those.
   */
  lemma CompleteIsTotalExactlyWhen(history: seq<Event>, clips: set<Name>, rest: seq<Event>, start: Disk, end: Disk)
    requires CompleteRun(history, clips, rest, start, end)
    ensures clips - Names(end.parquet) == clips * start.DoneSet() - Names(Load(start.staging))
    ensures clips <= Names(end.parquet) <==> clips * start.DoneSet() <= Names(Load(start.staging))
    ensures Names(end.parquet) == clips <==>
            clips * start.DoneSet() <= Names(Load(start.staging)) <= clips
  {
    CompleteWrites(history, clips, rest, start, end);
    MissingRows(clips, start.DoneSet(), Names(Load(start.staging)), Names(end.parquet));
  }

  lemma MissingRows(clips: set<Name>, done: set<Name>, staged: set<Name>, written: set<Name>)
    requires written == staged + (clips - done)
    ensures clips - written == clips * done - staged
    ensures clips <= written <==> clips * done <= staged
    ensures written == clips <==> clips * done <= staged <= clips
  {
    assert forall c :: c in clips * done && c !in staged ==> c in clips && c !in written;
  }

  /** A run that finds no staging file drops the row of every clip checkpointed before it. */
  lemma ResumingWithoutStagingLoses(history: seq<Event>, clips: set<Name>, rest: seq<Event>, start: Disk, end: Disk)
    requires CompleteRun(history, clips, rest, start, end) && start.staging == []
    ensures clips - Names(end.parquet) == clips * start.DoneSet()
  {
    CompleteIsTotalExactlyWhen(history, clips, rest, start, end);
    assert Split([]) == Pages([], []);
  }
}
