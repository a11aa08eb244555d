/**
 Executions that lose rows.  Each is built event by event, so that what it shows
 is a fact about states the protocol really reaches.
 */
module JournalWitness {
  import opened Collections
  import opened Options
  import opened StagingLog
  import opened Journal
  import opened JournalVerdict

  lemma Extend(events: seq<Event>, s: State, e: Event) returns (longer: seq<Event>, s': State)
    requires Exec(INITIAL, events) == Some(s) && Step(s, e).Some?
    ensures longer == events + [e] && s' == Step(s, e).value
    ensures Exec(INITIAL, longer) == Some(s')
    ensures Damage(longer) == Damage(events) + TearOf(e).Cost()
    ensures forall clips :: FixedClips(events, clips) && (e.Start? ==> e.clips == clips) ==> FixedClips(longer, clips)
  {
    longer, s' := events + [e], Step(s, e).value;
    assert Front(longer) == events;
  }

  lemma LoadOne(row: Row)
    ensures Load([]) == [] && KeepLast([row]) == [row]
    ensures Load(AppendRow([], row)) == [row]
  {
    assert Split([]) == Pages([], []);
    AppendToCleanTail([], row);
  }

  /** The end of a run that has just staged its only successful clip. */
  lemma FinishRun(events: seq<Event>, s: State, disk: Disk, row: Row, fail: nat) returns (longer: seq<Event>)
    requires Exec(INITIAL, events) == Some(s)
    requires s == State(disk, Staged(Batch({}, [], [], 0, fail, 0), row))
    ensures longer == events + [MarkDone, Commit, Unlink]
    ensures Exec(INITIAL, longer) ==
            Some(State(Disk(disk.done + [row.clip], [], [row]), Idle(if fail == 0 then Complete else Failed)))
    ensures Damage(longer) == Damage(events)
    ensures forall clips :: FixedClips(events, clips) ==> FixedClips(longer, clips)
  {
    var s1, s2, s3 := FinishSteps(s, disk, row, fail);
    var reached: State;
    longer, reached := Extend(events, s, MarkDone);
    longer, reached := Extend(longer, s1, Commit);
    longer, reached := Extend(longer, s2, Unlink);
  }

  lemma FinishSteps(s: State, disk: Disk, row: Row, fail: nat) returns (s1: State, s2: State, s3: State)
    requires s == State(disk, Staged(Batch({}, [], [], 0, fail, 0), row))
    ensures Step(s, MarkDone) == Some(s1) && Step(s1, Commit) == Some(s2) && Step(s2, Unlink) == Some(s3)
    ensures s3 == State(Disk(disk.done + [row.clip], [], [row]), Idle(if fail == 0 then Complete else Failed))
  {
    LoadOne(row);
    assert [] + [row] == [row];
    var b := Batch({}, [], [row], 1, fail, 0);
    s1 := State(disk.(done := disk.done + [row.clip]), Collecting(b));
    s2 := State(Disk(disk.done + [row.clip], disk.staging, [row]), Written(b));
    s3 := State(Disk(disk.done + [row.clip], [], [row]), EndOf(b));
  }

  function OneClip(row: Row): seq<Event> {
    [Stage(row), MarkDone, Commit, Unlink]
  }

  lemma OneClipSteps(events: seq<Event>, disk: Disk, last: Outcome, clips: set<Name>, row: Row)
    returns (longer: seq<Event>)
    requires Exec(INITIAL, events) == Some(State(disk, Idle(last)))
    requires disk.staging == [] && clips - disk.DoneSet() == {row.clip}
    ensures longer == events + [Start(clips)] + OneClip(row) && Damage(longer) == Damage(events)
    ensures Exec(INITIAL, longer) == Some(State(Disk(disk.done + [row.clip], [], [row]), Idle(Complete)))
    ensures FixedClips(events, clips) ==> FixedClips(longer, clips)
  {
    var s1, s2 := StageOnlyClip(disk, last, clips, row);
    var s: State;
    longer, s := Extend(events, State(disk, Idle(last)), Start(clips));
    longer, s := Extend(longer, s1, Stage(row));
    longer := FinishRun(longer, s2, s2.disk, row, 0);
  }

  lemma StageOnlyClip(disk: Disk, last: Outcome, clips: set<Name>, row: Row) returns (s1: State, s2: State)
    requires disk.staging == [] && clips - disk.DoneSet() == {row.clip}
    ensures Step(State(disk, Idle(last)), Start(clips)) == Some(s1) && Step(s1, Stage(row)) == Some(s2)
    ensures s2 == State(disk.(staging := AppendRow([], row)), Staged(Batch({}, [], [], 0, 0, 0), row))
  {
    LoadOne(row);
    assert {row.clip} - {row.clip} == {};
    s1 := State(disk, Collecting(Batch({row.clip}, [], [], 0, 0, 0)));
    s2 := State(disk.(staging := AppendRow([], row)), Staged(Batch({}, [], [], 0, 0, 0), row));
  }

  /** A run over one pending clip that succeeds. */
  lemma SuccessfulRun(events: seq<Event>, disk: Disk, last: Outcome, clips: set<Name>, row: Row)
    returns (rest: seq<Event>, disk': Disk)
    requires Exec(INITIAL, events) == Some(State(disk, Idle(last)))
    requires disk.staging == [] && clips - disk.DoneSet() == {row.clip}
    ensures disk' == Disk(disk.done + [row.clip], [], [row])
    ensures CompleteRun(events, clips, rest, disk, disk')
    ensures Damage(events + [Start(clips)] + rest) == Damage(events)
    ensures FixedClips(events, clips) ==> FixedClips(events + [Start(clips)] + rest, clips)
  {
    var longer := OneClipSteps(events, disk, last, clips, row);
    rest, disk' := OneClip(row), Disk(disk.done + [row.clip], [], [row]);
  }

  /** A first run over two clips of which the second fails. */
  lemma HalfFailedRun(a: Row, b: Row) returns (events: seq<Event>)
    requires a.clip != b.clip
    ensures Exec(INITIAL, events) == Some(State(Disk([a.clip], [], [a]), Idle(Failed)))
    ensures Damage(events) == 0 && FixedClips(events, {a.clip, b.clip})
  {
    var s0 := State(EMPTY_DISK, Collecting(Batch({a.clip, b.clip}, [], [], 0, 0, 0)));
    var s1 := State(EMPTY_DISK, Collecting(Batch({a.clip}, [], [], 0, 1, 0)));
    var s2 := State(Disk([], AppendRow([], a), []), Staged(Batch({}, [], [], 0, 1, 0), a));
    assert Step(INITIAL, Start({a.clip, b.clip})) == Some(s0) by {
      LoadOne(a);
      assert a.clip in {a.clip, b.clip} - EMPTY_DISK.DoneSet();
      assert {a.clip, b.clip} - EMPTY_DISK.DoneSet() == {a.clip, b.clip};
    }
    assert Step(s0, WorkerFail(b.clip)) == Some(s1) by {
      assert {a.clip, b.clip} - {b.clip} == {a.clip};
    }
    assert Step(s1, Stage(a)) == Some(s2) by {
      assert {a.clip} - {a.clip} == {};
    }
    var s: State;
    events, s := Extend([], INITIAL, Start({a.clip, b.clip}));
    events, s := Extend(events, s0, WorkerFail(b.clip));
    events, s := Extend(events, s1, Stage(a));
    events := FinishRun(events, s2, s2.disk, a, 1);
    assert [] + [a.clip] == [a.clip];
  }

  /**
   A run commits although one clip failed; the retry of that clip succeeds, exits as
   complete, and has dropped the row of the first run, since it found no staging file.
   */
  lemma RetryAfterFailureLosesRows(a: Row, b: Row)
    requires a.clip != b.clip
    ensures exists history, rest, end ::
              && FixedClips(history + [Start({a.clip, b.clip})] + rest, {a.clip, b.clip})
              && Damage(history + [Start({a.clip, b.clip})] + rest) == 0
              && Exec(INITIAL, history) == Some(State(Disk([a.clip], [], [a]), Idle(Failed)))
              && CompleteRun(history, {a.clip, b.clip}, rest, Disk([a.clip], [], [a]), end)
              && {a.clip, b.clip} - Names(end.parquet) == {a.clip}
  {
    var history := HalfFailedRun(a, b);
    var start := Disk([a.clip], [], [a]);
    assert start.DoneSet() == {a.clip};
    assert {a.clip, b.clip} - {a.clip} == {b.clip};
    var rest, end := SuccessfulRun(history, start, Failed, {a.clip, b.clip}, b);
    ResumingWithoutStagingLoses(history, {a.clip, b.clip}, rest, start, end);
    assert {a.clip, b.clip} * {a.clip} == {a.clip};
  }

  /** A no-op run over two checkpointed clips with one parquet row refuses to confirm. */
  lemma NoopRefuses(events: seq<Event>, a: Row, b: Row)
    requires a.clip != b.clip
    requires Exec(INITIAL, events) == Some(State(Disk([a.clip, b.clip], [], [b]), Idle(Complete)))
    ensures Exec(INITIAL, events + [Start({a.clip, b.clip}), Commit]) ==
            Some(State(Disk([a.clip, b.clip], [], [b]), Idle(Refused)))
  {
    var clips, disk := {a.clip, b.clip}, Disk([a.clip, b.clip], [], [b]);
    NoopSteps(a, b);
    ExecSnoc(INITIAL, events, Start(clips));
    ExecSnoc(INITIAL, events + [Start(clips)], Commit);
    assert events + [Start(clips)] + [Commit] == events + [Start(clips), Commit];
  }

  lemma NoopSteps(a: Row, b: Row)
    requires a.clip != b.clip
    ensures var disk := Disk([a.clip, b.clip], [], [b]);
            && Step(State(disk, Idle(Complete)), Start({a.clip, b.clip})) == Some(State(disk, Folding([])))
            && Step(State(disk, Folding([])), Commit) == Some(State(disk, Idle(Refused)))
  {
    var clips, disk := {a.clip, b.clip}, Disk([a.clip, b.clip], [], [b]);
    TwoDone(disk, a.clip, b.clip);
    LoadOne(a);
    assert Begin(disk, clips) == Folding([]);
    assert NoopVerdict(disk) == Idle(Refused);
  }

  lemma TwoDone(disk: Disk, a: Name, b: Name)
    requires disk.done == [a, b] && a != b
    ensures disk.DoneSet() == {a, b} && {a, b} - disk.DoneSet() == {} && |disk.DoneSet()| == 2
  {
    assert disk.DoneSet() == {a, b};
  }

  /**
   Two runs without any failure, the second over a longer clip list, as batched
   resumption with a growing limit does: the first batch is dropped, for the same
   reason, and only a later no-op run notices.
   */
  lemma GrowingLimitLosesRows(a: Row, b: Row)
    requires a.clip != b.clip
    ensures exists history, rest, end ::
              && Damage(history + [Start({a.clip, b.clip})] + rest) == 0
              && Exec(INITIAL, history) == Some(State(Disk([a.clip], [], [a]), Idle(Complete)))
              && CompleteRun(history, {a.clip, b.clip}, rest, Disk([a.clip], [], [a]), end)
              && {a.clip, b.clip} - Names(end.parquet) == {a.clip}
              && Exec(INITIAL, history + [Start({a.clip, b.clip})] + rest + [Start({a.clip, b.clip}), Commit]) ==
                 Some(State(end, Idle(Refused)))
  {
    var history, start := FirstBatch(a);
    assert {a.clip, b.clip} - start.DoneSet() == {b.clip} by { assert start.DoneSet() == {a.clip}; }
    var rest, end := SuccessfulRun(history, start, Complete, {a.clip, b.clip}, b);
    ResumingWithoutStagingLoses(history, {a.clip, b.clip}, rest, start, end);
    assert {a.clip, b.clip} * start.DoneSet() == {a.clip};
    assert [a.clip] + [b.clip] == [a.clip, b.clip];
    NoopRefuses(history + [Start({a.clip, b.clip})] + rest, a, b);
  }

  lemma FirstBatch(a: Row) returns (history: seq<Event>, disk: Disk)
    ensures disk == Disk([a.clip], [], [a]) && Damage(history) == 0
    ensures Exec(INITIAL, history) == Some(State(disk, Idle(Complete)))
  {
    assert {a.clip} - EMPTY_DISK.DoneSet() == {a.clip};
    assert [] + [a.clip] == [a.clip];
    var rest;
    rest, disk := SuccessfulRun([], EMPTY_DISK, NotStarted, {a.clip}, a);
    history := [] + [Start({a.clip})] + rest;
  }
}
