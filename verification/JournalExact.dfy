/**
 The exact side condition of the parquet replacement, the row accounting behind
 the refusal to write, and the executions that show both are needed.
 */
module JournalExact {
  import opened Collections
  import opened Options
  import opened StagingLog
  import opened Journal

  // ----- Row accounting

  /** Checkpoint faults of the run in progress. */
  function MarkFaults(events: seq<Event>): nat {
    if events == [] || Last(events).Start? then 0
    else MarkFaults(Front(events)) + if Last(events).MarkFault? then 1 else 0
  }

  lemma {:induction false} RowsAreAccounted(events: seq<Event>)
    requires Exec(INITIAL, events).Some?
    ensures var phase := Exec(INITIAL, events).value.phase;
            (phase.Collecting? || phase.Staged? || phase.Written?) ==>
              && |phase.batch.rows| == |phase.batch.recovered| + phase.batch.ok + MarkFaults(events)
              && phase.batch.markFaults == MarkFaults(events) <= phase.batch.fail
  {
    if events != [] {
      RowsAreAccounted(Front(events));
    }
  }

  /** The commit of a batch with rows is refused exactly when a checkpoint append faulted. */
  lemma RefusalMeansMarkFault(events: seq<Event>)
    requires Exec(INITIAL, events).Some?
    requires var s := Exec(INITIAL, events).value;
             s.phase.Collecting? && s.phase.batch.outstanding == {} && s.phase.batch.rows != []
    ensures Exec(INITIAL, events + [Commit]).Some?
    ensures var before, after := Exec(INITIAL, events).value, Exec(INITIAL, events + [Commit]).value;
            && (after.phase == Idle(Refused) <==> MarkFaults(events) > 0)
            && (after.phase == Idle(Refused) ==> after.disk == before.disk)
            && (after.phase != Idle(Refused) ==> Names(after.disk.parquet) == Names(before.phase.batch.rows))
  {
    RowsAreAccounted(events);
    ExecSnoc(INITIAL, events, Commit);
    KeepLastNames(Exec(INITIAL, events).value.phase.batch.rows);
  }

  // ----- When replacing the parquet is safe

  /** Checkpointed clips whose row, if any, is in the parquet alone. */
  function OnlyInParquet(disk: Disk): set<Name> {
    disk.DoneSet() - Names(Load(disk.staging))
  }

  predicate WritesParquet(s: State, e: Event) {
    e.Commit? && Step(s, e).Some? && (Step(s, e).value.phase.Written? || Step(s, e).value.phase.Folded?)
  }

  /** What holds of every execution whose appends are all whole lines. */
  ghost predicate Clean(s: State) {
    && Debt(s.disk.staging) == 0
    && match s.phase
       case Idle(_) => true
       case Collecting(b) => Names(b.rows) == Names(Load(s.disk.staging)) >= Names(b.recovered)
       case Staged(b, row) =>
         Names(b.rows) + {row.clip} == Names(Load(s.disk.staging)) >= Names(b.recovered)
       case Written(b) => Names(s.disk.parquet) == Names(Load(s.disk.staging))
       case Folding(recovered) => recovered == Load(s.disk.staging)
       case Folded => Names(s.disk.parquet) == Names(Load(s.disk.staging))
  }

  lemma CleanStage(s: State, e: Event)
    requires Clean(s) && Step(s, e).Some? && e.Stage?
    ensures Clean(Step(s, e).value)
    ensures s.disk.Covered() ==> Step(s, e).value.disk.Covered()
  {
    DebtCoversSpoiled(s.disk.staging);
    AppendToCleanTail(s.disk.staging, e.row);
    DebtOfAppend(s.disk.staging, e.row);
    NamesSnoc(Load(s.disk.staging), e.row);
  }

  lemma CleanMark(s: State, e: Event)
    requires Clean(s) && Step(s, e).Some? && (e.MarkDone? || e.MarkFault?)
    ensures Clean(Step(s, e).value)
    ensures s.disk.Covered() ==> Step(s, e).value.disk.Covered()
  {
    NamesSnoc(s.phase.batch.rows, s.phase.row);
  }

  lemma CleanCommit(s: State, e: Event)
    requires Clean(s) && Step(s, e).Some? && e.Commit?
    ensures Clean(Step(s, e).value)
    ensures s.disk.Covered() ==>
              (Step(s, e).value.disk.Covered() <==> (WritesParquet(s, e) ==> OnlyInParquet(s.disk) == {}))
  {
    var rows := if s.phase.Collecting? then s.phase.batch.rows else s.phase.recovered;
    KeepLastNames(rows);
    NothingOnlyInParquet(s.disk, KeepLast(rows));
  }

  lemma NothingOnlyInParquet(disk: Disk, rows: seq<Row>)
    requires Names(rows) == Names(Load(disk.staging))
    ensures disk.(parquet := rows).Covered() <==> OnlyInParquet(disk) == {}
  {
    assert forall clip :: clip in disk.DoneSet() && clip !in Names(Load(disk.staging)) ==> clip in OnlyInParquet(disk);
  }

  lemma CleanUnlink(s: State, e: Event)
    requires Clean(s) && Step(s, e).Some? && e.Unlink?
    ensures Clean(Step(s, e).value)
    ensures s.disk.Covered() ==> Step(s, e).value.disk.Covered()
  {}

  /** One step loses coverage exactly when it replaces a parquet that is still needed. */
  lemma StepCoverage(s: State, e: Event)
    requires Clean(s) && Step(s, e).Some? && TearOf(e).NoTear?
    ensures Clean(Step(s, e).value)
    ensures s.disk.Covered() ==>
              (Step(s, e).value.disk.Covered() <==> (WritesParquet(s, e) ==> OnlyInParquet(s.disk) == {}))
  {
    assert s.disk.staging + [] == s.disk.staging;
    match e
    case Stage(_) => CleanStage(s, e);
    case MarkDone => CleanMark(s, e);
    case MarkFault => CleanMark(s, e);
    case Commit => CleanCommit(s, e);
    case Unlink => CleanUnlink(s, e);
    case _ =>
  }

  predicate AlwaysCovered(events: seq<Event>) {
    && (match Exec(INITIAL, events) case None => false case Some(s) => s.disk.Covered())
    && (events == [] || AlwaysCovered(Front(events)))
  }

  /** No parquet is replaced while a checkpointed clip lives only in it. */
  predicate CommitsSafe(events: seq<Event>) {
    events == [] ||
    (&& CommitsSafe(Front(events))
     && match Exec(INITIAL, Front(events))
        case None => false
        case Some(s) => WritesParquet(s, Last(events)) ==> OnlyInParquet(s.disk) == {})
  }

  /**
   With whole-line appends and any clip lists, an execution keeps every
   checkpointed row in every state exactly when each of its commits is safe.
   */
  lemma {:induction false} CoverageExactly(events: seq<Event>)
    requires Exec(INITIAL, events).Some? && Damage(events) == 0
    ensures Clean(Exec(INITIAL, events).value)
    ensures AlwaysCovered(events) <==> CommitsSafe(events)
  {
    if events == [] {
      assert Split([]) == Pages([], []);
    } else {
      CoverageExactly(Front(events));
      assert TearOf(Last(events)).NoTear?;
      StepCoverage(Exec(INITIAL, Front(events)).value, Last(events));
    }
  }

  // ----- The bound on torn rows, when no object is left without its newline

  function Tears(events: seq<Event>): nat {
    if events == [] then 0 else Tears(Front(events)) + if TearOf(Last(events)).NoTear? then 0 else 1
  }

  function Crashes(events: seq<Event>): nat {
    if events == [] then 0 else Crashes(Front(events)) + if Last(events).Crash? then 1 else 0
  }

  predicate NoUnterminated(events: seq<Event>) {
    forall e :: e in events ==> !TearOf(e).Unterminated?
  }

  lemma {:induction false} DamageCountsTears(events: seq<Event>)
    ensures Tears(events) <= Damage(events) <= 2 * Tears(events)
    ensures NoUnterminated(events) <==> Damage(events) == Tears(events)
  {
    if events != [] {
      DamageCountsTears(Front(events));
      assert events == Front(events) + [Last(events)];
      assert Tears(Front(events)) <= Damage(Front(events));
    }
  }
}
