/**
 The K150K crash-restart journal as a state machine.

 The durable state is the `.done` checkpoint, the staging file and the parquet.
 Every event is at most one durable operation, so a crash between any two of
 them, or inside a staging append, is just another event.
 */
module Journal {
  import opened Collections
  import opened Options
  import opened StagingLog

  datatype Disk = Disk(done: seq<Name>, staging: Text, parquet: seq<Row>) {
    /** The names read back from the checkpoint. */
    function DoneSet(): set<Name> {
      set name | name in done
    }

    function Recoverable(): set<Name> {
      Names(parquet) + Names(Load(staging))
    }

    /** No checkpointed clip has lost its row. */
    predicate Covered() {
      DoneSet() <= Recoverable()
    }

    function Lost(): set<Name> {
      DoneSet() - Recoverable()
    }
  }

  const EMPTY_DISK := Disk([], [], [])

  /** What an interrupted staging append leaves behind. */
  datatype Tear = NoTear | Partial(clip: Name) | Unterminated(row: Row)
  {
    predicate Hits(clips: set<Name>) {
      match this
      case NoTear => true
      case Partial(clip) => clip in clips
      case Unterminated(row) => row.clip in clips
    }

    function Residue(): Text {
      match this
      case NoTear => []
      case Partial(_) => [Cut]
      case Unterminated(row) => [Object(row)]
    }

    /** How many checkpointed rows the residue can spoil. */
    function Cost(): nat {
      match this
      case NoTear => 0
      case Partial(_) => 1
      case Unterminated(_) => 2
    }
  }

  /** The volatile state of a run that extracts pending clips. */
  datatype Batch = Batch(
    outstanding: set<Name>,
    recovered: seq<Row>,
    rows: seq<Row>,
    ok: nat,
    fail: nat,
    markFaults: nat)
  {
    /** Clips whose row the run would append to the staging file. */
    function Unstaged(): set<Name> {
      outstanding - Names(recovered)
    }
  }

  datatype Outcome = NotStarted | Crashed | Refused | Complete | Failed | CompleteNoop

  datatype Phase =
    | Idle(last: Outcome)
    | Collecting(batch: Batch)
    | Staged(batch: Batch, row: Row)
    | Written(batch: Batch)
    | Folding(recovered: seq<Row>)
    | Folded

  datatype State = State(disk: Disk, phase: Phase)

  const INITIAL := State(EMPTY_DISK, Idle(NotStarted))

  datatype Event =
    | Start(clips: set<Name>)
    | WorkerFail(clip: Name)
    | Stage(row: Row)
    | StageFault(clip: Name, tear: Tear)
    | MarkDone
    | MarkFault
    | Commit
    | Unlink
    | Crash(tear: Tear)

  /** Keep the last row of every clip, in the order of the kept rows. */
  function KeepLast(rows: seq<Row>): seq<Row> {
    if rows == [] then []
    else if rows[0].clip in Names(rows[1..]) then KeepLast(rows[1..])
    else [rows[0]] + KeepLast(rows[1..])
  }

  function EndOf(batch: Batch): Phase {
    Idle(if batch.fail == 0 then Complete else Failed)
  }

  /** The no-op verdict compares cardinalities only. */
  function NoopVerdict(disk: Disk): Phase {
    Idle(if |disk.DoneSet()| <= |disk.parquet| then CompleteNoop else Refused)
  }

  function Begin(disk: Disk, clips: set<Name>): Phase {
    var pending := clips - disk.DoneSet();
    var recovered := Load(disk.staging);
    if pending == {} then Folding(recovered)
    else Collecting(Batch(pending, recovered, recovered, 0, 0, 0))
  }

  /** One step, or None when the event cannot happen in this state. */
  function Step(s: State, e: Event): Option<State> {
    match e
    case Start(clips) =>
      if s.phase.Idle? then Some(State(s.disk, Begin(s.disk, clips))) else None
    case WorkerFail(clip) =>
      if s.phase.Collecting? && clip in s.phase.batch.outstanding then
        Some(State(s.disk, Collecting(Failing(s.phase.batch, clip))))
      else None
    case Stage(row) =>
      if s.phase.Collecting? && row.clip in s.phase.batch.outstanding then
        var b := s.phase.batch;
        var staging := if row.clip in Names(b.recovered) then s.disk.staging else AppendRow(s.disk.staging, row);
        Some(State(s.disk.(staging := staging), Staged(b.(outstanding := b.outstanding - {row.clip}), row)))
      else None
    case StageFault(clip, tear) =>
      if s.phase.Collecting? && clip in s.phase.batch.Unstaged() && tear.Hits({clip}) then
        Some(State(Torn(s.disk, tear), Collecting(Failing(s.phase.batch, clip))))
      else None
    case MarkDone =>
      if s.phase.Staged? then
        var b, row := s.phase.batch, s.phase.row;
        Some(State(s.disk.(done := s.disk.done + [row.clip]),
                   Collecting(b.(rows := b.rows + [row], ok := b.ok + 1))))
      else None
    case MarkFault =>
      if s.phase.Staged? then
        var b, row := s.phase.batch, s.phase.row;
        Some(State(s.disk, Collecting(b.(rows := b.rows + [row], fail := b.fail + 1, markFaults := b.markFaults + 1))))
      else None
    case Commit =>
      if s.phase.Collecting? && s.phase.batch.outstanding == {} then
        var b := s.phase.batch;
        if b.rows == [] then Some(State(s.disk, EndOf(b)))
        else if |b.rows| != |b.recovered| + b.ok then Some(State(s.disk, Idle(Refused)))
        else Some(State(s.disk.(parquet := KeepLast(b.rows)), Written(b)))
      else if s.phase.Folding? then
        if s.phase.recovered == [] then Some(State(s.disk, NoopVerdict(s.disk)))
        else Some(State(s.disk.(parquet := KeepLast(s.phase.recovered)), Folded))
      else None
    case Unlink =>
      var disk := s.disk.(staging := []);
      if s.phase.Written? then Some(State(disk, EndOf(s.phase.batch)))
      else if s.phase.Folded? then Some(State(disk, NoopVerdict(disk)))
      else None
    case Crash(tear) =>
      if tear.NoTear? || (s.phase.Collecting? && tear.Hits(s.phase.batch.Unstaged())) then
        Some(State(Torn(s.disk, tear), Idle(Crashed)))
      else None
  }

  function Failing(b: Batch, clip: Name): Batch {
    b.(outstanding := b.outstanding - {clip}, fail := b.fail + 1)
  }

  function Torn(disk: Disk, tear: Tear): Disk {
    disk.(staging := disk.staging + tear.Residue())
  }

  // ----- Executions

  /** The state after `events`, if every one of them can happen in turn. */
  function Exec(s: State, events: seq<Event>): Option<State> {
    if events == [] then Some(s)
    else
      match Exec(s, Front(events))
      case None => None
      case Some(mid) => Step(mid, Last(events))
  }

  lemma ExecSnoc(s: State, events: seq<Event>, e: Event)
    ensures Exec(s, events + [e]) == match Exec(s, events) case None => None case Some(mid) => Step(mid, e)
  {}

  lemma {:induction false} ExecAppend(s: State, left: seq<Event>, right: seq<Event>)
    ensures Exec(s, left + right) == match Exec(s, left) case None => None case Some(mid) => Exec(mid, right)
  {
    if right == [] {
      assert left + right == left;
    } else {
      ExecAppend(s, left, Front(right));
      assert Front(left + right) == left + Front(right);
    }
  }

  /** Every run enumerates the same clips. */
  predicate FixedClips(events: seq<Event>, clips: set<Name>) {
    forall e :: e in events && e.Start? ==> e.clips == clips
  }

  /** No run with a failed clip reaches the staging unlink. */
  predicate NoFailingUnlink(s: State, events: seq<Event>) {
    events == [] ||
    (&& NoFailingUnlink(s, Front(events))
     && (Last(events).Unlink? ==>
           match Exec(s, Front(events))
           case None => true
           case Some(mid) => mid.phase.Written? ==> mid.phase.batch.fail == 0))
  }

  function TearOf(e: Event): Tear {
    match e
    case Crash(tear) => tear
    case StageFault(_, tear) => tear
    case _ => NoTear
  }

  /** The total cost of the torn writes of an execution. */
  function Damage(events: seq<Event>): nat {
    if events == [] then 0 else Damage(Front(events)) + TearOf(Last(events)).Cost()
  }

  // ----- The parquet writer

  lemma {:induction false} KeepLastNames(rows: seq<Row>)
    ensures Names(KeepLast(rows)) == Names(rows)
  {
    if rows != [] {
      KeepLastNames(rows[1..]);
      assert rows == [rows[0]] + rows[1..];
      assert Names(rows) == {rows[0].clip} + Names(rows[1..]);
      if rows[0].clip !in Names(rows[1..]) {
        assert Names(KeepLast(rows)) == {rows[0].clip} + Names(KeepLast(rows[1..]));
      }
    }
  }

  predicate DistinctClips(rows: seq<Row>) {
    forall i, j :: 0 <= i < j < |rows| ==> rows[i].clip != rows[j].clip
  }

  lemma {:induction false} KeepLastDistinct(rows: seq<Row>)
    ensures DistinctClips(KeepLast(rows))
  {
    if rows != [] {
      KeepLastDistinct(rows[1..]);
      KeepLastNames(rows[1..]);
      var rest := KeepLast(rows[1..]);
      assert forall j :: 0 <= j < |rest| ==> rest[j].clip in Names(rest);
    }
  }

  /** Row i is the last one of its clip. */
  predicate IsLast(rows: seq<Row>, i: nat)
    requires i < |rows|
  {
    forall j :: i < j < |rows| ==> rows[j].clip != rows[i].clip
  }

  lemma {:induction false} KeptIsLast(rows: seq<Row>, row: Row) returns (i: nat)
    requires row in KeepLast(rows)
    ensures i < |rows| && rows[i] == row && IsLast(rows, i)
  {
    var rest := rows[1..];
    if row in KeepLast(rest) {
      i := KeptIsLast(rest, row);
      assert IsLast(rows, i + 1) by {
        forall j | i + 1 < j < |rows| ensures rows[j].clip != rows[i + 1].clip {
          assert rows[j] == rest[j - 1];
        }
      }
      i := i + 1;
    } else {
      i := 0;
      assert forall j :: 0 < j < |rows| ==> rows[j] == rest[j - 1] && rest[j - 1].clip in Names(rest);
    }
  }

  lemma {:induction false} LastIsKept(rows: seq<Row>, i: nat)
    requires i < |rows| && IsLast(rows, i)
    ensures rows[i] in KeepLast(rows)
  {
    var rest := rows[1..];
    if i > 0 {
      assert forall j :: i - 1 < j < |rest| ==> rest[j] == rows[j + 1];
      LastIsKept(rest, i - 1);
    } else {
      assert forall r :: r in rest ==> exists j :: 0 < j < |rows| && rows[j] == r;
    }
  }

  /** Each kept row is the last one of its clip. */
  lemma KeepLastIsLast(rows: seq<Row>, row: Row)
    ensures row in KeepLast(rows) <==> exists i: nat :: i < |rows| && rows[i] == row && IsLast(rows, i)
  {
    if row in KeepLast(rows) {
      var i := KeptIsLast(rows, row);
    }
    if i: nat :| i < |rows| && rows[i] == row && IsLast(rows, i) {
      LastIsKept(rows, i);
    }
  }

  lemma {:induction false} DistinctClipsCount(rows: seq<Row>)
    requires DistinctClips(rows)
    ensures |Names(rows)| == |rows|
  {
    if rows != [] {
      var n := |rows| - 1;
      DistinctClipsCount(rows[..n]);
      assert rows == rows[..n] + [rows[n]];
      assert Names(rows) == Names(rows[..n]) + {rows[n].clip};
      assert rows[n].clip !in Names(rows[..n]);
    }
  }
}
