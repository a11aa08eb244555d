/**
 Torn staging appends: exactly how many checkpointed rows an execution can lose, in
 terms of how many appends left a cut prefix and how many a whole object without its
 newline.
 */
module JournalTorn {
  import opened Collections
  import opened Options
  import opened StagingLog
  import opened Journal
  import opened JournalSafety
  import opened JournalExact
  import opened JournalWitness

  /** Appends that left a cut prefix. */
  function Cuts(events: seq<Event>): nat {
    if events == [] then 0 else Cuts(Front(events)) + if TearOf(Last(events)).Partial? then 1 else 0
  }

  /** Appends that left a whole object on an open line. */
  function Wholes(events: seq<Event>): nat {
    if events == [] then 0 else Wholes(Front(events)) + if TearOf(Last(events)).Unterminated? then 1 else 0
  }

  lemma {:induction false} TearsByKind(events: seq<Event>)
    ensures Damage(events) == Cuts(events) + 2 * Wholes(events)
    ensures Tears(events) == Cuts(events) + Wholes(events)
    ensures NoUnterminated(events) <==> Wholes(events) == 0
  {
    DamageCountsTears(events);
    if events != [] {
      TearsByKind(Front(events));
      DamageCountsTears(Front(events));
    }
  }

  /** One clip list, and no run with a failed clip reaching the unlink. */
  ghost predicate Careful(clips: set<Name>, events: seq<Event>) {
    Exec(INITIAL, events).Some? && FixedClips(events, clips) && NoFailingUnlink(INITIAL, events)
  }

  function Lost(events: seq<Event>): set<Name>
    requires Exec(INITIAL, events).Some?
  {
    Exec(INITIAL, events).value.disk.Lost()
  }

  /** When every torn append leaves a cut prefix, at most one clip is lost per torn append. */
  lemma CutsLoseOneEach(clips: set<Name>, events: seq<Event>)
    requires Careful(clips, events) && NoUnterminated(events)
    ensures |Lost(events)| <= Tears(events)
  {
    LossIsBounded(clips, events);
    TearsByKind(events);
  }

  // ----- Executions that lose as much as their tears allow

  ghost predicate Reaches(events: seq<Event>, s: State, clips: set<Name>, cuts: nat, wholes: nat) {
    && Exec(INITIAL, events) == Some(s) && Careful(clips, events)
    && Cuts(events) == cuts && Wholes(events) == wholes && Crashes(events) == cuts + wholes
  }

  /** One more event that tears nothing. */
  lemma ReachOn(events: seq<Event>, s: State, e: Event, s': State, clips: set<Name>, cuts: nat, wholes: nat)
    returns (longer: seq<Event>)
    requires Reaches(events, s, clips, cuts, wholes) && Step(s, e) == Some(s')
    requires !e.Unlink? && !e.Crash? && TearOf(e).NoTear? && (e.Start? ==> e.clips == clips)
    ensures Reaches(longer, s', clips, cuts, wholes)
  {
    longer := events + [e];
    assert Front(longer) == events;
  }

  /** One more crash inside an append. */
  lemma ReachTear(events: seq<Event>, s: State, tear: Tear, s': State, clips: set<Name>, cuts: nat, wholes: nat)
    returns (longer: seq<Event>)
    requires Reaches(events, s, clips, cuts, wholes) && Step(s, Crash(tear)) == Some(s') && !tear.NoTear?
    ensures tear.Partial? ==> Reaches(longer, s', clips, cuts + 1, wholes)
    ensures tear.Unterminated? ==> Reaches(longer, s', clips, cuts, wholes + 1)
  {
    longer := events + [Crash(tear)];
    assert Front(longer) == events;
  }

  /** Distinct clip names. */
  function Clip(i: nat): Name {
    seq(i + 1, _ => 'c') + ".mp4"
  }

  function Clips(n: nat): set<Name> {
    set i: nat | i < n :: Clip(i)
  }

  lemma ClipsGrow(n: nat)
    ensures Clips(n + 1) == Clips(n) + {Clip(n)} && Clip(n) !in Clips(n)
  {
    assert forall i: nat :: |Clip(i)| == i + 5;
  }

  lemma {:induction false} ClipsCount(n: nat)
    ensures |Clips(n)| == n
  {
    if n == 0 {
      assert Clips(0) == {};
    } else {
      ClipsCount(n - 1);
      ClipsGrow(n - 1);
    }
  }

  lemma ClipsMonotone(m: nat, n: nat)
    requires m <= n
    ensures Clips(m) <= Clips(n)
  {}

  /** The first m clips are checkpointed and unreadable, and the file ends with a newline. */
  ghost predicate Spent(disk: Disk, m: nat) {
    disk.DoneSet() == Clips(m) && disk.parquet == [] && Unreadable(disk.staging) && Split(disk.staging).tail == []
  }

  ghost predicate Unreadable(text: Text) {
    ParsedRows(Split(text).closed) == []
  }

  lemma SpentLosesAll(disk: Disk, m: nat)
    requires Spent(disk, m)
    ensures disk.Lost() == Clips(m)
  {
    ReadingOfSplit(disk.staging);
  }

  /** A run in progress from such files, with none of the other clips recovered. */
  ghost predicate Spoiling(s: State, clips: set<Name>, m: nat) {
    && Spent(s.disk, m) && s.phase.Collecting?
    && s.phase.batch.outstanding == clips - Clips(m)
    && Names(s.phase.batch.recovered) <= Clips(m)
  }

  /** A crash has left a piece behind on such a file. */
  ghost predicate Open(s: State, m: nat, piece: Piece) {
    && s.phase.Idle? && s.disk.DoneSet() == Clips(m) && s.disk.parquet == []
    && Unreadable(s.disk.staging) && Split(s.disk.staging).tail == [piece]
  }

  lemma TearOpens(s: State, clips: set<Name>, m: nat, tear: Tear, piece: Piece) returns (s': State)
    requires Spoiling(s, clips, m) && Clip(m) in clips && tear.Hits({Clip(m)})
    requires tear.Residue() == [piece] && !piece.Newline?
    ensures Step(s, Crash(tear)) == Some(s') && Open(s', m, piece)
  {
    ClipsGrow(m);
    SplitSnoc(s.disk.staging, piece);
    assert Clip(m) in s.phase.batch.Unstaged();
    s' := State(Torn(s.disk, tear), Idle(Crashed));
  }

  /** Appending on the open line spoils it, and ends it. */
  lemma GlueOn(text: Text, piece: Piece, y: Row)
    requires Unreadable(text) && Split(text).tail == [piece]
    ensures Unreadable(AppendRow(text, y)) && Split(AppendRow(text, y)).tail == []
  {
    SplitAppend(text, y);
    LinesSnoc(Split(text).closed, Split(text).tail + [Object(y)]);
  }

  lemma OneMoreDone(done: seq<Name>, m: nat)
    requires Disk(done, [], []).DoneSet() == Clips(m)
    ensures Disk(done + [Clip(m)], [], []).DoneSet() == Clips(m + 1)
  {
    ClipsGrow(m);
    assert forall name :: name in done <==> name in Disk(done, [], []).DoneSet();
  }

  lemma TwoMoreDone(done: seq<Name>, m: nat)
    requires Disk(done, [], []).DoneSet() == Clips(m)
    ensures Disk(done + [Clip(m + 1)] + [Clip(m)], [], []).DoneSet() == Clips(m + 2)
  {
    ClipsGrow(m);
    ClipsGrow(m + 1);
    var more := done + [Clip(m + 1)] + [Clip(m)];
    assert forall name :: name in more <==> name in done || name == Clip(m + 1) || name == Clip(m);
    assert forall name :: name in done <==> name in Disk(done, [], []).DoneSet();
  }

  lemma LessOutstanding(clips: set<Name>, m: nat)
    ensures clips - Clips(m) - {Clip(m)} == clips - Clips(m + 1)
    ensures clips - Clips(m) - {Clip(m + 1)} - {Clip(m)} == clips - Clips(m + 2)
  {
    ClipsGrow(m);
    ClipsGrow(m + 1);
  }

  // ----- A cut prefix costs one clip: the next one appended

  lemma CutSteps(s: State, clips: set<Name>, m: nat) returns (s1: State, s2: State, s3: State)
    requires Open(s, m, Cut) && Clip(m) in clips
    ensures Step(s, Start(clips)) == Some(s1) && Step(s1, Stage(Row(Clip(m), 0))) == Some(s2)
    ensures Step(s2, MarkDone) == Some(s3)
    ensures s3.phase.Collecting? && s3.phase.batch.recovered == []
    ensures s3.phase.batch.outstanding == clips - Clips(m) - {Clip(m)}
    ensures s3.disk == Disk(s.disk.done + [Clip(m)], AppendRow(s.disk.staging, Row(Clip(m), 0)), s.disk.parquet)
  {
    ClipsGrow(m);
    ReadingOfSplit(s.disk.staging);
    assert Clip(m) in clips - s.disk.DoneSet();
    s1 := State(s.disk, Begin(s.disk, clips));
    s2 := Step(s1, Stage(Row(Clip(m), 0))).value;
    s3 := Step(s2, MarkDone).value;
  }

  lemma CutRound(events: seq<Event>, s: State, clips: set<Name>, cuts: nat, wholes: nat, m: nat)
    returns (longer: seq<Event>, s': State)
    requires Reaches(events, s, clips, cuts, wholes) && Spoiling(s, clips, m) && Clips(m + 1) <= clips
    ensures Reaches(longer, s', clips, cuts + 1, wholes) && Spoiling(s', clips, m + 1)
  {
    ClipsGrow(m);
    var torn := TearOpens(s, clips, m, Partial(Clip(m)), Cut);
    longer := ReachTear(events, s, Partial(Clip(m)), torn, clips, cuts, wholes);
    var s1, s2, s3 := CutSteps(torn, clips, m);
    longer := ReachOn(longer, torn, Start(clips), s1, clips, cuts + 1, wholes);
    longer := ReachOn(longer, s1, Stage(Row(Clip(m), 0)), s2, clips, cuts + 1, wholes);
    longer := ReachOn(longer, s2, MarkDone, s3, clips, cuts + 1, wholes);
    s' := s3;
    GlueOn(torn.disk.staging, Cut, Row(Clip(m), 0));
    OneMoreDone(torn.disk.done, m);
    LessOutstanding(clips, m);
  }

  // ----- A whole object without its newline costs two: itself and the next one

  lemma WholeSteps(s: State, clips: set<Name>, m: nat) returns (s1: State, s2: State)
    requires Open(s, m, Object(Row(Clip(m), 0))) && Clips(m + 2) <= clips
    ensures Step(s, Start(clips)) == Some(s1) && Step(s1, Stage(Row(Clip(m + 1), 0))) == Some(s2)
    ensures s2.phase.Staged? && s2.phase.row == Row(Clip(m + 1), 0)
    ensures s2.phase.batch.recovered == [Row(Clip(m), 0)]
    ensures s2.phase.batch.outstanding == clips - Clips(m) - {Clip(m + 1)} && Clip(m) in s2.phase.batch.outstanding
    ensures s2.disk == s.disk.(staging := AppendRow(s.disk.staging, Row(Clip(m + 1), 0)))
  {
    ClipsGrow(m);
    ClipsGrow(m + 1);
    assert |Clip(m)| == m + 5 && |Clip(m + 1)| == m + 6;
    BeginOpen(s, clips, m);
    s1 := State(s.disk, Begin(s.disk, clips));
    s2 := Step(s1, Stage(Row(Clip(m + 1), 0))).value;
  }

  lemma BeginOpen(s: State, clips: set<Name>, m: nat)
    requires Open(s, m, Object(Row(Clip(m), 0))) && Clip(m) in clips
    ensures Begin(s.disk, clips) ==
            Collecting(Batch(clips - Clips(m), [Row(Clip(m), 0)], [Row(Clip(m), 0)], 0, 0, 0))
  {
    ClipsGrow(m);
    ReadingOfSplit(s.disk.staging);
    assert Clip(m) in clips - s.disk.DoneSet();
  }

  /** The rest of such a run: check off the appended clip, then the recovered one. */
  lemma MarkBoth(events: seq<Event>, s: State, x: Row, clips: set<Name>, cuts: nat, wholes: nat)
    returns (longer: seq<Event>, s': State)
    requires Reaches(events, s, clips, cuts, wholes)
    requires s.phase.Staged? && x.clip in s.phase.batch.outstanding && x.clip in Names(s.phase.batch.recovered)
    ensures Reaches(longer, s', clips, cuts, wholes)
    ensures s'.disk == s.disk.(done := s.disk.done + [s.phase.row.clip] + [x.clip])
    ensures s'.phase.Collecting? && s'.phase.batch.outstanding == s.phase.batch.outstanding - {x.clip}
    ensures s'.phase.batch.recovered == s.phase.batch.recovered
  {
    s' := Step(s, MarkDone).value;
    longer := ReachOn(events, s, MarkDone, s', clips, cuts, wholes);
    var s'' := Step(s', Stage(x)).value;
    longer := ReachOn(longer, s', Stage(x), s'', clips, cuts, wholes);
    s' := Step(s'', MarkDone).value;
    longer := ReachOn(longer, s'', MarkDone, s', clips, cuts, wholes);
  }

  lemma WholeRound(events: seq<Event>, s: State, clips: set<Name>, cuts: nat, wholes: nat, m: nat)
    returns (longer: seq<Event>, s': State)
    requires Reaches(events, s, clips, cuts, wholes) && Spoiling(s, clips, m) && Clips(m + 2) <= clips
    ensures Reaches(longer, s', clips, cuts, wholes + 1) && Spoiling(s', clips, m + 2)
  {
    ClipsGrow(m);
    ClipsGrow(m + 1);
    var x := Row(Clip(m), 0);
    var torn := TearOpens(s, clips, m, Unterminated(x), Object(x));
    longer := ReachTear(events, s, Unterminated(x), torn, clips, cuts, wholes);
    var s1, s2 := WholeSteps(torn, clips, m);
    longer := ReachOn(longer, torn, Start(clips), s1, clips, cuts, wholes + 1);
    longer := ReachOn(longer, s1, Stage(Row(Clip(m + 1), 0)), s2, clips, cuts, wholes + 1);
    longer, s' := MarkBoth(longer, s2, x, clips, cuts, wholes + 1);
    GlueOn(torn.disk.staging, Object(x), Row(Clip(m + 1), 0));
    TwoMoreDone(torn.disk.done, m);
    LessOutstanding(clips, m);
  }

  lemma NoRound(clips: set<Name>) returns (events: seq<Event>, s: State)
    requires clips != {}
    ensures Reaches(events, s, clips, 0, 0) && Spoiling(s, clips, 0)
  {
    LoadOne(Row("", 0));
    assert Split([]) == Pages([], []);
    assert Clips(0) == {} == EMPTY_DISK.DoneSet();
    assert clips - EMPTY_DISK.DoneSet() == clips;
    s := State(EMPTY_DISK, Collecting(Batch(clips, [], [], 0, 0, 0)));
    events := ReachOn([], INITIAL, Start(clips), s, clips, 0, 0);
  }

  lemma {:induction false} Rounds(clips: set<Name>, cuts: nat, wholes: nat) returns (events: seq<Event>, s: State)
    requires clips != {} && Clips(cuts + 2 * wholes) <= clips
    ensures Reaches(events, s, clips, cuts, wholes) && Spoiling(s, clips, cuts + 2 * wholes)
    decreases cuts + wholes
  {
    if cuts > 0 {
      var m := cuts - 1 + 2 * wholes;
      ClipsMonotone(m, m + 1);
      events, s := Rounds(clips, cuts - 1, wholes);
      events, s := CutRound(events, s, clips, cuts - 1, wholes, m);
    } else if wholes > 0 {
      var m := 2 * (wholes - 1);
      ClipsMonotone(m, m + 2);
      events, s := Rounds(clips, 0, wholes - 1);
      events, s := WholeRound(events, s, clips, 0, wholes - 1, m);
    } else {
      events, s := NoRound(clips);
    }
  }

  /** For every number of torn appends of each kind, an otherwise careful execution loses all they allow. */
  lemma LossIsAttained(cuts: nat, wholes: nat) returns (clips: set<Name>, events: seq<Event>)
    ensures Careful(clips, events) && Cuts(events) == cuts && Wholes(events) == wholes
    ensures Crashes(events) == cuts + wholes && |Lost(events)| == cuts + 2 * wholes
  {
    var n := cuts + 2 * wholes;
    clips := Clips(n + 1);
    ClipsGrow(n);
    ClipsMonotone(n, n + 1);
    var s: State;
    events, s := Rounds(clips, cuts, wholes);
    SpentLosesAll(s.disk, n);
    ClipsCount(n);
  }

  /** The bounds on the loss that hold of all careful executions with given tears are exactly these. */
  lemma LossBoundExactlyWhen(cuts: nat, wholes: nat, bound: nat)
    ensures (forall clips, events ::
               Careful(clips, events) && Cuts(events) == cuts && Wholes(events) == wholes ==> |Lost(events)| <= bound)
       <==> cuts + 2 * wholes <= bound
  {
    if cuts + 2 * wholes <= bound {
      forall clips, events | Careful(clips, events) && Cuts(events) == cuts && Wholes(events) == wholes
        ensures |Lost(events)| <= bound
      {
        LossIsBounded(clips, events);
        TearsByKind(events);
      }
    } else {
      var clips, events := LossIsAttained(cuts, wholes);
    }
  }

  /** One lost clip per torn append is a bound exactly when none leaves a whole object. */
  lemma OnePerTearExactlyWhen(cuts: nat, wholes: nat)
    ensures (forall clips, events ::
               Careful(clips, events) && Cuts(events) == cuts && Wholes(events) == wholes ==>
                 |Lost(events)| <= Tears(events))
       <==> wholes == 0
  {
    forall events | Cuts(events) == cuts && Wholes(events) == wholes ensures Tears(events) == cuts + wholes {
      TearsByKind(events);
    }
    LossBoundExactlyWhen(cuts, wholes, cuts + wholes);
  }

  /** So k crashes can cost 2k checkpointed clips. */
  lemma TwoLostPerCrash(crashes: nat) returns (clips: set<Name>, events: seq<Event>)
    ensures Exec(INITIAL, events).Some? && FixedClips(events, clips) && NoFailingUnlink(INITIAL, events)
    ensures Crashes(events) == crashes && Damage(events) == 2 * crashes
    ensures |Exec(INITIAL, events).value.disk.Lost()| == 2 * crashes
  {
    clips, events := LossIsAttained(0, crashes);
    TearsByKind(events);
  }
}
