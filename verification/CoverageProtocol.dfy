/** Compiler processes that merge their coverage into one file, one at a time behind a lock file. */
module CoverageProtocol {
  import opened Support
  import opened Paths
  import opened CoverageReport
  import opened LockFile

  /** What the file system lets one call do; `opensReport` says that a report already there can be read and parsed. */
  datatype World = World(makesDirectory: bool, opening: nat -> Opening, opensReport: bool, writes: bool, renames: bool)

  datatype Outcome = Succeeded | LockTimeout | Unreadable | IoFailed

  /** The output directory as one compiler process sees it. */
  class OutputDirectory {
    var file: Option<Report>

    constructor (file: Option<Report>)
      ensures this.file == file
    {
      this.file := file;
    }

    /** Merges a process's report into the file, or fails and leaves it alone. */
    method WriteMirCoverage(own: Report, world: World) returns (outcome: Outcome)
      modifies this
      ensures outcome.Succeeded? <==>
        && world.makesDirectory && GetsLock(world.opening) && (old(file).Some? ==> world.opensReport) && world.writes && world.renames
      ensures outcome.LockTimeout? <==> world.makesDirectory && BlockedUntil(world.opening, 200)
      ensures outcome.Unreadable? <==> world.makesDirectory && GetsLock(world.opening) && old(file).Some? && !world.opensReport
      ensures file == if !outcome.Succeeded? then old(file)
                      else Some(Merged(if old(file).Some? then old(file).value else Empty(own.expectedPackages), own))
    {
      if !world.makesDirectory { return IoFailed; }
      var acquired := Acquire(world.opening);
      if acquired.NeverFree? { return LockTimeout; }
      if acquired.OpenFailed? { return IoFailed; }
      if file.Some? && !world.opensReport { return Unreadable; }
      var report := new MirCoverageReport(if file.Some? then file.value else Empty(own.expectedPackages));
      report.Merge(own);
      if !world.writes || !world.renames { return IoFailed; }
      file := Some(report.Contents());
      return Succeeded;
    }
  }

  datatype Phase = Waiting(missed: nat) | Holding | HasRead(report: Report) | Renamed | Done | TimedOut | Failed

  datatype State = State(file: Option<Report>, lock: Option<nat>, phases: map<nat, Phase>)

  datatype Action = Lock | Miss | Read | Rename | Release | Abort

  function With(state: State, writer: nat, phase: Phase): State {
    state.(phases := state.phases[writer := phase])
  }

  /** What one step of one writer does, if it can take it. */
  ghost function Act(own: map<nat, Report>, state: State, writer: nat, action: Action): Option<State> {
    if writer !in state.phases || writer !in own then None
    else
      match (action, state.phases[writer])
      case (Lock, Waiting(_)) =>
        if state.lock.None? then Some(With(state, writer, Holding).(lock := Some(writer))) else None
      case (Miss, Waiting(missed)) =>
        if state.lock.Some? then Some(With(state, writer, if missed + 1 >= ATTEMPTS then TimedOut else Waiting(missed + 1)))
        else None
      case (Read, Holding) =>
        var report := if state.file.Some? then state.file.value else Empty(own[writer].expectedPackages);
        Some(With(state, writer, HasRead(report)))
      case (Rename, HasRead(report)) =>
        Some(With(state, writer, Renamed).(file := Some(Merged(report, own[writer]))))
      case (Release, Renamed) => Some(With(state, writer, Done).(lock := None))
      case (Abort, Waiting(_)) => Some(With(state, writer, Failed))
      case (Abort, Holding) => Some(With(state, writer, Failed).(lock := None))
      case (Abort, HasRead(_)) => Some(With(state, writer, Failed).(lock := None))
      case _ => None
  }

  ghost predicate Initial(own: map<nat, Report>, state: State) {
    state.lock.None? && state.phases.Keys == own.Keys && forall writer <- state.phases :: state.phases[writer] == Waiting(0)
  }

  ghost predicate Step(own: map<nat, Report>, before: State, after: State) {
    exists writer, action :: Act(own, before, writer, action) == Some(after)
  }

  ghost predicate Reaches(own: map<nat, Report>, start: State, states: seq<State>) {
    if states == [] then true
    else
      var last := |states| - 1;
      Reaches(own, start, states[..last]) && Step(own, if last == 0 then start else states[last - 1], states[last])
  }

  // ---- The invariant ----

  /** The writer is between creating and removing the lock file. */
  predicate Active(phase: Phase) {
    phase.Holding? || phase.HasRead? || phase.Renamed?
  }

  predicate HasWritten(phase: Phase) {
    phase.Renamed? || phase.Done?
  }

  /** The lock file belongs to the one active writer. */
  ghost predicate LockHeld(state: State) {
    forall writer <- state.phases :: Active(state.phases[writer]) <==> state.lock == Some(writer)
  }

  function Entries(file: Option<Report>, field: Field): seq<string> {
    if file.Some? then Get(file.value, field) else []
  }

  ghost predicate Contributed(own: map<nat, Report>, state: State, field: Field, entry: string) {
    exists writer <- state.phases :: writer in own && HasWritten(state.phases[writer]) && entry in Get(own[writer], field)
  }

  /** The file holds what it held at the start and what the writers that renamed contributed, and nothing else. */
  ghost predicate Accumulates(own: map<nat, Report>, start: State, state: State, field: Field) {
    forall entry :: entry in Entries(state.file, field) <==>
      entry in Entries(start.file, field) || Contributed(own, state, field, entry)
  }

  /** Once some writer has renamed, every list is sorted. */
  ghost predicate Tidy(state: State, field: Field) {
    (exists writer <- state.phases :: HasWritten(state.phases[writer])) ==>
      state.file.Some? && Sorted(Entries(state.file, field))
  }

  ghost predicate ReadIsCurrent(own: map<nat, Report>, state: State) {
    forall writer <- state.phases :: state.phases[writer].HasRead? && writer in own ==>
      state.phases[writer].report
        == if state.file.Some? then state.file.value else Empty(own[writer].expectedPackages)
  }

  ghost predicate Inv(own: map<nat, Report>, start: State, state: State, field: Field) {
    LockHeld(state) && ReadIsCurrent(own, state) && Accumulates(own, start, state, field) && Tidy(state, field)
  }

  lemma StepKeepsLockHeld(own: map<nat, Report>, state: State, writer: nat, action: Action, next: State)
    requires LockHeld(state) && Act(own, state, writer, action) == Some(next)
    ensures LockHeld(next)
  {
  }

  lemma StepKeepsRead(own: map<nat, Report>, state: State, writer: nat, action: Action, next: State)
    requires LockHeld(state) && ReadIsCurrent(own, state) && Act(own, state, writer, action) == Some(next)
    ensures ReadIsCurrent(own, next)
  {
  }

  lemma RenameAccumulates(own: map<nat, Report>, start: State, state: State, writer: nat, next: State, field: Field)
    requires ReadIsCurrent(own, state) && Accumulates(own, start, state, field)
    requires Act(own, state, writer, Rename) == Some(next)
    ensures Accumulates(own, start, next, field) && Tidy(next, field)
  {
    var report := state.phases[writer].report;
    MergedField(report, own[writer], field);
    forall entry
      ensures Contributed(own, next, field, entry) <==> Contributed(own, state, field, entry) || entry in Get(own[writer], field)
    {
      OneMoreWriter(own, state, next, writer, field, entry);
    }
  }

  lemma OneMoreWriter(own: map<nat, Report>, state: State, next: State, writer: nat, field: Field, entry: string)
    requires writer in state.phases && writer in own && next.phases == state.phases[writer := Renamed]
    requires !HasWritten(state.phases[writer])
    ensures Contributed(own, next, field, entry) <==> Contributed(own, state, field, entry) || entry in Get(own[writer], field)
  {
    assert next.phases[writer] == Renamed;
    if w :| w in state.phases && w in own && HasWritten(state.phases[w]) && entry in Get(own[w], field) {
      assert next.phases[w] == state.phases[w];
    }
    if w :| w in next.phases && w in own && HasWritten(next.phases[w]) && entry in Get(own[w], field) {
      assert w != writer ==> next.phases[w] == state.phases[w];
    }
  }

  lemma OtherStepsContribute(own: map<nat, Report>, state: State, writer: nat, action: Action, next: State)
    requires Act(own, state, writer, action) == Some(next) && action != Rename
    ensures next.file == state.file && next.phases.Keys == state.phases.Keys
    ensures forall w <- state.phases :: HasWritten(next.phases[w]) <==> HasWritten(state.phases[w])
  {
  }

  lemma SameContributed(own: map<nat, Report>, state: State, next: State, field: Field, entry: string)
    requires next.phases.Keys == state.phases.Keys
    requires forall w <- state.phases :: HasWritten(next.phases[w]) <==> HasWritten(state.phases[w])
    ensures Contributed(own, next, field, entry) <==> Contributed(own, state, field, entry)
  {
  }

  lemma StepKeepsInv(own: map<nat, Report>, start: State, state: State, next: State, field: Field)
    requires Inv(own, start, state, field) && Step(own, state, next)
    ensures Inv(own, start, next, field)
  {
    var writer, action :| Act(own, state, writer, action) == Some(next);
    StepKeepsLockHeld(own, state, writer, action, next);
    StepKeepsRead(own, state, writer, action, next);
    if action == Rename {
      RenameAccumulates(own, start, state, writer, next, field);
    } else {
      OtherStepsContribute(own, state, writer, action, next);
      forall entry ensures Contributed(own, next, field, entry) <==> Contributed(own, state, field, entry) {
        SameContributed(own, state, next, field, entry);
      }
    }
  }

  lemma {:induction false} RunKeepsInv(own: map<nat, Report>, start: State, states: seq<State>, field: Field)
    requires Initial(own, start) && Reaches(own, start, states)
    ensures Inv(own, start, if states == [] then start else states[|states| - 1], field)
  {
    if states != [] {
      var last := |states| - 1;
      RunKeepsInv(own, start, states[..last], field);
      StepKeepsInv(own, start, if last == 0 then start else states[last - 1], states[last], field);
    }
  }

  // ---- What it means ----

  /** At no time are two writers between reading and renaming, and only the lock holder is. */
  lemma AtMostOneActive(own: map<nat, Report>, start: State, states: seq<State>, a: nat, b: nat)
    requires Initial(own, start) && Reaches(own, start, states) && states != []
    requires
      var phases := states[|states| - 1].phases;
      a in phases && b in phases && Active(phases[a]) && Active(phases[b])
    ensures a == b
  {
    RunKeepsInv(own, start, states, SeenBodies);
  }

  /** Whenever no writer is active, the file is the initial one joined with the reports of the writers that succeeded. */
  lemma QuietFileIsUnion(own: map<nat, Report>, start: State, states: seq<State>, field: Field, entry: string)
    requires Initial(own, start) && Reaches(own, start, states) && states != []
    requires states[|states| - 1].lock.None?
    ensures
      var now := states[|states| - 1];
      && (entry in Entries(now.file, field) <==>
            || entry in Entries(start.file, field)
            || exists writer <- now.phases :: now.phases[writer].Done? && writer in own && entry in Get(own[writer], field))
      && ((exists writer <- now.phases :: now.phases[writer].Done?) ==> now.file.Some? && Sorted(Entries(now.file, field)))
  {
    var now := states[|states| - 1];
    RunKeepsInv(own, start, states, field);
    assert forall writer <- now.phases :: HasWritten(now.phases[writer]) <==> now.phases[writer].Done?;
    assert entry in Entries(now.file, field) <==> entry in Entries(start.file, field) || Contributed(own, now, field, entry);
  }

  lemma StepKeepsDone(own: map<nat, Report>, before: State, after: State, writer: nat)
    requires Step(own, before, after) && writer in before.phases && before.phases[writer].Done?
    ensures writer in after.phases && after.phases[writer].Done?
  {
    var other, action :| Act(own, before, other, action) == Some(after);
  }

  lemma {:induction false} DoneStaysDone(own: map<nat, Report>, start: State, states: seq<State>, i: nat, writer: nat)
    requires Reaches(own, start, states) && i < |states|
    requires writer in states[i].phases && states[i].phases[writer].Done?
    ensures
      var now := states[|states| - 1];
      writer in now.phases && now.phases[writer].Done?
  {
    var last := |states| - 1;
    if i < last {
      DoneStaysDone(own, start, states[..last], i, writer);
      StepKeepsDone(own, states[last - 1], states[last], writer);
    }
  }

  /** Whatever a writer that succeeded reported stays in the file, through every later step. */
  lemma SuccessIsKept(own: map<nat, Report>, start: State, states: seq<State>, i: nat, writer: nat, field: Field, entry: string)
    requires Initial(own, start) && Reaches(own, start, states) && i < |states|
    requires writer in states[i].phases && states[i].phases[writer].Done?
    requires writer in own && entry in Get(own[writer], field)
    ensures entry in Entries(states[|states| - 1].file, field)
  {
    DoneStaysDone(own, start, states, i, writer);
    RunKeepsInv(own, start, states, field);
    assert Contributed(own, states[|states| - 1], field, entry);
  }

  /** The state before the k-th step. */
  function Before(start: State, states: seq<State>, k: nat): State
    requires k <= |states|
  {
    if k == 0 then start else states[k - 1]
  }

  /** The k-th step is a failed attempt of the writer to take the lock. */
  ghost predicate MissesAt(own: map<nat, Report>, start: State, states: seq<State>, writer: nat, k: nat)
    requires k < |states|
  {
    Act(own, Before(start, states, k), writer, Miss) == Some(states[k])
  }

  ghost function Misses(own: map<nat, Report>, start: State, states: seq<State>, writer: nat): nat {
    if states == [] then 0
    else
      var last := |states| - 1;
      Misses(own, start, states[..last], writer) + if MissesAt(own, start, states, writer, last) then 1 else 0
  }

  /** The phase agrees with the number of failed attempts. */
  predicate CountFits(phase: Phase, misses: nat) {
    && misses <= 200
    && (phase.TimedOut? <==> misses == 200)
    && (phase.Waiting? ==> phase.missed == misses)
  }

  lemma OwnStepCounts(own: map<nat, Report>, before: State, writer: nat, action: Action, after: State, misses: nat)
    requires Act(own, before, writer, action) == Some(after) && CountFits(before.phases[writer], misses)
    ensures writer in after.phases && CountFits(after.phases[writer], misses + if action == Miss then 1 else 0)
    ensures action != Miss ==> !(Act(own, before, writer, Miss) == Some(after))
  {
  }

  lemma OtherStepIsNoMiss(own: map<nat, Report>, before: State, other: nat, action: Action, after: State, writer: nat)
    requires Act(own, before, other, action) == Some(after) && other != writer && writer in before.phases
    ensures writer in after.phases && after.phases[writer] == before.phases[writer]
    ensures !(Act(own, before, writer, Miss) == Some(after))
  {
  }

  lemma StepCounts(own: map<nat, Report>, before: State, after: State, writer: nat, misses: nat)
    requires Step(own, before, after) && writer in before.phases && CountFits(before.phases[writer], misses)
    ensures writer in after.phases
    ensures CountFits(after.phases[writer], misses + if Act(own, before, writer, Miss) == Some(after) then 1 else 0)
  {
    var other, action :| Act(own, before, other, action) == Some(after);
    if other == writer {
      OwnStepCounts(own, before, writer, action, after, misses);
    } else {
      OtherStepIsNoMiss(own, before, other, action, after, writer);
    }
  }

  /** In every run, a writer has given up on the lock exactly if it has made all the attempts allowed, and none worked. */
  lemma {:induction false} TimeoutTakesAllAttempts(own: map<nat, Report>, start: State, states: seq<State>, writer: nat)
    requires Initial(own, start) && Reaches(own, start, states) && writer in own
    ensures
      var now := Before(start, states, |states|);
      writer in now.phases && CountFits(now.phases[writer], Misses(own, start, states, writer))
  {
    if states != [] {
      var last := |states| - 1;
      TimeoutTakesAllAttempts(own, start, states[..last], writer);
      StepCounts(own, Before(start, states, last), states[last], writer, Misses(own, start, states[..last], writer));
    }
  }

  lemma {:induction false} FrontReaches(own: map<nat, Report>, start: State, states: seq<State>, k: nat)
    requires Reaches(own, start, states) && k <= |states|
    ensures Reaches(own, start, states[..k])
  {
    if k < |states| {
      assert states[..|states| - 1][..k] == states[..k];
      FrontReaches(own, start, states[..|states| - 1], k);
    } else {
      assert states[..k] == states;
    }
  }

  lemma MissFindsTaken(own: map<nat, Report>, before: State, writer: nat, after: State)
    requires LockHeld(before) && Act(own, before, writer, Miss) == Some(after)
    ensures before.lock.Some? && before.lock.value != writer && after.file == before.file && after.lock == before.lock
  {
  }

  /** Each failed attempt found another writer at work, and changed neither the file nor the lock. */
  lemma MissedMeansTaken(own: map<nat, Report>, start: State, states: seq<State>, writer: nat, k: nat)
    requires Initial(own, start) && Reaches(own, start, states) && k < |states| && MissesAt(own, start, states, writer, k)
    ensures
      var before := Before(start, states, k);
      && before.lock.Some? && before.lock.value != writer
      && states[k].file == before.file && states[k].lock == before.lock
  {
    FrontReaches(own, start, states, k);
    RunKeepsInv(own, start, states[..k], SeenBodies);
    assert Before(start, states, k) == if states[..k] == [] then start else states[..k][|states[..k]| - 1];
    MissFindsTaken(own, Before(start, states, k), writer, states[k]);
  }

  // ---- Nobody is ever stuck ----

  /** Whenever the lock is free, a writer that still waits can go on to succeed by itself, whatever happened before. */
  lemma CanSucceed(own: map<nat, Report>, state: State, writer: nat) returns (states: seq<State>)
    requires writer in state.phases && writer in own && state.phases[writer].Waiting? && state.lock.None?
    ensures Reaches(own, state, states) && |states| == 4
    ensures
      var now := states[3];
      && now.phases == state.phases[writer := Done] && now.lock.None?
      && now.file == Some(Merged(if state.file.Some? then state.file.value else Empty(own[writer].expectedPackages), own[writer]))
  {
    var holding := Act(own, state, writer, Lock).value;
    var read := Act(own, holding, writer, Read).value;
    var renamed := Act(own, read, writer, Rename).value;
    var done := Act(own, renamed, writer, Release).value;
    states := [holding, read, renamed, done];
    assert Step(own, state, holding) && Step(own, holding, read) && Step(own, read, renamed) && Step(own, renamed, done);
    assert states[..3] == [holding, read, renamed] && states[..3][..2] == [holding, read] && [holding, read][..1] == [holding];
    assert Reaches(own, state, []) && [holding][..0] == [];
    assert Reaches(own, state, [holding]);
    assert Reaches(own, state, [holding, read]);
    assert Reaches(own, state, [holding, read, renamed]);
  }

  /** Whoever holds the lock can drop it in one step, so that a waiting writer is never kept out for good. */
  lemma HolderCanStop(own: map<nat, Report>, state: State, writer: nat) returns (next: State)
    requires writer in state.phases && writer in own && Active(state.phases[writer])
    ensures Step(own, state, next) && next.lock.None? && next.file == state.file
  {
    var action := if state.phases[writer].Renamed? then Release else Abort;
    next := Act(own, state, writer, action).value;
  }
}
