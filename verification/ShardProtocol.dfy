/** Compiler processes that publish fact shards freely and aggregate them one at a time behind a lock file. */
module ShardProtocol {
  import opened Support
  import opened Paths
  import opened FactShards
  import opened LockFile

  /** What one process was given to write, and the name its shard gets. */
  datatype Job = Job(facts: seq<Record>, shard: string)

  type Jobs = map<nat, Job>

  datatype Phase =
    | Start
    | Waiting(missed: nat)
    | Locked
    | Gathering(listed: seq<string>, read: nat, seen: map<string, seq<Record>>, gathered: Gathered)
    | Replaced(listed: seq<string>, seen: map<string, seq<Record>>, gathered: Gathered)
    | Described
    | Done
    | Failed

  /**
   * `filed` and `described` remember the shards, as they were read, that the records file and the manifest were last built
   * from; `seen` does so for a process that is reading.
   */
  datatype State = State(
    shards: map<string, seq<Record>>, records: map<string, Record>, manifest: map<string, Entry>,
    filed: map<string, seq<Record>>, described: map<string, seq<Record>>, lock: Option<nat>, phases: map<nat, Phase>)

  datatype Action = Publish | Lock | Miss | List | ReadNext | ReplaceRecords | ReplaceManifest | Release | Abort

  /** The process has a shard to publish: its first fact names an artifact. */
  predicate HasShard(job: Job) {
    Labelled(job.facts)
  }

  ghost function ReadOne(state: State, phase: Phase): Phase
    requires phase.Gathering? && phase.read < |phase.listed|
  {
    var name := phase.listed[phase.read];
    var next := if name in state.shards then AddShard(phase.gathered, name, state.shards[name]) else None;
    if next.None? then Failed
    else Gathering(phase.listed, phase.read + 1, phase.seen[name := state.shards[name]], next.value)
  }

  /** Where a step takes the process, if it can take it. */
  ghost function NextPhase(state: State, job: Job, phase: Phase, action: Action): Option<Phase> {
    match action
    case Publish =>
      if !phase.Start? then None else if HasShard(job) && !SameArtifact(job.facts) then Some(Failed) else Some(Waiting(0))
    case Lock => if phase.Waiting? && state.lock.None? then Some(Locked) else None
    case Miss =>
      if phase.Waiting? && state.lock.Some?
      then Some(if phase.missed + 1 >= ATTEMPTS then Failed else Waiting(phase.missed + 1))
      else None
    case List => if phase.Locked? then Some(Gathering(SortedNames(state.shards.Keys), 0, map[], NOTHING_GATHERED)) else None
    case ReadNext => if phase.Gathering? && phase.read < |phase.listed| then Some(ReadOne(state, phase)) else None
    case ReplaceRecords =>
      if phase.Gathering? && phase.read == |phase.listed| then Some(Replaced(phase.listed, phase.seen, phase.gathered)) else None
    case ReplaceManifest => if phase.Replaced? then Some(Described) else None
    case Release => if phase.Described? then Some(Done) else None
    case Abort =>
      if phase.Start? || phase.Waiting? || phase.Locked? || phase.Gathering? || phase.Replaced? then Some(Failed) else None
  }

  /** The lock file is made by locking and goes away with the lock, however the process comes to drop it. */
  function NextLock(lock: Option<nat>, writer: nat, before: Phase, after: Phase): Option<nat> {
    if !Active(before) && Active(after) then Some(writer)
    else if Active(before) && !Active(after) then None
    else lock
  }

  /** What a step writes to the shards and the two files. */
  ghost function Written(state: State, job: Job, phase: Phase, action: Action): State {
    if action.Publish? && HasShard(job) && SameArtifact(job.facts) then state.(shards := state.shards[job.shard := job.facts])
    else if action.ReplaceRecords? && phase.Gathering? then state.(records := phase.gathered.table, filed := phase.seen)
    else if action.ReplaceManifest? && phase.Replaced? then state.(manifest := phase.gathered.manifest, described := phase.seen)
    else state
  }

  /** What one step of one process does, if it can take it. */
  ghost function Act(jobs: Jobs, state: State, writer: nat, action: Action): Option<State> {
    if writer !in state.phases || writer !in jobs then None
    else
      var phase := state.phases[writer];
      var next := NextPhase(state, jobs[writer], phase, action);
      if next.None? then None
      else Some(Written(state, jobs[writer], phase, action).(phases := state.phases[writer := next.value],
                                                             lock := NextLock(state.lock, writer, phase, next.value)))
  }

  ghost predicate Step(jobs: Jobs, before: State, after: State) {
    exists writer, action :: Act(jobs, before, writer, action) == Some(after)
  }

  function Now(start: State, states: seq<State>): State {
    if states == [] then start else states[|states| - 1]
  }

  ghost predicate Reaches(jobs: Jobs, start: State, states: seq<State>) {
    if states == [] then true
    else
      var last := |states| - 1;
      Reaches(jobs, start, states[..last]) && Step(jobs, Now(start, states[..last]), states[last])
  }

  /** Nobody has started; what earlier builds left in the two files was built from shards of names that are still there. */
  ghost predicate Initial(jobs: Jobs, state: State) {
    && RecordsFit(state) && ManifestFits(state) && state.lock.None?
    && state.filed.Keys <= state.shards.Keys && state.described.Keys <= state.shards.Keys
    && state.phases.Keys == jobs.Keys && forall writer <- state.phases :: state.phases[writer].Start?
  }

  // ---- The invariant ----

  predicate Active(phase: Phase) {
    phase.Locked? || phase.Gathering? || phase.Replaced? || phase.Described?
  }

  ghost predicate LockHeld(state: State) {
    forall writer <- state.phases :: Active(state.phases[writer]) <==> state.lock == Some(writer)
  }

  /** The process publishes under the name. */
  predicate Owns(jobs: Jobs, writer: nat, name: string) {
    writer in jobs && HasShard(jobs[writer]) && jobs[writer].shard == name
  }

  /** The process has a shard, and no other process publishes under its name. */
  ghost predicate OwnsAlone(jobs: Jobs, writer: nat) {
    && writer in jobs && HasShard(jobs[writer])
    && forall other <- jobs :: Owns(jobs, other, jobs[writer].shard) ==> other == writer
  }

  ghost predicate FromJob(jobs: Jobs, name: string, shard: seq<Record>) {
    exists writer <- jobs :: Owns(jobs, writer, name) && jobs[writer].facts == shard
  }

  /** Every shard comes from an earlier build or is the facts of a process that publishes under its name. */
  ghost predicate ShardsKnown(jobs: Jobs, start: State, shards: map<string, seq<Record>>) {
    forall name <- shards :: (name in start.shards && start.shards[name] == shards[name]) || FromJob(jobs, name, shards[name])
  }

  /** The same of what was read, which may also be what an earlier build had read. */
  ghost predicate ContentsKnown(jobs: Jobs, start: State, contents: map<string, seq<Record>>) {
    forall name <- contents ::
      || (name in start.shards && start.shards[name] == contents[name])
      || (name in start.filed && start.filed[name] == contents[name])
      || FromJob(jobs, name, contents[name])
  }

  ghost predicate ShardsFit(jobs: Jobs, start: State, state: State) {
    && start.shards.Keys <= state.shards.Keys && ShardsKnown(jobs, start, state.shards)
    && forall writer <- state.phases :: PublishedFits(jobs, state, writer)
  }

  /** Under the name of a process past its start stand the facts of a process that publishes under it. */
  ghost predicate PublishedFits(jobs: Jobs, state: State, writer: nat)
    requires writer in state.phases
  {
    var phase := state.phases[writer];
    !phase.Start? && !phase.Failed? && writer in jobs && HasShard(jobs[writer]) ==>
      jobs[writer].shard in state.shards && FromJob(jobs, jobs[writer].shard, state.shards[jobs[writer].shard])
  }

  /** The records file holds exactly the shards it was built from. */
  ghost predicate RecordsFit(state: State) {
    forall key, record :: Has(state.records, key, record) <==> FiledFromAmong(state.filed, key, record)
  }

  ghost predicate FiledFromAmong(shards: map<string, seq<Record>>, key: string, record: Record) {
    exists name <- shards :: FiledFrom(shards[name], key, record)
  }

  /** The manifest names exactly the shards it was built from. */
  ghost predicate ManifestFits(state: State) {
    && state.manifest.Keys == state.described.Keys
    && forall name <- state.manifest :: EntryFits(state.manifest[name], state.described[name])
  }

  ghost predicate EntryFits(entry: Entry, shard: seq<Record>) {
    Labelled(shard) && shard[0].artifact == Some(entry.artifact) && entry.count == |shard|
  }

  ghost function Finished(state: State): set<nat> {
    set writer <- state.phases | state.phases[writer].Done?
  }

  /** All processes that publish under the name are settled. */
  ghost predicate Settled(jobs: Jobs, settled: set<nat>, name: string) {
    forall writer <- jobs :: Owns(jobs, writer, name) ==> writer in settled
  }

  /** The contents have each shard whose publishers are settled as it is now. */
  ghost predicate Current(jobs: Jobs, shards: map<string, seq<Record>>, settled: set<nat>, contents: map<string, seq<Record>>) {
    forall name <- shards :: Settled(jobs, settled, name) ==> name in contents && contents[name] == shards[name]
  }

  /** Names still to be read and contents read so far leave out no settled shard, and have none of an older form. */
  ghost predicate CurrentSoFar(jobs: Jobs, state: State, settled: set<nat>, listed: seq<string>, seen: map<string, seq<Record>>) {
    && (forall name <- state.shards :: Settled(jobs, settled, name) ==> name in listed)
    && (forall name <- seen :: name in state.shards && (Settled(jobs, settled, name) ==> seen[name] == state.shards[name]))
  }

  /** What the active process has gathered so far is what the shards it read hold. */
  ghost predicate GatheringFits(jobs: Jobs, start: State, state: State, writer: nat, listed: seq<string>, read: nat,
                                seen: map<string, seq<Record>>, gathered: Gathered) {
    && Sorted(listed) && SetOf(listed) <= state.shards.Keys && read <= |listed| && seen.Keys == SetOf(listed[..read])
    && CurrentSoFar(jobs, state, Finished(state) + {writer}, listed, seen) && ContentsKnown(jobs, start, seen)
    && Gather(seen, listed[..read]) == Some(gathered)
  }

  ghost predicate PhaseFits(jobs: Jobs, start: State, state: State, writer: nat)
    requires writer in state.phases
  {
    match state.phases[writer]
    case Gathering(listed, read, seen, gathered) => GatheringFits(jobs, start, state, writer, listed, read, seen, gathered)
    case Replaced(listed, seen, gathered) =>
      GatheringFits(jobs, start, state, writer, listed, |listed|, seen, gathered) && state.filed == seen
    case Described => FilesCurrent(jobs, state, Finished(state) + {writer})
    case _ => true
  }

  /** Both files were last built from the settled shards as they are now. */
  ghost predicate FilesCurrent(jobs: Jobs, state: State, settled: set<nat>) {
    Current(jobs, state.shards, settled, state.filed) && Current(jobs, state.shards, settled, state.described)
  }

  ghost predicate FilesFit(jobs: Jobs, start: State, state: State) {
    && RecordsFit(state) && ManifestFits(state)
    && state.filed.Keys <= state.shards.Keys && state.described.Keys <= state.shards.Keys
    && ContentsKnown(jobs, start, state.filed)
  }

  ghost predicate Inv(jobs: Jobs, start: State, state: State) {
    && LockHeld(state) && ShardsFit(jobs, start, state) && FilesFit(jobs, start, state)
    && (Finished(state) != {} ==> FilesCurrent(jobs, state, Finished(state)))
    && forall writer <- state.phases :: PhaseFits(jobs, start, state, writer)
  }

  // ---- Steps ----

  /** A step moves one process on, which had not finished; it succeeds only by releasing the lock. */
  lemma StepMovesOne(jobs: Jobs, state: State, writer: nat, action: Action, next: State)
    requires Act(jobs, state, writer, action) == Some(next)
    ensures writer in state.phases && writer in jobs && next.phases.Keys == state.phases.Keys
    ensures next.phases == state.phases[writer := next.phases[writer]]
    ensures NextPhase(state, jobs[writer], state.phases[writer], action) == Some(next.phases[writer])
    ensures next.lock == NextLock(state.lock, writer, state.phases[writer], next.phases[writer])
  {
  }

  /** Nobody moves on from the end, and success comes from releasing the lock. */
  lemma PhaseEnds(jobs: Jobs, state: State, writer: nat, action: Action, next: State)
    requires Act(jobs, state, writer, action) == Some(next)
    ensures writer in state.phases && !state.phases[writer].Done? && !state.phases[writer].Failed?
    ensures writer in next.phases && !next.phases[writer].Start?
    ensures next.phases[writer].Done? ==> state.phases[writer].Described?
  {
  }

  /** A process becomes active only by finding the lock free. */
  lemma LockIsFree(state: State, job: Job, phase: Phase, action: Action)
    requires NextPhase(state, job, phase, action).Some? && !Active(phase) && Active(NextPhase(state, job, phase, action).value)
    ensures state.lock.None?
  {
  }

  lemma StepKeepsLockHeld(jobs: Jobs, state: State, writer: nat, action: Action, next: State)
    requires LockHeld(state) && Act(jobs, state, writer, action) == Some(next)
    ensures LockHeld(next)
  {
    StepMovesOne(jobs, state, writer, action, next);
    var before, after := state.phases[writer], next.phases[writer];
    if !Active(before) && Active(after) { LockIsFree(state, jobs[writer], before, action); }
  }

  /** Only publishing changes the shards, and only the one of the process that starts. */
  lemma OnlyPublishingWrites(jobs: Jobs, state: State, writer: nat, action: Action, next: State)
    requires Act(jobs, state, writer, action) == Some(next)
    ensures writer in state.phases && (next.shards == state.shards
      || (state.phases[writer].Start? && HasShard(jobs[writer]) && next.shards == state.shards[jobs[writer].shard := jobs[writer].facts]))
  {
  }

  // ---- Shards ----

  /** A process that leaves its start without failing has published. */
  lemma StartPublishes(jobs: Jobs, state: State, writer: nat, action: Action, next: State)
    requires Act(jobs, state, writer, action) == Some(next) && state.phases[writer].Start? && HasShard(jobs[writer])
    ensures writer in next.phases && !next.phases[writer].Failed? ==>
      jobs[writer].shard in next.shards && next.shards[jobs[writer].shard] == jobs[writer].facts
  {
  }

  lemma OwnIsPublished(jobs: Jobs, state: State, writer: nat, action: Action, next: State)
    requires Act(jobs, state, writer, action) == Some(next) && writer in state.phases && PublishedFits(jobs, state, writer)
    ensures writer in next.phases && PublishedFits(jobs, next, writer)
  {
    OnlyPublishingWrites(jobs, state, writer, action, next);
    StepMovesOne(jobs, state, writer, action, next);
    PhaseEnds(jobs, state, writer, action, next);
    if HasShard(jobs[writer]) && state.phases[writer].Start? {
      StartPublishes(jobs, state, writer, action, next);
      assert Owns(jobs, writer, jobs[writer].shard);
    }
  }

  lemma OtherIsPublished(jobs: Jobs, state: State, writer: nat, action: Action, next: State, other: nat)
    requires Act(jobs, state, writer, action) == Some(next)
    requires other in state.phases && other != writer && PublishedFits(jobs, state, other)
    ensures other in next.phases && PublishedFits(jobs, next, other)
  {
    OnlyPublishingWrites(jobs, state, writer, action, next);
    StepMovesOne(jobs, state, writer, action, next);
    if other in jobs && jobs[writer].shard == jobs[other].shard && HasShard(jobs[writer]) { assert Owns(jobs, writer, jobs[other].shard); }
  }

  lemma StepKeepsShards(jobs: Jobs, start: State, state: State, writer: nat, action: Action, next: State)
    requires ShardsFit(jobs, start, state) && Act(jobs, state, writer, action) == Some(next)
    ensures ShardsFit(jobs, start, next) && state.shards.Keys <= next.shards.Keys
  {
    StepMovesOne(jobs, state, writer, action, next);
    OnlyPublishingWrites(jobs, state, writer, action, next);
    assert HasShard(jobs[writer]) ==> Owns(jobs, writer, jobs[writer].shard);
    forall other <- next.phases ensures PublishedFits(jobs, next, other) {
      assert PublishedFits(jobs, state, other);
      if other == writer {
        OwnIsPublished(jobs, state, writer, action, next);
      } else {
        OtherIsPublished(jobs, state, writer, action, next, other);
      }
    }
  }

  // ---- The files ----

  /** A step of a process that has yet to publish, or has published, leaves the settled shards alone. */
  lemma SettledStays(jobs: Jobs, state: State, writer: nat, action: Action, next: State, settled: set<nat>, name: string)
    requires Act(jobs, state, writer, action) == Some(next) && (state.phases[writer].Start? ==> writer !in settled)
    requires Settled(jobs, settled, name)
    ensures name in next.shards <==> name in state.shards
    ensures name in state.shards ==> next.shards[name] == state.shards[name]
  {
    OnlyPublishingWrites(jobs, state, writer, action, next);
    assert HasShard(jobs[writer]) && jobs[writer].shard == name ==> Owns(jobs, writer, name);
  }

  lemma CurrentStays(jobs: Jobs, state: State, writer: nat, action: Action, next: State, settled: set<nat>,
                     contents: map<string, seq<Record>>)
    requires Act(jobs, state, writer, action) == Some(next) && (state.phases[writer].Start? ==> writer !in settled)
    requires Current(jobs, state.shards, settled, contents)
    ensures Current(jobs, next.shards, settled, contents)
  {
    forall name <- next.shards | Settled(jobs, settled, name) ensures name in contents && contents[name] == next.shards[name] {
      SettledStays(jobs, state, writer, action, next, settled, name);
    }
  }

  /** The files change only in the two replacing steps. */
  lemma OnlyReplacingFiles(jobs: Jobs, state: State, writer: nat, action: Action, next: State)
    requires Act(jobs, state, writer, action) == Some(next)
    ensures !action.ReplaceRecords? ==> next.filed == state.filed && next.records == state.records
    ensures !action.ReplaceManifest? ==> next.described == state.described && next.manifest == state.manifest
    ensures action.ReplaceRecords? || action.ReplaceManifest? ==> writer in state.phases && next.shards == state.shards && Active(state.phases[writer])
  {
  }

  lemma GatheredFits(jobs: Jobs, start: State, state: State, writer: nat, listed: seq<string>, seen: map<string, seq<Record>>, gathered: Gathered)
    requires GatheringFits(jobs, start, state, writer, listed, |listed|, seen, gathered)
    ensures Current(jobs, state.shards, Finished(state) + {writer}, seen)
    ensures seen.Keys == SetOf(listed) && Gather(seen, listed) == Some(gathered)
  {
    assert listed[..|listed|] == listed;
  }

  lemma GatheredManifest(seen: map<string, seq<Record>>, listed: seq<string>, gathered: Gathered)
    requires seen.Keys == SetOf(listed) && Gather(seen, listed) == Some(gathered)
    ensures gathered.manifest.Keys == seen.Keys
    ensures forall name <- gathered.manifest :: EntryFits(gathered.manifest[name], seen[name])
  {
    forall name ensures name in gathered.manifest <==> name in seen
      ensures name in gathered.manifest ==> EntryFits(gathered.manifest[name], seen[name])
    {
      ManifestIsExact(seen, listed, name);
      assert name in seen <==> name in SetOf(listed);
    }
  }

  lemma GatheredRecords(seen: map<string, seq<Record>>, listed: seq<string>, gathered: Gathered)
    requires seen.Keys == SetOf(listed) && Gather(seen, listed) == Some(gathered)
    ensures forall key, record :: Has(gathered.table, key, record) <==> FiledFromAmong(seen, key, record)
  {
    forall key, record ensures Has(gathered.table, key, record) <==> FiledFromAmong(seen, key, record) {
      GatherIsUnion(seen, listed, key, record);
      SameNames(seen, listed, key, record);
    }
  }

  lemma SameNames(shards: map<string, seq<Record>>, names: seq<string>, key: string, record: Record)
    requires shards.Keys == SetOf(names)
    ensures FiledFromSome(shards, names, key, record) <==> FiledFromAmong(shards, key, record)
  {
    assert forall name <- names :: name in shards.Keys;
    assert forall name <- shards :: name in SetOf(names);
  }

  lemma ReplacedRecordsFit(jobs: Jobs, start: State, state: State, writer: nat, next: State)
    requires writer in state.phases && PhaseFits(jobs, start, state, writer) && Act(jobs, state, writer, ReplaceRecords) == Some(next)
    ensures RecordsFit(next) && next.filed.Keys <= next.shards.Keys && ContentsKnown(jobs, start, next.filed)
    ensures Current(jobs, next.shards, Finished(state) + {writer}, next.filed)
  {
    var phase := state.phases[writer];
    GatheredFits(jobs, start, state, writer, phase.listed, phase.seen, phase.gathered);
    GatheredRecords(phase.seen, phase.listed, phase.gathered);
  }

  lemma ReplacedManifestFits(jobs: Jobs, start: State, state: State, writer: nat, next: State)
    requires writer in state.phases && PhaseFits(jobs, start, state, writer) && Act(jobs, state, writer, ReplaceManifest) == Some(next)
    ensures ManifestFits(next) && next.described.Keys <= next.shards.Keys
    ensures FilesCurrent(jobs, next, Finished(state) + {writer})
  {
    var phase := state.phases[writer];
    GatheredFits(jobs, start, state, writer, phase.listed, phase.seen, phase.gathered);
    GatheredManifest(phase.seen, phase.listed, phase.gathered);
  }

  lemma StepKeepsFiles(jobs: Jobs, start: State, state: State, writer: nat, action: Action, next: State)
    requires FilesFit(jobs, start, state) && ShardsFit(jobs, start, state)
    requires Act(jobs, state, writer, action) == Some(next) && writer in state.phases && PhaseFits(jobs, start, state, writer)
    ensures FilesFit(jobs, start, next)
  {
    OnlyReplacingFiles(jobs, state, writer, action, next);
    StepKeepsShards(jobs, start, state, writer, action, next);
    if action.ReplaceRecords? { ReplacedRecordsFit(jobs, start, state, writer, next); }
    if action.ReplaceManifest? { ReplacedManifestFits(jobs, start, state, writer, next); }
  }

  /** Success comes from the lock holder alone. */
  lemma FinishedGrows(jobs: Jobs, state: State, writer: nat, action: Action, next: State)
    requires Act(jobs, state, writer, action) == Some(next)
    ensures writer in state.phases && writer in next.phases
    ensures Finished(next) == if next.phases[writer].Done? then Finished(state) + {writer} else Finished(state)
    ensures next.phases[writer].Done? ==> state.phases[writer].Described? && action.Release?
    ensures writer !in Finished(state)
  {
    StepMovesOne(jobs, state, writer, action, next);
    PhaseEnds(jobs, state, writer, action, next);
  }

  lemma FewerCurrent(jobs: Jobs, shards: map<string, seq<Record>>, fewer: set<nat>, settled: set<nat>, contents: map<string, seq<Record>>)
    requires fewer <= settled && Current(jobs, shards, settled, contents)
    ensures Current(jobs, shards, fewer, contents)
  {
    forall name <- shards | Settled(jobs, fewer, name) ensures name in contents && contents[name] == shards[name] {
      assert Settled(jobs, settled, name);
    }
  }

  lemma StepKeepsCurrent(jobs: Jobs, start: State, state: State, writer: nat, action: Action, next: State)
    requires Finished(state) != {} ==> FilesCurrent(jobs, state, Finished(state))
    requires Act(jobs, state, writer, action) == Some(next) && writer in state.phases && PhaseFits(jobs, start, state, writer)
    ensures Finished(next) != {} ==> FilesCurrent(jobs, next, Finished(next))
  {
    FinishedGrows(jobs, state, writer, action, next);
    OnlyReplacingFiles(jobs, state, writer, action, next);
    if Finished(next) != {} {
      if action.Release? {
        assert FilesCurrent(jobs, state, Finished(next));
      }
      CurrentStays(jobs, state, writer, action, next, Finished(next), state.filed);
      CurrentStays(jobs, state, writer, action, next, Finished(next), state.described);
      if action.ReplaceRecords? {
        ReplacedRecordsFit(jobs, start, state, writer, next);
        FewerCurrent(jobs, next.shards, Finished(next), Finished(state) + {writer}, next.filed);
      } else if action.ReplaceManifest? {
        ReplacedManifestFits(jobs, start, state, writer, next);
        FewerCurrent(jobs, next.shards, Finished(next), Finished(state) + {writer}, next.described);
      }
    }
  }

  // ---- The phases ----

  /** While another process is active, a step leaves the files alone and lets nobody succeed. */
  lemma OthersDoNotInterfere(jobs: Jobs, state: State, writer: nat, action: Action, next: State, other: nat)
    requires LockHeld(state) && Act(jobs, state, writer, action) == Some(next)
    requires other in state.phases && other != writer && Active(state.phases[other])
    ensures other in next.phases && next.phases[other] == state.phases[other]
    ensures next.filed == state.filed && next.described == state.described && Finished(next) == Finished(state)
    ensures writer in state.phases && writer !in Finished(state) + {other}
  {
    StepMovesOne(jobs, state, writer, action, next);
    FinishedGrows(jobs, state, writer, action, next);
    OnlyReplacingFiles(jobs, state, writer, action, next);
  }

  lemma StillGathering(jobs: Jobs, start: State, state: State, writer: nat, action: Action, next: State, other: nat,
                       listed: seq<string>, read: nat, seen: map<string, seq<Record>>, gathered: Gathered)
    requires GatheringFits(jobs, start, state, other, listed, read, seen, gathered)
    requires Act(jobs, state, writer, action) == Some(next) && writer !in Finished(state) + {other}
    requires Finished(next) == Finished(state) && state.shards.Keys <= next.shards.Keys
    ensures GatheringFits(jobs, start, next, other, listed, read, seen, gathered)
  {
    var settled := Finished(state) + {other};
    forall name | Settled(jobs, settled, name)
      ensures name in next.shards ==> name in listed
      ensures name in seen ==> seen[name] == next.shards[name]
    {
      SettledStays(jobs, state, writer, action, next, settled, name);
    }
  }

  lemma OtherPhaseFits(jobs: Jobs, start: State, state: State, writer: nat, action: Action, next: State, other: nat)
    requires LockHeld(state) && state.shards.Keys <= next.shards.Keys && Act(jobs, state, writer, action) == Some(next)
    requires other in state.phases && other != writer && PhaseFits(jobs, start, state, other)
    ensures other in next.phases && PhaseFits(jobs, start, next, other)
  {
    StepMovesOne(jobs, state, writer, action, next);
    if Active(state.phases[other]) {
      OthersDoNotInterfere(jobs, state, writer, action, next, other);
      match state.phases[other]
      case Gathering(listed, read, seen, gathered) =>
        StillGathering(jobs, start, state, writer, action, next, other, listed, read, seen, gathered);
      case Replaced(listed, seen, gathered) =>
        StillGathering(jobs, start, state, writer, action, next, other, listed, |listed|, seen, gathered);
      case Described =>
        CurrentStays(jobs, state, writer, action, next, Finished(state) + {other}, state.filed);
        CurrentStays(jobs, state, writer, action, next, Finished(state) + {other}, state.described);
      case _ =>
    }
  }

  lemma ListFits(jobs: Jobs, start: State, state: State, writer: nat, next: State)
    requires Act(jobs, state, writer, List) == Some(next)
    ensures writer in next.phases && PhaseFits(jobs, start, next, writer)
  {
    var listed := SortedNames(state.shards.Keys);
    SortedNamesSorts(state.shards.Keys);
    assert listed[..0] == [];
  }

  /** The next shard's name is not among those read, so what was read before stays as it was. */
  lemma ReadNames(listed: seq<string>, read: nat)
    requires Sorted(listed) && read < |listed|
    ensures listed[read] !in listed[..read] && SetOf(listed[..read + 1]) == SetOf(listed[..read]) + {listed[read]}
    ensures listed[..read + 1][..read] == listed[..read]
  {
    assert listed[..read + 1] == listed[..read] + [listed[read]];
    forall k | 0 <= k < read ensures listed[k] != listed[read] { LessIrreflexive(listed[read]); }
  }

  /** One more shard read, and the gathering stands for what was read. */
  lemma ReadGathers(seen: map<string, seq<Record>>, listed: seq<string>, read: nat, shard: seq<Record>, gathered: Gathered)
    requires Sorted(listed) && read < |listed| && seen.Keys == SetOf(listed[..read]) && Gather(seen, listed[..read]) == Some(gathered)
    ensures
      var more, names := seen[listed[read] := shard], listed[..read + 1];
      more.Keys == SetOf(names) && Gather(more, names) == AddShard(gathered, listed[read], shard)
  {
    ReadNames(listed, read);
    var more := seen[listed[read] := shard];
    forall name <- listed[..read] ensures name in more && more[name] == seen[name] { assert name in seen.Keys; }
    GatherSame(seen, more, listed[..read]);
  }

  lemma ReadFits(jobs: Jobs, start: State, state: State, writer: nat, next: State)
    requires ShardsFit(jobs, start, state) && writer in state.phases && PhaseFits(jobs, start, state, writer)
    requires Act(jobs, state, writer, ReadNext) == Some(next)
    ensures writer in next.phases && PhaseFits(jobs, start, next, writer)
  {
    var phase := state.phases[writer];
    var name := phase.listed[phase.read];
    FinishedGrows(jobs, state, writer, ReadNext, next);
    assert name in SetOf(phase.listed);
    ReadGathers(phase.seen, phase.listed, phase.read, state.shards[name], phase.gathered);
  }

  lemma OwnPhaseFits(jobs: Jobs, start: State, state: State, writer: nat, action: Action, next: State)
    requires Inv(jobs, start, state) && Act(jobs, state, writer, action) == Some(next)
    ensures writer in next.phases && PhaseFits(jobs, start, next, writer)
  {
    FinishedGrows(jobs, state, writer, action, next);
    match action
    case List => ListFits(jobs, start, state, writer, next);
    case ReadNext => ReadFits(jobs, start, state, writer, next);
    case ReplaceRecords => ReplacedRecordsFit(jobs, start, state, writer, next);
    case ReplaceManifest => ReplacedManifestFits(jobs, start, state, writer, next);
    case _ =>
  }

  lemma StepKeepsPhases(jobs: Jobs, start: State, state: State, writer: nat, action: Action, next: State)
    requires Inv(jobs, start, state) && Act(jobs, state, writer, action) == Some(next)
    ensures forall other <- next.phases :: PhaseFits(jobs, start, next, other)
  {
    StepMovesOne(jobs, state, writer, action, next);
    StepKeepsShards(jobs, start, state, writer, action, next);
    forall other <- next.phases ensures PhaseFits(jobs, start, next, other) {
      if other == writer {
        OwnPhaseFits(jobs, start, state, writer, action, next);
      } else {
        OtherPhaseFits(jobs, start, state, writer, action, next, other);
      }
    }
  }

  /** Every step of every process keeps the invariant, whatever the jobs and whatever lay there before. */
  lemma ActKeepsInv(jobs: Jobs, start: State, state: State, writer: nat, action: Action, next: State)
    requires Inv(jobs, start, state) && Act(jobs, state, writer, action) == Some(next)
    ensures Inv(jobs, start, next)
  {
    StepMovesOne(jobs, state, writer, action, next);
    StepKeepsLockHeld(jobs, state, writer, action, next);
    StepKeepsShards(jobs, start, state, writer, action, next);
    StepKeepsFiles(jobs, start, state, writer, action, next);
    StepKeepsCurrent(jobs, start, state, writer, action, next);
    StepKeepsPhases(jobs, start, state, writer, action, next);
  }

  lemma StepKeepsInv(jobs: Jobs, start: State, state: State, next: State)
    requires Inv(jobs, start, state) && Step(jobs, state, next)
    ensures Inv(jobs, start, next)
  {
    var writer, action :| Act(jobs, state, writer, action) == Some(next);
    ActKeepsInv(jobs, start, state, writer, action, next);
  }

  lemma {:induction false} RunKeepsInv(jobs: Jobs, start: State, states: seq<State>)
    requires Initial(jobs, start) && Reaches(jobs, start, states)
    ensures Inv(jobs, start, Now(start, states))
  {
    if states != [] {
      var last := |states| - 1;
      RunKeepsInv(jobs, start, states[..last]);
      StepKeepsInv(jobs, start, Now(start, states[..last]), states[last]);
    }
  }

  // ---- What it means ----

  /** At no time do two processes hold the lock. */
  lemma AtMostOneActive(jobs: Jobs, start: State, states: seq<State>, a: nat, b: nat)
    requires Initial(jobs, start) && Reaches(jobs, start, states)
    requires
      var phases := Now(start, states).phases;
      a in phases && b in phases && Active(phases[a]) && Active(phases[b])
    ensures a == b
  {
    RunKeepsInv(jobs, start, states);
  }

  lemma {:induction false} DoneStaysDone(jobs: Jobs, start: State, states: seq<State>, i: nat, writer: nat)
    requires Reaches(jobs, start, states) && i < |states| && writer in Finished(states[i])
    ensures writer in Finished(Now(start, states))
  {
    var last := |states| - 1;
    if i < last {
      assert states[..last][i] == states[i];
      DoneStaysDone(jobs, start, states[..last], i, writer);
      var other, action :| Act(jobs, Now(start, states[..last]), other, action) == Some(states[last]);
      FinishedGrows(jobs, Now(start, states[..last]), other, action, states[last]);
    }
  }

  /**
   * Once some process has returned successfully, at any later time: every shard all of whose publishers have returned
   * successfully, an untouched earlier one among them, has each of its present records in the records file under its
   * key, and its entry in the manifest.
   */
  lemma SettledShardsAreFiled(jobs: Jobs, start: State, states: seq<State>, name: string, record: Record)
    requires Initial(jobs, start) && Reaches(jobs, start, states)
    requires
      var now := Now(start, states);
      Finished(now) != {} && name in now.shards && Settled(jobs, Finished(now), name) && record in now.shards[name]
    ensures
      var now := Now(start, states);
      && name in now.manifest && EntryFits(now.manifest[name], now.shards[name])
      && Has(now.records, KeyOf(record, now.manifest[name].artifact.crateId), record)
  {
    var now := Now(start, states);
    RunKeepsInv(jobs, start, states);
    var key := KeyOf(record, now.manifest[name].artifact.crateId);
    assert FiledFrom(now.filed[name], key, record);
    assert FiledFromAmong(now.filed, key, record);
  }

  /**
   * Once a process whose shard name is its own has returned successfully, each of its records is in the records file
   * under its key, and its shard is in the manifest, after every later step: whatever an earlier build had under the name.
   */
  lemma SuccessIsKept(jobs: Jobs, start: State, states: seq<State>, i: nat, writer: nat, record: Record)
    requires Initial(jobs, start) && Reaches(jobs, start, states) && i < |states| && writer in Finished(states[i])
    requires OwnsAlone(jobs, writer) && record in jobs[writer].facts
    ensures
      var now := states[|states| - 1];
      && Has(now.records, KeyOf(record, jobs[writer].facts[0].artifact.value.crateId), record)
      && jobs[writer].shard in now.manifest
      && EntryFits(now.manifest[jobs[writer].shard], jobs[writer].facts)
  {
    var now := states[|states| - 1];
    DoneStaysDone(jobs, start, states, i, writer);
    RunKeepsInv(jobs, start, states);
    assert PublishedFits(jobs, now, writer);
    SettledShardsAreFiled(jobs, start, states, jobs[writer].shard, record);
  }

  ghost predicate AllDone(jobs: Jobs, start: State, states: seq<State>) {
    Initial(jobs, start) && Reaches(jobs, start, states) && jobs != map[] && Finished(Now(start, states)) == jobs.Keys
  }

  /**
   * When all have returned successfully, the shards are the earlier ones and everybody's: each that nobody publishes as
   * it was, each other one the facts of a process that publishes under its name.
   */
  lemma AllDoneShards(jobs: Jobs, start: State, states: seq<State>)
    requires AllDone(jobs, start, states)
    ensures
      var shards := Now(start, states).shards;
      && (forall name :: name in shards <==> name in start.shards || exists writer <- jobs :: Owns(jobs, writer, name))
      && (forall name <- shards ::
            if exists writer <- jobs :: Owns(jobs, writer, name) then FromJob(jobs, name, shards[name])
            else name in start.shards && shards[name] == start.shards[name])
      && (forall writer <- jobs :: OwnsAlone(jobs, writer) ==> shards[jobs[writer].shard] == jobs[writer].facts)
  {
    var now := Now(start, states);
    RunKeepsInv(jobs, start, states);
    forall writer <- jobs ensures writer in now.phases && PublishedFits(jobs, now, writer) && now.phases[writer].Done? {
      assert writer in Finished(now);
    }
  }

  /** And then the records file and the manifest describe exactly these shards. */
  lemma AllDoneIsUnion(jobs: Jobs, start: State, states: seq<State>)
    requires AllDone(jobs, start, states)
    ensures
      var now := Now(start, states);
      && now.manifest.Keys == now.shards.Keys
      && (forall name <- now.manifest :: EntryFits(now.manifest[name], now.shards[name]))
      && (forall key, record :: Has(now.records, key, record) <==> FiledFromAmong(now.shards, key, record))
  {
    var now := Now(start, states);
    RunKeepsInv(jobs, start, states);
    AllIsCurrent(jobs, now.shards, now.filed);
    AllIsCurrent(jobs, now.shards, now.described);
  }

  lemma AllIsCurrent(jobs: Jobs, shards: map<string, seq<Record>>, contents: map<string, seq<Record>>)
    requires Current(jobs, shards, jobs.Keys, contents) && contents.Keys <= shards.Keys
    ensures contents == shards
  {
    forall name <- shards ensures Settled(jobs, jobs.Keys, name) {}
  }

  /**
   * Reading goes on exactly if the shards read so far and the next one are well formed and no two of their records
   * clash.
   */
  lemma ReadingGoesOn(jobs: Jobs, start: State, state: State, writer: nat, next: State)
    requires Inv(jobs, start, state) && Act(jobs, state, writer, ReadNext) == Some(next)
    ensures writer in state.phases && writer in next.phases
    ensures
      var phase := state.phases[writer];
      var name, names := phase.listed[phase.read], phase.listed[..phase.read + 1];
      && name in state.shards
      && (next.phases[writer].Gathering? <==>
            var seen := phase.seen[name := state.shards[name]];
            WellFormed(seen, names) && !Conflict(seen, names))
  {
    var phase := state.phases[writer];
    var name, names := phase.listed[phase.read], phase.listed[..phase.read + 1];
    StepMovesOne(jobs, state, writer, ReadNext, next);
    assert PhaseFits(jobs, start, state, writer);
    assert name in SetOf(phase.listed);
    ReadGathers(phase.seen, phase.listed, phase.read, state.shards[name], phase.gathered);
    GatherFailsIff(phase.seen[name := state.shards[name]], names);
  }

  /** Only this process was given the record, and no earlier shard holds it. */
  ghost predicate OnlyGivenTo(jobs: Jobs, start: State, writer: nat, record: Record) {
    && (forall name <- start.shards :: record !in start.shards[name])
    && (forall other <- jobs :: record in jobs[other].facts ==> other == writer)
  }

  /**
   * Why names must tell processes apart: of two processes that publish under one name, one loses all the records only
   * it was given, although both return successfully.
   */
  lemma SharedNameLosesRecords(jobs: Jobs, start: State, states: seq<State>, name: string, a: nat, b: nat)
    requires AllDone(jobs, start, states) && a != b && Owns(jobs, a, name) && Owns(jobs, b, name)
    ensures
      var records := Now(start, states).records;
      || (forall key, record :: OnlyGivenTo(jobs, start, a, record) ==> !Has(records, key, record))
      || (forall key, record :: OnlyGivenTo(jobs, start, b, record) ==> !Has(records, key, record))
  {
    var now := Now(start, states);
    AllDoneShards(jobs, start, states);
    AllDoneIsUnion(jobs, start, states);
    var keeper :| keeper in jobs && Owns(jobs, keeper, name) && jobs[keeper].facts == now.shards[name];
    LoserLosesAll(jobs, start, now, name, if keeper == a then b else a);
  }

  lemma LoserLosesAll(jobs: Jobs, start: State, now: State, name: string, loser: nat)
    requires ShardsKnown(jobs, start, now.shards) && Owns(jobs, loser, name)
    requires name in now.shards && exists keeper <- jobs :: keeper != loser && jobs[keeper].facts == now.shards[name]
    requires forall key, record :: Has(now.records, key, record) <==> FiledFromAmong(now.shards, key, record)
    ensures forall key, record :: OnlyGivenTo(jobs, start, loser, record) ==> !Has(now.records, key, record)
  {
    forall key, record | OnlyGivenTo(jobs, start, loser, record) ensures !Has(now.records, key, record) {
      OthersLackIt(jobs, start, now.shards, name, loser, record);
    }
  }

  lemma OthersLackIt(jobs: Jobs, start: State, shards: map<string, seq<Record>>, name: string, loser: nat, record: Record)
    requires ShardsKnown(jobs, start, shards) && OnlyGivenTo(jobs, start, loser, record) && Owns(jobs, loser, name)
    requires name in shards && exists keeper <- jobs :: keeper != loser && jobs[keeper].facts == shards[name]
    ensures forall other <- shards :: record !in shards[other]
  {
  }

  /** The record is in an earlier shard, in one an earlier build had read, or in the facts of a process with a shard. */
  ghost predicate HasSource(jobs: Jobs, start: State, record: Record) {
    || (exists name <- start.shards :: record in start.shards[name])
    || (exists name <- start.filed :: record in start.filed[name])
    || (exists writer <- jobs :: HasShard(jobs[writer]) && record in jobs[writer].facts)
  }

  /**
   * A process whose first fact names no artifact publishes nothing, whatever its other facts hold: after any run, a
   * record that only such processes were given is in no shard and not in the records file, even if they all succeeded.
   */
  lemma UnlabelledFactsAreDropped(jobs: Jobs, start: State, states: seq<State>, record: Record)
    requires Initial(jobs, start) && Reaches(jobs, start, states) && !HasSource(jobs, start, record)
    ensures
      var now := Now(start, states);
      && (forall name <- now.shards :: record !in now.shards[name])
      && (forall key :: !Has(now.records, key, record))
  {
    var now := Now(start, states);
    RunKeepsInv(jobs, start, states);
    forall name <- now.filed ensures record !in now.filed[name] {}
  }

  // ---- Nobody is ever stuck ----

  lemma OneMoreStep(jobs: Jobs, start: State, states: seq<State>, writer: nat, action: Action) returns (more: seq<State>)
    requires Reaches(jobs, start, states) && Act(jobs, Now(start, states), writer, action).Some?
    ensures Reaches(jobs, start, more) && Now(start, more) == Act(jobs, Now(start, states), writer, action).value
  {
    var next := Act(jobs, Now(start, states), writer, action).value;
    more := states + [next];
    assert more[..|more| - 1] == states;
    assert Step(jobs, Now(start, states), next);
  }

  /** The phase of a process that has read the first k of all shards as they are. */
  ghost predicate HasReadSome(phase: Phase, shards: map<string, seq<Record>>, k: nat) {
    var names := SortedNames(shards.Keys);
    && k <= |names| && phase.Gathering? && phase.listed == names && phase.read == k
    && Gather(shards, names[..k]) == Some(phase.gathered)
  }

  ghost predicate ReadsAlone(state: State, writer: nat, shards: map<string, seq<Record>>, k: nat) {
    writer in state.phases && state.shards == shards && HasReadSome(state.phases[writer], shards, k)
  }

  lemma ReadOneMore(state: State, phase: Phase, k: nat)
    requires HasReadSome(phase, state.shards, k) && k < |SortedNames(state.shards.Keys)|
    requires Gather(state.shards, SortedNames(state.shards.Keys)).Some?
    ensures HasReadSome(ReadOne(state, phase), state.shards, k + 1)
  {
    var names := SortedNames(state.shards.Keys);
    GatherNext(state.shards, names, k, phase.gathered);
    assert names[k] in names && names[k] in state.shards;
  }

  lemma ReadEffect(jobs: Jobs, state: State, writer: nat)
    requires writer in jobs && writer in state.phases
    requires state.phases[writer].Gathering? && state.phases[writer].read < |state.phases[writer].listed|
    ensures Act(jobs, state, writer, ReadNext).Some?
    ensures
      var next := Act(jobs, state, writer, ReadNext).value;
      && writer in next.phases && next.shards == state.shards
      && next.phases[writer] == ReadOne(state, state.phases[writer])
  {
  }

  lemma ReadsOn(jobs: Jobs, state: State, writer: nat, shards: map<string, seq<Record>>, k: nat)
    requires writer in jobs && ReadsAlone(state, writer, shards, k)
    requires k < |SortedNames(shards.Keys)| && Gather(shards, SortedNames(shards.Keys)).Some?
    ensures Act(jobs, state, writer, ReadNext).Some?
    ensures ReadsAlone(Act(jobs, state, writer, ReadNext).value, writer, shards, k + 1)
  {
    ReadOneMore(state, state.phases[writer], k);
    ReadEffect(jobs, state, writer);
  }

  lemma ReadAlone(jobs: Jobs, start: State, states: seq<State>, writer: nat, shards: map<string, seq<Record>>, k: nat)
    returns (more: seq<State>)
    requires Reaches(jobs, start, states) && writer in jobs && ReadsAlone(Now(start, states), writer, shards, k)
    requires k < |SortedNames(shards.Keys)| && Gather(shards, SortedNames(shards.Keys)).Some?
    ensures Reaches(jobs, start, more) && ReadsAlone(Now(start, more), writer, shards, k + 1)
  {
    ReadsOn(jobs, Now(start, states), writer, shards, k);
    more := OneMoreStep(jobs, start, states, writer, ReadNext);
  }

  lemma {:induction false} ReadAllAlone(jobs: Jobs, start: State, states: seq<State>, writer: nat, shards: map<string, seq<Record>>, k: nat)
    returns (more: seq<State>)
    requires Reaches(jobs, start, states) && writer in jobs && ReadsAlone(Now(start, states), writer, shards, k)
    requires Gather(shards, SortedNames(shards.Keys)).Some?
    ensures Reaches(jobs, start, more) && ReadsAlone(Now(start, more), writer, shards, |SortedNames(shards.Keys)|)
    decreases |SortedNames(shards.Keys)| - k
  {
    if k < |SortedNames(shards.Keys)| {
      more := ReadAlone(jobs, start, states, writer, shards, k);
      more := ReadAllAlone(jobs, start, more, writer, shards, k + 1);
    } else {
      more := states;
    }
  }

  lemma TakeAlone(jobs: Jobs, state: State, writer: nat) returns (states: seq<State>)
    requires writer in state.phases && writer in jobs && state.phases[writer].Waiting? && state.lock.None?
    ensures Reaches(jobs, state, states) && ReadsAlone(Now(state, states), writer, state.shards, 0)
  {
    states := OneMoreStep(jobs, state, [], writer, Lock);
    states := OneMoreStep(jobs, state, states, writer, List);
    assert SortedNames(state.shards.Keys)[..0] == [];
  }

  /** All is gathered, and the records file holds it. */
  ghost predicate RecordsReplaced(state: State, writer: nat, gathered: Gathered) {
    && writer in state.phases && state.phases[writer].Replaced? && state.phases[writer].gathered == gathered
    && state.records == gathered.table
  }

  lemma ReplacesRecords(jobs: Jobs, state: State, writer: nat, shards: map<string, seq<Record>>)
    requires writer in jobs && ReadsAlone(state, writer, shards, |SortedNames(shards.Keys)|)
    ensures Gather(shards, SortedNames(shards.Keys)).Some? && Act(jobs, state, writer, ReplaceRecords).Some?
    ensures RecordsReplaced(Act(jobs, state, writer, ReplaceRecords).value, writer, Gather(shards, SortedNames(shards.Keys)).value)
  {
    var names := SortedNames(shards.Keys);
    assert names[..|names|] == names;
  }

  lemma ReplacesManifest(jobs: Jobs, state: State, writer: nat, gathered: Gathered)
    requires writer in jobs && RecordsReplaced(state, writer, gathered)
    ensures Act(jobs, state, writer, ReplaceManifest).Some?
    ensures
      var next := Act(jobs, state, writer, ReplaceManifest).value;
      && writer in next.phases && next.phases[writer].Described?
      && next.records == gathered.table && next.manifest == gathered.manifest
  {
  }

  lemma Releases(jobs: Jobs, state: State, writer: nat)
    requires writer in jobs && writer in state.phases && state.phases[writer].Described?
    ensures Act(jobs, state, writer, Release).Some?
    ensures
      var next := Act(jobs, state, writer, Release).value;
      writer in Finished(next) && next.records == state.records && next.manifest == state.manifest
  {
  }

  lemma FinishAlone(jobs: Jobs, start: State, states: seq<State>, writer: nat, gathered: Gathered) returns (more: seq<State>)
    requires Reaches(jobs, start, states) && writer in jobs && RecordsReplaced(Now(start, states), writer, gathered)
    ensures Reaches(jobs, start, more) && writer in Finished(Now(start, more))
    ensures Now(start, more).records == gathered.table && Now(start, more).manifest == gathered.manifest
  {
    ReplacesManifest(jobs, Now(start, states), writer, gathered);
    more := OneMoreStep(jobs, start, states, writer, ReplaceManifest);
    Releases(jobs, Now(start, more), writer);
    more := OneMoreStep(jobs, start, more, writer, Release);
  }

  lemma ReplaceAlone(jobs: Jobs, start: State, states: seq<State>, writer: nat, shards: map<string, seq<Record>>)
    returns (more: seq<State>)
    requires Reaches(jobs, start, states) && writer in jobs
    requires ReadsAlone(Now(start, states), writer, shards, |SortedNames(shards.Keys)|)
    ensures Reaches(jobs, start, more) && writer in Finished(Now(start, more))
    ensures Gather(shards, SortedNames(shards.Keys)) == Some(Gathered(Now(start, more).records, Now(start, more).manifest))
  {
    ReplacesRecords(jobs, Now(start, states), writer, shards);
    more := OneMoreStep(jobs, start, states, writer, ReplaceRecords);
    more := FinishAlone(jobs, start, more, writer, Gather(shards, SortedNames(shards.Keys)).value);
  }

  /**
   * Whenever the lock is free and no shard is malformed and no two clash, a process that still waits can go on to succeed
   * by itself, whatever happened before, and leaves both files built from the shards as they are.
   */
  lemma CanSucceed(jobs: Jobs, state: State, writer: nat) returns (states: seq<State>)
    requires writer in state.phases && writer in jobs && state.phases[writer].Waiting? && state.lock.None?
    requires WellFormed(state.shards, SortedNames(state.shards.Keys)) && !Conflict(state.shards, SortedNames(state.shards.Keys))
    ensures Reaches(jobs, state, states) && writer in Finished(Now(state, states))
    ensures Gather(state.shards, SortedNames(state.shards.Keys))
      == Some(Gathered(Now(state, states).records, Now(state, states).manifest))
  {
    GatherFailsIff(state.shards, SortedNames(state.shards.Keys));
    states := TakeAlone(jobs, state, writer);
    states := ReadAllAlone(jobs, state, states, writer, state.shards, 0);
    states := ReplaceAlone(jobs, state, states, writer, state.shards);
  }

  /** Whoever holds the lock can drop it in one step, so that a waiting process is never kept out for good. */
  lemma HolderCanStop(jobs: Jobs, state: State, writer: nat) returns (next: State)
    requires writer in state.phases && writer in jobs && Active(state.phases[writer])
    ensures Step(jobs, state, next) && next.lock.None? && next.shards == state.shards && next.records == state.records
  {
    var action := if state.phases[writer].Described? then Release else Abort;
    next := Act(jobs, state, writer, action).value;
  }

  /** A process at its start can always publish: its facts stand under its name at once, if it has a shard of one artifact. */
  lemma CanPublish(jobs: Jobs, state: State, writer: nat) returns (next: State)
    requires writer in state.phases && writer in jobs && state.phases[writer].Start?
    ensures Step(jobs, state, next) && writer in next.phases
    ensures HasShard(jobs[writer]) && SameArtifact(jobs[writer].facts) ==>
      next.phases[writer].Waiting? && next.shards == state.shards[jobs[writer].shard := jobs[writer].facts]
    ensures !HasShard(jobs[writer]) ==> next.phases[writer].Waiting? && next.shards == state.shards
    ensures HasShard(jobs[writer]) && !SameArtifact(jobs[writer].facts) ==> next.phases[writer].Failed? && next.shards == state.shards
  {
    next := Act(jobs, state, writer, Publish).value;
  }

  /** While the lock is taken a waiting process can only count one more failed attempt, and gives up after the 200th, or fail. */
  lemma BlockedWaits(jobs: Jobs, state: State, writer: nat, next: State)
    requires writer in state.phases && writer in jobs && state.phases[writer].Waiting? && state.lock.Some?
    requires state.phases[writer].missed < 200
    ensures (exists action :: Act(jobs, state, writer, action) == Some(next)) <==>
      || next == state.(phases := state.phases[writer := Failed])
      || (state.phases[writer].missed < 199
          && next == state.(phases := state.phases[writer := Waiting(state.phases[writer].missed + 1)]))
  {
    assert Act(jobs, state, writer, Abort) == Some(state.(phases := state.phases[writer := Failed]));
    assert Act(jobs, state, writer, Miss).Some?;
    if action :| Act(jobs, state, writer, action) == Some(next) {
      assert action.Miss? || action.Abort?;
    }
  }

  /** A process can fail at any time until both files are replaced. */
  lemma AnyoneCanFail(jobs: Jobs, state: State, writer: nat) returns (next: State)
    requires writer in state.phases && writer in jobs
    requires !state.phases[writer].Done? && !state.phases[writer].Failed? && !state.phases[writer].Described?
    ensures Step(jobs, state, next) && writer in next.phases && next.phases[writer].Failed?
  {
    next := Act(jobs, state, writer, Abort).value;
  }
}
