/** Static-fact shards, and their aggregation into one records file and one manifest. */
module FactShards {
  import opened Support
  import opened Paths
  import opened LockFile

  /** What tells one compiler invocation's output from another's. */
  datatype Artifact = Artifact(identity: string, crateId: string)

  datatype Record = Record(recordId: string, buildId: string, artifact: Option<Artifact>, body: string)

  datatype Entry = Entry(artifact: Artifact, count: nat)

  /** The records by key, and the manifest by shard name. */
  datatype Gathered = Gathered(table: map<string, Record>, manifest: map<string, Entry>)

  const NOTHING_GATHERED := Gathered(map[], map[])

  function KeyOf(record: Record, crateId: string): string {
    record.recordId + ":" + record.buildId + ":" + crateId
  }

  /** The artifact of the first record, which names the shard. */
  function ArtifactOf(records: seq<Record>): Option<Artifact> {
    if records == [] then None else records[0].artifact
  }

  ghost predicate Uniform(records: seq<Record>) {
    forall record <- records :: record.artifact == ArtifactOf(records)
  }

  // ---- Gathering ----

  /** Adds records one by one; a different record under the same key is a conflict. */
  function AddRecords(table: map<string, Record>, records: seq<Record>, crateId: string): Option<map<string, Record>> {
    if records == [] then Some(table)
    else
      var last := records[|records| - 1];
      var rest := AddRecords(table, records[..|records| - 1], crateId);
      if rest.None? then None else Put(rest.value, KeyOf(last, crateId), last)
  }

  function Put(table: map<string, Record>, key: string, record: Record): Option<map<string, Record>> {
    if key in table && table[key] != record then None else Some(table[key := record])
  }

  predicate Has(table: map<string, Record>, key: string, record: Record) {
    key in table && table[key] == record
  }

  ghost function AddShard(gathered: Gathered, name: string, records: seq<Record>): Option<Gathered> {
    var artifact := ArtifactOf(records);
    if artifact.None? || !Uniform(records) then None
    else
      var table := AddRecords(gathered.table, records, artifact.value.crateId);
      if table.None? then None
      else Some(Gathered(table.value, gathered.manifest[name := Entry(artifact.value, |records|)]))
  }

  /** Everything in the named shards. */
  ghost function Gather(shards: map<string, seq<Record>>, names: seq<string>): Option<Gathered>
    requires forall name <- names :: name in shards
  {
    if names == [] then Some(NOTHING_GATHERED)
    else
      var last := names[|names| - 1];
      var rest := Gather(shards, names[..|names| - 1]);
      if rest.None? then None else AddShard(rest.value, last, shards[last])
  }

  method AddShardRecords(table: map<string, Record>, shard: seq<Record>, crateId: string) returns (result: Option<map<string, Record>>)
    ensures result == AddRecords(table, shard, crateId)
  {
    var merged := table;
    for k := 0 to |shard|
      invariant AddRecords(table, shard[..k], crateId) == Some(merged)
    {
      assert shard[..k + 1][..k] == shard[..k];
      var key := KeyOf(shard[k], crateId);
      if key in merged && merged[key] != shard[k] {
        FailsForGood(table, shard, crateId, k + 1);
        return None;
      }
      merged := merged[key := shard[k]];
    }
    assert shard[..|shard|] == shard;
    return Some(merged);
  }

  method ReadShard(gathered: Gathered, name: string, shard: seq<Record>) returns (result: Option<Gathered>)
    ensures result == AddShard(gathered, name, shard)
  {
    var artifact := ArtifactOf(shard);
    if artifact.None? || exists record <- shard :: record.artifact != artifact { return None; }
    var table := AddShardRecords(gathered.table, shard, artifact.value.crateId);
    if table.None? { return None; }
    return Some(Gathered(table.value, gathered.manifest[name := Entry(artifact.value, |shard|)]));
  }

  /** Reading the next shard, as long as nothing failed before. */
  lemma GatherNext(shards: map<string, seq<Record>>, names: seq<string>, k: nat, gathered: Gathered)
    requires k < |names| && (forall name <- names :: name in shards) && Gather(shards, names[..k]) == Some(gathered)
    ensures Gather(shards, names[..k + 1]) == AddShard(gathered, names[k], shards[names[k]])
    ensures AddShard(gathered, names[k], shards[names[k]]).None? ==> Gather(shards, names).None?
  {
    assert names[..k + 1][..k] == names[..k];
    if AddShard(gathered, names[k], shards[names[k]]).None? {
      GatherFailsForGood(shards, names, k + 1);
    }
  }

  ghost predicate AllReadable(names: seq<string>, readable: string -> bool) {
    forall name <- names :: readable(name)
  }

  lemma OneMoreReadable(names: seq<string>, readable: string -> bool, k: nat)
    requires k < |names| && AllReadable(names[..k], readable) && readable(names[k])
    ensures AllReadable(names[..k + 1], readable)
  {
    assert names[..k + 1] == names[..k] + [names[k]];
  }

  /** The gathered shards, unless one of them cannot be read and parsed. */
  ghost function GatherReadable(shards: map<string, seq<Record>>, readable: string -> bool): Option<Gathered> {
    var names := SortedNames(shards.Keys);
    if AllReadable(names, readable) then Gather(shards, names) else None
  }

  /** Reads the shards in the order of their names. */
  method GatherShards(shards: map<string, seq<Record>>, readable: string -> bool) returns (result: Option<Gathered>)
    ensures result == GatherReadable(shards, readable)
  {
    var names := SortNames(shards.Keys);
    assert names[..0] == [] && names[..|names|] == names;
    result := Some(NOTHING_GATHERED);
    for k := 0 to |names|
      invariant result.Some? && Gather(shards, names[..k]) == result
      invariant AllReadable(names[..k], readable)
    {
      if !readable(names[k]) {
        assert !AllReadable(names, readable);
        return None;
      }
      GatherNext(shards, names, k, result.value);
      OneMoreReadable(names, readable, k);
      result := ReadShard(result.value, names[k], shards[names[k]]);
      if result.None? { return; }
    }
  }

  /** What the file system lets one call do. */
  datatype World = World(
    makesDirectories: bool, publishes: bool, opening: nat -> Opening, lists: bool, readable: string -> bool,
    replacesRecords: bool, replacesManifest: bool)

  datatype Rebuilt = Both | RecordsOnly | Neither(gathered: bool)

  datatype Outcome = Written | MixedArtifactIdentity | LockTimeout | IoFailed | AggregationFailed(rebuilt: Rebuilt)

  /** All shards can be listed and read, and neither is one malformed nor do two clash. */
  ghost predicate Gathers(shards: map<string, seq<Record>>, world: World) {
    && world.lists && (forall name <- shards :: world.readable(name))
    && Gather(shards, SortedNames(shards.Keys)).Some?
  }

  /** The shards once a process has published its own, named after its first fact's artifact. */
  function WithShard(shards: map<string, seq<Record>>, name: string, facts: seq<Record>): map<string, seq<Record>> {
    if Labelled(facts) then shards[name := facts] else shards
  }

  /** The output directory of a build. */
  class OutputDirectory {
    var shards: map<string, seq<Record>>
    var records: Option<map<string, Record>>
    var manifest: Option<map<string, Entry>>

    constructor (shards: map<string, seq<Record>>)
      ensures this.shards == shards && records == None && manifest == None
    {
      this.shards, records, manifest := shards, None, None;
    }

    /** Rebuilds the records file and then the manifest from all shards; a failure in between leaves the two apart. */
    method AggregateStaticFactShards(world: World) returns (rebuilt: Rebuilt)
      modifies this`records, this`manifest
      ensures rebuilt.Both? <==> Gathers(shards, world) && world.replacesRecords && world.replacesManifest
      ensures rebuilt.RecordsOnly? <==> Gathers(shards, world) && world.replacesRecords && !world.replacesManifest
      ensures rebuilt.Neither? ==> (rebuilt.gathered <==> Gathers(shards, world))
      ensures records == if rebuilt.Neither? then old(records) else Some(Gather(shards, SortedNames(shards.Keys)).value.table)
      ensures manifest == if rebuilt.Both? then Some(Gather(shards, SortedNames(shards.Keys)).value.manifest) else old(manifest)
    {
      if !world.lists { return Neither(false); }
      var gathered := GatherShards(shards, world.readable);
      if gathered.None? { return Neither(false); }
      if !world.replacesRecords { return Neither(true); }
      records := Some(gathered.value.table);
      if !world.replacesManifest { return RecordsOnly; }
      manifest := Some(gathered.value.manifest);
      return Both;
    }

    /** Publishes one process's facts as a shard and, if it gets the lock, aggregates all shards. */
    method WriteStaticFacts(facts: seq<Record>, name: string, world: World) returns (outcome: Outcome)
      modifies this
      ensures outcome.MixedArtifactIdentity? <==> world.makesDirectories && Labelled(facts) && !SameArtifact(facts)
      ensures shards == if Publishes(facts, world) then WithShard(old(shards), name, facts) else old(shards)
      ensures outcome.LockTimeout? <==> Publishes(facts, world) && BlockedUntil(world.opening, 200)
      ensures outcome.Written? || outcome.AggregationFailed? <==> Publishes(facts, world) && GetsLock(world.opening)
      ensures outcome.Written? ==> Gathers(shards, world) && world.replacesRecords && world.replacesManifest
      ensures outcome.AggregationFailed? ==>
        && !outcome.rebuilt.Both?
        && (outcome.rebuilt.RecordsOnly? <==> Gathers(shards, world) && world.replacesRecords)
        && (outcome.rebuilt.Neither? ==> (outcome.rebuilt.gathered <==> Gathers(shards, world)))
      ensures records == if outcome.Written? || outcome == AggregationFailed(RecordsOnly)
                         then Some(Gather(shards, SortedNames(shards.Keys)).value.table) else old(records)
      ensures manifest == if outcome.Written? then Some(Gather(shards, SortedNames(shards.Keys)).value.manifest) else old(manifest)
    {
      if !world.makesDirectories { return IoFailed; }
      if ArtifactOf(facts).Some? {
        if exists record <- facts :: record.artifact != ArtifactOf(facts) { return MixedArtifactIdentity; }
        if !world.publishes { return IoFailed; }
        shards := shards[name := facts];
      }
      var acquired := Acquire(world.opening);
      if acquired.NeverFree? { return LockTimeout; }
      if acquired.OpenFailed? { return IoFailed; }
      var rebuilt := AggregateStaticFactShards(world);
      return if rebuilt.Both? then Written else AggregationFailed(rebuilt);
    }
  }

  /** The call gets as far as the lock: the facts are of one artifact and published, or name none. */
  ghost predicate Publishes(facts: seq<Record>, world: World) {
    world.makesDirectories && (Labelled(facts) ==> SameArtifact(facts) && world.publishes)
  }

  lemma {:induction false} FailsForGood(table: map<string, Record>, records: seq<Record>, crateId: string, k: nat)
    requires k <= |records| && AddRecords(table, records[..k], crateId).None?
    ensures AddRecords(table, records, crateId).None?
    decreases |records|
  {
    if k < |records| {
      assert records[..|records| - 1][..k] == records[..k];
      FailsForGood(table, records[..|records| - 1], crateId, k);
    } else {
      assert records[..k] == records;
    }
  }

  lemma {:induction false} GatherFailsForGood(shards: map<string, seq<Record>>, names: seq<string>, k: nat)
    requires k <= |names| && (forall name <- names :: name in shards) && Gather(shards, names[..k]).None?
    ensures Gather(shards, names).None?
    decreases |names|
  {
    if k < |names| {
      assert names[..|names| - 1][..k] == names[..k];
      GatherFailsForGood(shards, names[..|names| - 1], k);
    } else {
      assert names[..k] == names;
    }
  }

  // ---- What was gathered ----

  /** The shard's first record names an artifact. */
  predicate Labelled(shard: seq<Record>) {
    shard != [] && shard[0].artifact.Some?
  }

  /** The record is one of the shard's, filed under its identity, its build and the crate of the shard. */
  ghost predicate FiledFrom(shard: seq<Record>, key: string, record: Record) {
    && record in shard && Labelled(shard)
    && key == record.recordId + ":" + record.buildId + ":" + shard[0].artifact.value.crateId
  }

  ghost predicate FiledFromSome(shards: map<string, seq<Record>>, names: seq<string>, key: string, record: Record) {
    exists name <- names :: name in shards && FiledFrom(shards[name], key, record)
  }

  lemma PutAdds(table: map<string, Record>, putKey: string, put: Record, key: string, record: Record)
    requires Put(table, putKey, put).Some?
    ensures Has(Put(table, putKey, put).value, key, record) <==> Has(table, key, record) || (key == putKey && record == put)
  {
  }

  lemma {:induction false} AddRecordsAdds(table: map<string, Record>, records: seq<Record>, crateId: string, key: string, record: Record)
    requires AddRecords(table, records, crateId).Some?
    ensures Has(AddRecords(table, records, crateId).value, key, record) <==>
      Has(table, key, record) || (record in records && key == KeyOf(record, crateId))
  {
    if records != [] {
      var front, last := records[..|records| - 1], records[|records| - 1];
      AddRecordsAdds(table, front, crateId, key, record);
      PutAdds(AddRecords(table, front, crateId).value, KeyOf(last, crateId), last, key, record);
      assert record in records <==> record in front || record == last by { assert records == front + [last]; }
    }
  }

  /** What is gathered is exactly what the shards hold: every record of each, and nothing else. */
  lemma {:induction false} GatherIsUnion(shards: map<string, seq<Record>>, names: seq<string>, key: string, record: Record)
    requires (forall name <- names :: name in shards) && Gather(shards, names).Some?
    ensures Has(Gather(shards, names).value.table, key, record) <==> FiledFromSome(shards, names, key, record)
  {
    if names != [] {
      var front, last := names[..|names| - 1], names[|names| - 1];
      GatherIsUnion(shards, front, key, record);
      AddRecordsAdds(Gather(shards, front).value.table, shards[last], ArtifactOf(shards[last]).value.crateId, key, record);
      FiledFromOneMore(shards, front, last, key, record);
      assert names == front + [last];
    }
  }

  lemma FiledFromOneMore(shards: map<string, seq<Record>>, names: seq<string>, name: string, key: string, record: Record)
    requires name in shards
    ensures FiledFromSome(shards, names + [name], key, record) <==>
      FiledFromSome(shards, names, key, record) || FiledFrom(shards[name], key, record)
  {
    if FiledFrom(shards[name], key, record) { assert name in names + [name]; }
  }

  /** The manifest names exactly the shards gathered, with their artifact and size. */
  lemma {:induction false} ManifestIsExact(shards: map<string, seq<Record>>, names: seq<string>, name: string)
    requires (forall n <- names :: n in shards) && Gather(shards, names).Some?
    ensures
      var manifest := Gather(shards, names).value.manifest;
      && (name in manifest <==> name in names)
      && (name in manifest ==>
            && Labelled(shards[name]) && shards[name][0].artifact == Some(manifest[name].artifact)
            && manifest[name].count == |shards[name]|)
  {
    if names != [] {
      var front, last := names[..|names| - 1], names[|names| - 1];
      ManifestIsExact(shards, front, name);
      assert names == front + [last];
    }
  }

  lemma {:induction false} GatherSame(shards: map<string, seq<Record>>, more: map<string, seq<Record>>, names: seq<string>)
    requires forall name <- names :: name in shards && name in more && more[name] == shards[name]
    ensures Gather(more, names) == Gather(shards, names)
  {
    if names != [] { GatherSame(shards, more, names[..|names| - 1]); }
  }

  // ---- When it fails ----

  /** Two different records would be filed under one key. */
  ghost predicate Conflict(shards: map<string, seq<Record>>, names: seq<string>) {
    exists key, a, b :: a != b && FiledFromSome(shards, names, key, a) && FiledFromSome(shards, names, key, b)
  }

  /** All records have the artifact of the first. */
  ghost predicate SameArtifact(records: seq<Record>) {
    forall record <- records :: record.artifact == records[0].artifact
  }

  ghost predicate WellFormed(shards: map<string, seq<Record>>, names: seq<string>) {
    forall name <- names :: name in shards && Labelled(shards[name]) && SameArtifact(shards[name])
  }

  lemma {:induction false} AddFailsOnClash(table: map<string, Record>, records: seq<Record>, crateId: string)
    returns (key: string, a: Record, b: Record)
    requires AddRecords(table, records, crateId).None?
    ensures a != b && b in records && key == KeyOf(b, crateId)
    ensures Has(table, key, a) || (a in records && key == KeyOf(a, crateId))
  {
    var front, last := records[..|records| - 1], records[|records| - 1];
    if AddRecords(table, front, crateId).None? {
      key, a, b := AddFailsOnClash(table, front, crateId);
    } else {
      key, b := KeyOf(last, crateId), last;
      a := AddRecords(table, front, crateId).value[key];
      AddRecordsAdds(table, front, crateId, key, a);
    }
  }

  /** Aggregation fails exactly if a shard is malformed or two records clash. */
  lemma {:induction false} GatherFailsIff(shards: map<string, seq<Record>>, names: seq<string>)
    requires forall name <- names :: name in shards
    ensures Gather(shards, names).Some? <==> WellFormed(shards, names) && !Conflict(shards, names)
  {
    if Gather(shards, names).Some? {
      GatheredIsWellFormed(shards, names);
      forall key, a, b | FiledFromSome(shards, names, key, a) && FiledFromSome(shards, names, key, b) ensures a == b {
        GatherIsUnion(shards, names, key, a);
        GatherIsUnion(shards, names, key, b);
      }
    } else if WellFormed(shards, names) {
      FailureIsConflict(shards, names);
    }
  }

  lemma {:induction false} GatheredIsWellFormed(shards: map<string, seq<Record>>, names: seq<string>)
    requires (forall name <- names :: name in shards) && Gather(shards, names).Some?
    ensures WellFormed(shards, names)
  {
    if names != [] {
      var front, last := names[..|names| - 1], names[|names| - 1];
      GatheredIsWellFormed(shards, front);
      assert names == front + [last];
    }
  }

  lemma {:induction false} FailureIsConflict(shards: map<string, seq<Record>>, names: seq<string>)
    requires WellFormed(shards, names) && Gather(shards, names).None?
    ensures Conflict(shards, names)
  {
    var front, last := names[..|names| - 1], names[|names| - 1];
    assert names == front + [last];
    if Gather(shards, front).None? {
      FailureIsConflict(shards, front);
      var key, a, b :| a != b && FiledFromSome(shards, front, key, a) && FiledFromSome(shards, front, key, b);
      FiledFromOneMore(shards, front, last, key, a);
      FiledFromOneMore(shards, front, last, key, b);
    } else {
      var table, crateId := Gather(shards, front).value.table, ArtifactOf(shards[last]).value.crateId;
      var key, a, b := AddFailsOnClash(table, shards[last], crateId);
      GatherIsUnion(shards, front, key, a);
      FiledFromOneMore(shards, front, last, key, a);
      FiledFromOneMore(shards, front, last, key, b);
    }
  }

  // ---- Keys ----

  /** Identifiers without colons: a key gives away the record's identity, its build and its crate. */
  lemma KeyTells(a: Record, crateA: string, b: Record, crateB: string)
    requires ':' !in a.recordId && ':' !in b.recordId && ':' !in a.buildId && ':' !in b.buildId
    requires KeyOf(a, crateA) == KeyOf(b, crateB)
    ensures a.recordId == b.recordId && a.buildId == b.buildId && crateA == crateB
  {
    KeyParts(a, crateA);
    KeyParts(b, crateB);
    CutAtColon(a.recordId, a.buildId + ":" + crateA, b.recordId, b.buildId + ":" + crateB);
    CutAtColon(a.buildId, crateA, b.buildId, crateB);
  }

  lemma KeyParts(record: Record, crateId: string)
    ensures KeyOf(record, crateId) == record.recordId + ":" + (record.buildId + ":" + crateId)
  {
  }

  lemma CutAtColon(a: string, x: string, b: string, y: string)
    requires ':' !in a && ':' !in b && a + ":" + x == b + ":" + y
    ensures a == b && x == y
  {
    ColonAt(a, x);
    ColonAt(b, y);
    assert a == (a + ":" + x)[..|a|] && b == (b + ":" + y)[..|b|];
    assert x == (a + ":" + x)[|a| + 1..] && y == (b + ":" + y)[|b| + 1..];
  }

  lemma ColonAt(a: string, x: string)
    ensures forall k :: 0 <= k < |a| ==> (a + ":" + x)[k] == a[k]
    ensures (a + ":" + x)[|a|] == ':'
  {
  }

  /** Records of different builds or crates never clash, as long as no identifier or build holds a colon. */
  lemma OthersNeverClash(shard: seq<Record>, other: seq<Record>, key: string, a: Record, b: Record)
    requires FiledFrom(shard, key, a) && FiledFrom(other, key, b)
    requires ':' !in a.recordId && ':' !in b.recordId && ':' !in a.buildId && ':' !in b.buildId
    ensures a.recordId == b.recordId && a.buildId == b.buildId
    ensures shard[0].artifact.value.crateId == other[0].artifact.value.crateId
  {
    KeyTells(a, shard[0].artifact.value.crateId, b, other[0].artifact.value.crateId);
  }

  /** With colons the parts can run into each other. */
  lemma ColonsClash(body: string, crateId: string)
    ensures
      var artifact := Some(Artifact("", crateId));
      KeyOf(Record("r:1", "b", artifact, body), crateId) == KeyOf(Record("r", "1:b", artifact, body), crateId)
  {
    assert "r:1" + ":" + "b" == "r" + ":" + "1:b";
  }
}
