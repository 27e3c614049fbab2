/** The runner's walk over the real tree and the curator's rebuild from flat sets feed the hash the same bytes. */
module DigestAgreement {
  import opened Support
  import opened Paths
  import opened RunTree
  import opened EvidenceStream
  import opened RunLayout
  import Runner = RunnerDigest
  import Curator = CuratorDigest

  predicate IsFileAt(root: Node, path: string) {
    var answer := Lookup(root, path);
    answer.Found? && answer.node.File?
  }

  predicate IsDirectoryAt(root: Node, path: string) {
    var answer := Lookup(root, path);
    answer.Found? && answer.node.Dir?
  }

  /** The flat sets hold the tree's files but the checksum list, with their contents, and its directories. */
  ghost predicate Describes(checksums: string, root: Node, files: map<string, string>, directories: set<string>) {
    && (forall path :: path in files <==> IsFileAt(root, path) && path != checksums)
    && (forall path <- files :: files[path] == Lookup(root, path).node.bytes)
    && (forall path :: path in directories <==> IsDirectoryAt(root, path))
  }

  // ---- Both walks list the tree ----

  lemma EntryPath(root: Node, directory: string, node: Node, name: string)
    requires Lookup(root, directory) == Found(node) && node.Dir? && name in node.entries && '/' !in name
    ensures Lookup(root, directory + "/" + name) == Found(node.entries[name])
  {
    LookupBelow(root, directory, name);
    SlashAfterName(name, "");
    assert name[..|name|] == name;
  }

  lemma BelowIsNotPlain(directory: string, name: string, plain: string)
    requires '/' !in plain
    ensures directory + "/" + name != plain
  {
    assert (directory + "/" + name)[|directory|] == '/';
  }

  lemma EncodeOne(sha: string -> string, path: string, bytes: string)
    ensures Encode(sha, [Record(path, bytes)]) == FileRecord(sha, path, bytes)
  {
    assert [Record(path, bytes)][1..] == [];
  }

  lemma SlashedIsSame(path: string)
    requires '\\' !in path
    ensures Runner.Slashed(path) == path
  {
  }

  lemma {:induction false} RunnerListsTree(sha: string -> string, root: Node, path: string, node: Node)
    requires WellNamed(root) && Clean(root) && Lookup(root, path) == Found(node)
    ensures Runner.HashedEntry(sha, root, path, node) == Some(Encode(sha, FilesAt(path, node)))
    decreases node, 1, 0
  {
    FoundIsGood(root, path);
    match node
    case File(bytes) =>
      SlashedIsSame(path);
      EncodeOne(sha, path, bytes);
    case Dir(entries) => RunnerListsEntries(sha, root, path, node, SortedNames(entries.Keys));
  }

  lemma {:induction false} RunnerListsEntries(sha: string -> string, root: Node, directory: string, node: Node, names: seq<string>)
    requires WellNamed(root) && Clean(root) && Lookup(root, directory) == Found(node)
    requires node.Dir? && forall name <- names :: name in node.entries
    ensures Runner.HashedEntries(sha, root, directory, node, names) == Some(Encode(sha, FilesIn(directory, node, names)))
    decreases node, 0, |names|
  {
    if names != [] {
      FoundIsGood(root, directory);
      EntryPath(root, directory, node, names[0]);
      RunnerListsTree(sha, root, directory + "/" + names[0], node.entries[names[0]]);
      RunnerListsEntries(sha, root, directory, node, names[1..]);
      EncodeConcat(sha, FilesAt(directory + "/" + names[0], node.entries[names[0]]), FilesIn(directory, node, names[1..]));
    }
  }

  /** A path found below a directory goes through one of its entries, and a file has nothing below it. */
  lemma ChildIsEntry(root: Node, directory: string, node: Node, path: string)
    requires Lookup(root, directory) == Found(node) && node.Dir?
    requires directory + "/" <= path && Lookup(root, path).Found?
    ensures
      var name := FirstComponent(path[|directory + "/"|..]);
      && name in node.entries
      && (IsDirectoryAt(root, path) ==> node.entries[name].Dir?)
  {
    var rest := path[|directory + "/"|..];
    assert path == directory + "/" + rest;
    LookupBelow(root, directory, rest);
  }

  lemma EntryIsChild(checksums: string, root: Node, files: map<string, string>, directories: set<string>, directory: string, node: Node, name: string)
    requires Describes(checksums, root, files, directories) && '/' !in checksums && WellNamed(root) && Clean(root)
    requires Lookup(root, directory) == Found(node) && node.Dir? && name in node.entries
    ensures name in Curator.Children(files.Keys, directories, directory + "/")
    ensures
      var kind := Curator.Children(files.Keys, directories, directory + "/")[name];
      match node.entries[name]
      case File(bytes) => kind.RegularFile? && directory + "/" + name in files && files[directory + "/" + name] == bytes
      case Dir(_) => kind.Directory?
      case Special => false
  {
    FoundIsGood(root, directory);
    EntryPath(root, directory, node, name);
    BelowIsNotPlain(directory, name, checksums);
    SlashAfterName(name, "");
    var prefix := directory + "/";
    assert (prefix + name)[|prefix|..] == name;
    if node.entries[name].File? && name in Curator.ChildNames(directories, prefix) {
      var path :| path in directories && prefix < path && FirstComponent(path[|prefix|..]) == name;
      ChildIsEntry(root, directory, node, path);
    }
  }

  lemma ChildrenAreEntries(checksums: string, root: Node, files: map<string, string>, directories: set<string>, directory: string, node: Node)
    requires Describes(checksums, root, files, directories) && '/' !in checksums && WellNamed(root) && Clean(root)
    requires Lookup(root, directory) == Found(node) && node.Dir?
    ensures Curator.Children(files.Keys, directories, directory + "/").Keys == node.entries.Keys
  {
    var prefix := directory + "/";
    forall name | name in node.entries ensures name in Curator.Children(files.Keys, directories, prefix) {
      EntryIsChild(checksums, root, files, directories, directory, node, name);
    }
    forall name | name in Curator.Children(files.Keys, directories, prefix) ensures name in node.entries {
      var path :| path in files.Keys + directories && prefix < path && FirstComponent(path[|prefix|..]) == name;
      ChildIsEntry(root, directory, node, path);
    }
  }

  lemma {:induction false} CuratorListsTree(sha: string -> string, checksums: string, root: Node, files: map<string, string>, directories: set<string>,
                                            directory: string, node: Node)
    requires Describes(checksums, root, files, directories) && '/' !in checksums && WellNamed(root) && Clean(root)
    requires Lookup(root, directory) == Found(node) && node.Dir?
    ensures Curator.HashedDirectory(sha, files, directories, directory) == Encode(sha, FilesAt(directory, node))
    decreases node, 1, 0
  {
    ChildrenAreEntries(checksums, root, files, directories, directory, node);
    CuratorListsEntries(sha, checksums, root, files, directories, directory, node, SortedNames(node.entries.Keys));
  }

  lemma {:induction false} CuratorListsEntries(sha: string -> string, checksums: string, root: Node, files: map<string, string>,
                                               directories: set<string>, directory: string, node: Node, names: seq<string>)
    requires Describes(checksums, root, files, directories) && '/' !in checksums && WellNamed(root) && Clean(root)
    requires Lookup(root, directory) == Found(node) && node.Dir? && forall name <- names :: name in node.entries
    requires Curator.Children(files.Keys, directories, directory + "/").Keys == node.entries.Keys
    ensures Curator.HashedEntries(sha, files, directories, directory, names) == Encode(sha, FilesIn(directory, node, names))
    decreases node, 0, |names|
  {
    if names != [] {
      CuratorListsEntry(sha, checksums, root, files, directories, directory, node, names[0]);
      CuratorListsEntries(sha, checksums, root, files, directories, directory, node, names[1..]);
      EncodeConcat(sha, FilesAt(directory + "/" + names[0], node.entries[names[0]]), FilesIn(directory, node, names[1..]));
    }
  }

  lemma {:induction false} CuratorListsEntry(sha: string -> string, checksums: string, root: Node, files: map<string, string>,
                                             directories: set<string>, directory: string, node: Node, name: string)
    requires Describes(checksums, root, files, directories) && '/' !in checksums && WellNamed(root) && Clean(root)
    requires Lookup(root, directory) == Found(node) && node.Dir? && name in node.entries
    requires name in Curator.Children(files.Keys, directories, directory + "/")
    ensures Curator.HashedEntry(sha, files, directories, directory, name)
         == Encode(sha, FilesAt(directory + "/" + name, node.entries[name]))
    decreases node, 0, 0
  {
    FoundIsGood(root, directory);
    EntryPath(root, directory, node, name);
    EntryIsChild(checksums, root, files, directories, directory, node, name);
    var path := directory + "/" + name;
    match node.entries[name]
    case File(bytes) =>
      EncodeOne(sha, path, bytes);
    case Dir(_) => CuratorListsTree(sha, checksums, root, files, directories, path, node.entries[name]);
    case Special =>
  }

  // ---- Agreement ----

  /** Tree by tree: the runner accepts exactly what is missing or a directory, and then both hash the same. */
  lemma TreeAgrees(sha: string -> string, checksums: string, root: Node, files: map<string, string>, directories: set<string>, path: string)
    requires Describes(checksums, root, files, directories) && '/' !in checksums && WellNamed(root) && Clean(root)
    ensures Runner.HashedTree(sha, root, path).Some? <==> Lookup(root, path).Missing? || IsDirectoryAt(root, path)
    ensures Runner.HashedTree(sha, root, path).Some? ==>
      Runner.HashedTree(sha, root, path).value == Curator.HashedTree(sha, files, directories, path)
  {
    if IsDirectoryAt(root, path) {
      var node := Lookup(root, path).node;
      RunnerListsTree(sha, root, path, node);
      CuratorListsTree(sha, checksums, root, files, directories, path, node);
      ConcatAssociates(TreeTag(path), PRESENT, Encode(sha, FilesAt(path, node)));
    } else if Lookup(root, path).Missing? {
      forall below | below in files ensures !(path + "/" <= below) {
        if path + "/" <= below {
          assert below == path + "/" + below[|path + "/"|..];
          LookupBelow(root, path, below[|path + "/"|..]);
        }
      }
    }
  }

  /** Every evidence root is missing or a directory. */
  predicate RootsAreTrees(root: Node, paths: seq<string>) {
    forall path <- paths :: Lookup(root, path).Missing? || IsDirectoryAt(root, path)
  }

  lemma {:induction false} TreesAgree(sha: string -> string, checksums: string, root: Node, files: map<string, string>, directories: set<string>,
                                      paths: seq<string>)
    requires Describes(checksums, root, files, directories) && '/' !in checksums && WellNamed(root) && Clean(root)
    ensures Runner.HashedTrees(sha, root, paths).Some? <==> RootsAreTrees(root, paths)
    ensures Runner.HashedTrees(sha, root, paths).Some? ==>
      Runner.HashedTrees(sha, root, paths).value == Curator.HashedTrees(sha, files, directories, paths)
  {
    if paths != [] {
      TreeAgrees(sha, checksums, root, files, directories, paths[0]);
      TreesAgree(sha, checksums, root, files, directories, paths[1..]);
    }
  }

  lemma RootsFitIff(checksums: string, root: Node, files: map<string, string>, directories: set<string>, paths: seq<string>)
    requires Describes(checksums, root, files, directories) && '/' !in checksums && checksums !in paths
    ensures Curator.RootsFit(files.Keys, directories, paths) <==> forall path <- paths :: !IsFileAt(root, path)
  {
    forall path, below | path in paths && below in files && path + "/" <= below ensures path in directories {
      assert below == path + "/" + below[|path + "/"|..];
      LookupBelow(root, path, below[|path + "/"|..]);
    }
  }

  /** The evidence roots that can lack a directory above them are exactly one, once the observations are in place. */
  lemma BlockedRoots(root: Node, layout: Layout)
    requires Sensible(layout) && root.Dir? && IsFileAt(root, layout.ObservationsPath())
    ensures (exists path <- layout.Roots() :: Lookup(root, path).NotADirectory?) <==> IsOtherAt(root, layout.logs)
  {
    OneName(root, layout.traces);
    TwoNames(root, layout.artifacts, layout.witnesses);
    TwoNames(root, layout.logs, layout.children);
    LookupBelow(root, layout.artifacts, layout.observations);
    assert layout.Roots()[1] in layout.Roots();
  }

  /** Something that is not a directory. */
  predicate IsOtherAt(root: Node, path: string) {
    var answer := Lookup(root, path);
    answer.Found? && !answer.node.Dir?
  }

  lemma OneName(root: Node, name: string)
    requires root.Dir? && '/' !in name
    ensures !Lookup(root, name).NotADirectory?
  {
    SlashAfterName(name, "");
  }

  lemma TwoNames(root: Node, directory: string, name: string)
    requires root.Dir? && '/' !in directory && '/' !in name
    ensures Lookup(root, directory + "/" + name).NotADirectory? <==> IsOtherAt(root, directory)
  {
    OneName(root, directory);
    LookupBelow(root, directory, name);
    if IsDirectoryAt(root, directory) { OneName(Lookup(root, directory).node, name); }
  }

  lemma PathsAreNotChecksums(layout: Layout)
    requires Sensible(layout)
    ensures layout.checksums !in layout.Roots()
    ensures layout.checksums != layout.findings && layout.checksums != layout.ObservationsPath()
  {
    BelowIsNotPlain(layout.artifacts, layout.witnesses, layout.checksums);
    BelowIsNotPlain(layout.logs, layout.children, layout.checksums);
    BelowIsNotPlain(layout.artifacts, layout.observations, layout.checksums);
  }

  lemma MissingOrDirectory(root: Node, path: string)
    requires WellNamed(root) && Clean(root)
    ensures Lookup(root, path).Missing? || IsDirectoryAt(root, path) <==>
      !IsFileAt(root, path) && !Lookup(root, path).NotADirectory?
  {
    if Lookup(root, path).Found? { FoundIsGood(root, path); }
  }

  /** Root by root: the runner hashes exactly what is no file and blocked by none, and then both hash the same. */
  lemma PartsAgree(sha: string -> string, root: Node, files: map<string, string>, directories: set<string>, layout: Layout)
    requires Sensible(layout) && Describes(layout.checksums, root, files, directories) && WellNamed(root) && Clean(root)
    ensures
      var runner := Runner.HashedParts(sha, root, layout);
      var curator := Curator.HashedParts(sha, files, directories, layout);
      && (runner.Some? <==>
            && curator.Some? && Curator.RootsFit(files.Keys, directories, layout.Roots())
            && forall path <- layout.Roots() :: !Lookup(root, path).NotADirectory?)
      && (runner.Some? ==> runner == curator)
  {
    PathsAreNotChecksums(layout);
    TreesAgree(sha, layout.checksums, root, files, directories, layout.Roots());
    RootsFitIff(layout.checksums, root, files, directories, layout.Roots());
    forall path <- layout.Roots()
      ensures Lookup(root, path).Missing? || IsDirectoryAt(root, path) <==>
        !IsFileAt(root, path) && !Lookup(root, path).NotADirectory?
    {
      MissingOrDirectory(root, path);
    }
  }

  /**
   * Wherever the runner computes a digest the curator accepts the run and hashes the same bytes. The curator accepts one
   * kind of run more: where the directory above the log root is a plain file.
   */
  lemma DigestsAgree(sha: string -> string, root: Node, files: map<string, string>, directories: set<string>, layout: Layout)
    requires Sensible(layout) && Describes(layout.checksums, root, files, directories)
    requires WellNamed(root) && Clean(root) && root.Dir?
    ensures
      var runner, curator := Runner.HashedRun(sha, root, layout), Curator.HashedRun(sha, files, directories, layout);
      && (runner.Some? <==>
            curator.Some? && Curator.RootsFit(files.Keys, directories, layout.Roots()) && !IsFileAt(root, layout.logs))
      && (runner.Some? ==> runner == curator)
  {
    PartsAgree(sha, root, files, directories, layout);
    if Curator.HashedParts(sha, files, directories, layout).Some? {
      BlockedRoots(root, layout);
      if Lookup(root, layout.logs).Found? { FoundIsGood(root, layout.logs); }
    }
  }

  // ---- The curator's whole reading ----

  function Contents(root: Node, path: string): string {
    var answer := Lookup(root, path);
    if answer.Found? && answer.node.File? then answer.node.bytes else ""
  }

  lemma CollectedAreFiles(collected: set<string>, root: Node)
    requires GainsBelow(RegularFile, collected, {}, "", root)
    ensures forall path <- collected :: IsFileAt(root, path)
  {
    forall path <- collected ensures IsFileAt(root, path) {
      assert LiesBelow(RegularFile, "", root, path) && path[0..] == path;
    }
  }

  lemma CollectedDescribes(checksums: string, root: Node, collected: set<string>, directories: set<string>,
                           files: map<string, string>)
    requires GainsBelow(RegularFile, collected, {}, "", root) && GainsBelow(Directory, directories, {}, "", root)
    requires files.Keys == collected - {checksums} && forall path <- files :: files[path] == Contents(root, path)
    ensures Describes(checksums, root, files, directories)
  {
    forall path
      ensures path in collected <==> IsFileAt(root, path)
      ensures path in directories <==> IsDirectoryAt(root, path)
    {
      assert path[0..] == path;
      assert LiesBelow(RegularFile, "", root, path) <==> IsFileAt(root, path);
      assert LiesBelow(Directory, "", root, path) <==> IsDirectoryAt(root, path);
    }
  }

  /** Collects the tree into flat sets, checks the roots, and hashes. */
  method CuratorDigestFor(sha: string -> string, root: Node, layout: Layout) returns (digest: Option<string>)
    requires root.Dir? && WellNamed(root) && Sensible(layout)
    ensures !Clean(root) ==> digest.None?
    ensures Clean(root) ==>
      (Runner.HashedRun(sha, root, layout).Some? <==> digest.Some? && !IsFileAt(root, layout.logs))
    ensures Clean(root) && Runner.HashedRun(sha, root, layout).Some? ==>
      digest == Digested(sha, Runner.HashedRun(sha, root, layout))
  {
    var collector := new Collector();
    var ok := collector.Collect(root, "");
    if !ok { return None; }
    var paths := collector.files - {layout.checksums};
    var fits := Curator.EnsureEvidenceTreeRoots(paths, collector.directories, layout.Roots());
    CollectedAreFiles(collector.files, root);
    var files := map path | path in paths :: Lookup(root, path).node.bytes;
    CollectedDescribes(layout.checksums, root, collector.files, collector.directories, files);
    DigestsAgree(sha, root, files, collector.directories, layout);
    if !fits { return None; }
    digest := Curator.DigestRun(sha, files, collector.directories, layout);
  }

  /** The curator's reading of a run directory, up to the digest: the runner's digest, unless `logs` is a file. */
  method CuratorDigestOf(sha: string -> string, root: Node) returns (digest: Option<string>)
    requires root.Dir? && WellNamed(root)
    ensures !Clean(root) ==> digest.None?
    ensures Clean(root) ==>
      (Runner.HashedRun(sha, root, EVIDENCE).Some? <==> digest.Some? && !IsFileAt(root, EVIDENCE.logs))
    ensures Clean(root) && Runner.HashedRun(sha, root, EVIDENCE).Some? ==>
      digest == Digested(sha, Runner.HashedRun(sha, root, EVIDENCE))
  {
    EvidenceIsSensible();
    digest := CuratorDigestFor(sha, root, EVIDENCE);
  }

  // ---- Where they come apart ----

  /** A run directory in which a plain file stands in place of the log directory. */
  function LogsFile(layout: Layout): Node {
    Dir(map[layout.findings := File(""), layout.artifacts := Dir(map[layout.observations := File("")]),
            layout.logs := File("")])
  }

  lemma Alone(node: Node, name: string)
    requires node.Dir? && '/' !in name && name in node.entries
    ensures Lookup(node, name) == Found(node.entries[name])
  {
    SlashAfterName(name, "");
  }

  lemma LogsFileHas(layout: Layout)
    requires Sensible(layout)
    ensures WellNamed(LogsFile(layout)) && Clean(LogsFile(layout))
    ensures IsFileAt(LogsFile(layout), layout.findings) && IsFileAt(LogsFile(layout), layout.logs)
    ensures IsFileAt(LogsFile(layout), layout.ObservationsPath())
  {
    var root := LogsFile(layout);
    Alone(root, layout.findings);
    Alone(root, layout.logs);
    Alone(root, layout.artifacts);
    Alone(root.entries[layout.artifacts], layout.observations);
    LookupBelow(root, layout.artifacts, layout.observations);
  }

  lemma LogsFileRoots(layout: Layout)
    requires Sensible(layout)
    ensures forall path <- layout.Roots() :: !IsFileAt(LogsFile(layout), path)
  {
    var root := LogsFile(layout);
    Alone(root, layout.artifacts);
    Alone(root, layout.logs);
    LookupBelow(root, layout.artifacts, layout.witnesses);
    LookupBelow(root, layout.logs, layout.children);
    SlashAfterName(layout.witnesses, "");
    SlashAfterName(layout.traces, "");
    WitnessesMissing(layout);
  }

  lemma WitnessesMissing(layout: Layout)
    requires Sensible(layout)
    ensures !IsFileAt(Dir(map[layout.observations := File("")]), layout.witnesses)
  {
    SlashAfterName(layout.witnesses, "");
  }

  /** The digests do come apart: with a plain file in place of the log directory only the curator computes one. */
  lemma LogsFileIsAccepted(sha: string -> string, files: map<string, string>, directories: set<string>, layout: Layout)
    requires Sensible(layout) && Describes(layout.checksums, LogsFile(layout), files, directories)
    ensures WellNamed(LogsFile(layout)) && Clean(LogsFile(layout))
    ensures Runner.HashedRun(sha, LogsFile(layout), layout).None?
    ensures Curator.HashedRun(sha, files, directories, layout).Some?
    ensures Curator.RootsFit(files.Keys, directories, layout.Roots())
  {
    LogsFileHas(layout);
    LogsFileRoots(layout);
    PathsAreNotChecksums(layout);
    RootsFitIff(layout.checksums, LogsFile(layout), files, directories, layout.Roots());
    DigestsAgree(sha, LogsFile(layout), files, directories, layout);
  }
}
