/** The digest the curator rebuilds from flat, sorted sets of file and directory paths. */
module CuratorDigest {
  import opened Support
  import opened Paths
  import opened RunTree
  import opened EvidenceStream
  import opened RunLayout

  // ---- The children of a directory ----

  /** The first components of what the paths hold after the prefix. */
  ghost function ChildNames(paths: set<string>, prefix: string): set<string> {
    set path | path in paths && prefix < path :: FirstComponent(path[|prefix|..])
  }

  ghost function ChildKind(files: set<string>, directories: set<string>, prefix: string, name: string): EntryKind {
    if name !in ChildNames(directories, prefix) && name != "" && prefix + name in files then RegularFile else Directory
  }

  ghost function Children(files: set<string>, directories: set<string>, prefix: string): map<string, EntryKind> {
    map name | name in ChildNames(files, prefix) + ChildNames(directories, prefix) ::
      ChildKind(files, directories, prefix, name)
  }

  function ImmediateChildName(prefix: string, path: string): Option<string> {
    if !(prefix <= path) || path[|prefix|..] == "" then None else Some(FirstComponent(path[|prefix|..]))
  }

  /** The paths from the prefix on, in order. */
  ghost predicate Ranges(sorted: seq<string>, paths: set<string>, prefix: string) {
    Sorted(sorted) && forall path :: path in sorted <==> path in paths && !Less(path, prefix)
  }

  method Range(paths: set<string>, prefix: string) returns (sorted: seq<string>)
    ensures Ranges(sorted, paths, prefix)
  {
    sorted := SortNames(set path | path in paths && !Less(path, prefix));
  }

  /** Once the range leaves the prefix, nothing with the prefix is left. */
  lemma RangeLeavesPrefix(sorted: seq<string>, paths: set<string>, prefix: string, k: nat, path: string)
    requires Ranges(sorted, paths, prefix) && k <= |sorted| && (k < |sorted| ==> !(prefix <= sorted[k]))
    requires path in paths && prefix <= path
    ensures path in sorted[..k]
  {
    PrefixFirst(prefix, path);
    var j :| 0 <= j < |sorted| && sorted[j] == path;
    if k < j {
      PrefixesAdjacent(prefix, sorted[k], path);
    }
  }

  lemma RangeHasAllChildren(sorted: seq<string>, paths: set<string>, prefix: string, k: nat)
    requires Ranges(sorted, paths, prefix) && k <= |sorted| && (k < |sorted| ==> !(prefix <= sorted[k]))
    ensures ChildNames(SetOf(sorted[..k]), prefix) == ChildNames(paths, prefix)
    ensures forall name :: prefix + name in SetOf(sorted[..k]) <==> prefix + name in paths
  {
    forall path | prefix <= path ensures path in SetOf(sorted[..k]) <==> path in paths {
      if path in paths { RangeLeavesPrefix(sorted, paths, prefix, k, path); }
    }
  }

  lemma AddPath(paths: set<string>, prefix: string, path: string)
    ensures ChildNames(paths + {path}, prefix)
         == ChildNames(paths, prefix) + (if prefix < path then {FirstComponent(path[|prefix|..])} else {})
  {
  }

  lemma VisitDirectory(visited: set<string>, prefix: string, path: string)
    ensures
      var name := ImmediateChildName(prefix, path);
      Children({}, visited + {path}, prefix)
        == if name.Some? then Children({}, visited, prefix)[name.value := Directory] else Children({}, visited, prefix)
  {
    AddPath(visited, prefix, path);
  }

  method DirectoryChildren(directories: set<string>, prefix: string) returns (children: map<string, EntryKind>)
    ensures children == Children({}, directories, prefix)
  {
    children := map[];
    var sorted := Range(directories, prefix);
    var k := 0;
    while k < |sorted| && prefix <= sorted[k]
      invariant k <= |sorted|
      invariant children == Children({}, SetOf(sorted[..k]), prefix)
    {
      assert sorted[..k + 1] == sorted[..k] + [sorted[k]];
      SetOfSnoc(sorted[..k], sorted[k]);
      VisitDirectory(SetOf(sorted[..k]), prefix, sorted[k]);
      var name := ImmediateChildName(prefix, sorted[k]);
      if name.Some? {
        children := children[name.value := Directory];
      }
      k := k + 1;
    }
    RangeHasAllChildren(sorted, directories, prefix, k);
  }

  /** A path below an entry comes after the entry's own path. */
  lemma BelowComesLater(visited: set<string>, prefix: string, name: string)
    requires name in ChildNames(visited, prefix)
    ensures exists path <- visited :: !Less(path, prefix + name)
  {
    var path :| path in visited && prefix < path && FirstComponent(path[|prefix|..]) == name;
    SplitThrough(prefix, name, path);
    assert prefix + name <= path;
    PrefixFirst(prefix + name, path);
  }

  /** Visiting a file settles no kind anew: an entry seen before keeps its kind. */
  lemma KindStays(visited: set<string>, directories: set<string>, prefix: string, path: string, name: string)
    requires forall other <- visited :: Less(other, path)
    requires name in Children(visited, directories, prefix)
    ensures ChildKind(visited + {path}, directories, prefix, name) == ChildKind(visited, directories, prefix, name)
  {
    if name in ChildNames(visited, prefix) && prefix + name == path {
      BelowComesLater(visited, prefix, name);
    }
  }

  /** An entry seen for the first time is a file exactly if the path ends with it. */
  lemma KindIsNew(visited: set<string>, directories: set<string>, prefix: string, path: string)
    requires prefix < path
    requires FirstComponent(path[|prefix|..]) !in Children(visited, directories, prefix)
    ensures
      var name := FirstComponent(path[|prefix|..]);
      ChildKind(visited + {path}, directories, prefix, name) == if |prefix + name| < |path| then Directory else RegularFile
  {
    var rest := path[|prefix|..];
    var name := FirstComponent(rest);
    assert path == prefix + rest;
    assert |name| == |rest| ==> name == rest;
    if name != "" && prefix + name in visited {
      assert (prefix + name)[|prefix|..] == name;
      SlashAfterName(name, "");
    }
  }

  /** The children once one more file path is seen: its entry gets a kind unless it has one. */
  function Visited(children: map<string, EntryKind>, prefix: string, path: string): map<string, EntryKind> {
    var name := ImmediateChildName(prefix, path);
    if name.None? || name.value in children then children
    else children[name.value := if |prefix + name.value| < |path| then Directory else RegularFile]
  }

  lemma SameChildren(a: map<string, EntryKind>, b: map<string, EntryKind>)
    requires a.Keys == b.Keys && forall name <- a.Keys :: a[name] == b[name]
    ensures a == b
  {
  }

  lemma VisitedKeys(visited: set<string>, directories: set<string>, prefix: string, path: string)
    requires prefix <= path
    ensures Children(visited + {path}, directories, prefix).Keys == Visited(Children(visited, directories, prefix), prefix, path).Keys
  {
    AddPath(visited, prefix, path);
  }

  lemma VisitedKinds(visited: set<string>, directories: set<string>, prefix: string, path: string, name: string)
    requires prefix <= path && forall other <- visited :: Less(other, path)
    requires name in Visited(Children(visited, directories, prefix), prefix, path)
    ensures Visited(Children(visited, directories, prefix), prefix, path)[name] == ChildKind(visited + {path}, directories, prefix, name)
  {
    if name in Children(visited, directories, prefix) {
      KindStays(visited, directories, prefix, path, name);
    } else {
      KindIsNew(visited, directories, prefix, path);
    }
  }

  /** Seeing the files in order gives every entry the kind the whole set gives it. */
  lemma VisitFile(visited: set<string>, directories: set<string>, prefix: string, path: string)
    requires prefix <= path && forall other <- visited :: Less(other, path)
    ensures Children(visited + {path}, directories, prefix) == Visited(Children(visited, directories, prefix), prefix, path)
  {
    var children := Visited(Children(visited, directories, prefix), prefix, path);
    VisitedKeys(visited, directories, prefix, path);
    forall name <- children.Keys ensures children[name] == Children(visited + {path}, directories, prefix)[name] {
      VisitedKinds(visited, directories, prefix, path, name);
    }
    SameChildren(children, Children(visited + {path}, directories, prefix));
  }

  lemma VisitNext(sorted: seq<string>, directories: set<string>, prefix: string, k: nat)
    requires Sorted(sorted) && k < |sorted| && prefix <= sorted[k]
    ensures Children(SetOf(sorted[..k + 1]), directories, prefix)
         == Visited(Children(SetOf(sorted[..k]), directories, prefix), prefix, sorted[k])
  {
    assert sorted[..k + 1] == sorted[..k] + [sorted[k]];
    SetOfSnoc(sorted[..k], sorted[k]);
    VisitFile(SetOf(sorted[..k]), directories, prefix, sorted[k]);
  }

  method FileChildren(files: set<string>, directories: set<string>, prefix: string, start: map<string, EntryKind>)
    returns (children: map<string, EntryKind>)
    requires start == Children({}, directories, prefix)
    ensures children == Children(files, directories, prefix)
  {
    children := start;
    var sorted := Range(files, prefix);
    var k := 0;
    while k < |sorted| && prefix <= sorted[k]
      invariant k <= |sorted|
      invariant children == Children(SetOf(sorted[..k]), directories, prefix)
    {
      VisitNext(sorted, directories, prefix, k);
      children := Visited(children, prefix, sorted[k]);
      k := k + 1;
    }
    RangeHasAllChildren(sorted, files, prefix, k);
  }

  method ImmediateEvidenceChildren(files: set<string>, directories: set<string>, directory: string)
    returns (children: map<string, EntryKind>)
    ensures children == Children(files, directories, directory + "/")
  {
    children := DirectoryChildren(directories, directory + "/");
    children := FileChildren(files, directories, directory + "/", children);
  }

  // ---- Walking the sets ----

  ghost function Longest(paths: set<string>): (n: nat)
    ensures forall path <- paths :: |path| <= n
  {
    if paths == {} then 0
    else
      var path :| path in paths;
      var rest := Longest(paths - {path});
      if |path| < rest then rest else |path|
  }

  /** How much longer than the directory a path can still be: what the recursion runs on. */
  ghost function Room(files: set<string>, directories: set<string>, directory: string): nat {
    var longest := Longest(files + directories);
    if |directory| <= longest then 1 + longest - |directory| else 0
  }

  lemma ChildHasLessRoom(files: set<string>, directories: set<string>, directory: string, name: string)
    requires name in Children(files, directories, directory + "/")
    ensures Room(files, directories, directory + "/" + name) < Room(files, directories, directory)
  {
    var prefix := directory + "/";
    var path :| path in files + directories && prefix < path && FirstComponent(path[|prefix|..]) == name;
    assert |prefix + name| <= |path| <= Longest(files + directories);
  }

  ghost function HashedEntries(sha: string -> string, files: map<string, string>, directories: set<string>, directory: string,
                               names: seq<string>): string
    requires forall name <- names :: name in Children(files.Keys, directories, directory + "/")
    decreases Room(files.Keys, directories, directory), 0, |names|
  {
    if names == [] then ""
    else
      HashedEntry(sha, files, directories, directory, names[0]) + HashedEntries(sha, files, directories, directory, names[1..])
  }

  ghost function HashedEntry(sha: string -> string, files: map<string, string>, directories: set<string>, directory: string,
                             name: string): string
    requires name in Children(files.Keys, directories, directory + "/")
    decreases Room(files.Keys, directories, directory), 0, 0
  {
    ChildHasLessRoom(files.Keys, directories, directory, name);
    var path := directory + "/" + name;
    if Children(files.Keys, directories, directory + "/")[name].RegularFile? then FileRecord(sha, path, files[path])
    else HashedDirectory(sha, files, directories, path)
  }

  ghost function HashedDirectory(sha: string -> string, files: map<string, string>, directories: set<string>, directory: string): string
    decreases Room(files.Keys, directories, directory), 1, 0
  {
    HashedEntries(sha, files, directories, directory, SortedNames(Children(files.Keys, directories, directory + "/").Keys))
  }

  predicate TreePresent(files: set<string>, directories: set<string>, root: string) {
    root in directories || exists path <- files :: root + "/" <= path
  }

  ghost function HashedTree(sha: string -> string, files: map<string, string>, directories: set<string>, root: string): string {
    TreeTag(root) +
    if TreePresent(files.Keys, directories, root) then PRESENT + HashedDirectory(sha, files, directories, root) else ABSENT
  }

  ghost function HashedTrees(sha: string -> string, files: map<string, string>, directories: set<string>, roots: seq<string>): string {
    if roots == [] then ""
    else HashedTree(sha, files, directories, roots[0]) + HashedTrees(sha, files, directories, roots[1..])
  }

  function HashedFile(sha: string -> string, files: map<string, string>, path: string): Option<string> {
    if path in files then Some(FileRecord(sha, path, files[path])) else None
  }

  ghost function HashedParts(sha: string -> string, files: map<string, string>, directories: set<string>, layout: Layout): Option<string> {
    Then(Then(HashedFile(sha, files, layout.findings), HashedFile(sha, files, layout.ObservationsPath())),
         Some(HashedTrees(sha, files, directories, layout.Roots())))
  }

  ghost function HashedRun(sha: string -> string, files: map<string, string>, directories: set<string>, layout: Layout): Option<string> {
    Extend(layout.header, HashedParts(sha, files, directories, layout))
  }

  method HashEvidenceFile(sha: string -> string, hasher: Hasher, files: map<string, string>, path: string) returns (ok: bool)
    modifies hasher
    ensures Fed(hasher, ok, HashedFile(sha, files, path))
  {
    if path !in files { return false; }
    hasher.Update("F");
    hasher.Update(path);
    hasher.Update(NUL);
    hasher.Update(sha(files[path]));
    return true;
  }

  /** Ends for any two path sets, and never misses a file it wants to hash. */
  method HashEvidenceTreeEntries(sha: string -> string, hasher: Hasher, files: map<string, string>, directories: set<string>,
                                 directory: string)
    modifies hasher
    ensures hasher.input == old(hasher.input) + HashedDirectory(sha, files, directories, directory)
    decreases Room(files.Keys, directories, directory)
  {
    var children := ImmediateEvidenceChildren(files.Keys, directories, directory);
    var names := SortNames(children.Keys);
    assert names[0..] == names;
    for k := 0 to |names|
      invariant hasher.input + HashedEntries(sha, files, directories, directory, names[k..])
             == old(hasher.input) + HashedEntries(sha, files, directories, directory, names)
    {
      ghost var before := hasher.input;
      assert names[k..][0] == names[k] && names[k..][1..] == names[k + 1..];
      HashEntry(sha, hasher, files, directories, directory, children, names[k]);
      ConcatAssociates(before, HashedEntry(sha, files, directories, directory, names[k]),
                       HashedEntries(sha, files, directories, directory, names[k + 1..]));
    }
  }

  method HashEntry(sha: string -> string, hasher: Hasher, files: map<string, string>, directories: set<string>,
                   directory: string, children: map<string, EntryKind>, name: string)
    requires children == Children(files.Keys, directories, directory + "/") && name in children
    modifies hasher
    ensures hasher.input == old(hasher.input) + HashedEntry(sha, files, directories, directory, name)
    decreases Room(files.Keys, directories, directory), 0
  {
    ChildHasLessRoom(files.Keys, directories, directory, name);
    var path := directory + "/" + name;
    match children[name] {
      case Directory => HashEvidenceTreeEntries(sha, hasher, files, directories, path);
      case RegularFile =>
        var ok := HashEvidenceFile(sha, hasher, files, path);
        assert ok;
    }
  }

  method HashEvidenceTree(sha: string -> string, hasher: Hasher, files: map<string, string>, directories: set<string>, root: string)
    modifies hasher
    ensures hasher.input == old(hasher.input) + HashedTree(sha, files, directories, root)
  {
    StartTree(hasher, root);
    if TreePresent(files.Keys, directories, root) {
      hasher.Update(PRESENT);
      HashEvidenceTreeEntries(sha, hasher, files, directories, root);
      ConcatAssociates(old(hasher.input) + TreeTag(root), PRESENT, HashedDirectory(sha, files, directories, root));
      ConcatAssociates(old(hasher.input), TreeTag(root), PRESENT + HashedDirectory(sha, files, directories, root));
    } else {
      hasher.Update(ABSENT);
      ConcatAssociates(old(hasher.input), TreeTag(root), ABSENT);
    }
  }

  method HashEvidenceTrees(sha: string -> string, hasher: Hasher, files: map<string, string>, directories: set<string>, roots: seq<string>)
    modifies hasher
    ensures hasher.input == old(hasher.input) + HashedTrees(sha, files, directories, roots)
  {
    assert roots[0..] == roots;
    for k := 0 to |roots|
      invariant hasher.input + HashedTrees(sha, files, directories, roots[k..])
             == old(hasher.input) + HashedTrees(sha, files, directories, roots)
    {
      ghost var before := hasher.input;
      assert roots[k..][0] == roots[k] && roots[k..][1..] == roots[k + 1..];
      HashEvidenceTree(sha, hasher, files, directories, roots[k]);
      ConcatAssociates(before, HashedTree(sha, files, directories, roots[k]),
                       HashedTrees(sha, files, directories, roots[k + 1..]));
    }
  }

  method HashRun(sha: string -> string, hasher: Hasher, files: map<string, string>, directories: set<string>, layout: Layout)
    returns (ok: bool)
    modifies hasher
    ensures Fed(hasher, ok, HashedParts(sha, files, directories, layout))
  {
    ok := HashEvidenceFile(sha, hasher, files, layout.findings);
    if !ok { return; }
    ok := HashEvidenceFile(sha, hasher, files, layout.ObservationsPath());
    if !ok { return; }
    HashEvidenceTrees(sha, hasher, files, directories, layout.Roots());
    var a, b := HashedFile(sha, files, layout.findings).value, HashedFile(sha, files, layout.ObservationsPath()).value;
    ConcatAssociates(old(hasher.input), a, b);
    ConcatAssociates(old(hasher.input), a + b, HashedTrees(sha, files, directories, layout.Roots()));
  }

  method DigestRun(sha: string -> string, files: map<string, string>, directories: set<string>, layout: Layout)
    returns (digest: Option<string>)
    ensures digest == Digested(sha, HashedRun(sha, files, directories, layout))
  {
    var hasher := new Hasher();
    hasher.Update(layout.header);
    assert hasher.input == layout.header;
    var ok := HashRun(sha, hasher, files, directories, layout);
    return if ok then Some(sha(hasher.input)) else None;
  }

  method RunnerEvidenceDigest(sha: string -> string, files: map<string, string>, directories: set<string>)
    returns (digest: Option<string>)
    ensures digest == Digested(sha, HashedRun(sha, files, directories, EVIDENCE))
  {
    digest := DigestRun(sha, files, directories, EVIDENCE);
  }

  /** No evidence root may be a file, or hold files without being listed as a directory. */
  predicate RootsFit(files: set<string>, directories: set<string>, roots: seq<string>) {
    forall root <- roots ::
      root !in files && ((exists path <- files :: root + "/" <= path) ==> root in directories)
  }

  method EnsureEvidenceTreeRoots(files: set<string>, directories: set<string>, roots: seq<string>) returns (ok: bool)
    ensures ok <==> RootsFit(files, directories, roots)
  {
    for k := 0 to |roots|
      invariant RootsFit(files, directories, roots[..k])
    {
      assert roots[..k + 1] == roots[..k] + [roots[k]];
      if roots[k] in files { return false; }
      if (exists path <- files :: roots[k] + "/" <= path) && roots[k] !in directories { return false; }
    }
    assert roots[..|roots|] == roots;
    return true;
  }
}
