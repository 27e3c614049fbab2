/** The digest the runner computes while walking the real directory tree. */
module RunnerDigest {
  import opened Support
  import opened Paths
  import opened RunTree
  import opened EvidenceStream
  import opened RunLayout

  /** Path separators of the other kind become slashes. */
  function Slashed(path: string): string {
    seq(|path|, i requires 0 <= i < |path| => if path[i] == '\\' then '/' else path[i])
  }

  // ---- What is hashed ----

  function HashedFile(sha: string -> string, root: Node, path: string): Option<string> {
    var answer := Lookup(root, path);
    if answer.Found? && answer.node.File? then Some(FileRecord(sha, path, answer.node.bytes)) else None
  }

  ghost function HashedEntries(sha: string -> string, root: Node, directory: string, node: Node, names: seq<string>): Option<string>
    requires node.Dir? && forall name <- names :: name in node.entries
    decreases node, 0, |names|
  {
    if names == [] then Some("")
    else Then(HashedEntry(sha, root, directory + "/" + names[0], node.entries[names[0]]),
              HashedEntries(sha, root, directory, node, names[1..]))
  }

  ghost function HashedEntry(sha: string -> string, root: Node, path: string, node: Node): Option<string>
    decreases node, 1, 0
  {
    match node
    case File(_) => HashedFile(sha, root, Slashed(path))
    case Dir(entries) => HashedEntries(sha, root, path, node, SortedNames(entries.Keys))
    case Special => None
  }

  ghost function HashedTree(sha: string -> string, root: Node, path: string): Option<string> {
    var answer := Lookup(root, path);
    if answer.Missing? then Some(TreeTag(path) + ABSENT)
    else if answer.NotADirectory? || !answer.node.Dir? then None
    else Extend(TreeTag(path) + PRESENT, HashedEntry(sha, root, path, answer.node))
  }

  ghost function HashedTrees(sha: string -> string, root: Node, paths: seq<string>): Option<string> {
    if paths == [] then Some("") else Then(HashedTree(sha, root, paths[0]), HashedTrees(sha, root, paths[1..]))
  }

  ghost function HashedParts(sha: string -> string, root: Node, layout: Layout): Option<string> {
    Then(Then(HashedFile(sha, root, layout.findings), HashedFile(sha, root, layout.ObservationsPath())),
         HashedTrees(sha, root, layout.Roots()))
  }

  ghost function HashedRun(sha: string -> string, root: Node, layout: Layout): Option<string> {
    Extend(layout.header, HashedParts(sha, root, layout))
  }

  // ---- Hashing it ----

  method HashEvidenceFile(sha: string -> string, hasher: Hasher, root: Node, path: string) returns (ok: bool)
    modifies hasher
    ensures Fed(hasher, ok, HashedFile(sha, root, path))
  {
    var answer := Lookup(root, path);
    if !(answer.Found? && answer.node.File?) { return false; }
    hasher.Update("F");
    hasher.Update(path);
    hasher.Update(NUL);
    hasher.Update(sha(answer.node.bytes));
    return true;
  }

  method HashEvidenceTreeEntries(sha: string -> string, hasher: Hasher, root: Node, directory: string, node: Node) returns (ok: bool)
    requires node.Dir?
    modifies hasher
    ensures Fed(hasher, ok, HashedEntry(sha, root, directory, node))
    decreases node
  {
    var names := SortNames(node.entries.Keys);
    assert names[0..] == names;
    for k := 0 to |names|
      invariant Extend(hasher.input, HashedEntries(sha, root, directory, node, names[k..]))
             == Extend(old(hasher.input), HashedEntries(sha, root, directory, node, names))
    {
      ghost var before := hasher.input;
      var path := directory + "/" + names[k];
      var entry := node.entries[names[k]];
      assert names[k..][0] == names[k] && names[k..][1..] == names[k + 1..];
      match entry {
        case Special => return false;
        case File(_) => ok := HashEvidenceFile(sha, hasher, root, Slashed(path));
        case Dir(_) => ok := HashEvidenceTreeEntries(sha, hasher, root, path, entry);
      }
      if !ok { return false; }
      ExtendTwice(before, HashedEntry(sha, root, path, entry).value,
                  HashedEntries(sha, root, directory, node, names[k + 1..]));
    }
    return true;
  }

  method HashEvidenceTree(sha: string -> string, hasher: Hasher, root: Node, path: string) returns (ok: bool)
    modifies hasher
    ensures Fed(hasher, ok, HashedTree(sha, root, path))
  {
    StartTree(hasher, path);
    var answer := Lookup(root, path);
    match answer {
      case Missing =>
        hasher.Update(ABSENT);
        ConcatAssociates(old(hasher.input), TreeTag(path), ABSENT);
        return true;
      case NotADirectory => return false;
      case Found(node) =>
        if !node.Dir? { return false; }
        hasher.Update(PRESENT);
        ConcatAssociates(old(hasher.input), TreeTag(path), PRESENT);
        ok := HashEvidenceTreeEntries(sha, hasher, root, path, node);
        if ok {
          ConcatAssociates(old(hasher.input), TreeTag(path) + PRESENT, HashedEntry(sha, root, path, node).value);
        }
    }
  }

  method HashEvidenceTrees(sha: string -> string, hasher: Hasher, root: Node, paths: seq<string>) returns (ok: bool)
    modifies hasher
    ensures Fed(hasher, ok, HashedTrees(sha, root, paths))
  {
    assert paths[0..] == paths;
    for k := 0 to |paths|
      invariant Extend(hasher.input, HashedTrees(sha, root, paths[k..]))
             == Extend(old(hasher.input), HashedTrees(sha, root, paths))
    {
      ghost var before := hasher.input;
      assert paths[k..][0] == paths[k] && paths[k..][1..] == paths[k + 1..];
      ok := HashEvidenceTree(sha, hasher, root, paths[k]);
      if !ok { return false; }
      ExtendTwice(before, HashedTree(sha, root, paths[k]).value, HashedTrees(sha, root, paths[k + 1..]));
    }
    return true;
  }

  method HashRun(sha: string -> string, hasher: Hasher, root: Node, layout: Layout) returns (ok: bool)
    modifies hasher
    ensures Fed(hasher, ok, HashedParts(sha, root, layout))
  {
    ok := HashEvidenceFile(sha, hasher, root, layout.findings);
    if !ok { return; }
    ok := HashEvidenceFile(sha, hasher, root, layout.ObservationsPath());
    if !ok { return; }
    ok := HashEvidenceTrees(sha, hasher, root, layout.Roots());
    if !ok { return; }
    var a, b := HashedFile(sha, root, layout.findings).value, HashedFile(sha, root, layout.ObservationsPath()).value;
    ConcatAssociates(old(hasher.input), a, b);
    ConcatAssociates(old(hasher.input), a + b, HashedTrees(sha, root, layout.Roots()).value);
  }

  method DigestRun(sha: string -> string, root: Node, layout: Layout) returns (digest: Option<string>)
    ensures digest == Digested(sha, HashedRun(sha, root, layout))
  {
    var hasher := new Hasher();
    hasher.Update(layout.header);
    assert hasher.input == layout.header;
    var ok := HashRun(sha, hasher, root, layout);
    return if ok then Some(sha(hasher.input)) else None;
  }

  method RunnerEvidenceDigest(sha: string -> string, root: Node) returns (digest: Option<string>)
    ensures digest == Digested(sha, HashedRun(sha, root, EVIDENCE))
  {
    digest := DigestRun(sha, root, EVIDENCE);
  }
}
