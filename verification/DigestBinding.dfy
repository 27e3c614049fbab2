/** The stream gives away the evidence: equal streams come from equal files, up to equal file hashes. */
module DigestBinding {
  import opened Support
  import opened RunTree
  import opened EvidenceStream
  import opened RunLayout
  import opened EvidenceListing
  import opened RunnerDigest
  import opened DigestAgreement

  datatype Entry = Entry(path: string, digest: string)

  function Entries(sha: string -> string, records: seq<Record>): seq<Entry> {
    if records == [] then [] else [Entry(records[0].path, sha(records[0].bytes))] + Entries(sha, records[1..])
  }

  ghost predicate FixedLength(sha: string -> string) {
    forall x, y :: |sha(x)| == |sha(y)|
  }

  /** A path ends where the first zero byte is. */
  lemma {:induction false} ZeroEndsPath(p: string, r: string, q: string, s: string)
    requires '\0' !in p && '\0' !in q && p + NUL + r == q + NUL + s
    ensures p == q && r == s
  {
    ZeroAt(p, r);
    ZeroAt(q, s);
    assert p == (p + NUL + r)[..|p|] && q == (q + NUL + s)[..|q|];
    assert r == (p + NUL + r)[|p| + 1..] && s == (q + NUL + s)[|q| + 1..];
  }

  lemma ZeroAt(p: string, r: string)
    ensures forall k :: 0 <= k < |p| ==> (p + NUL + r)[k] == p[k]
    ensures (p + NUL + r)[|p|] == '\0'
  {
  }

  lemma SameStart(a: string, x: string, b: string, y: string)
    requires |a| == |b| && a + x == b + y
    ensures a == b && x == y
  {
    assert a == (a + x)[..|a|] && b == (b + y)[..|a|];
    assert x == (a + x)[|a|..] && y == (b + y)[|a|..];
  }

  lemma RecordSplits(sha: string -> string, a: Record, x: string, b: Record, y: string)
    requires FixedLength(sha) && '\0' !in a.path && '\0' !in b.path
    requires FileRecord(sha, a.path, a.bytes) + x == FileRecord(sha, b.path, b.bytes) + y
    ensures a.path == b.path && sha(a.bytes) == sha(b.bytes) && x == y
  {
    Unfold(sha, a, x);
    Unfold(sha, b, y);
    SameStart("F", a.path + NUL + (sha(a.bytes) + x), "F", b.path + NUL + (sha(b.bytes) + y));
    ZeroEndsPath(a.path, sha(a.bytes) + x, b.path, sha(b.bytes) + y);
    SameStart(sha(a.bytes), x, sha(b.bytes), y);
  }

  lemma Unfold(sha: string -> string, record: Record, rest: string)
    ensures FileRecord(sha, record.path, record.bytes) + rest == "F" + (record.path + NUL + (sha(record.bytes) + rest))
  {
  }

  /** What follows the files of a tree is the end or the tag of the next tree. */
  predicate EndOrTree(s: string) {
    s != "" ==> s[0] == 'T'
  }

  ghost predicate ZeroFree(records: seq<Record>) {
    forall record <- records :: '\0' !in record.path
  }

  lemma {:induction false} RecordsSplit(sha: string -> string, a: seq<Record>, x: string, b: seq<Record>, y: string)
    requires FixedLength(sha) && ZeroFree(a) && ZeroFree(b) && EndOrTree(x) && EndOrTree(y)
    requires Encode(sha, a) + x == Encode(sha, b) + y
    ensures Entries(sha, a) == Entries(sha, b) && x == y
  {
    NextIsRecord(sha, a, x);
    NextIsRecord(sha, b, y);
    if a != [] && b != [] {
      ConcatAssociates(FileRecord(sha, a[0].path, a[0].bytes), Encode(sha, a[1..]), x);
      ConcatAssociates(FileRecord(sha, b[0].path, b[0].bytes), Encode(sha, b[1..]), y);
      RecordSplits(sha, a[0], Encode(sha, a[1..]) + x, b[0], Encode(sha, b[1..]) + y);
      RecordsSplit(sha, a[1..], x, b[1..], y);
    } else {
      assert "" + x == x && "" + y == y;
    }
  }

  lemma NextIsRecord(sha: string -> string, records: seq<Record>, rest: string)
    requires EndOrTree(rest)
    ensures records != [] <==> Encode(sha, records) + rest != "" && (Encode(sha, records) + rest)[0] == 'F'
  {
    if records == [] {
      assert Encode(sha, records) + rest == rest;
    } else {
      Unfold(sha, records[0], "");
      assert FileRecord(sha, records[0].path, records[0].bytes) + "" == FileRecord(sha, records[0].path, records[0].bytes);
      assert FileRecord(sha, records[0].path, records[0].bytes)[0] == 'F';
    }
  }

  lemma FilesAreZeroFree(root: Node, path: string)
    requires WellNamed(root) && Lookup(root, path).Found?
    ensures ZeroFree(FilesAt(path, Lookup(root, path).node))
  {
    var node := Lookup(root, path).node;
    FoundIsGood(root, path);
    ListsFilesAt(path, node);
    forall record | record in FilesAt(path, node) ensures '\0' !in record.path {
      assert Holds(path, node, record);
      if record.path != path {
        var rest := record.path[|path + "/"|..];
        FoundIsGood(node, rest);
        assert record.path == path + "/" + rest;
      }
    }
  }

  /** The tree is missing from both runs, or holds the same paths with the same hashes in both. */
  ghost predicate SameTree(sha: string -> string, a: Node, b: Node, path: string) {
    var inA, inB := Lookup(a, path), Lookup(b, path);
    || (inA.Missing? && inB.Missing?)
    || (inA.Found? && inB.Found? && Entries(sha, FilesAt(path, inA.node)) == Entries(sha, FilesAt(path, inB.node)))
  }

  ghost predicate SameFile(sha: string -> string, a: Node, b: Node, path: string) {
    IsFileAt(a, path) && IsFileAt(b, path) && sha(Lookup(a, path).node.bytes) == sha(Lookup(b, path).node.bytes)
  }

  ghost function TreeStream(sha: string -> string, root: Node, path: string): string
    requires Lookup(root, path).Found?
  {
    Encode(sha, FilesAt(path, Lookup(root, path).node))
  }

  /** The hashed form of one tree, spelled out. */
  lemma TreeForm(sha: string -> string, root: Node, path: string, rest: string)
    requires WellNamed(root) && Clean(root) && HashedTree(sha, root, path).Some?
    ensures Lookup(root, path).Missing? ==> HashedTree(sha, root, path).value + rest == TreeTag(path) + (ABSENT + rest)
    ensures !Lookup(root, path).Missing? ==>
      && Lookup(root, path).Found?
      && HashedTree(sha, root, path).value + rest == TreeTag(path) + (PRESENT + (TreeStream(sha, root, path) + rest))
  {
    if Lookup(root, path).Missing? {
      ConcatAssociates(TreeTag(path), ABSENT, rest);
    } else {
      var node := Lookup(root, path).node;
      RunnerListsTree(sha, root, path, node);
      ConcatAssociates(TreeTag(path), PRESENT, TreeStream(sha, root, path));
      ConcatAssociates(TreeTag(path), PRESENT + TreeStream(sha, root, path), rest);
      ConcatAssociates(PRESENT, TreeStream(sha, root, path), rest);
    }
  }

  lemma PresentIsNotAbsent(x: string, y: string)
    ensures PRESENT + x != ABSENT + y
  {
    assert (PRESENT + x)[0] == 'p' && (ABSENT + y)[0] == 'a';
  }

  lemma TreeSplits(sha: string -> string, a: Node, b: Node, path: string, x: string, y: string)
    requires FixedLength(sha) && WellNamed(a) && Clean(a) && WellNamed(b) && Clean(b) && EndOrTree(x) && EndOrTree(y)
    requires HashedTree(sha, a, path).Some? && HashedTree(sha, b, path).Some?
    requires HashedTree(sha, a, path).value + x == HashedTree(sha, b, path).value + y
    ensures SameTree(sha, a, b, path) && x == y
  {
    TreeForm(sha, a, path, x);
    TreeForm(sha, b, path, y);
    if Lookup(a, path).Missing? && Lookup(b, path).Missing? {
      SameStart(TreeTag(path), ABSENT + x, TreeTag(path), ABSENT + y);
      SameStart(ABSENT, x, ABSENT, y);
    } else if Lookup(a, path).Missing? {
      SameStart(TreeTag(path), ABSENT + x, TreeTag(path), PRESENT + (TreeStream(sha, b, path) + y));
      PresentIsNotAbsent(TreeStream(sha, b, path) + y, x);
    } else if Lookup(b, path).Missing? {
      SameStart(TreeTag(path), PRESENT + (TreeStream(sha, a, path) + x), TreeTag(path), ABSENT + y);
      PresentIsNotAbsent(TreeStream(sha, a, path) + x, y);
    } else {
      SameStart(TreeTag(path), PRESENT + (TreeStream(sha, a, path) + x), TreeTag(path), PRESENT + (TreeStream(sha, b, path) + y));
      SameStart(PRESENT, TreeStream(sha, a, path) + x, PRESENT, TreeStream(sha, b, path) + y);
      FilesAreZeroFree(a, path);
      FilesAreZeroFree(b, path);
      RecordsSplit(sha, FilesAt(path, Lookup(a, path).node), x, FilesAt(path, Lookup(b, path).node), y);
    }
  }

  lemma TreesStartWithTag(sha: string -> string, root: Node, paths: seq<string>)
    requires WellNamed(root) && Clean(root) && HashedTrees(sha, root, paths).Some?
    ensures EndOrTree(HashedTrees(sha, root, paths).value)
  {
    if paths != [] {
      var rest := HashedTrees(sha, root, paths[1..]).value;
      TreeForm(sha, root, paths[0], rest);
      assert TreeTag(paths[0])[0] == 'T';
    }
  }

  lemma {:induction false} TreesSplit(sha: string -> string, a: Node, b: Node, paths: seq<string>)
    requires FixedLength(sha) && WellNamed(a) && Clean(a) && WellNamed(b) && Clean(b)
    requires HashedTrees(sha, a, paths).Some? && HashedTrees(sha, a, paths) == HashedTrees(sha, b, paths)
    ensures forall path <- paths :: SameTree(sha, a, b, path)
  {
    if paths != [] {
      TreesStartWithTag(sha, a, paths[1..]);
      TreesStartWithTag(sha, b, paths[1..]);
      TreeSplits(sha, a, b, paths[0], HashedTrees(sha, a, paths[1..]).value, HashedTrees(sha, b, paths[1..]).value);
      TreesSplit(sha, a, b, paths[1..]);
    }
  }

  lemma FileSplits(sha: string -> string, a: Node, b: Node, path: string, x: string, y: string)
    requires FixedLength(sha) && WellNamed(a) && WellNamed(b)
    requires HashedFile(sha, a, path).Some? && HashedFile(sha, b, path).Some?
    requires HashedFile(sha, a, path).value + x == HashedFile(sha, b, path).value + y
    ensures SameFile(sha, a, b, path) && x == y
  {
    FoundIsGood(a, path);
    RecordSplits(sha, Record(path, Lookup(a, path).node.bytes), x, Record(path, Lookup(b, path).node.bytes), y);
  }

  /** Two runs with the same evidence stream have the same evidence: same presence, same paths, same file hashes. */
  lemma StreamBindsEvidence(sha: string -> string, a: Node, b: Node, layout: Layout)
    requires FixedLength(sha) && WellNamed(a) && Clean(a) && WellNamed(b) && Clean(b)
    requires HashedParts(sha, a, layout).Some? && HashedParts(sha, a, layout) == HashedParts(sha, b, layout)
    ensures SameFile(sha, a, b, layout.findings) && SameFile(sha, a, b, layout.ObservationsPath())
    ensures forall path <- layout.Roots() :: SameTree(sha, a, b, path)
  {
    var findingsA, findingsB := HashedFile(sha, a, layout.findings).value, HashedFile(sha, b, layout.findings).value;
    var othersA, othersB := HashedFile(sha, a, layout.ObservationsPath()).value, HashedFile(sha, b, layout.ObservationsPath()).value;
    var treesA, treesB := HashedTrees(sha, a, layout.Roots()).value, HashedTrees(sha, b, layout.Roots()).value;
    ConcatAssociates(findingsA, othersA, treesA);
    ConcatAssociates(findingsB, othersB, treesB);
    FileSplits(sha, a, b, layout.findings, othersA + treesA, othersB + treesB);
    FileSplits(sha, a, b, layout.ObservationsPath(), treesA, treesB);
    TreesSplit(sha, a, b, layout.Roots());
  }
}
