/** The evidence stream written out: which parts of a run it holds, in which order, and what two equal streams share. */
module EvidenceForm {
  import opened Support
  import opened RunTree
  import opened EvidenceStream
  import opened RunLayout
  import opened EvidenceListing
  import opened DigestAgreement
  import opened DigestBinding
  import Runner = RunnerDigest
  import Curator = CuratorDigest

  // ---- The stream in its own words ----

  function FilePart(sha: string -> string, path: string, bytes: string): string {
    "F" + path + "\0" + sha(bytes)
  }

  function FileParts(sha: string -> string, records: seq<Record>): string {
    if records == [] then ""
    else FilePart(sha, records[0].path, records[0].bytes) + FileParts(sha, records[1..])
  }

  /** A tree's tag, whether it is there, and all its files, sorted component by component. */
  ghost function TreePart(sha: string -> string, root: Node, path: string): string {
    "T" + path + "\0"
    + if IsDirectoryAt(root, path) then "present" + FileParts(sha, FilesAt(path, Lookup(root, path).node)) else "absent"
  }

  ghost function Parts(sha: string -> string, root: Node): string {
    FilePart(sha, "findings.jsonl", Contents(root, "findings.jsonl"))
    + (FilePart(sha, "artifacts/observations.jsonl", Contents(root, "artifacts/observations.jsonl"))
       + (TreePart(sha, root, "artifacts/witnesses") + (TreePart(sha, root, "logs/children") + TreePart(sha, root, "traces"))))
  }

  ghost function Stream(sha: string -> string, root: Node): string {
    "boundary-witness.runner-evidence-digest/0.1\0" + Parts(sha, root)
  }

  predicate HasFiles(root: Node) {
    IsFileAt(root, "findings.jsonl") && IsFileAt(root, "artifacts/observations.jsonl")
  }

  predicate MissingOrTree(root: Node, path: string) {
    Lookup(root, path).Missing? || IsDirectoryAt(root, path)
  }

  // ---- Both digests hash this stream ----

  lemma WitnessesPath()
    ensures "artifacts" + "/" + "observations.jsonl" == "artifacts/observations.jsonl"
    ensures "artifacts" + "/" + "witnesses" == "artifacts/witnesses"
  {
  }

  lemma ChildrenPath()
    ensures "logs" + "/" + "children" == "logs/children"
  {
  }

  lemma EvidencePaths()
    ensures EVIDENCE.findings == "findings.jsonl" && EVIDENCE.ObservationsPath() == "artifacts/observations.jsonl"
    ensures EVIDENCE.Roots() == ["artifacts/witnesses", "logs/children", "traces"]
  {
    WitnessesPath();
    ChildrenPath();
  }

  lemma HeaderSpelled()
    ensures EVIDENCE.header == "boundary-witness.runner-evidence-digest/0.1\0"
  {
  }

  lemma {:induction false} FilePartsAreEncoded(sha: string -> string, records: seq<Record>)
    ensures FileParts(sha, records) == Encode(sha, records)
  {
    if records != [] { FilePartsAreEncoded(sha, records[1..]); }
  }

  lemma CuratorTree(sha: string -> string, root: Node, files: map<string, string>, directories: set<string>, path: string)
    requires DigestAgreement.Describes("checksums.sha256", root, files, directories) && WellNamed(root) && Clean(root)
    ensures Curator.HashedTree(sha, files, directories, path) == TreePart(sha, root, path)
  {
    ChecksumsArePlain();
    if IsDirectoryAt(root, path) {
      var node := Lookup(root, path).node;
      CuratorListsTree(sha, "checksums.sha256", root, files, directories, path, node);
      FilePartsAreEncoded(sha, FilesAt(path, node));
    } else {
      forall below | below in files ensures !(path + "/" <= below) {
        if path + "/" <= below {
          assert below == path + "/" + below[|path + "/"|..];
          LookupBelow(root, path, below[|path + "/"|..]);
        }
      }
    }
  }

  /**
   * Whatever the two path sets hold, described by a tree or not: the curator marks a root absent exactly if it is not
   * listed as a directory and no file lies below it, and present otherwise.
   */
  lemma CuratorAbsentIff(sha: string -> string, files: map<string, string>, directories: set<string>, path: string)
    ensures
      var part, tag := Curator.HashedTree(sha, files, directories, path), "T" + path + "\0";
      && (part == tag + "absent" <==> path !in directories && forall file <- files :: !(path + "/" <= file))
      && (part == tag + "absent" || tag + "present" <= part)
  {
    var part, tag := Curator.HashedTree(sha, files, directories, path), "T" + path + "\0";
    if path in directories || exists file <- files :: path + "/" <= file {
      ConcatAssociates(tag, "present", Curator.HashedDirectory(sha, files, directories, path));
      assert (tag + "present")[|tag|] == 'p' && (tag + "absent")[|tag|] == 'a';
      assert part == (tag + "present") + Curator.HashedDirectory(sha, files, directories, path);
    }
  }

  lemma TwoFilesAndTrees(a: string, b: string, c: string, d: string, e: string)
    ensures (a + b) + (c + (d + (e + ""))) == a + (b + (c + (d + e)))
  {
    assert e + "" == e;
    ConcatAssociates(a, b, c + (d + e));
  }

  lemma ThreeRoots(p: string, q: string, r: string)
    ensures [p, q, r][1..] == [q, r] && [q, r][1..] == [r] && [r][1..] == []
  {
  }

  lemma CuratorThree(sha: string -> string, files: map<string, string>, directories: set<string>, p: string, q: string, r: string)
    ensures Curator.HashedTrees(sha, files, directories, [p, q, r])
      == Curator.HashedTree(sha, files, directories, p)
         + (Curator.HashedTree(sha, files, directories, q) + (Curator.HashedTree(sha, files, directories, r) + ""))
  {
    ThreeRoots(p, q, r);
    assert Curator.HashedTrees(sha, files, directories, [r]) == Curator.HashedTree(sha, files, directories, r) + "";
    assert Curator.HashedTrees(sha, files, directories, [q, r])
        == Curator.HashedTree(sha, files, directories, q) + Curator.HashedTrees(sha, files, directories, [r]);
  }

  lemma RunnerThree(sha: string -> string, root: Node, p: string, q: string, r: string)
    ensures Runner.HashedTrees(sha, root, [p, q, r])
      == Then(Runner.HashedTree(sha, root, p),
              Then(Runner.HashedTree(sha, root, q), Then(Runner.HashedTree(sha, root, r), Some(""))))
  {
    ThreeRoots(p, q, r);
    assert Runner.HashedTrees(sha, root, [r]) == Then(Runner.HashedTree(sha, root, r), Some(""));
    assert Runner.HashedTrees(sha, root, [q, r])
        == Then(Runner.HashedTree(sha, root, q), Runner.HashedTrees(sha, root, [r]));
  }

  lemma CuratorTrees(sha: string -> string, root: Node, files: map<string, string>, directories: set<string>)
    requires DigestAgreement.Describes("checksums.sha256", root, files, directories) && WellNamed(root) && Clean(root)
    ensures Curator.HashedTrees(sha, files, directories, EVIDENCE.Roots())
      == TreePart(sha, root, "artifacts/witnesses") + (TreePart(sha, root, "logs/children") + (TreePart(sha, root, "traces") + ""))
  {
    EvidencePaths();
    CuratorTree(sha, root, files, directories, "artifacts/witnesses");
    CuratorTree(sha, root, files, directories, "logs/children");
    CuratorTree(sha, root, files, directories, "traces");
    CuratorThree(sha, files, directories, "artifacts/witnesses", "logs/children", "traces");
  }

  lemma CuratorFile(sha: string -> string, root: Node, files: map<string, string>, directories: set<string>, path: string)
    requires DigestAgreement.Describes("checksums.sha256", root, files, directories) && path != "checksums.sha256"
    ensures Curator.HashedFile(sha, files, path)
      == if IsFileAt(root, path) then Some(FilePart(sha, path, Contents(root, path))) else None
  {
  }

  lemma NotChecksums()
    ensures "findings.jsonl" != "checksums.sha256" && "artifacts/observations.jsonl" != "checksums.sha256"
  {
    assert "findings.jsonl"[0] != "checksums.sha256"[0];
    assert "artifacts/observations.jsonl"[0] != "checksums.sha256"[0];
  }

  /** The curator hashes exactly this stream, of every clean run that has the two files. */
  lemma CuratorStreamSpelled(sha: string -> string, root: Node, files: map<string, string>, directories: set<string>)
    requires DigestAgreement.Describes("checksums.sha256", root, files, directories) && WellNamed(root) && Clean(root)
    ensures Curator.HashedRun(sha, files, directories, EVIDENCE) == if HasFiles(root) then Some(Stream(sha, root)) else None
  {
    EvidencePaths();
    HeaderSpelled();
    NotChecksums();
    CuratorFile(sha, root, files, directories, "findings.jsonl");
    CuratorFile(sha, root, files, directories, "artifacts/observations.jsonl");
    CuratorTrees(sha, root, files, directories);
    TwoFilesAndTrees(FilePart(sha, "findings.jsonl", Contents(root, "findings.jsonl")),
                     FilePart(sha, "artifacts/observations.jsonl", Contents(root, "artifacts/observations.jsonl")),
                     TreePart(sha, root, "artifacts/witnesses"), TreePart(sha, root, "logs/children"),
                     TreePart(sha, root, "traces"));
  }

  lemma RunnerTree(sha: string -> string, root: Node, path: string)
    requires WellNamed(root) && Clean(root)
    ensures Runner.HashedTree(sha, root, path) == if MissingOrTree(root, path) then Some(TreePart(sha, root, path)) else None
  {
    if IsDirectoryAt(root, path) {
      var node := Lookup(root, path).node;
      RunnerListsTree(sha, root, path, node);
      FilePartsAreEncoded(sha, FilesAt(path, node));
      ConcatAssociates(TreeTag(path), PRESENT, Encode(sha, FilesAt(path, node)));
    }
  }

  lemma RunnerTrees(sha: string -> string, root: Node)
    requires WellNamed(root) && Clean(root)
    ensures Runner.HashedTrees(sha, root, EVIDENCE.Roots())
      == if MissingOrTree(root, "artifacts/witnesses") && MissingOrTree(root, "logs/children") && MissingOrTree(root, "traces")
         then Some(TreePart(sha, root, "artifacts/witnesses")
                   + (TreePart(sha, root, "logs/children") + (TreePart(sha, root, "traces") + "")))
         else None
  {
    EvidencePaths();
    RunnerTree(sha, root, "artifacts/witnesses");
    RunnerTree(sha, root, "logs/children");
    RunnerTree(sha, root, "traces");
    RunnerThree(sha, root, "artifacts/witnesses", "logs/children", "traces");
  }

  lemma RunnerFile(sha: string -> string, root: Node, path: string)
    ensures Runner.HashedFile(sha, root, path)
      == if IsFileAt(root, path) then Some(FilePart(sha, path, Contents(root, path))) else None
  {
  }

  /** The runner hashes the same stream, if besides no evidence root is a file or lies below one. */
  lemma RunnerStreamSpelled(sha: string -> string, root: Node)
    requires WellNamed(root) && Clean(root)
    ensures Runner.HashedRun(sha, root, EVIDENCE)
      == if && HasFiles(root) && MissingOrTree(root, "artifacts/witnesses") && MissingOrTree(root, "logs/children")
            && MissingOrTree(root, "traces")
         then Some(Stream(sha, root)) else None
  {
    EvidencePaths();
    HeaderSpelled();
    RunnerFile(sha, root, "findings.jsonl");
    RunnerFile(sha, root, "artifacts/observations.jsonl");
    RunnerTrees(sha, root);
    TwoFilesAndTrees(FilePart(sha, "findings.jsonl", Contents(root, "findings.jsonl")),
                     FilePart(sha, "artifacts/observations.jsonl", Contents(root, "artifacts/observations.jsonl")),
                     TreePart(sha, root, "artifacts/witnesses"), TreePart(sha, root, "logs/children"),
                     TreePart(sha, root, "traces"));
  }

  /**
   * A name with a backslash is not hashed as itself: what the runner hashes is the file at the path with slashes in its
   * place, and it fails if there is none.
   */
  lemma BackslashReadsElsewhere(sha: string -> string, root: Node, path: string, slashed: string, bytes: string)
    requires |slashed| == |path| && forall k :: 0 <= k < |path| ==> slashed[k] == if path[k] == '\\' then '/' else path[k]
    ensures Runner.HashedEntry(sha, root, path, File(bytes))
      == if IsFileAt(root, slashed) then Some(FilePart(sha, slashed, Contents(root, slashed))) else None
  {
    assert Runner.Slashed(path) == slashed;
  }

  // ---- What equal streams share ----

  /** Both runs have the file below the directory, with the same hash, or neither has it. */
  ghost predicate SameBelow(sha: string -> string, a: Node, b: Node, directory: string, rest: string) {
    var path := directory + "/" + rest;
    && (IsFileAt(a, path) <==> IsFileAt(b, path))
    && (IsFileAt(a, path) ==> sha(Contents(a, path)) == sha(Contents(b, path)))
  }

  /** Both runs have the directory, with the same files and file hashes below it, or neither has it. */
  ghost predicate SameDirectory(sha: string -> string, a: Node, b: Node, path: string) {
    && (IsDirectoryAt(a, path) <==> IsDirectoryAt(b, path))
    && forall rest :: SameBelow(sha, a, b, path, rest)
  }

  ghost predicate SameEvidence(sha: string -> string, a: Node, b: Node) {
    && sha(Contents(a, "findings.jsonl")) == sha(Contents(b, "findings.jsonl"))
    && sha(Contents(a, "artifacts/observations.jsonl")) == sha(Contents(b, "artifacts/observations.jsonl"))
    && SameDirectory(sha, a, b, "artifacts/witnesses") && SameDirectory(sha, a, b, "logs/children")
    && SameDirectory(sha, a, b, "traces")
  }

  /** The records with the hashes in place of the contents. */
  function Hashed(sha: string -> string, records: seq<Record>): seq<Record> {
    seq(|records|, i requires 0 <= i < |records| => Record(records[i].path, sha(records[i].bytes)))
  }

  lemma {:induction false} HashedDecides(sha: string -> string, a: seq<Record>, b: seq<Record>)
    requires Hashed(sha, a) == Hashed(sha, b)
    ensures Encode(sha, a) == Encode(sha, b)
  {
    assert |a| == |Hashed(sha, a)| == |b|;
    if a != [] {
      assert Hashed(sha, a)[0] == Hashed(sha, b)[0];
      assert Hashed(sha, a[1..]) == Hashed(sha, a)[1..] && Hashed(sha, b[1..]) == Hashed(sha, b)[1..];
      HashedDecides(sha, a[1..], b[1..]);
    }
  }

  lemma {:induction false} EntriesDecide(sha: string -> string, a: seq<Record>, b: seq<Record>)
    requires Entries(sha, a) == Entries(sha, b)
    ensures Hashed(sha, a) == Hashed(sha, b)
  {
    if a != [] && b != [] {
      assert Entries(sha, a)[0] == Entries(sha, b)[0] && Entries(sha, a)[1..] == Entries(sha, b)[1..];
      EntriesDecide(sha, a[1..], b[1..]);
      assert Hashed(sha, a) == [Hashed(sha, a)[0]] + Hashed(sha, a[1..]);
      assert Hashed(sha, b) == [Hashed(sha, b)[0]] + Hashed(sha, b[1..]);
    }
  }

  /** A hashed record of the listing is a file below the directory. */
  lemma ListedBelow(sha: string -> string, root: Node, path: string, record: Record)
    requires WellNamed(root) && IsDirectoryAt(root, path)
    ensures record in Hashed(sha, FilesAt(path, Lookup(root, path).node)) <==>
      && path + "/" <= record.path && IsFileAt(root, record.path) && record.bytes == sha(Contents(root, record.path))
  {
    var node := Lookup(root, path).node;
    var files := FilesAt(path, node);
    FoundIsGood(root, path);
    ListsFilesAt(path, node);
    if record in Hashed(sha, files) {
      var i :| 0 <= i < |files| && Hashed(sha, files)[i] == record;
      assert Holds(path, node, files[i]);
      assert record.path == path + "/" + record.path[|path + "/"|..];
      LookupBelow(root, path, record.path[|path + "/"|..]);
    }
    if path + "/" <= record.path && IsFileAt(root, record.path) && record.bytes == sha(Contents(root, record.path)) {
      assert record.path == path + "/" + record.path[|path + "/"|..];
      LookupBelow(root, path, record.path[|path + "/"|..]);
      var file := Record(record.path, Contents(root, record.path));
      assert Holds(path, node, file);
      var i :| 0 <= i < |files| && files[i] == file;
      assert Hashed(sha, files)[i] == record;
    }
  }

  lemma NothingBelow(root: Node, path: string, rest: string)
    requires !IsDirectoryAt(root, path)
    ensures !IsFileAt(root, path + "/" + rest)
  {
    LookupBelow(root, path, rest);
  }

  lemma HashedSorted(sha: string -> string, root: Node, path: string)
    requires WellNamed(root) && IsDirectoryAt(root, path)
    ensures TreeSorted(Hashed(sha, FilesAt(path, Lookup(root, path).node)))
  {
    FoundIsGood(root, path);
    SortedFilesAt(path, Lookup(root, path).node);
  }

  lemma ListedElsewhere(sha: string -> string, a: Node, b: Node, path: string, record: Record)
    requires WellNamed(a) && WellNamed(b) && SameDirectory(sha, a, b, path) && IsDirectoryAt(a, path)
    requires record in Hashed(sha, FilesAt(path, Lookup(a, path).node))
    ensures record in Hashed(sha, FilesAt(path, Lookup(b, path).node))
  {
    ListedBelow(sha, a, path, record);
    ListedBelow(sha, b, path, record);
    assert record.path == path + "/" + record.path[|path + "/"|..];
    assert SameBelow(sha, a, b, path, record.path[|path + "/"|..]);
  }

  lemma SameListing(sha: string -> string, a: Node, b: Node, path: string)
    requires WellNamed(a) && WellNamed(b) && SameDirectory(sha, a, b, path) && IsDirectoryAt(a, path)
    ensures Hashed(sha, FilesAt(path, Lookup(a, path).node)) == Hashed(sha, FilesAt(path, Lookup(b, path).node))
  {
    var listA, listB := Hashed(sha, FilesAt(path, Lookup(a, path).node)), Hashed(sha, FilesAt(path, Lookup(b, path).node));
    SameDirectorySymmetric(sha, a, b, path);
    forall record ensures record in listA <==> record in listB {
      if record in listA { ListedElsewhere(sha, a, b, path, record); }
      if record in listB { ListedElsewhere(sha, b, a, path, record); }
    }
    HashedSorted(sha, a, path);
    HashedSorted(sha, b, path);
    ListingIsUnique(listA, listB);
  }

  lemma SameDirectorySymmetric(sha: string -> string, a: Node, b: Node, path: string)
    requires SameDirectory(sha, a, b, path)
    ensures SameDirectory(sha, b, a, path)
  {
    forall rest ensures SameBelow(sha, b, a, path, rest) { assert SameBelow(sha, a, b, path, rest); }
  }

  lemma SameListingMeans(sha: string -> string, a: Node, b: Node, path: string)
    requires WellNamed(a) && WellNamed(b) && IsDirectoryAt(a, path) && IsDirectoryAt(b, path)
    requires Hashed(sha, FilesAt(path, Lookup(a, path).node)) == Hashed(sha, FilesAt(path, Lookup(b, path).node))
    ensures SameDirectory(sha, a, b, path)
  {
    forall rest ensures SameBelow(sha, a, b, path, rest) {
      var below := path + "/" + rest;
      var inA, inB := Record(below, sha(Contents(a, below))), Record(below, sha(Contents(b, below)));
      ListedBelow(sha, a, path, inA);
      ListedBelow(sha, b, path, inA);
      ListedBelow(sha, a, path, inB);
      ListedBelow(sha, b, path, inB);
      assert path + "/" <= below;
    }
  }

  lemma SamePart(sha: string -> string, a: Node, b: Node, path: string)
    requires WellNamed(a) && WellNamed(b) && SameDirectory(sha, a, b, path)
    ensures TreePart(sha, a, path) == TreePart(sha, b, path)
  {
    if IsDirectoryAt(a, path) {
      SameListing(sha, a, b, path);
      HashedDecides(sha, FilesAt(path, Lookup(a, path).node), FilesAt(path, Lookup(b, path).node));
      FilePartsAreEncoded(sha, FilesAt(path, Lookup(a, path).node));
      FilePartsAreEncoded(sha, FilesAt(path, Lookup(b, path).node));
    }
  }

  lemma PartForm(sha: string -> string, root: Node, path: string, rest: string)
    ensures TreePart(sha, root, path) + rest
      == TreeTag(path) + if IsDirectoryAt(root, path)
                         then "present" + (Encode(sha, FilesAt(path, Lookup(root, path).node)) + rest) else "absent" + rest
  {
    if IsDirectoryAt(root, path) {
      FilePartsAreEncoded(sha, FilesAt(path, Lookup(root, path).node));
    }
  }

  /** Where two streams continue with a tree, the trees are the same, and so is what follows. */
  lemma PartSplits(sha: string -> string, a: Node, b: Node, path: string, x: string, y: string)
    requires FixedLength(sha) && WellNamed(a) && WellNamed(b) && EndOrTree(x) && EndOrTree(y)
    requires TreePart(sha, a, path) + x == TreePart(sha, b, path) + y
    ensures SameDirectory(sha, a, b, path) && x == y
  {
    PartForm(sha, a, path, x);
    PartForm(sha, b, path, y);
    var tailA := if IsDirectoryAt(a, path) then "present" + (Encode(sha, FilesAt(path, Lookup(a, path).node)) + x) else "absent" + x;
    var tailB := if IsDirectoryAt(b, path) then "present" + (Encode(sha, FilesAt(path, Lookup(b, path).node)) + y) else "absent" + y;
    SameStart(TreeTag(path), tailA, TreeTag(path), tailB);
    assert tailA[0] == (if IsDirectoryAt(a, path) then 'p' else 'a') && tailB[0] == (if IsDirectoryAt(b, path) then 'p' else 'a');
    if IsDirectoryAt(a, path) {
      var filesA, filesB := FilesAt(path, Lookup(a, path).node), FilesAt(path, Lookup(b, path).node);
      SameStart("present", Encode(sha, filesA) + x, "present", Encode(sha, filesB) + y);
      FilesAreZeroFree(a, path);
      FilesAreZeroFree(b, path);
      RecordsSplit(sha, filesA, x, filesB, y);
      EntriesDecide(sha, filesA, filesB);
      SameListingMeans(sha, a, b, path);
    } else {
      SameStart("absent", x, "absent", y);
      forall rest ensures SameBelow(sha, a, b, path, rest) {
        NothingBelow(a, path, rest);
        NothingBelow(b, path, rest);
      }
    }
  }

  lemma FilePartSplits(sha: string -> string, path: string, a: string, x: string, b: string, y: string)
    requires FixedLength(sha) && FilePart(sha, path, a) + x == FilePart(sha, path, b) + y
    ensures sha(a) == sha(b) && x == y
  {
    SameStart(FilePart(sha, path, a), x, FilePart(sha, path, b), y);
    SameStart("F" + path + "\0", sha(a), "F" + path + "\0", sha(b));
  }

  lemma StartsWithTag(sha: string -> string, root: Node, path: string, rest: string)
    ensures EndOrTree(TreePart(sha, root, path) + rest) && EndOrTree(TreePart(sha, root, path))
  {
    assert TreePart(sha, root, path)[0] == 'T';
  }

  lemma TreesSplitThree(sha: string -> string, a: Node, b: Node)
    requires FixedLength(sha) && WellNamed(a) && WellNamed(b)
    requires
      TreePart(sha, a, "artifacts/witnesses") + (TreePart(sha, a, "logs/children") + TreePart(sha, a, "traces"))
        == TreePart(sha, b, "artifacts/witnesses") + (TreePart(sha, b, "logs/children") + TreePart(sha, b, "traces"))
    ensures SameDirectory(sha, a, b, "artifacts/witnesses") && SameDirectory(sha, a, b, "logs/children")
    ensures SameDirectory(sha, a, b, "traces")
  {
    StartsWithTag(sha, a, "logs/children", TreePart(sha, a, "traces"));
    StartsWithTag(sha, b, "logs/children", TreePart(sha, b, "traces"));
    StartsWithTag(sha, a, "traces", "");
    StartsWithTag(sha, b, "traces", "");
    PartSplits(sha, a, b, "artifacts/witnesses", TreePart(sha, a, "logs/children") + TreePart(sha, a, "traces"),
               TreePart(sha, b, "logs/children") + TreePart(sha, b, "traces"));
    PartSplits(sha, a, b, "logs/children", TreePart(sha, a, "traces"), TreePart(sha, b, "traces"));
    assert TreePart(sha, a, "traces") + "" == TreePart(sha, a, "traces");
    assert TreePart(sha, b, "traces") + "" == TreePart(sha, b, "traces");
    PartSplits(sha, a, b, "traces", "", "");
  }

  lemma PartsSplit(sha: string -> string, a: Node, b: Node)
    requires FixedLength(sha) && WellNamed(a) && WellNamed(b) && Parts(sha, a) == Parts(sha, b)
    ensures SameEvidence(sha, a, b)
  {
    var treesA := TreePart(sha, a, "artifacts/witnesses") + (TreePart(sha, a, "logs/children") + TreePart(sha, a, "traces"));
    var treesB := TreePart(sha, b, "artifacts/witnesses") + (TreePart(sha, b, "logs/children") + TreePart(sha, b, "traces"));
    FilePartSplits(sha, "findings.jsonl", Contents(a, "findings.jsonl"),
                   FilePart(sha, "artifacts/observations.jsonl", Contents(a, "artifacts/observations.jsonl")) + treesA,
                   Contents(b, "findings.jsonl"),
                   FilePart(sha, "artifacts/observations.jsonl", Contents(b, "artifacts/observations.jsonl")) + treesB);
    FilePartSplits(sha, "artifacts/observations.jsonl", Contents(a, "artifacts/observations.jsonl"), treesA,
                   Contents(b, "artifacts/observations.jsonl"), treesB);
    TreesSplitThree(sha, a, b);
  }

  /** Two runs have the same stream exactly if they have the same evidence, up to the hashes of the files. */
  lemma StreamIffEvidence(sha: string -> string, a: Node, b: Node)
    requires FixedLength(sha) && WellNamed(a) && WellNamed(b)
    ensures Stream(sha, a) == Stream(sha, b) <==> SameEvidence(sha, a, b)
  {
    if Stream(sha, a) == Stream(sha, b) {
      var header := "boundary-witness.runner-evidence-digest/0.1\0";
      SameStart(header, Parts(sha, a), header, Parts(sha, b));
      PartsSplit(sha, a, b);
    }
    if SameEvidence(sha, a, b) {
      SamePart(sha, a, b, "artifacts/witnesses");
      SamePart(sha, a, b, "logs/children");
      SamePart(sha, a, b, "traces");
    }
  }
}
