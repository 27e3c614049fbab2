/** The bytes fed to the hash over a run's evidence. */
module EvidenceStream {
  import opened Support
  import opened Paths
  import opened RunTree
  import opened RunLayout

  const PRESENT := "present"
  const ABSENT := "absent"

  /** What one evidence file adds to the stream; `sha` is the hash of its contents. */
  function FileRecord(sha: string -> string, path: string, bytes: string): string {
    "F" + path + NUL + sha(bytes)
  }

  function TreeTag(root: string): string {
    "T" + root + NUL
  }

  function Extend(input: string, more: Option<string>): Option<string> {
    if more.Some? then Some(input + more.value) else None
  }

  function Then(first: Option<string>, second: Option<string>): Option<string> {
    if first.Some? then Extend(first.value, second) else None
  }

  lemma ExtendTwice(input: string, first: string, second: Option<string>)
    ensures Extend(input + first, second) == Extend(input, Extend(first, second))
  {
    if second.Some? { ConcatAssociates(input, first, second.value); }
  }

  /** A hash in progress: the bytes it was given so far. */
  class Hasher {
    var input: string

    constructor ()
      ensures input == ""
    {
      input := "";
    }

    method Update(bytes: string)
      modifies this
      ensures input == old(input) + bytes
    {
      input := input + bytes;
    }
  }

  /** The hasher was fed exactly these bytes, unless there are none to feed. */
  twostate predicate Fed(hasher: Hasher, ok: bool, new bytes: Option<string>)
    reads hasher
  {
    (ok <==> bytes.Some?) && (ok ==> hasher.input == old(hasher.input) + bytes.value)
  }

  method StartTree(hasher: Hasher, path: string)
    modifies hasher
    ensures hasher.input == old(hasher.input) + TreeTag(path)
  {
    hasher.Update("T");
    hasher.Update(path);
    hasher.Update(NUL);
    assert hasher.input == old(hasher.input) + TreeTag(path);
  }

  function Digested(sha: string -> string, stream: Option<string>): Option<string> {
    if stream.Some? then Some(sha(stream.value)) else None
  }

  // ---- The listing both digests are compared with ----

  datatype Record = Record(path: string, bytes: string)

  /** The files at or below a node, directories walked depth first in name order. */
  ghost function FilesAt(path: string, node: Node): seq<Record>
    decreases node, 1, 0
  {
    match node
    case File(bytes) => [Record(path, bytes)]
    case Dir(entries) => FilesIn(path, node, SortedNames(entries.Keys))
    case Special => []
  }

  ghost function FilesIn(directory: string, node: Node, names: seq<string>): seq<Record>
    requires node.Dir? && forall name <- names :: name in node.entries
    decreases node, 0, |names|
  {
    if names == [] then []
    else FilesAt(directory + "/" + names[0], node.entries[names[0]]) + FilesIn(directory, node, names[1..])
  }

  ghost function Encode(sha: string -> string, records: seq<Record>): string {
    if records == [] then "" else FileRecord(sha, records[0].path, records[0].bytes) + Encode(sha, records[1..])
  }

  lemma ConcatAssociates(a: string, b: string, c: string)
    ensures (a + b) + c == a + (b + c)
  {
  }

  lemma {:induction false} EncodeConcat(sha: string -> string, a: seq<Record>, b: seq<Record>)
    ensures Encode(sha, a + b) == Encode(sha, a) + Encode(sha, b)
  {
    if a == [] {
      assert a + b == b;
    } else {
      EncodeConcat(sha, a[1..], b);
      assert (a + b)[1..] == a[1..] + b && (a + b)[0] == a[0];
      ConcatAssociates(FileRecord(sha, a[0].path, a[0].bytes), Encode(sha, a[1..]), Encode(sha, b));
    }
  }
}
