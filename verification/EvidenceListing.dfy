/** What the hashed listing of a tree is, independently of how it is walked: every file once, in component order. */
module EvidenceListing {
  import opened Paths
  import opened RunTree
  import opened EvidenceStream

  // ---- Component order ----

  function Rank(c: char): int {
    if c == '/' then -1 else c as int
  }

  /** Paths compared component by component: like strings, but with the separator below every other byte. */
  predicate TreeLess(a: string, b: string) {
    b != "" && (a == "" || Rank(a[0]) < Rank(b[0]) || (a[0] == b[0] && TreeLess(a[1..], b[1..])))
  }

  lemma {:induction false} TreeLessAsymmetric(a: string, b: string)
    requires TreeLess(a, b)
    ensures !TreeLess(b, a)
  {
    if a != "" && a[0] == b[0] { TreeLessAsymmetric(a[1..], b[1..]); }
  }

  lemma {:induction false} SamePrefixSameOrder(prefix: string, a: string, b: string)
    requires TreeLess(a, b)
    ensures TreeLess(prefix + a, prefix + b)
  {
    if prefix == "" {
      assert prefix + a == a && prefix + b == b;
    } else {
      SamePrefixSameOrder(prefix[1..], a, b);
      assert (prefix + a)[1..] == prefix[1..] + a && (prefix + b)[1..] == prefix[1..] + b;
    }
  }

  /** The rest of a path after a name: nothing, or a separator and more. */
  predicate IsTail(tail: string) {
    tail != "" ==> tail[0] == '/'
  }

  lemma {:induction false} NamesDecide(a: string, b: string, x: string, y: string)
    requires Less(a, b) && '/' !in a && '/' !in b && IsTail(x) && IsTail(y)
    ensures TreeLess(a + x, b + y)
  {
    if a == "" {
      assert a + x == x && (b + y)[0] == b[0];
    } else {
      assert (a + x)[0] == a[0] && (b + y)[0] == b[0];
      if a[0] == b[0] {
        NamesDecide(a[1..], b[1..], x, y);
        assert (a + x)[1..] == a[1..] + x && (b + y)[1..] == b[1..] + y;
      }
    }
  }

  ghost predicate TreeSorted(records: seq<Record>) {
    forall i, j :: 0 <= i < j < |records| ==> TreeLess(records[i].path, records[j].path)
  }

  // ---- The listing holds exactly the files ----

  /** The record is a file at or below the node. */
  ghost predicate Holds(path: string, node: Node, record: Record) {
    if record.path == path then node == File(record.bytes)
    else path + "/" <= record.path && Lookup(node, record.path[|path + "/"|..]) == Found(File(record.bytes))
  }

  /** It is one below a directory that goes through one of the names. */
  ghost predicate HoldsThrough(directory: string, node: Node, names: seq<string>, record: Record) {
    Holds(directory, node, record) && ThroughSome(directory + "/", names, record.path)
  }

  lemma HoldsThroughEntry(directory: string, node: Node, name: string, record: Record)
    requires node.Dir? && name in node.entries && '/' !in name
    ensures Holds(directory, node, record) && Through(directory + "/", name, record.path)
       <==> Holds(directory + "/" + name, node.entries[name], record)
  {
    var prefix := directory + "/";
    ThroughIff(prefix, name, record.path);
    if record.path == prefix + name {
      assert record.path[|prefix|..] == name;
      SlashAfterName(name, "");
    } else if prefix + name + "/" <= record.path {
      var rest := record.path[|prefix + name + "/"|..];
      assert record.path == prefix + (name + "/" + rest);
      assert record.path[|prefix|..] == name + "/" + rest;
      SlashAfterName(name, rest);
      LookupBelow(node, name, rest);
      assert name[..|name|] == name;
    }
  }

  lemma {:induction false} ListsFilesAt(path: string, node: Node)
    requires WellNamed(node)
    ensures forall record :: record in FilesAt(path, node) <==> Holds(path, node, record)
    decreases node, 1, 0
  {
    match node
    case File(_) =>
    case Special =>
    case Dir(entries) =>
      ListsFilesIn(path, node, SortedNames(entries.Keys));
      forall record | Holds(path, node, record) ensures HoldsThrough(path, node, SortedNames(entries.Keys), record) {
      }
  }

  lemma {:induction false} ListsFilesIn(directory: string, node: Node, names: seq<string>)
    requires WellNamed(node) && node.Dir? && forall name <- names :: name in node.entries
    ensures forall record :: record in FilesIn(directory, node, names) <==> HoldsThrough(directory, node, names, record)
    decreases node, 0, |names|
  {
    if names != [] {
      ListsFilesAt(directory + "/" + names[0], node.entries[names[0]]);
      ListsFilesIn(directory, node, names[1..]);
      forall record
        ensures record in FilesIn(directory, node, names) <==> HoldsThrough(directory, node, names, record)
      {
        HoldsThroughEntry(directory, node, names[0], record);
        assert names == [names[0]] + names[1..];
      }
    }
  }

  // ---- In component order ----

  lemma FilesStartWithNode(path: string, node: Node, record: Record)
    requires WellNamed(node) && record in FilesAt(path, node)
    ensures path <= record.path && IsTail(record.path[|path|..])
  {
    ListsFilesAt(path, node);
    assert Holds(path, node, record);
    assert record.path != path ==> path + "/" <= record.path;
  }

  lemma FilesOfLaterNames(directory: string, node: Node, names: seq<string>, record: Record)
    requires WellNamed(node) && node.Dir? && (forall name <- names :: name in node.entries)
    requires record in FilesIn(directory, node, names)
    ensures exists name <- names :: record in FilesAt(directory + "/" + name, node.entries[name])
  {
    ListsFilesIn(directory, node, names);
    var name := FirstComponent(record.path[|directory + "/"|..]);
    HoldsThroughEntry(directory, node, name, record);
    ListsFilesAt(directory + "/" + name, node.entries[name]);
  }

  lemma EntriesInOrder(directory: string, node: Node, a: string, b: string, first: Record, second: Record)
    requires WellNamed(node) && node.Dir? && a in node.entries && b in node.entries && Less(a, b)
    requires first in FilesAt(directory + "/" + a, node.entries[a])
    requires second in FilesAt(directory + "/" + b, node.entries[b])
    ensures TreeLess(first.path, second.path)
  {
    var prefix := directory + "/";
    FilesStartWithNode(prefix + a, node.entries[a], first);
    FilesStartWithNode(prefix + b, node.entries[b], second);
    var x, y := first.path[|prefix + a|..], second.path[|prefix + b|..];
    NamesDecide(a, b, x, y);
    SamePrefixSameOrder(prefix, a + x, b + y);
    assert first.path == prefix + (a + x) && second.path == prefix + (b + y);
  }

  lemma {:induction false} SortedFilesAt(path: string, node: Node)
    requires WellNamed(node)
    ensures TreeSorted(FilesAt(path, node))
    decreases node, 1, 0
  {
    if node.Dir? {
      SortedNamesSorts(node.entries.Keys);
      SortedFilesIn(path, node, SortedNames(node.entries.Keys));
    }
  }

  lemma {:induction false} SortedFilesIn(directory: string, node: Node, names: seq<string>)
    requires WellNamed(node) && node.Dir? && Sorted(names) && forall name <- names :: name in node.entries
    ensures TreeSorted(FilesIn(directory, node, names))
    decreases node, 0, |names|
  {
    if names != [] {
      var first, rest := FilesAt(directory + "/" + names[0], node.entries[names[0]]), FilesIn(directory, node, names[1..]);
      SortedFilesAt(directory + "/" + names[0], node.entries[names[0]]);
      SortedFilesIn(directory, node, names[1..]);
      forall i, j | 0 <= i < |first| && 0 <= j < |rest| ensures TreeLess(first[i].path, rest[j].path) {
        FilesOfLaterNames(directory, node, names[1..], rest[j]);
        var name :| name in names[1..] && rest[j] in FilesAt(directory + "/" + name, node.entries[name]);
        EntriesInOrder(directory, node, names[0], name, first[i], rest[j]);
      }
      SortedConcat(first, rest);
    }
  }

  lemma SortedConcat(first: seq<Record>, rest: seq<Record>)
    requires TreeSorted(first) && TreeSorted(rest)
    requires forall i, j :: 0 <= i < |first| && 0 <= j < |rest| ==> TreeLess(first[i].path, rest[j].path)
    ensures TreeSorted(first + rest)
  {
  }

  /** Component order leaves no choice: a sorted list of the same files is the listing. */
  lemma {:induction false} ListingIsUnique(a: seq<Record>, b: seq<Record>)
    requires TreeSorted(a) && TreeSorted(b) && forall record :: record in a <==> record in b
    ensures a == b
  {
    HasSome(b);
    if a != [] {
      assert a[0] in b;
      FirstsAgree(a, b);
      RestsAgree(a, b);
      RestsAgree(b, a);
      ListingIsUnique(a[1..], b[1..]);
      assert a == [a[0]] + a[1..] && b == [b[0]] + b[1..];
    }
  }

  lemma HasSome<T>(s: seq<T>)
    ensures s != [] ==> exists x :: x in s
  {
    if s != [] { assert s[0] in s; }
  }

  lemma FirstsAgree(a: seq<Record>, b: seq<Record>)
    requires TreeSorted(a) && TreeSorted(b) && a != [] && b != [] && a[0] in b && b[0] in a
    ensures a[0] == b[0]
  {
    if a[0] != b[0] {
      TreeLessAsymmetric(a[0].path, b[0].path);
    }
  }

  lemma RestsAgree(a: seq<Record>, b: seq<Record>)
    requires TreeSorted(a) && a != [] && b != [] && a[0] == b[0] && forall record :: record in a ==> record in b
    ensures forall record :: record in a[1..] ==> record in b[1..]
  {
    forall record | record in a[1..] ensures record in b[1..] {
      var k :| 0 <= k < |a[1..]| && a[1..][k] == record;
      assert a[1 + k] == record && TreeLess(a[0].path, record.path);
      TreeLessAsymmetric(a[0].path, record.path);
      assert record in a && record in b && record != b[0];
      assert b == [b[0]] + b[1..];
    }
  }

  lemma {:induction false} SamePrefixSameFlatOrder(prefix: string, a: string, b: string)
    requires Less(a, b)
    ensures Less(prefix + a, prefix + b)
  {
    if prefix == "" {
      assert prefix + a == a && prefix + b == b;
    } else {
      SamePrefixSameFlatOrder(prefix[1..], a, b);
      assert (prefix + a)[1..] == prefix[1..] + a && (prefix + b)[1..] == prefix[1..] + b;
    }
  }

  /** Flat string order is not component order: a directory `d` and a file `d.x` beside it swap places. */
  lemma FlatOrderDiffers(directory: string, inside: string, suffix: string)
    ensures TreeLess(directory + ("/" + inside), directory + ("." + suffix))
    ensures Less(directory + ("." + suffix), directory + ("/" + inside))
  {
    SamePrefixSameOrder(directory, "/" + inside, "." + suffix);
    SamePrefixSameFlatOrder(directory, "." + suffix, "/" + inside);
  }
}
