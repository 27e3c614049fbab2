/** A run directory as a finite tree, and its flattening into sorted path sets. */
module RunTree {
  import opened Paths

  /** `Special` stands for every entry that is neither a regular file nor a directory. */
  datatype Node = File(bytes: string) | Dir(entries: map<string, Node>) | Special

  /** What asking the file system for a path below a directory answers. */
  datatype Answer = Found(node: Node) | Missing | NotADirectory

  function Lookup(node: Node, path: string): Answer
    decreases |path|
  {
    var i := FirstSlash(path);
    if !node.Dir? then NotADirectory
    else if path[..i] !in node.entries then Missing
    else if i == |path| then Found(node.entries[path[..i]])
    else Lookup(node.entries[path[..i]], path[i + 1..])
  }

  /** Every name is what a file system allows as one. */
  ghost predicate WellNamed(node: Node) {
    node.Dir? ==> forall name <- node.entries ::
      name != "" && '/' !in name && '\0' !in name && WellNamed(node.entries[name])
  }

  /** Nothing below is special and no name holds a backslash. */
  ghost predicate Clean(node: Node) {
    !node.Special? && (node.Dir? ==> forall name <- node.entries :: '\\' !in name && Clean(node.entries[name]))
  }

  /** Looking a longer path up goes on where its front part ends. */
  lemma {:induction false} LookupBelow(node: Node, directory: string, rest: string)
    ensures Lookup(node, directory + "/" + rest)
         == (var answer := Lookup(node, directory); if answer.Found? then Lookup(answer.node, rest) else answer)
    decreases |directory|
  {
    var i := FirstSlash(directory);
    var path := directory + "/" + rest;
    if i == |directory| {
      SlashAfterName(directory, rest);
      assert path[..i] == directory && path[i + 1..] == rest;
    } else {
      SlashAfterName(directory[..i], directory[i + 1..] + "/" + rest);
      assert directory == directory[..i] + "/" + directory[i + 1..];
      assert path == directory[..i] + "/" + (directory[i + 1..] + "/" + rest);
      assert path[i + 1..] == directory[i + 1..] + "/" + rest;
      if node.Dir? && directory[..i] in node.entries {
        LookupBelow(node.entries[directory[..i]], directory[i + 1..], rest);
      }
    }
  }

  lemma {:induction false} FoundIsGood(node: Node, path: string)
    requires Lookup(node, path).Found?
    ensures WellNamed(node) ==> WellNamed(Lookup(node, path).node) && '\0' !in path
    ensures Clean(node) ==> Clean(Lookup(node, path).node) && '\\' !in path
    decreases |path|
  {
    var i := FirstSlash(path);
    if i < |path| {
      FoundIsGood(node.entries[path[..i]], path[i + 1..]);
      assert path == path[..i] + "/" + path[i + 1..];
    } else {
      assert path == path[..i];
    }
  }

  // ---- Flattening ----

  datatype EntryKind = Directory | RegularFile

  predicate IsKind(node: Node, kind: EntryKind) {
    if kind.Directory? then node.Dir? else node.File?
  }

  /** `path` names an entry of that kind below the directory whose paths start with the prefix. */
  predicate LiesBelow(kind: EntryKind, prefix: string, node: Node, path: string) {
    prefix <= path && var answer := Lookup(node, path[|prefix|..]); answer.Found? && IsKind(answer.node, kind)
  }

  /** `path` goes through the named entry of the directory whose paths start with the prefix. */
  predicate Through(prefix: string, name: string, path: string) {
    prefix <= path && FirstComponent(path[|prefix|..]) == name
  }

  lemma ThroughIff(prefix: string, name: string, path: string)
    requires '/' !in name
    ensures Through(prefix, name, path) <==> path == prefix + name || prefix + name + "/" <= path
  {
    if Through(prefix, name, path) {
      SplitThrough(prefix, name, path);
    }
    if prefix + name + "/" <= path {
      var rest := path[|prefix + name + "/"|..];
      assert path == prefix + (name + "/" + rest);
      assert path[|prefix|..] == name + "/" + rest;
      SlashAfterName(name, rest);
    } else if path == prefix + name {
      assert path[|prefix|..] == name;
      SlashAfterName(name, "");
    }
  }

  lemma SplitThrough(prefix: string, name: string, path: string)
    requires Through(prefix, name, path)
    ensures path == prefix + name || prefix + name + "/" <= path
  {
    var below := path[|prefix|..];
    assert path == prefix + below;
    if |name| < |below| {
      assert below == name + "/" + below[|name| + 1..];
      assert path == prefix + name + "/" + below[|name| + 1..];
    } else {
      assert below == name;
    }
  }

  /** What lies below a directory through one of its entries is that entry or lies below it. */
  lemma BelowEntry(kind: EntryKind, prefix: string, node: Node, name: string, path: string)
    requires node.Dir? && name in node.entries && '/' !in name
    ensures
      LiesBelow(kind, prefix, node, path) && Through(prefix, name, path) <==>
        (path == prefix + name && IsKind(node.entries[name], kind))
        || LiesBelow(kind, prefix + name + "/", node.entries[name], path)
  {
    ThroughIff(prefix, name, path);
    if path == prefix + name {
      assert path[|prefix|..] == name;
      SlashAfterName(name, "");
    } else if prefix + name + "/" <= path {
      var rest := path[|prefix + name + "/"|..];
      assert path == prefix + (name + "/" + rest);
      assert path[|prefix|..] == name + "/" + rest;
      SlashAfterName(name, rest);
    }
  }

  /** The listing gained exactly the paths of that kind below the directory. */
  ghost predicate GainsBelow(kind: EntryKind, now: set<string>, before: set<string>, prefix: string, node: Node) {
    forall path :: path in now <==> path in before || LiesBelow(kind, prefix, node, path)
  }

  /** The listing gained exactly those of them that go through one of the named entries. */
  ghost predicate GainsThrough(kind: EntryKind, now: set<string>, before: set<string>, prefix: string, node: Node, names: seq<string>) {
    forall path :: path in now <==>
      path in before || (LiesBelow(kind, prefix, node, path) && ThroughSome(prefix, names, path))
  }

  predicate ThroughSome(prefix: string, names: seq<string>, path: string) {
    prefix <= path && FirstComponent(path[|prefix|..]) in names
  }

  lemma GainsEntry(kind: EntryKind, now: set<string>, before: set<string>, prefix: string, node: Node, name: string)
    requires node.Dir? && name in node.entries && '/' !in name
    requires
      var entry := node.entries[name];
      GainsBelow(kind, now, if IsKind(entry, kind) then before + {prefix + name} else before, prefix + name + "/", entry)
    ensures GainsThrough(kind, now, before, prefix, node, [name])
  {
    forall path
      ensures path in now <==> path in before || (LiesBelow(kind, prefix, node, path) && ThroughSome(prefix, [name], path))
    {
      BelowEntry(kind, prefix, node, name, path);
    }
  }

  lemma GainsMore(kind: EntryKind, now: set<string>, mid: set<string>, before: set<string>, prefix: string, node: Node,
                  names: seq<string>, name: string)
    requires GainsThrough(kind, mid, before, prefix, node, names) && GainsThrough(kind, now, mid, prefix, node, [name])
    ensures GainsThrough(kind, now, before, prefix, node, names + [name])
  {
    forall path
      ensures path in now <==>
        path in before || (LiesBelow(kind, prefix, node, path) && ThroughSome(prefix, names + [name], path))
    {
      assert ThroughSome(prefix, names + [name], path) <==>
        ThroughSome(prefix, names, path) || ThroughSome(prefix, [name], path);
    }
  }

  lemma GainsAll(kind: EntryKind, now: set<string>, before: set<string>, prefix: string, node: Node, names: seq<string>)
    requires node.Dir? && forall name :: name in names <==> name in node.entries
    requires GainsThrough(kind, now, before, prefix, node, names)
    ensures GainsBelow(kind, now, before, prefix, node)
  {
  }

  /** Fills two path sets while walking a directory tree. */
  class Collector {
    var files: set<string>
    var directories: set<string>

    constructor ()
      ensures files == {} && directories == {}
    {
      files, directories := {}, {};
    }

    /** Fails on special entries and backslashes, and otherwise adds every path below the directory. */
    method Collect(node: Node, prefix: string) returns (ok: bool)
      requires node.Dir? && WellNamed(node)
      modifies this
      ensures ok <==> Clean(node)
      ensures ok ==> GainsBelow(RegularFile, files, old(files), prefix, node)
      ensures ok ==> GainsBelow(Directory, directories, old(directories), prefix, node)
      decreases node, 1
    {
      var names := SortNames(node.entries.Keys);
      for k := 0 to |names|
        invariant forall i :: 0 <= i < k ==> '\\' !in names[i] && Clean(node.entries[names[i]])
        invariant GainsThrough(RegularFile, files, old(files), prefix, node, names[..k])
        invariant GainsThrough(Directory, directories, old(directories), prefix, node, names[..k])
      {
        ghost var filesBefore, directoriesBefore := files, directories;
        var entryOk := CollectEntry(node, prefix, names[k]);
        if !entryOk { return false; }
        assert names[..k + 1] == names[..k] + [names[k]];
        GainsMore(RegularFile, files, filesBefore, old(files), prefix, node, names[..k], names[k]);
        GainsMore(Directory, directories, directoriesBefore, old(directories), prefix, node, names[..k], names[k]);
      }
      assert names[..|names|] == names;
      GainsAll(RegularFile, files, old(files), prefix, node, names);
      GainsAll(Directory, directories, old(directories), prefix, node, names);
      return true;
    }

    method CollectEntry(node: Node, prefix: string, name: string) returns (ok: bool)
      requires node.Dir? && WellNamed(node) && name in node.entries
      modifies this
      ensures ok <==> '\\' !in name && Clean(node.entries[name])
      ensures ok ==> GainsThrough(RegularFile, files, old(files), prefix, node, [name])
      ensures ok ==> GainsThrough(Directory, directories, old(directories), prefix, node, [name])
      decreases node, 0
    {
      if '\\' in name { return false; }
      var entry := node.entries[name];
      match entry {
        case Special => return false;
        case File(_) => files := files + {prefix + name};
        case Dir(_) =>
          directories := directories + {prefix + name};
          var below := Collect(entry, prefix + name + "/");
          if !below { return false; }
      }
      GainsEntry(RegularFile, files, old(files), prefix, node, name);
      GainsEntry(Directory, directories, old(directories), prefix, node, name);
      return true;
    }
  }
}
