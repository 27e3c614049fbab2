/** Relative paths as byte strings: their order, their components, and sorted listings of them. */
module Paths {

  // ---- The order of strings ----

  /** Byte-wise lexicographic order. */
  predicate Less(a: string, b: string) {
    b != "" && (a == "" || a[0] < b[0] || (a[0] == b[0] && Less(a[1..], b[1..])))
  }

  lemma {:induction false} LessIrreflexive(a: string)
    ensures !Less(a, a)
  {
    if a != "" { LessIrreflexive(a[1..]); }
  }

  lemma {:induction false} LessTransitive(a: string, b: string, c: string)
    requires Less(a, b) && Less(b, c)
    ensures Less(a, c)
  {
    if a != "" && a[0] == b[0] == c[0] { LessTransitive(a[1..], b[1..], c[1..]); }
  }

  lemma {:induction false} LessTotal(a: string, b: string)
    ensures a == b || Less(a, b) || Less(b, a)
  {
    if a != "" && b != "" && a[0] == b[0] {
      LessTotal(a[1..], b[1..]);
      assert a == [a[0]] + a[1..] && b == [b[0]] + b[1..];
    }
  }

  /** Nothing that starts with a string comes before it. */
  lemma {:induction false} PrefixFirst(prefix: string, s: string)
    requires prefix <= s
    ensures !Less(s, prefix)
    ensures s != prefix ==> Less(prefix, s)
  {
    if prefix != "" { PrefixFirst(prefix[1..], s[1..]); }
  }

  /** The strings with a given prefix lie next to each other. */
  lemma {:induction false} PrefixesAdjacent(prefix: string, s: string, t: string)
    requires !(prefix <= s) && !Less(s, prefix) && Less(s, t)
    ensures !(prefix <= t)
  {
    if prefix <= t {
      if s[0] == prefix[0] { PrefixesAdjacent(prefix[1..], s[1..], t[1..]); }
    }
  }

  // ---- Sorted listings ----

  ghost predicate Sorted(names: seq<string>) {
    forall i, j :: 0 <= i < j < |names| ==> Less(names[i], names[j])
  }

  ghost predicate IsLeast(least: string, names: set<string>) {
    least in names && forall name <- names :: !Less(name, least)
  }

  lemma {:induction false} LeastExists(names: set<string>)
    requires names != {}
    ensures exists least :: IsLeast(least, names)
    decreases |names|
  {
    var any :| any in names;
    LessIrreflexive(any);
    if names == {any} {
      assert IsLeast(any, names);
    } else {
      LeastExists(names - {any});
      var below :| IsLeast(below, names - {any});
      if Less(any, below) {
        forall name <- names ensures !Less(name, any) {
          if Less(name, any) { LessTransitive(name, any, below); }
        }
        assert IsLeast(any, names);
      } else {
        assert IsLeast(below, names);
      }
    }
  }

  ghost function Least(names: set<string>): (least: string)
    requires names != {}
    ensures IsLeast(least, names)
  {
    LeastExists(names);
    var least :| IsLeast(least, names);
    least
  }

  /** All the names, in order. */
  ghost function SortedNames(names: set<string>): (sorted: seq<string>)
    ensures forall name :: name in sorted <==> name in names
  {
    if names == {} then [] else [Least(names)] + SortedNames(names - {Least(names)})
  }

  lemma {:induction false} SortedNamesSorts(names: set<string>)
    ensures Sorted(SortedNames(names))
  {
    if names != {} {
      var rest := names - {Least(names)};
      SortedNamesSorts(rest);
      forall k | 0 <= k < |SortedNames(rest)| ensures Less(Least(names), SortedNames(rest)[k]) {
        assert SortedNames(rest)[k] in rest;
        LessTotal(Least(names), SortedNames(rest)[k]);
      }
    }
  }

  method TakeLeast(names: set<string>) returns (least: string)
    requires names != {}
    ensures least == Least(names)
  {
    LeastExists(names);
    least :| least in names && forall name <- names :: !Less(name, least);
    LessTotal(least, Least(names));
  }

  method SortNames(names: set<string>) returns (sorted: seq<string>)
    ensures sorted == SortedNames(names)
    ensures Sorted(sorted)
    ensures forall name :: name in sorted <==> name in names
  {
    sorted := [];
    var rest := names;
    while rest != {}
      invariant sorted + SortedNames(rest) == SortedNames(names)
      decreases rest
    {
      var least := TakeLeast(rest);
      sorted := sorted + [least];
      rest := rest - {least};
    }
    SortedNamesSorts(names);
  }

  // ---- Components ----

  /** The position of the first slash, or the length if there is none. */
  function FirstSlash(path: string): (i: nat)
    ensures i <= |path|
    ensures '/' !in path[..i]
    ensures i < |path| ==> path[i] == '/'
  {
    if path == "" || path[0] == '/' then 0 else 1 + FirstSlash(path[1..])
  }

  function FirstComponent(path: string): string {
    path[..FirstSlash(path)]
  }

  lemma {:induction false} SlashAfterName(name: string, rest: string)
    requires '/' !in name
    ensures FirstSlash(name) == |name|
    ensures FirstSlash(name + "/" + rest) == |name|
    ensures FirstComponent(name) == name && FirstComponent(name + "/" + rest) == name
  {
    if name != "" {
      SlashAfterName(name[1..], rest);
      assert (name + "/" + rest)[1..] == name[1..] + "/" + rest;
    }
  }
}
