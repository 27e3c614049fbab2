/** Path information of one function: the blocks every returning path goes through. */
module PathInfo {
  import opened Support
  import opened ForeignIr
  import opened ControlFlow

  datatype PathInfo = PathInfo(onEveryReturningPath: set<nat>, cfgIncomplete: bool)

  /** How the block ends, if it has any instruction. */
  function LastKind(f: Function, b: nat): Option<InstKind>
    requires b < |f.blocks|
  {
    var insts := f.blocks[b].insts;
    if insts == [] then None else Some(insts[|insts| - 1].kind)
  }

  /** Block a ends in a branch that names block b as a target. */
  ghost predicate Jump(f: Function, a: nat, b: nat) {
    && a < |f.blocks| && LastKind(f, a).Some? && LastKind(f, a).value.Branch?
    && exists target :: target in LastKind(f, a).value.targets && BlockIndex(f, target) == Some(b)
  }

  predicate ReturnsAt(f: Function, b: nat) {
    b < |f.blocks| && LastKind(f, b) == Some(Return)
  }

  /** A walk from the entry block along the jumps to a block that returns. */
  ghost predicate ReturningPath(f: Function, p: seq<nat>) {
    && p != [] && p[0] == 0
    && (forall k :: 0 <= k < |p| - 1 ==> Jump(f, p[k], p[k + 1]))
    && ReturnsAt(f, p[|p| - 1])
  }

  /** The block returns, never ends, or branches to blocks that all exist. */
  ghost predicate UnderstoodBlock(f: Function, b: nat)
    requires b < |f.blocks|
  {
    match LastKind(f, b)
    case Some(Return) => true
    case Some(Unreachable) => true
    case Some(Branch(targets)) => forall target :: target in targets ==> BlockIndex(f, target).Some?
    case _ => false
  }

  ghost predicate HasExit(f: Function) {
    exists b :: ReturnsAt(f, b)
  }

  ghost predicate CompleteCfg(f: Function) {
    HasExit(f) && forall b :: 0 <= b < |f.blocks| ==> UnderstoodBlock(f, b)
  }

  ghost function ForcedBlocks(f: Function): set<nat> {
    if HasExit(f)
    then set x | x in Below(|f.blocks|) && forall p :: ReturningPath(f, p) ==> x in p
    else {}
  }

  /** The meaning of the analysis result, independent of how it is computed. */
  ghost function PathInfoOf(f: Function): PathInfo {
    PathInfo(ForcedBlocks(f), !CompleteCfg(f))
  }

  ghost predicate EdgesOf(f: Function, b: nat, targets: seq<nat>) {
    forall t: nat :: t in targets <==> Jump(f, b, t)
  }

  /** Collects the known targets of one branch; the flag reports a target that does not exist. */
  method ResolveTargets(f: Function, names: seq<string>) returns (targets: seq<nat>, missing: bool)
    ensures forall t: nat :: t in targets <==> exists name :: name in names && BlockIndex(f, name) == Some(t)
    ensures missing <==> exists name :: name in names && BlockIndex(f, name).None?
  {
    targets, missing := [], false;
    for k := 0 to |names|
      invariant forall t: nat :: t in targets <==> exists name :: name in names[..k] && BlockIndex(f, name) == Some(t)
      invariant missing <==> exists name :: name in names[..k] && BlockIndex(f, name).None?
    {
      assert names[..k + 1] == names[..k] + [names[k]];
      match BlockIndex(f, names[k]) {
        case Some(successor) => targets := targets + [successor];
        case None => missing := true;
      }
    }
    assert names[..|names|] == names;
  }

  method BuildGraph(f: Function) returns (g: Graph, incomplete: bool)
    ensures g.Valid() && |g.successors| == |f.blocks|
    ensures forall b: nat :: b < |f.blocks| ==> EdgesOf(f, b, g.successors[b])
    ensures forall b: nat :: b in g.exits <==> ReturnsAt(f, b)
    ensures incomplete <==> exists b :: 0 <= b < |f.blocks| && !UnderstoodBlock(f, b)
  {
    var successors: seq<seq<nat>> := [];
    var exits: seq<nat> := [];
    incomplete := false;
    for index := 0 to |f.blocks|
      invariant |successors| == index
      invariant Graph(successors, exits).exits == exits
      invariant forall b, k :: 0 <= b < index && 0 <= k < |successors[b]| ==> successors[b][k] < |f.blocks|
      invariant forall k :: 0 <= k < |exits| ==> exits[k] < index
      invariant forall b: nat :: b < index ==> EdgesOf(f, b, successors[b])
      invariant forall b: nat :: b in exits <==> b < index && ReturnsAt(f, b)
      invariant incomplete <==> exists b :: 0 <= b < index && !UnderstoodBlock(f, b)
    {
      var targets: seq<nat> := [];
      var readable := true;
      match Terminator(f.blocks[index]) {
        case Some(inst) =>
          match inst.kind {
            case Branch(names) =>
              var missing;
              targets, missing := ResolveTargets(f, names);
              readable := !missing;
            case Return => exits := exits + [index];
            case Unreachable =>
            case _ => readable := false;
          }
        case None => readable := false;
      }
      assert readable <==> UnderstoodBlock(f, index);
      assert EdgesOf(f, index, targets);
      forall k | 0 <= k < |targets| ensures targets[k] < |f.blocks| {
        assert targets[k] in targets;
        assert Jump(f, index, targets[k]);
      }
      successors := successors + [targets];
      incomplete := incomplete || !readable;
    }
    g := Graph(successors, exits);
  }

  lemma PathsAgree(f: Function, g: Graph, p: seq<nat>)
    requires g.Valid() && |g.successors| == |f.blocks|
    requires forall b: nat :: b < |f.blocks| ==> EdgesOf(f, b, g.successors[b])
    requires forall b: nat :: b in g.exits <==> ReturnsAt(f, b)
    ensures ReturningPath(f, p) <==> ExitPath(g, p) && p[0] == 0
  {
    if ReturningPath(f, p) {
      forall k | 0 <= k < |p| ensures p[k] < |g.successors| {
        if k < |p| - 1 { assert Jump(f, p[k], p[k + 1]); }
      }
      forall k | 0 <= k < |p| - 1 ensures p[k + 1] in g.successors[p[k]] {
        assert EdgesOf(f, p[k], g.successors[p[k]]);
      }
    }
    if ExitPath(g, p) && p[0] == 0 {
      forall k | 0 <= k < |p| - 1 ensures Jump(f, p[k], p[k + 1]) {
        assert EdgesOf(f, p[k], g.successors[p[k]]);
      }
    }
  }

  /** The analysis is exact on every control-flow graph, cyclic ones included. */
  method ComputePathInfo(f: Function) returns (info: PathInfo)
    ensures info == PathInfoOf(f)
  {
    if |f.blocks| == 0 {
      return PathInfo({}, true);
    }
    var g, incomplete := BuildGraph(f);
    if g.exits == [] {
      assert !HasExit(f);
      return PathInfo({}, true);
    }
    assert g.exits[0] in g.exits;
    assert ReturnsAt(f, g.exits[0]);
    var reaches := BlocksReachingExit(g);
    var post := PostDominators(g, reaches);
    assert incomplete <==> !CompleteCfg(f);
    forall x: nat
      ensures x in post[0] <==> x in ForcedBlocks(f)
    {
      forall p ensures ReturningPath(f, p) <==> ExitPath(g, p) && p[0] == 0 { PathsAgree(f, g, p); }
      if x < |post| { assert x in post[0] <==> OnEveryPath(g, x, 0); }
    }
    info := PathInfo(post[0], incomplete);
  }
}
