/** Blocks that every returning path must visit: post-dominators of the entry block. */
module ControlFlow {
  import opened Support
  import opened ForeignIr

  /** A control-flow graph: successor lists and the blocks that return. */
  datatype Graph = Graph(successors: seq<seq<nat>>, exits: seq<nat>) {
    predicate Valid() {
      && (forall b, k :: 0 <= b < |successors| && 0 <= k < |successors[b]| ==> successors[b][k] < |successors|)
      && (forall k :: 0 <= k < |exits| ==> exits[k] < |successors|)
    }
  }

  /** A walk along the edges that ends in a returning block. */
  ghost predicate ExitPath(g: Graph, p: seq<nat>) {
    && p != []
    && (forall k :: 0 <= k < |p| ==> p[k] < |g.successors|)
    && (forall k :: 0 <= k < |p| - 1 ==> p[k + 1] in g.successors[p[k]])
    && p[|p| - 1] in g.exits
  }

  ghost predicate ReachesExit(g: Graph, b: nat) {
    exists p :: ExitPath(g, p) && p[0] == b
  }

  /** A path to an exit that keeps clear of block x. */
  ghost predicate AvoidingPath(g: Graph, x: nat, b: nat, p: seq<nat>) {
    ExitPath(g, p) && p[0] == b && x !in p
  }

  /** Block x lies on every path from b to an exit. */
  ghost predicate OnEveryPath(g: Graph, x: nat, b: nat) {
    x < |g.successors| && forall p :: ExitPath(g, p) && p[0] == b ==> x in p
  }

  lemma ExtendPath(g: Graph, b: nat, p: seq<nat>)
    requires g.Valid() && ExitPath(g, p) && b < |g.successors| && p[0] in g.successors[b]
    ensures ExitPath(g, [b] + p)
  {
    var q := [b] + p;
    forall k | 0 <= k < |q| - 1
      ensures q[k + 1] in g.successors[q[k]]
    {
      if k > 0 {
        assert p[k - 1 + 1] in g.successors[p[k - 1]];
      }
    }
  }

  lemma TailPath(g: Graph, p: seq<nat>)
    requires ExitPath(g, p) && |p| > 1
    ensures ExitPath(g, p[1..]) && p[1..][0] in g.successors[p[0]]
  {
    var q := p[1..];
    forall k | 0 <= k < |q| - 1
      ensures q[k + 1] in g.successors[q[k]]
    {
      assert p[k + 1 + 1] in g.successors[p[k + 1]];
    }
    assert p[0 + 1] in g.successors[p[0]];
  }

  // ---- Backward reachability ----

  ghost predicate Edge(g: Graph, b: nat, t: nat) {
    b < |g.successors| && t in g.successors[b]
  }

  /** Predecessors as the source tabulates them: t is listed under b once for each edge from t to b. */
  method Predecessors(g: Graph) returns (predecessors: seq<seq<nat>>)
    requires g.Valid()
    ensures |predecessors| == |g.successors|
    ensures forall b: nat, t: nat :: b < |g.successors| ==> (t in predecessors[b] <==> Edge(g, t, b))
  {
    predecessors := seq(|g.successors|, _ => []);
    for index := 0 to |g.successors|
      invariant |predecessors| == |g.successors|
      invariant forall b: nat, t: nat :: b < |g.successors| ==>
        (t in predecessors[b] <==> t < index && Edge(g, t, b))
    {
      ghost var before := predecessors;
      for k := 0 to |g.successors[index]|
        invariant |predecessors| == |g.successors|
        invariant forall b: nat, t: nat :: b < |g.successors| ==>
          (t in predecessors[b] <==> t in before[b] || (t == index && b in g.successors[index][..k]))
      {
        var target := g.successors[index][k];
        assert g.successors[index][..k + 1] == g.successors[index][..k] + [target];
        predecessors := predecessors[target := predecessors[target] + [index]];
      }
      assert g.successors[index][..|g.successors[index]|] == g.successors[index];
    }
  }

  /** A set that holds the exits and all predecessors of its members holds every block that reaches an exit. */
  lemma {:induction false} ClosedSetHoldsPath(g: Graph, reached: set<nat>, p: seq<nat>)
    requires g.Valid() && ExitPath(g, p)
    requires forall e :: e in g.exits ==> e in reached
    requires forall b, t :: b in reached && Edge(g, t, b) ==> t in reached
    ensures p[0] in reached
    decreases |p|
  {
    if |p| > 1 {
      TailPath(g, p);
      assert Edge(g, p[0], p[1]);
      ClosedSetHoldsPath(g, reached, p[1..]);
    }
  }

  lemma PredecessorReaches(g: Graph, b: nat, t: nat)
    requires g.Valid() && ReachesExit(g, b) && Edge(g, t, b)
    ensures ReachesExit(g, t)
  {
    var p :| ExitPath(g, p) && p[0] == b;
    ExtendPath(g, t, p);
    assert ([t] + p)[0] == t;
  }

  /** Everything marked reaches an exit, and only listed blocks still owe their predecessors. */
  ghost predicate SearchState(g: Graph, reached: set<nat>, worklist: seq<nat>) {
    && reached <= Below(|g.successors|)
    && (forall e :: e in g.exits ==> e in reached)
    && (forall b :: b in worklist ==> b in reached)
    && (forall b :: b in reached ==> ReachesExit(g, b))
    && (forall b, t :: b in reached && b !in worklist && Edge(g, t, b) ==> t in reached)
  }

  /** Marks the unmarked predecessors of one block and lists them. */
  method MarkPredecessors(list: seq<nat>, before: set<nat>, rest: seq<nat>)
    returns (reached: set<nat>, worklist: seq<nat>)
    ensures reached == before + SetOf(list)
    ensures SetOf(worklist) == SetOf(rest) + (SetOf(list) - before)
    ensures reached == before ==> worklist == rest
  {
    reached, worklist := before, rest;
    for k := 0 to |list|
      invariant reached == before + SetOf(list[..k])
      invariant SetOf(worklist) == SetOf(rest) + (SetOf(list[..k]) - before)
      invariant reached == before ==> worklist == rest
    {
      assert list[..k + 1] == list[..k] + [list[k]];
      assert SetOf(list[..k + 1]) == SetOf(list[..k]) + {list[k]};
      if list[k] !in reached {
        reached := reached + {list[k]};
        SetOfSnoc(worklist, list[k]);
        worklist := worklist + [list[k]];
      }
    }
    assert list[..|list|] == list;
  }

  lemma SearchStep(g: Graph, before: set<nat>, worklist: seq<nat>, block: nat, list: seq<nat>, after: set<nat>, next: seq<nat>)
    requires g.Valid() && SearchState(g, before, worklist)
    requires worklist != [] && block == worklist[|worklist| - 1]
    requires forall t: nat :: t in list <==> Edge(g, t, block)
    requires after == before + SetOf(list)
    requires SetOf(next) == SetOf(worklist[..|worklist| - 1]) + (SetOf(list) - before)
    ensures SearchState(g, after, next)
  {
    assert worklist == worklist[..|worklist| - 1] + [block];
    forall t | t in list ensures ReachesExit(g, t) && t in Below(|g.successors|) {
      assert Edge(g, t, block);
      PredecessorReaches(g, block, t);
    }
    forall b ensures b in next <==> b in SetOf(next) { }
    forall b ensures b in worklist ==> b == block || b in SetOf(worklist[..|worklist| - 1]) { }
  }

  lemma SearchStarts(g: Graph)
    requires g.Valid()
    ensures SearchState(g, SetOf(g.exits), g.exits)
  {
    forall e | e in g.exits
      ensures ReachesExit(g, e)
    {
      assert ExitPath(g, [e]);
    }
  }

  lemma SearchEnds(g: Graph, reached: set<nat>)
    requires g.Valid() && SearchState(g, reached, [])
    ensures forall b :: b in reached <==> ReachesExit(g, b)
  {
    forall b | ReachesExit(g, b)
      ensures b in reached
    {
      var p :| ExitPath(g, p) && p[0] == b;
      ClosedSetHoldsPath(g, reached, p);
    }
  }

  /** The worklist search: exactly the blocks from which some exit can be reached. */
  method BlocksReachingExit(g: Graph) returns (reached: set<nat>)
    requires g.Valid()
    ensures forall b :: b in reached <==> ReachesExit(g, b)
  {
    var predecessors := Predecessors(g);
    reached := SetOf(g.exits);
    var worklist := g.exits;
    SearchStarts(g);
    while worklist != []
      invariant SearchState(g, reached, worklist)
      decreases Below(|g.successors|) - reached, |worklist|
    {
      var last := |worklist| - 1;
      var block := worklist[last];
      assert block in worklist;
      var marked, pending := MarkPredecessors(predecessors[block], reached, worklist[..last]);
      SearchStep(g, reached, worklist, block, predecessors[block], marked, pending);
      reached, worklist := marked, pending;
    }
    SearchEnds(g, reached);
  }

  // ---- Blocks from which an exit can be reached without x ----

  ghost function AvoidingStep(g: Graph, x: nat): set<nat> -> set<nat> {
    (s: set<nat>) => set b | b in Below(|g.successors|) && b != x && exists t :: Edge(g, b, t) && t in s
  }

  ghost function ExitsBut(g: Graph, x: nat): set<nat> {
    set e | e in g.exits && e != x
  }

  /** Blocks with a path of at most k edges to an exit that avoids x. */
  ghost function Avoiding(g: Graph, x: nat, k: nat): set<nat> {
    Grow(AvoidingStep(g, x), ExitsBut(g, x), k)
  }

  lemma AvoidingNext(g: Graph, x: nat, k: nat, b: nat)
    ensures b in Avoiding(g, x, k + 1) <==>
      b in Avoiding(g, x, k) || (b < |g.successors| && b != x && exists t :: Edge(g, b, t) && t in Avoiding(g, x, k))
  {
  }

  lemma {:induction false} AvoidingHasPath(g: Graph, x: nat, k: nat, b: nat)
    requires g.Valid() && b in Avoiding(g, x, k)
    ensures exists p :: AvoidingPath(g, x, b, p)
  {
    if k == 0 {
      assert AvoidingPath(g, x, b, [b]);
    } else {
      AvoidingNext(g, x, k - 1, b);
      if b in Avoiding(g, x, k - 1) {
        AvoidingHasPath(g, x, k - 1, b);
      } else {
        var t :| Edge(g, b, t) && t in Avoiding(g, x, k - 1);
        AvoidingHasPath(g, x, k - 1, t);
        AvoidingExtends(g, x, b, t);
      }
    }
  }

  lemma AvoidingExtends(g: Graph, x: nat, b: nat, t: nat)
    requires g.Valid() && Edge(g, b, t) && b != x && exists p :: AvoidingPath(g, x, t, p)
    ensures exists p :: AvoidingPath(g, x, b, p)
  {
    var p :| AvoidingPath(g, x, t, p);
    ExtendPath(g, b, p);
    assert AvoidingPath(g, x, b, [b] + p);
  }

  lemma {:induction false} PathIsAvoiding(g: Graph, x: nat, b: nat, p: seq<nat>)
    requires g.Valid() && AvoidingPath(g, x, b, p)
    ensures b in Avoiding(g, x, |p| - 1)
    decreases |p|
  {
    if |p| > 1 {
      TailPath(g, p);
      assert x !in p[1..];
      PathIsAvoiding(g, x, p[1], p[1..]);
      assert p[0] in p && Edge(g, p[0], p[1]);
    }
  }

  /** A block avoids x by some path exactly when it does so within as many edges as there are blocks. */
  lemma AvoidingExact(g: Graph, x: nat, b: nat)
    requires g.Valid()
    ensures b in Avoiding(g, x, |g.successors|) <==> exists p :: AvoidingPath(g, x, b, p)
  {
    var n := |g.successors|;
    if b in Avoiding(g, x, n) {
      AvoidingHasPath(g, x, n, b);
    }
    if exists p :: AvoidingPath(g, x, b, p) {
      var p :| AvoidingPath(g, x, b, p);
      PathIsAvoiding(g, x, b, p);
      AvoidingStable(g, x, |p| - 1);
    }
  }

  lemma AvoidingStable(g: Graph, x: nat, k: nat)
    requires g.Valid()
    ensures Avoiding(g, x, k) <= Avoiding(g, x, |g.successors|)
  {
    var universe := Below(|g.successors|);
    assert Bounded(AvoidingStep(g, x), universe);
    GrowStabilises(AvoidingStep(g, x), ExitsBut(g, x), universe, |g.successors|, k);
  }

  lemma AvoidingBelow(g: Graph, x: nat, k: nat)
    requires g.Valid()
    ensures Avoiding(g, x, k) <= Below(|g.successors|)
  {
    assert Bounded(AvoidingStep(g, x), Below(|g.successors|));
    GrowWithin(AvoidingStep(g, x), ExitsBut(g, x), Below(|g.successors|), k);
  }

  // ---- The sweeps ----

  /** No block is dropped from a set unless some exit path really avoids it. */
  ghost predicate OnlyAvoided(g: Graph, post: seq<set<nat>>) {
    && |post| == |g.successors|
    && (forall b, x :: 0 <= b < |post| && 0 <= x < |post| && x !in post[b] ==> b in Avoiding(g, x, |post|))
    && (forall b, x :: 0 <= b < |post| && x in post[b] ==> x < |post|)
  }

  /** Whatever can be avoided within r edges has been dropped. */
  ghost predicate DropsAvoided(g: Graph, post: seq<set<nat>>, r: nat) {
    && |post| == |g.successors|
    && (forall b, x :: 0 <= b < |post| && b in Avoiding(g, x, r) ==> x !in post[b])
  }

  ghost predicate DropsAvoidedAbove(g: Graph, post: seq<set<nat>>, r: nat, from: nat) {
    && |post| == |g.successors|
    && (forall b, x :: from <= b < |post| && b in Avoiding(g, x, r) ==> x !in post[b])
  }

  function Live(targets: seq<nat>, reaches: set<nat>): (live: seq<nat>)
    ensures forall t :: t in live <==> t in targets && t in reaches
  {
    if targets == [] then []
    else (if targets[0] in reaches then [targets[0]] else []) + Live(targets[1..], reaches)
  }

  /** x is kept when it is the block itself or every live successor keeps it. */
  ghost predicate InMeet(post: seq<set<nat>>, live: seq<nat>, index: nat, next: set<nat>) {
    forall x :: x in next <==> x == index || forall t: nat :: t in live && t < |post| ==> x in post[t]
  }

  /** The common part of the sets of the live successors, plus the block itself. */
  method Meet(post: seq<set<nat>>, live: seq<nat>, index: nat) returns (next: set<nat>)
    requires live != [] && forall k :: 0 <= k < |live| ==> live[k] < |post|
    ensures InMeet(post, live, index, next)
  {
    next := post[live[0]];
    for k := 1 to |live|
      invariant forall x :: x in next <==> forall j :: 0 <= j < k ==> x in post[live[j]]
    {
      next := next * post[live[k]];
    }
    forall x: nat
      ensures x in next <==> forall t: nat :: t in live && t < |post| ==> x in post[t]
    {
      if x in next {
        forall t: nat | t in live && t < |post|
          ensures x in post[t]
        {
          var j :| 0 <= j < |live| && live[j] == t;
        }
      } else {
        var j :| 0 <= j < |live| && x !in post[live[j]];
        assert live[j] in live;
      }
    }
    next := next + {index};
  }

  lemma AvoidingThrough(g: Graph, x: nat, b: nat, t: nat)
    requires g.Valid() && Edge(g, b, t) && b != x && t in Avoiding(g, x, |g.successors|)
    ensures b in Avoiding(g, x, |g.successors|)
  {
    assert b in Avoiding(g, x, |g.successors| + 1);
    AvoidingStable(g, x, |g.successors| + 1);
  }

  /** One block's update drops nothing that cannot be avoided. */
  lemma UpdateSound(g: Graph, post: seq<set<nat>>, index: nat, live: seq<nat>, next: set<nat>)
    requires g.Valid() && OnlyAvoided(g, post) && index < |post|
    requires live != [] && forall t :: t in live ==> Edge(g, index, t)
    requires InMeet(post, live, index, next)
    ensures forall x :: 0 <= x < |post| && x !in next ==> index in Avoiding(g, x, |post|)
    ensures forall x :: x in next ==> x < |post|
  {
    var n := |post|;
    forall x | 0 <= x < n && x !in next
      ensures index in Avoiding(g, x, n)
    {
      var t: nat :| t in live && t < n && x !in post[t];
      AvoidingThrough(g, x, index, t);
    }
    forall x | x in next ensures x < n {
      if x != index {
        assert live[0] in live;
        assert Edge(g, index, live[0]);
        assert x in post[live[0]];
      }
    }
  }

  /** A non-exit block that avoids x does so through a live successor, one edge closer. */
  lemma LiveStep(g: Graph, x: nat, reaches: set<nat>, index: nat, r: nat) returns (t: nat)
    requires g.Valid() && index !in g.exits && index in Avoiding(g, x, r + 1)
    requires forall b :: b in reaches <==> ReachesExit(g, b)
    ensures index < |g.successors| && t in Live(g.successors[index], reaches)
    ensures t in Avoiding(g, x, r) && t < |g.successors| && x != index
  {
    StepTarget(g, x, r, index);
    t :| Edge(g, index, t) && t in Avoiding(g, x, r);
    AvoidingReaches(g, x, r, t);
    AvoidingBelow(g, x, r);
    NeverItself(g, x, r + 1);
  }

  /** One block's update drops what can be avoided within one edge more. */
  lemma UpdateComplete(g: Graph, post: seq<set<nat>>, reaches: set<nat>, index: nat, live: seq<nat>, next: set<nat>, r: nat)
    requires g.Valid() && DropsAvoided(g, post, r)
    requires index < |post| && index !in g.exits
    requires forall b :: b in reaches <==> ReachesExit(g, b)
    requires live == Live(g.successors[index], reaches)
    requires InMeet(post, live, index, next)
    ensures forall x :: index in Avoiding(g, x, r + 1) ==> x !in next
  {
    forall x | index in Avoiding(g, x, r + 1)
      ensures x !in next
    {
      var t := LiveStep(g, x, reaches, index, r);
    }
  }

  lemma AvoidingReaches(g: Graph, x: nat, k: nat, b: nat)
    requires g.Valid() && b in Avoiding(g, x, k)
    ensures ReachesExit(g, b)
  {
    AvoidingHasPath(g, x, k, b);
    var p :| AvoidingPath(g, x, b, p);
    assert ExitPath(g, p) && p[0] == b;
  }

  lemma {:induction false} NeverItself(g: Graph, x: nat, k: nat)
    ensures x !in Avoiding(g, x, k)
  {
    if k > 0 { NeverItself(g, x, k - 1); }
  }

  /** A non-exit block avoids x within r + 1 edges only through a successor that does so within r. */
  lemma {:induction false} StepTarget(g: Graph, x: nat, r: nat, b: nat)
    requires b in Avoiding(g, x, r + 1) && b !in g.exits
    ensures b < |g.successors| && exists t :: Edge(g, b, t) && t in Avoiding(g, x, r)
  {
    if b in Avoiding(g, x, r) {
      if r > 0 {
        StepTarget(g, x, r - 1, b);
        var t :| Edge(g, b, t) && t in Avoiding(g, x, r - 1);
        assert t in Avoiding(g, x, r);
      }
    }
  }

  /** The set every block starts from: itself for an exit, everything otherwise. */
  function InitialSets(g: Graph): (post: seq<set<nat>>)
    requires g.Valid()
  {
    seq(|g.successors|, index requires 0 <= index => if index in g.exits then {index} else Below(|g.successors|))
  }

  lemma InitialSetsHold(g: Graph)
    requires g.Valid()
    ensures OnlyAvoided(g, InitialSets(g)) && DropsAvoided(g, InitialSets(g), 0)
  {
    var post := InitialSets(g);
    forall b, x | 0 <= b < |post| && 0 <= x < |post| && x !in post[b]
      ensures b in Avoiding(g, x, |post|)
    {
      assert b in Avoiding(g, x, 0);
      AvoidingStable(g, x, 0);
    }
  }

  /** When a whole sweep changes nothing, one more sweep would change nothing either. */
  ghost predicate Settled(g: Graph, post: seq<set<nat>>, reaches: set<nat>, from: nat) {
    && |post| == |g.successors|
    && forall b: nat :: from <= b < |post| && b !in g.exits && b in reaches ==>
         InMeet(post, Live(g.successors[b], reaches), b, post[b])
  }

  lemma {:induction false} SettledIsExact(g: Graph, post: seq<set<nat>>, reaches: set<nat>, r: nat)
    requires g.Valid() && OnlyAvoided(g, post) && DropsAvoided(g, post, 0)
    requires forall b :: b in reaches <==> ReachesExit(g, b)
    requires Settled(g, post, reaches, 0)
    ensures DropsAvoided(g, post, r)
  {
    if r > 0 {
      SettledIsExact(g, post, reaches, r - 1);
      forall b, x | 0 <= b < |post| && b in Avoiding(g, x, r)
        ensures x !in post[b]
      {
        NeverItself(g, x, r);
        if b in g.exits {
          assert b in Avoiding(g, x, 0);
        } else {
          AvoidingReaches(g, x, r, b);
          var t := LiveStep(g, x, reaches, b, r - 1);
          assert InMeet(post, Live(g.successors[b], reaches), b, post[b]);
        }
      }
    }
  }

  /** The capped post-dominator sweeps: always the exact answer, on cyclic graphs as well. */
  method PostDominators(g: Graph, reaches: set<nat>) returns (post: seq<set<nat>>)
    requires g.Valid()
    requires forall b :: b in reaches <==> ReachesExit(g, b)
    ensures |post| == |g.successors|
    ensures forall b, x :: 0 <= b < |post| && 0 <= x < |post| ==> (x in post[b] <==> OnEveryPath(g, x, b))
    ensures forall b, x :: 0 <= b < |post| && x in post[b] ==> x < |post|
  {
    var count := |g.successors|;
    post := InitialSets(g);
    InitialSetsHold(g);
    var round := 0;
    var changed := true;
    while round <= count && changed
      invariant 0 <= round <= count + 1
      invariant OnlyAvoided(g, post)
      invariant DropsAvoided(g, post, round) && DropsAvoided(g, post, 0)
      invariant !changed ==> Settled(g, post, reaches, 0)
      decreases count + 1 - round
    {
      changed := false;
      var index := count;
      while index > 0
        invariant 0 <= index <= count
        invariant OnlyAvoided(g, post)
        invariant DropsAvoided(g, post, round) && DropsAvoided(g, post, 0)
        invariant DropsAvoidedAbove(g, post, round + 1, index)
        invariant !changed ==> Settled(g, post, reaches, index)
      {
        index := index - 1;
        if index in g.exits || index !in reaches {
          SkippedBlock(g, post, reaches, index, round);
          continue;
        }
        var live := Live(g.successors[index], reaches);
        LiveSuccessor(g, reaches, index);
        if live == [] {
          continue;
        }
        forall k | 0 <= k < |live| ensures live[k] < |post| && Edge(g, index, live[k]) {
          assert live[k] in live;
        }
        var next := Meet(post, live, index);
        UpdateSound(g, post, index, live, next);
        UpdateComplete(g, post, reaches, index, live, next, round);
        if next != post[index] {
          post := post[index := next];
          changed := true;
        }
      }
      round := round + 1;
    }
    if !changed { SettledIsExact(g, post, reaches, count); }
    RoundsSuffice(g, post, round);
    ExactSets(g, post);
  }

  lemma SkippedBlock(g: Graph, post: seq<set<nat>>, reaches: set<nat>, index: nat, round: nat)
    requires g.Valid() && DropsAvoided(g, post, 0) && index < |post|
    requires forall b :: b in reaches <==> ReachesExit(g, b)
    requires index in g.exits || index !in reaches
    ensures forall x :: index in Avoiding(g, x, round + 1) ==> x !in post[index]
  {
    forall x | index in Avoiding(g, x, round + 1)
      ensures x !in post[index]
    {
      AvoidingReaches(g, x, round + 1, index);
      NeverItself(g, x, round + 1);
      assert index in Avoiding(g, x, 0);
    }
  }

  lemma LiveSuccessor(g: Graph, reaches: set<nat>, index: nat)
    requires g.Valid() && index in reaches && index !in g.exits && index < |g.successors|
    requires forall b :: b in reaches <==> ReachesExit(g, b)
    ensures Live(g.successors[index], reaches) != []
  {
    var p :| ExitPath(g, p) && p[0] == index;
    assert |p| > 1;
    TailPath(g, p);
    assert ReachesExit(g, p[1]);
    assert p[1] in Live(g.successors[index], reaches);
  }

  lemma RoundsSuffice(g: Graph, post: seq<set<nat>>, round: nat)
    requires g.Valid() && |post| == |g.successors|
    requires DropsAvoided(g, post, |g.successors|) || (round == |g.successors| + 1 && DropsAvoided(g, post, round))
    ensures DropsAvoided(g, post, |g.successors|)
  {
    if !DropsAvoided(g, post, |g.successors|) {
      forall b, x | 0 <= b < |post| && b in Avoiding(g, x, |g.successors|)
        ensures x !in post[b]
      {
        assert b in Avoiding(g, x, round);
      }
    }
  }

  lemma ExactSets(g: Graph, post: seq<set<nat>>)
    requires g.Valid() && OnlyAvoided(g, post) && DropsAvoided(g, post, |g.successors|)
    ensures forall b, x :: 0 <= b < |post| && 0 <= x < |post| ==> (x in post[b] <==> OnEveryPath(g, x, b))
  {
    forall b, x | 0 <= b < |post| && 0 <= x < |post|
      ensures x in post[b] <==> OnEveryPath(g, x, b)
    {
      AvoidingExact(g, x, b);
      if x !in post[b] {
        assert b in Avoiding(g, x, |g.successors|);
        var p :| AvoidingPath(g, x, b, p);
        assert ExitPath(g, p) && p[0] == b;
      }
      if !OnEveryPath(g, x, b) {
        var p :| ExitPath(g, p) && p[0] == b && x !in p;
        assert AvoidingPath(g, x, b, p);
        assert b in Avoiding(g, x, |g.successors|);
      }
    }
  }
}
