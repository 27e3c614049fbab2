/** The filter that tells a fuzzer which feedback snapshots are new. */
module NoveltyFilter {
  import opened Support
  import opened FeedbackStates

  datatype Decision = Decision(interesting: bool, key: Option<string>)

  const BORING := Decision(false, None)

  datatype Filter = Filter(seenStates: set<FeedbackState>, seenKeys: set<string>, previous: set<FeedbackState>)

  const FRESH := Filter({}, {}, {})

  function KeyFor(previous: set<FeedbackState>, added: set<FeedbackState>): string {
    if previous == {} then StateKey(added) else StateKey(previous) + "->" + StateKey(added)
  }

  function Decide(filter: Filter, states: set<FeedbackState>): Decision {
    var key := KeyFor(filter.previous, states - filter.seenStates);
    if states <= filter.seenStates || key in filter.seenKeys then BORING else Decision(true, Some(key))
  }

  function Advance(filter: Filter, states: set<FeedbackState>): Filter {
    if states <= filter.seenStates then filter.(previous := states)
    else Filter(filter.seenStates + states, filter.seenKeys + {KeyFor(filter.previous, states - filter.seenStates)}, states)
  }

  lemma NothingNew(states: set<FeedbackState>, seen: set<FeedbackState>)
    ensures states - seen == {} <==> states <= seen
  {
    if !(states <= seen) {
      var state :| state in states && state !in seen;
      assert state in states - seen;
    }
  }

  class ContractStateFeedback {
    var seenStates: set<FeedbackState>
    var seenKeys: set<string>
    var previousStates: set<FeedbackState>

    function Contents(): Filter
      reads this
    {
      Filter(seenStates, seenKeys, previousStates)
    }

    constructor ()
      ensures Contents() == FRESH
    {
      seenStates, seenKeys, previousStates := {}, {}, {};
    }

    method ObserveSnapshot(states: set<FeedbackState>) returns (decision: Decision)
      modifies this
      ensures decision == Decide(old(Contents()), states)
      ensures Contents() == Advance(old(Contents()), states)
    {
      var newStates := set state | state in states && state !in seenStates;
      assert newStates == states - seenStates;
      NothingNew(states, seenStates);
      if newStates == {} {
        previousStates := states;
        return BORING;
      }
      var key :=
        if previousStates == {} then StateKey(newStates) else StateKey(previousStates) + "->" + StateKey(newStates);
      seenStates := seenStates + newStates;
      previousStates := states;
      if key in seenKeys { return BORING; }
      seenKeys := seenKeys + {key};
      return Decision(true, Some(key));
    }
  }

  // ---- Keys ----

  /** A key gives away the states that were new, whatever came before them. */
  lemma KeyGivesAddedStates(p: set<FeedbackState>, a: set<FeedbackState>, q: set<FeedbackState>, b: set<FeedbackState>)
    requires KeyFor(p, a) == KeyFor(q, b)
    ensures a == b
  {
    NoArrowInKey(p);
    NoArrowInKey(a);
    NoArrowInKey(q);
    NoArrowInKey(b);
    ArrowForm(p, a);
    ArrowForm(q, b);
    CutAt('>', BeforeArrow(p, a), FromArrow(p, a), BeforeArrow(q, b), FromArrow(q, b));
    if p != {} && q != {} {
      assert StateKey(a) == FromArrow(p, a)[1..] && StateKey(b) == FromArrow(q, b)[1..];
    }
    KeyIsInjective(a, b);
  }

  function BeforeArrow(previous: set<FeedbackState>, added: set<FeedbackState>): string {
    if previous == {} then StateKey(added) else StateKey(previous) + "-"
  }

  function FromArrow(previous: set<FeedbackState>, added: set<FeedbackState>): string {
    if previous == {} then "" else ">" + StateKey(added)
  }

  lemma ArrowForm(previous: set<FeedbackState>, added: set<FeedbackState>)
    ensures KeyFor(previous, added) == BeforeArrow(previous, added) + FromArrow(previous, added)
  {
    SplitArrow(StateKey(previous), StateKey(added));
  }

  lemma SplitArrow(before: string, after: string)
    ensures before + "->" + after == before + "-" + (">" + after)
  {
  }

  // ---- Runs ----

  function After(snapshots: seq<set<FeedbackState>>): Filter {
    if snapshots == [] then FRESH else Advance(After(snapshots[..|snapshots| - 1]), snapshots[|snapshots| - 1])
  }

  function DecisionAt(snapshots: seq<set<FeedbackState>>, k: nat): Decision
    requires k < |snapshots|
  {
    Decide(After(snapshots[..k]), snapshots[k])
  }

  /** Every key handed out so far belongs to states that have been seen since. */
  ghost predicate KeysAreOld(filter: Filter) {
    forall key <- filter.seenKeys :: IsOldKey(filter.seenStates, key)
  }

  ghost predicate IsOldKey(seen: set<FeedbackState>, key: string) {
    exists previous, added :: added != {} && added <= seen && key == KeyFor(previous, added)
  }

  /** The rejection by key is dead code: a snapshot with a new state always has a new key. */
  lemma KeyIsNew(filter: Filter, states: set<FeedbackState>)
    requires KeysAreOld(filter) && !(states <= filter.seenStates)
    ensures KeyFor(filter.previous, states - filter.seenStates) !in filter.seenKeys
  {
    var added := states - filter.seenStates;
    var key := KeyFor(filter.previous, added);
    if key in filter.seenKeys {
      var previous, other :| other != {} && other <= filter.seenStates && key == KeyFor(previous, other);
      KeyGivesAddedStates(filter.previous, added, previous, other);
    }
  }

  lemma AdvanceKeepsKeysOld(filter: Filter, states: set<FeedbackState>)
    requires KeysAreOld(filter)
    ensures KeysAreOld(Advance(filter, states))
  {
    var next := Advance(filter, states);
    forall key <- next.seenKeys ensures IsOldKey(next.seenStates, key) {
      if key in filter.seenKeys {
        var previous, added :| added != {} && added <= filter.seenStates && key == KeyFor(previous, added);
        assert added <= next.seenStates;
      } else {
        var added := states - filter.seenStates;
        NothingNew(states, filter.seenStates);
        assert added != {} && added <= next.seenStates && key == KeyFor(filter.previous, added);
      }
    }
  }

  lemma {:induction false} RunKeepsKeysOld(snapshots: seq<set<FeedbackState>>)
    ensures KeysAreOld(After(snapshots))
  {
    if snapshots != [] {
      RunKeepsKeysOld(snapshots[..|snapshots| - 1]);
      AdvanceKeepsKeysOld(After(snapshots[..|snapshots| - 1]), snapshots[|snapshots| - 1]);
    }
  }

  predicate Appeared(snapshots: seq<set<FeedbackState>>, state: FeedbackState) {
    exists k :: 0 <= k < |snapshots| && state in snapshots[k]
  }

  lemma {:induction false} SeenAreAppeared(snapshots: seq<set<FeedbackState>>)
    ensures forall state :: state in After(snapshots).seenStates <==> Appeared(snapshots, state)
  {
    if snapshots != [] {
      var last := |snapshots| - 1;
      SeenAreAppeared(snapshots[..last]);
      forall state ensures Appeared(snapshots, state) <==> Appeared(snapshots[..last], state) || state in snapshots[last] {
        if Appeared(snapshots[..last], state) {
          var k :| 0 <= k < last && state in snapshots[..last][k];
          assert state in snapshots[k];
        }
        if k :| 0 <= k < |snapshots| && state in snapshots[k] {
          assert k < last ==> snapshots[..last][k] == snapshots[k];
        }
      }
    }
  }

  /** A snapshot is interesting exactly if it holds a state no snapshot before it held. */
  lemma InterestingIffNewState(snapshots: seq<set<FeedbackState>>, k: nat)
    requires k < |snapshots|
    ensures DecisionAt(snapshots, k).interesting <==>
      exists state :: state in snapshots[k] && !Appeared(snapshots[..k], state)
    ensures DecisionAt(snapshots, k).interesting <==> DecisionAt(snapshots, k).key.Some?
  {
    RunKeepsKeysOld(snapshots[..k]);
    SeenAreAppeared(snapshots[..k]);
    if !(snapshots[k] <= After(snapshots[..k]).seenStates) {
      KeyIsNew(After(snapshots[..k]), snapshots[k]);
    }
  }

  /** What the filter remembers as previous is the last snapshot, interesting or not. */
  lemma PreviousIsLast(snapshots: seq<set<FeedbackState>>)
    ensures After(snapshots).previous == if snapshots == [] then {} else snapshots[|snapshots| - 1]
  {
  }

  /**
   * The key of an interesting snapshot joins the states never held before, after an arrow from all states of the
   * snapshot just before it, if there is one that holds any.
   */
  lemma KeyTells(snapshots: seq<set<FeedbackState>>, k: nat, added: set<FeedbackState>)
    requires k < |snapshots| && DecisionAt(snapshots, k).interesting
    requires forall state :: state in added <==> state in snapshots[k] && !Appeared(snapshots[..k], state)
    ensures DecisionAt(snapshots, k).key
      == Some(if k == 0 || snapshots[k - 1] == {} then StateKey(added) else StateKey(snapshots[k - 1]) + "->" + StateKey(added))
  {
    PreviousIsLast(snapshots[..k]);
    SeenAreAppeared(snapshots[..k]);
    assert added == snapshots[k] - After(snapshots[..k]).seenStates;
  }

  function InterestingCount(snapshots: seq<set<FeedbackState>>): nat {
    if snapshots == [] then 0
    else
      var last := |snapshots| - 1;
      InterestingCount(snapshots[..last]) + if Decide(After(snapshots[..last]), snapshots[last]).interesting then 1 else 0
  }

  /** Every interesting snapshot gets a key of its own, and there are at most five of them in any run. */
  lemma {:induction false} AtMostFive(snapshots: seq<set<FeedbackState>>)
    ensures InterestingCount(snapshots) == |After(snapshots).seenKeys|
    ensures InterestingCount(snapshots) <= |After(snapshots).seenStates| <= 5
  {
    StatesAreFive(After(snapshots).seenStates);
    if snapshots != [] {
      var last := |snapshots| - 1;
      var before, states := After(snapshots[..last]), snapshots[last];
      AtMostFive(snapshots[..last]);
      RunKeepsKeysOld(snapshots[..last]);
      if !(states <= before.seenStates) {
        KeyIsNew(before, states);
        SubsetCardinality(before.seenStates, before.seenStates + states);
      }
    }
  }

  /** No key is handed out twice. */
  lemma KeysAreDistinct(snapshots: seq<set<FeedbackState>>, i: nat, j: nat)
    requires i < j < |snapshots|
    requires DecisionAt(snapshots, i).interesting && DecisionAt(snapshots, j).interesting
    ensures DecisionAt(snapshots, i).key != DecisionAt(snapshots, j).key
  {
    assert snapshots[..i + 1][..i] == snapshots[..i];
    KeyStays(snapshots, i + 1, j, DecisionAt(snapshots, i).key.value);
  }

  lemma {:induction false} KeyStays(snapshots: seq<set<FeedbackState>>, i: nat, j: nat, key: string)
    requires i <= j <= |snapshots| && key in After(snapshots[..i]).seenKeys
    ensures key in After(snapshots[..j]).seenKeys
    decreases j - i
  {
    if i < j {
      assert snapshots[..j][..j - 1] == snapshots[..j - 1];
      KeyStays(snapshots, i, j - 1, key);
    }
  }
}
