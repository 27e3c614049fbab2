/** The normalised summary of every feedback state recorded so far. */
module FeedbackSnapshot {
  import opened FeedbackStates

  datatype RecordId = RecordId(text: string)

  datatype RuleContext =
    | BorrowedCaptureRetainedCallback
    | BorrowEndedRetainedCallback
    | CallbackInvokedAfterBorrowEnd
    | CallbackReleasedBeforeBorrowEnd
    | OwnerClosedBeforeCallbackRelease

  function ContextFor(state: FeedbackState): RuleContext {
    match state
    case BorrowedRetained => BorrowedCaptureRetainedCallback
    case BorrowEndedRetained => BorrowEndedRetainedCallback
    case InvokedAfterEnd => CallbackInvokedAfterBorrowEnd
    case ReleasedBeforeEnd => CallbackReleasedBeforeBorrowEnd
    case ClosedOwnerWithRetainedCallback => OwnerClosedBeforeCallbackRelease
  }

  /** One call that recorded a state. */
  datatype Hit = Hit(state: FeedbackState, event: RecordId, context: RuleContext)

  datatype Observation = Observation(state: FeedbackState, firstEvent: RecordId, context: RuleContext, count: nat)

  // ---- What a log of hits amounts to ----

  function Occurrences(log: seq<Hit>, state: FeedbackState): nat {
    if log == [] then 0
    else Occurrences(log[..|log| - 1], state) + if log[|log| - 1].state == state then 1 else 0
  }

  /** The position of the first hit of a state, or the length of the log. */
  function FirstHit(log: seq<Hit>, state: FeedbackState): nat {
    if log == [] || log[0].state == state then 0 else 1 + FirstHit(log[1..], state)
  }

  lemma {:induction false} FirstHitIsFirst(log: seq<Hit>, state: FeedbackState)
    ensures FirstHit(log, state) <= |log|
    ensures FirstHit(log, state) < |log| ==> log[FirstHit(log, state)].state == state
    ensures forall k :: 0 <= k < FirstHit(log, state) ==> log[k].state != state
  {
    if log != [] && log[0].state != state {
      FirstHitIsFirst(log[1..], state);
      forall k | 0 <= k < FirstHit(log, state) ensures log[k].state != state {
        if k > 0 { assert log[1..][k - 1] == log[k]; }
      }
    }
  }

  lemma {:induction false} FirstHitSnoc(log: seq<Hit>, hit: Hit, state: FeedbackState)
    ensures FirstHit(log, state) < |log| ==> FirstHit(log + [hit], state) == FirstHit(log, state)
    ensures FirstHit(log, state) >= |log| && hit.state == state ==> FirstHit(log + [hit], state) == |log|
  {
    if log != [] {
      assert (log + [hit])[1..] == log[1..] + [hit];
      FirstHitSnoc(log[1..], hit, state);
    } else {
      assert (log + [hit])[0] == hit;
    }
  }

  lemma {:induction false} OccursIffHit(log: seq<Hit>, state: FeedbackState)
    ensures Occurrences(log, state) > 0 <==> FirstHit(log, state) < |log|
  {
    FirstHitIsFirst(log, state);
    if log != [] {
      var last := |log| - 1;
      OccursIffHit(log[..last], state);
      assert log == log[..last] + [log[last]];
      FirstHitSnoc(log[..last], log[last], state);
      FirstHitIsFirst(log[..last], state);
    }
  }

  function TotalCount(observations: seq<Observation>): nat {
    if observations == [] then 0 else TotalCount(observations[..|observations| - 1]) + observations[|observations| - 1].count
  }

  /** The observation tells how often and where first its state was hit. */
  ghost predicate Tells(observation: Observation, log: seq<Hit>) {
    var first := FirstHit(log, observation.state);
    && first < |log|
    && observation.firstEvent == log[first].event && observation.context == log[first].context
    && observation.count == Occurrences(log, observation.state)
  }

  // ---- The snapshot ----

  datatype Snapshot = Snapshot(
    states: set<FeedbackState>, feedbackKey: string, transitionCount: nat,
    observations: seq<Observation>, index: map<FeedbackState, nat>)

  const EMPTY := Snapshot({}, "", 0, [], map[])

  ghost predicate Indexed(snapshot: Snapshot) {
    forall state <- snapshot.index :: snapshot.index[state] < |snapshot.observations|
  }

  function Counted(snapshot: Snapshot, state: FeedbackState): Snapshot
    requires state in snapshot.index && snapshot.index[state] < |snapshot.observations|
  {
    var i := snapshot.index[state];
    var observation := snapshot.observations[i];
    snapshot.(observations := snapshot.observations[i := observation.(count := observation.count + 1)])
  }

  function Added(snapshot: Snapshot, hit: Hit): Snapshot {
    Snapshot(snapshot.states + {hit.state}, StateKey(snapshot.states + {hit.state}), snapshot.transitionCount + 1,
             snapshot.observations + [Observation(hit.state, hit.event, hit.context, 1)],
             snapshot.index[hit.state := |snapshot.observations|])
  }

  /** The snapshot after one more hit. */
  function Recorded(snapshot: Snapshot, hit: Hit): (recorded: Snapshot)
    requires Indexed(snapshot)
    ensures Indexed(recorded)
  {
    if hit.state in snapshot.index then Counted(snapshot, hit.state) else Added(snapshot, hit)
  }

  /** What recording a log of hits, one by one, leaves behind. */
  function Summary(log: seq<Hit>): (snapshot: Snapshot)
    ensures Indexed(snapshot)
  {
    if log == [] then EMPTY else Recorded(Summary(log[..|log| - 1]), log[|log| - 1])
  }

  // ---- The snapshot tells what happened, state by state ----

  lemma {:induction false} IndexFinds(log: seq<Hit>, state: FeedbackState)
    requires state in Summary(log).index
    ensures Summary(log).observations[Summary(log).index[state]].state == state
  {
    var front, hit := log[..|log| - 1], log[|log| - 1];
    if state in Summary(front).index {
      IndexFinds(front, state);
    }
  }

  lemma {:induction false} IndexIsInverse(log: seq<Hit>, i: nat)
    requires i < |Summary(log).observations|
    ensures Summary(log).observations[i].state in Summary(log).index
    ensures Summary(log).index[Summary(log).observations[i].state] == i
  {
    var front, hit := log[..|log| - 1], log[|log| - 1];
    if i < |Summary(front).observations| {
      IndexIsInverse(front, i);
      if hit.state in Summary(front).index { IndexFinds(front, hit.state); }
    }
  }

  lemma {:induction false} CountsAgree(log: seq<Hit>)
    ensures
      var snapshot := Summary(log);
      snapshot.states == snapshot.index.Keys && snapshot.transitionCount == |snapshot.states| == |snapshot.observations|
  {
    if log != [] { CountsAgree(log[..|log| - 1]); }
  }

  lemma {:induction false} ObservedIffHit(log: seq<Hit>, state: FeedbackState)
    ensures state in Summary(log).index <==> FirstHit(log, state) < |log|
  {
    FirstHitIsFirst(log, state);
    if log != [] {
      var front, hit := log[..|log| - 1], log[|log| - 1];
      ObservedIffHit(front, state);
      assert log == front + [hit];
      FirstHitSnoc(front, hit, state);
      FirstHitIsFirst(front, state);
    }
  }

  /** Every observation holds the first event, its context and the number of hits of its state. */
  lemma {:induction false} ObservationTells(log: seq<Hit>, i: nat)
    requires i < |Summary(log).observations|
    ensures Tells(Summary(log).observations[i], log)
  {
    var front, hit := log[..|log| - 1], log[|log| - 1];
    assert log == front + [hit];
    var state := Summary(log).observations[i].state;
    FirstHitSnoc(front, hit, state);
    if i < |Summary(front).observations| {
      ObservationTells(front, i);
      IndexIsInverse(front, i);
      if hit.state in Summary(front).index { IndexFinds(front, hit.state); }
    } else {
      ObservedIffHit(front, hit.state);
      OccursIffHit(front, hit.state);
    }
  }

  /** Observations stand in the order their states were first hit in. */
  lemma {:induction false} ObservationsInOrder(log: seq<Hit>, i: nat, j: nat)
    requires i < j < |Summary(log).observations|
    ensures FirstHit(log, Summary(log).observations[i].state) < FirstHit(log, Summary(log).observations[j].state)
  {
    var front, hit := log[..|log| - 1], log[|log| - 1];
    assert log == front + [hit];
    ObservationTells(front, i);
    FirstHitSnoc(front, hit, Summary(front).observations[i].state);
    FirstHitSnoc(front, hit, Summary(log).observations[j].state);
    if j < |Summary(front).observations| {
      ObservationsInOrder(front, i, j);
      ObservationTells(front, j);
    } else {
      ObservedIffHit(front, hit.state);
    }
  }

  lemma {:induction false} CountOneMore(observations: seq<Observation>, i: nat)
    requires i < |observations|
    ensures TotalCount(observations[i := observations[i].(count := observations[i].count + 1)]) == TotalCount(observations) + 1
  {
    var last := |observations| - 1;
    var counted := observations[i := observations[i].(count := observations[i].count + 1)];
    if i < last {
      CountOneMore(observations[..last], i);
      assert counted[..last] == observations[..last][i := observations[i].(count := observations[i].count + 1)];
    } else {
      assert counted[..last] == observations[..last];
    }
  }

  /** No hit is lost: the counts add up to the number of recordings. */
  lemma {:induction false} CountsAddUp(log: seq<Hit>)
    ensures TotalCount(Summary(log).observations) == |log|
  {
    if log != [] {
      var front, hit := log[..|log| - 1], log[|log| - 1];
      CountsAddUp(front);
      var before := Summary(front);
      if hit.state in before.index {
        CountOneMore(before.observations, before.index[hit.state]);
      } else {
        assert Summary(log).observations[..|before.observations|] == before.observations;
      }
    }
  }

  class FeedbackStateSnapshot {
    var states: set<FeedbackState>
    var feedbackKey: string
    var transitionCount: nat
    var observations: seq<Observation>
    var index: map<FeedbackState, nat>
    ghost var log: seq<Hit>

    ghost function Contents(): Snapshot
      reads this
    {
      Snapshot(states, feedbackKey, transitionCount, observations, index)
    }

    constructor ()
      ensures log == [] && Contents() == Summary(log)
    {
      states, feedbackKey, transitionCount, observations, index, log := {}, "", 0, [], map[], [];
    }

    method Record(state: FeedbackState, event: RecordId, context: RuleContext)
      requires Contents() == Summary(log)
      modifies this
      ensures log == old(log) + [Hit(state, event, context)]
      ensures Contents() == Summary(log)
    {
      log := log + [Hit(state, event, context)];
      assert log[..|log| - 1] == old(log);
      if state in index {
        var i := index[state];
        observations := observations[i := observations[i].(count := observations[i].count + 1)];
        return;
      }
      states := states + {state};
      transitionCount := transitionCount + 1;
      index := index[state := |observations|];
      observations := observations + [Observation(state, event, context, 1)];
      feedbackKey := StateKey(states);
    }
  }

  lemma {:induction false} KeyOfStates(log: seq<Hit>)
    ensures Summary(log).feedbackKey == StateKey(Summary(log).states)
  {
    if log == [] {
      EmptyKey();
    } else {
      var front, hit := log[..|log| - 1], log[|log| - 1];
      KeyOfStates(front);
      CountsAgree(front);
      assert hit.state in Summary(front).index ==> Summary(log).states == Summary(front).states;
    }
  }

  lemma EmptyKey()
    ensures StateKey({}) == ""
  {
  }

  /** A state is in the snapshot exactly if some hit recorded it. */
  lemma StatesAreHits(log: seq<Hit>, state: FeedbackState)
    ensures state in Summary(log).states <==> exists hit <- log :: hit.state == state
  {
    CountsAgree(log);
    ObservedIffHit(log, state);
    FirstHitIsFirst(log, state);
    if hit :| hit in log && hit.state == state {
      var k :| 0 <= k < |log| && log[k] == hit;
    }
  }

  /** One transition per state, at most five of them, and counts that add up. */
  lemma SnapshotAccounts(log: seq<Hit>)
    ensures
      var snapshot := Summary(log);
      && snapshot.transitionCount == |snapshot.states| == |snapshot.observations| <= 5
      && TotalCount(snapshot.observations) == |log|
      && (exists order :: Lists(order, snapshot.states) && snapshot.feedbackKey == Join(Names(order), "|"))
  {
    CountsAgree(log);
    StatesAreFive(Summary(log).states);
    CountsAddUp(log);
    KeyOfStates(log);
    KeyIsOrderedJoin(Summary(log).states);
  }
}
