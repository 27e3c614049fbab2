/** The observer itself: maps updated in place, event by event, and a snapshot of what it recorded. */
module ContractStateObserver {
  import opened Support
  import opened FeedbackStates
  import opened FeedbackSnapshot
  import opened ObserverModel

  datatype CaptureFact = CaptureFact(sites: Sites, mode: CaptureMode)

  datatype Envelope = Envelope(recordId: RecordId, event: Event)

  function Events(envelopes: seq<Envelope>): seq<Event> {
    seq(|envelopes|, i requires 0 <= i < |envelopes| => envelopes[i].event)
  }

  /** The hits one event's feedback states are recorded as. */
  function Hits(states: seq<FeedbackState>, event: RecordId): seq<Hit> {
    seq(|states|, i requires 0 <= i < |states| => Hit(states[i], event, ContextFor(states[i])))
  }

  ghost function Log(modes: map<Sites, CaptureMode>, envelopes: seq<Envelope>): seq<Hit> {
    if envelopes == [] then []
    else
      var last := |envelopes| - 1;
      Log(modes, envelopes[..last])
      + Hits(Emitted(modes, After(modes, Events(envelopes[..last])), envelopes[last].event), envelopes[last].recordId)
  }

  /** No two facts speak about the same pair of sites. */
  ghost predicate NoDuplicates(facts: seq<CaptureFact>) {
    forall i, j :: 0 <= i < j < |facts| ==> facts[i].sites != facts[j].sites
  }

  ghost predicate Maps(modes: map<Sites, CaptureMode>, facts: seq<CaptureFact>) {
    && (forall i :: 0 <= i < |facts| ==> facts[i].sites in modes && modes[facts[i].sites] == facts[i].mode)
    && (forall sites <- modes :: exists i :: 0 <= i < |facts| && facts[i].sites == sites)
  }

  method CaptureModes(facts: seq<CaptureFact>) returns (result: Option<map<Sites, CaptureMode>>)
    ensures result.Some? <==> NoDuplicates(facts)
    ensures result.Some? ==> Maps(result.value, facts)
  {
    var modes: map<Sites, CaptureMode> := map[];
    for k := 0 to |facts|
      invariant NoDuplicates(facts[..k]) && Maps(modes, facts[..k])
    {
      if facts[k].sites in modes {
        ghost var i :| 0 <= i < k && facts[..k][i].sites == facts[k].sites;
        assert facts[i].sites == facts[k].sites;
        return None;
      }
      modes := modes[facts[k].sites := facts[k].mode];
    }
    assert facts[..|facts|] == facts;
    return Some(modes);
  }

  class Observer {
    const captureModes: map<Sites, CaptureMode>
    var objects: map<Id, ObjectState>
    var callbacks: map<Id, CallbackState>
    var captures: map<Capture, CaptureState>
    const snapshot: FeedbackStateSnapshot

    function Contents(): Watch
      reads this
    {
      Watch(objects, callbacks, captures)
    }

    ghost predicate Valid()
      reads this, snapshot
    {
      snapshot.Contents() == Summary(snapshot.log)
    }

    constructor (modes: map<Sites, CaptureMode>)
      ensures Valid() && fresh(snapshot) && captureModes == modes
      ensures Contents() == NOTHING && snapshot.log == []
    {
      captureModes := modes;
      objects, callbacks, captures := map[], map[], map[];
      snapshot := new FeedbackStateSnapshot();
    }

    /** Every caller passes the context that belongs to the state. */
    method Record(state: FeedbackState, event: RecordId, context: RuleContext)
      requires Valid() && context == ContextFor(state)
      modifies snapshot
      ensures Valid() && snapshot.log == old(snapshot.log) + Hits([state], event)
    {
      snapshot.Record(state, event, context);
    }

    /** The maps and the log have moved as the event demands. */
    twostate predicate Moved(event: Event, recordId: RecordId)
      reads this, snapshot
    {
      && Contents() == Next(captureModes, old(Contents()), event)
      && snapshot.log == old(snapshot.log) + Hits(Emitted(captureModes, old(Contents()), event), recordId)
    }

    method Observe(envelope: Envelope)
      requires Valid()
      modifies this, snapshot
      ensures Valid() && Moved(envelope.event, envelope.recordId)
    {
      match envelope.event {
        case ObjectCreate(target, kind) => Create(target, kind, envelope.recordId);
        case CallbackRegister(callback, owner) => Register(callback, owner, envelope.recordId);
        case CaptureBind(capture, sites) => Bind(capture, sites, envelope.recordId);
        case CallbackUnregister(callback) => Unregister(callback, envelope.recordId);
        case CallbackInvoke(callback) => Invoke(callback, envelope.recordId);
        case ObjectDrop(target) => Drop(target, envelope.recordId);
        case ObjectFree(target) => Free(target, envelope.recordId);
        case Neutral =>
      }
    }

    method Create(target: Id, kind: ObjectKind, event: RecordId)
      requires Valid()
      modifies this`objects
      ensures Valid() && Moved(ObjectCreate(target, kind), event)
    {
      objects := objects[target := ObjectState(kind, Live)];
    }

    method Register(callback: Id, owner: Id, event: RecordId)
      requires Valid()
      modifies this`callbacks
      ensures Valid() && Moved(CallbackRegister(callback, owner), event)
    {
      callbacks := callbacks[callback := CallbackState(owner, true)];
    }

    method Bind(capture: Capture, sites: Sites, event: RecordId)
      requires Valid()
      modifies this`captures, snapshot
      ensures Valid() && Moved(CaptureBind(capture, sites), event)
    {
      if sites !in captureModes { return; }
      captures := captures[capture := CaptureState(captureModes[sites], true)];
      if captureModes[sites].Borrowed? && IsRetained(Contents(), capture.callback) {
        Record(BorrowedRetained, event, BorrowedCaptureRetainedCallback);
      }
    }

    method Invoke(callback: Id, event: RecordId)
      requires Valid()
      modifies snapshot
      ensures Valid() && Moved(CallbackInvoke(callback), event)
    {
      if IsRetained(Contents(), callback) && CapturesEnded(Contents(), callback) {
        Record(InvokedAfterEnd, event, CallbackInvokedAfterBorrowEnd);
      }
    }

    method Unregister(callback: Id, event: RecordId)
      requires Valid()
      modifies this`callbacks, snapshot
      ensures Valid() && Moved(CallbackUnregister(callback), event)
    {
      if IsRetained(Contents(), callback) && CapturesLive(Contents(), callback) {
        Record(ReleasedBeforeEnd, event, CallbackReleasedBeforeBorrowEnd);
      }
      if callback in callbacks {
        callbacks := callbacks[callback := callbacks[callback].(retained := false)];
      }
    }

    method Drop(target: Id, event: RecordId)
      requires Valid()
      modifies this, snapshot
      ensures Valid() && Moved(ObjectDrop(target), event)
    {
      End(target, Ended, event);
    }

    method Free(target: Id, event: RecordId)
      requires Valid()
      modifies this, snapshot
      ensures Valid() && Moved(ObjectFree(target), event)
    {
      End(target, Freed, event);
    }

    method End(target: Id, lifecycle: ObjectLifecycle, event: RecordId)
      requires Valid()
      modifies this, snapshot
      ensures Valid()
      ensures Contents() == EndObject(old(Contents()), target, lifecycle)
      ensures snapshot.log == old(snapshot.log) + Hits(EmittedAtEnd(old(Contents()), target), event)
    {
      if target !in objects { return; }
      var kind := objects[target].kind;
      ghost var borrows := Repeated(BorrowEndedRetained, |EndingRetained(Contents(), target)|);
      objects := objects[target := objects[target].(lifecycle := lifecycle)];
      EndBorrowedCaptures(target, event);
      if kind.ExternalOwner? { CloseOwner(target, event); }
      JoinLog(old(snapshot.log), borrows, OwnerFeedback(old(Contents()), target), event);
    }

    method CloseOwner(owner: Id, event: RecordId)
      requires Valid()
      modifies this`callbacks, snapshot
      ensures Valid()
      ensures callbacks == WithReleased(old(callbacks), owner)
      ensures snapshot.log == old(snapshot.log)
        + Hits(if OwnsRetained(old(callbacks), owner) then [ClosedOwnerWithRetainedCallback] else [], event)
    {
      RecordOwnerCloseFeedback(owner, event);
      callbacks := WithReleased(callbacks, owner);
    }

    method RecordOwnerCloseFeedback(owner: Id, event: RecordId)
      requires Valid()
      modifies snapshot
      ensures Valid()
      ensures snapshot.log == old(snapshot.log)
        + Hits(if OwnsRetained(callbacks, owner) then [ClosedOwnerWithRetainedCallback] else [], event)
    {
      if OwnsRetained(callbacks, owner) {
        Record(ClosedOwnerWithRetainedCallback, event, OwnerClosedBeforeCallbackRelease);
      }
    }

    method EndBorrowedCaptures(target: Id, event: RecordId)
      requires Valid()
      modifies this`captures, snapshot
      ensures Valid()
      ensures captures == WithEnded(old(captures), Ending(old(captures), target))
      ensures snapshot.log == old(snapshot.log) + EndHits(callbacks, Ending(old(captures), target), event)
    {
      var remaining := Ending(captures, target);
      ghost var ended: set<Capture> := {};
      while remaining != {}
        invariant Valid() && ended + remaining == Ending(old(captures), target) && ended !! remaining
        invariant captures == WithEnded(old(captures), ended)
        invariant snapshot.log == old(snapshot.log) + EndHits(callbacks, ended, event)
        decreases remaining
      {
        var capture :| capture in remaining;
        EndOneMore(old(captures), ended, capture);
        EndHitsOneMore(old(snapshot.log), callbacks, ended, capture, event);
        EndCapture(capture, event);
        remaining, ended := remaining - {capture}, ended + {capture};
      }
      assert ended == Ending(old(captures), target);
    }

    method EndCapture(capture: Capture, event: RecordId)
      requires Valid() && capture in captures
      modifies this`captures, snapshot
      ensures Valid()
      ensures captures == old(captures)[capture := old(captures)[capture].(active := false)]
      ensures snapshot.log == old(snapshot.log)
                            + if Holds(callbacks, capture.callback) then Hits([BorrowEndedRetained], event) else []
    {
      captures := captures[capture := captures[capture].(active := false)];
      if Holds(callbacks, capture.callback) {
        Record(BorrowEndedRetained, event, BorrowEndedRetainedCallback);
      }
    }
  }

  lemma EndOneMore(captures: map<Capture, CaptureState>, ended: set<Capture>, capture: Capture)
    requires capture in captures && capture !in ended
    ensures WithEnded(captures, ended)[capture := captures[capture].(active := false)] == WithEnded(captures, ended + {capture})
    ensures WithEnded(captures, ended)[capture] == captures[capture]
  {
  }

  /** The hits of ending these captures: one for each whose callback is retained. */
  ghost function EndHits(callbacks: map<Id, CallbackState>, ended: set<Capture>, event: RecordId): seq<Hit> {
    Hits(Repeated(BorrowEndedRetained, |RetainedOf(callbacks, ended)|), event)
  }

  lemma EndHitsOneMore(log: seq<Hit>, callbacks: map<Id, CallbackState>, ended: set<Capture>, capture: Capture, event: RecordId)
    requires capture !in ended
    ensures log + EndHits(callbacks, ended + {capture}, event)
         == log + EndHits(callbacks, ended, event)
          + if Holds(callbacks, capture.callback) then Hits([BorrowEndedRetained], event) else []
  {
    if Holds(callbacks, capture.callback) {
      assert RetainedOf(callbacks, ended + {capture}) == RetainedOf(callbacks, ended) + {capture};
    } else {
      assert RetainedOf(callbacks, ended + {capture}) == RetainedOf(callbacks, ended);
    }
  }

  lemma JoinLog(log: seq<Hit>, a: seq<FeedbackState>, b: seq<FeedbackState>, event: RecordId)
    ensures log + Hits(a, event) + Hits(b, event) == log + Hits(a + b, event)
  {
    HitsConcat(a, b, event);
  }

  lemma HitsConcat(a: seq<FeedbackState>, b: seq<FeedbackState>, event: RecordId)
    ensures Hits(a + b, event) == Hits(a, event) + Hits(b, event)
  {
  }

  /** Feeding a whole trace to a fresh observer. */
  method ObserveAll(modes: map<Sites, CaptureMode>, envelopes: seq<Envelope>) returns (observer: Observer)
    ensures fresh(observer) && fresh(observer.snapshot) && observer.Valid()
    ensures observer.Contents() == After(modes, Events(envelopes))
    ensures observer.snapshot.log == Log(modes, envelopes)
  {
    observer := new Observer(modes);
    for k := 0 to |envelopes|
      invariant fresh(observer) && fresh(observer.snapshot) && observer.Valid() && observer.captureModes == modes
      invariant observer.Contents() == After(modes, Events(envelopes[..k]))
      invariant observer.snapshot.log == Log(modes, envelopes[..k])
    {
      observer.Observe(envelopes[k]);
      assert envelopes[..k + 1][..k] == envelopes[..k];
      assert Events(envelopes[..k + 1])[..k] == Events(envelopes[..k]);
    }
    assert envelopes[..|envelopes|] == envelopes;
  }

  /** The log is the recorded states, each with the context that belongs to it. */
  lemma {:induction false} LogIsRecorded(modes: map<Sites, CaptureMode>, envelopes: seq<Envelope>)
    ensures StatesOf(Log(modes, envelopes)) == Feedback(modes, Events(envelopes))
  {
    if envelopes != [] {
      var last := |envelopes| - 1;
      LogIsRecorded(modes, envelopes[..last]);
      assert Events(envelopes)[..last] == Events(envelopes[..last]);
      var emitted := Emitted(modes, After(modes, Events(envelopes[..last])), envelopes[last].event);
      StatesOfHits(emitted, envelopes[last].recordId);
      StatesOfConcat(Log(modes, envelopes[..last]), Hits(emitted, envelopes[last].recordId));
    }
  }

  lemma LogNext(modes: map<Sites, CaptureMode>, envelopes: seq<Envelope>, k: nat)
    requires k < |envelopes|
    ensures Log(modes, envelopes[..k + 1]) == Log(modes, envelopes[..k])
      + Hits(Emitted(modes, After(modes, Events(envelopes[..k])), envelopes[k].event), envelopes[k].recordId)
  {
    assert envelopes[..k + 1][..k] == envelopes[..k];
  }

  lemma {:induction false} LogGrows(modes: map<Sites, CaptureMode>, envelopes: seq<Envelope>, k: nat, n: nat)
    requires k <= n <= |envelopes|
    ensures Log(modes, envelopes[..k]) <= Log(modes, envelopes[..n])
    decreases n - k
  {
    if k < n {
      LogGrows(modes, envelopes, k, n - 1);
      LogNext(modes, envelopes, n - 1);
    }
  }

  /**
   * Each state an event gives rise to is recorded in its turn, after everything earlier events gave rise to, with the
   * record of that event and the context of the state.
   */
  lemma HitAt(modes: map<Sites, CaptureMode>, envelopes: seq<Envelope>, k: nat, emitted: seq<FeedbackState>, i: nat)
    requires k < |envelopes| && i < |emitted|
    requires emitted == Emitted(modes, After(modes, Events(envelopes[..k])), envelopes[k].event)
    ensures
      var position := |Feedback(modes, Events(envelopes[..k]))| + i;
      && position < |Log(modes, envelopes)|
      && Log(modes, envelopes)[position].state == emitted[i]
      && Log(modes, envelopes)[position].event == envelopes[k].recordId
      && Log(modes, envelopes)[position].context == ContextFor(emitted[i])
  {
    LogNext(modes, envelopes, k);
    LogGrows(modes, envelopes, k + 1, |envelopes|);
    assert envelopes[..|envelopes|] == envelopes;
    LogLength(modes, envelopes[..k]);
    HitInMiddle(Log(modes, envelopes[..k]), emitted, envelopes[k].recordId, Log(modes, envelopes), i);
  }

  lemma LogLength(modes: map<Sites, CaptureMode>, envelopes: seq<Envelope>)
    ensures |Log(modes, envelopes)| == |Feedback(modes, Events(envelopes))|
  {
    LogIsRecorded(modes, envelopes);
    assert |StatesOf(Log(modes, envelopes))| == |Log(modes, envelopes)|;
  }

  lemma HitInMiddle(before: seq<Hit>, emitted: seq<FeedbackState>, event: RecordId, log: seq<Hit>, i: nat)
    requires before + Hits(emitted, event) <= log && i < |emitted|
    ensures |before| + i < |log| && log[|before| + i] == Hit(emitted[i], event, ContextFor(emitted[i]))
  {
    assert log[|before| + i] == (before + Hits(emitted, event))[|before| + i];
  }

  function StatesOf(log: seq<Hit>): seq<FeedbackState> {
    seq(|log|, i requires 0 <= i < |log| => log[i].state)
  }

  lemma StatesOfConcat(a: seq<Hit>, b: seq<Hit>)
    ensures StatesOf(a + b) == StatesOf(a) + StatesOf(b)
  {
  }

  lemma StatesOfHits(states: seq<FeedbackState>, event: RecordId)
    ensures StatesOf(Hits(states, event)) == states
  {
  }
}
