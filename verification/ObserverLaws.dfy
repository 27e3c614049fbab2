/** What the recorded feedback means, which states come first, and how many borrows it can account for. */
module ObserverLaws {
  import opened FeedbackStates
  import opened ObserverModel
  import opened ObserverHistory

  // ---- When a state is recorded ----

  ghost predicate LiveBy(trace: seq<Event>, target: Id) {
    exists i, kind :: LastCreated(trace, |trace|, i, target, kind) && LifecycleSince(trace, i, target, Live)
  }

  ghost predicate OwnsRetainedBy(trace: seq<Event>, owner: Id) {
    exists callback :: OwnedBy(trace, callback, owner)
  }

  ghost predicate OwnedBy(trace: seq<Event>, callback: Id, owner: Id) {
    exists i :: LastRegistered(trace, i, callback, owner) && Unreleased(trace, i, callback, owner)
  }

  /** The event ends this borrow of a retained callback. */
  ghost predicate BorrowEnds(modes: map<Sites, CaptureMode>, trace: seq<Event>, target: Id, capture: Capture) {
    capture.target == target && BorrowedBy(modes, trace, capture, true) && RetainedBy(trace, capture.callback)
  }

  ghost predicate BorrowLives(modes: map<Sites, CaptureMode>, trace: seq<Event>, callback: Id, capture: Capture) {
    capture.callback == callback && BorrowedBy(modes, trace, capture, true) && LiveBy(trace, capture.target)
  }

  ghost predicate BorrowEnded(modes: map<Sites, CaptureMode>, trace: seq<Event>, callback: Id, capture: Capture) {
    capture.callback == callback && BorrowedBy(modes, trace, capture, false)
  }

  /** The history up to an event makes the event give rise to the state. */
  ghost predicate Causes(modes: map<Sites, CaptureMode>, trace: seq<Event>, event: Event, state: FeedbackState) {
    match state
    case BorrowedRetained =>
      event.CaptureBind? && event.sites in modes && modes[event.sites].Borrowed? && RetainedBy(trace, event.capture.callback)
    case BorrowEndedRetained =>
      && (event.ObjectDrop? || event.ObjectFree?) && Created(trace, |trace|, event.target)
      && exists capture :: BorrowEnds(modes, trace, event.target, capture)
    case InvokedAfterEnd =>
      && event.CallbackInvoke? && RetainedBy(trace, event.callback)
      && exists capture :: BorrowEnded(modes, trace, event.callback, capture)
    case ReleasedBeforeEnd =>
      && event.CallbackUnregister? && RetainedBy(trace, event.callback)
      && exists capture :: BorrowLives(modes, trace, event.callback, capture)
    case ClosedOwnerWithRetainedCallback =>
      && (event.ObjectDrop? || event.ObjectFree?) && OwnsRetainedBy(trace, event.target)
      && exists i :: LastCreated(trace, |trace|, i, event.target, ExternalOwner)
  }

  lemma LiveAgrees(modes: map<Sites, CaptureMode>, trace: seq<Event>, target: Id)
    ensures IsLive(After(modes, trace), target) <==> LiveBy(trace, target)
  {
    if target in After(modes, trace).objects {
      ObjectNeverCreated(modes, trace, target);
      var i, kind := LastCreation(trace, target);
      ObjectAgrees(modes, trace, i, target, kind);
      OneLifecycle(trace, i, target, After(modes, trace).objects[target].lifecycle);
    }
    if i, kind :| LastCreated(trace, |trace|, i, target, kind) && LifecycleSince(trace, i, target, Live) {
      ObjectAgrees(modes, trace, i, target, kind);
      OneLifecycle(trace, i, target, After(modes, trace).objects[target].lifecycle);
    }
  }

  lemma OneLifecycle(trace: seq<Event>, i: nat, target: Id, lifecycle: ObjectLifecycle)
    requires LifecycleSince(trace, i, target, lifecycle)
    ensures LifecycleSince(trace, i, target, Live) <==> lifecycle.Live?
    ensures forall k, kind :: LastCreated(trace, |trace|, k, target, kind) && LastCreated(trace, |trace|, i, target, kind) ==> k == i
  {
  }

  lemma OwnsRetainedAgrees(modes: map<Sites, CaptureMode>, trace: seq<Event>, owner: Id)
    ensures OwnsRetained(After(modes, trace).callbacks, owner) <==> OwnsRetainedBy(trace, owner)
  {
    var callbacks := After(modes, trace).callbacks;
    if callback :| callback in callbacks && callbacks[callback] == CallbackState(owner, true) {
      CallbackNeverRegistered(modes, trace, callback);
      var i, last :| LastRegistered(trace, i, callback, last);
      CallbackAgrees(modes, trace, i, callback, last);
      assert OwnedBy(trace, callback, owner);
    }
    if callback :| OwnedBy(trace, callback, owner) {
      var i :| LastRegistered(trace, i, callback, owner) && Unreleased(trace, i, callback, owner);
      CallbackAgrees(modes, trace, i, callback, owner);
    }
  }

  lemma InRepeated(state: FeedbackState, n: nat, other: FeedbackState)
    ensures other in Repeated(state, n) <==> n > 0 && other == state
  {
    if n > 0 { assert Repeated(state, n)[0] == state; }
  }

  lemma EndingRetainedAgrees(modes: map<Sites, CaptureMode>, trace: seq<Event>, target: Id)
    ensures |EndingRetained(After(modes, trace), target)| > 0 <==> exists capture :: BorrowEnds(modes, trace, target, capture)
  {
    var ending := EndingRetained(After(modes, trace), target);
    forall capture ensures capture in ending <==> BorrowEnds(modes, trace, target, capture) {
      BorrowAgrees(modes, trace, capture, true);
      RetainedAgrees(modes, trace, capture.callback);
    }
    if |ending| > 0 {
      var capture :| capture in ending;
    }
  }

  lemma EndCauses(modes: map<Sites, CaptureMode>, trace: seq<Event>, event: Event, state: FeedbackState)
    requires event.ObjectDrop? || event.ObjectFree?
    ensures state in Emitted(modes, After(modes, trace), event) <==> Causes(modes, trace, event, state)
  {
    var watch := After(modes, trace);
    ObjectNeverCreated(modes, trace, event.target);
    EndingRetainedAgrees(modes, trace, event.target);
    OwnsRetainedAgrees(modes, trace, event.target);
    InRepeated(BorrowEndedRetained, |EndingRetained(watch, event.target)|, state);
    ExternalAgrees(modes, trace, event.target);
  }

  lemma ExternalAgrees(modes: map<Sites, CaptureMode>, trace: seq<Event>, owner: Id)
    ensures (exists i :: LastCreated(trace, |trace|, i, owner, ExternalOwner)) <==>
      owner in After(modes, trace).objects && After(modes, trace).objects[owner].kind.ExternalOwner?
  {
    if i :| LastCreated(trace, |trace|, i, owner, ExternalOwner) {
      ObjectAgrees(modes, trace, i, owner, ExternalOwner);
    }
    if owner in After(modes, trace).objects {
      ObjectNeverCreated(modes, trace, owner);
      var i, kind := LastCreation(trace, owner);
      ObjectAgrees(modes, trace, i, owner, kind);
    }
  }

  lemma UnregisterCauses(modes: map<Sites, CaptureMode>, trace: seq<Event>, callback: Id)
    ensures CapturesLive(After(modes, trace), callback) <==> exists capture :: BorrowLives(modes, trace, callback, capture)
  {
    forall capture
      ensures BorrowLives(modes, trace, callback, capture) <==>
        && capture.callback == callback && IsBorrowed(After(modes, trace).captures, capture, true)
        && IsLive(After(modes, trace), capture.target)
    {
      BorrowAgrees(modes, trace, capture, true);
      LiveAgrees(modes, trace, capture.target);
    }
  }

  lemma InvokeCauses(modes: map<Sites, CaptureMode>, trace: seq<Event>, callback: Id)
    ensures CapturesEnded(After(modes, trace), callback) <==> exists capture :: BorrowEnded(modes, trace, callback, capture)
  {
    forall capture
      ensures BorrowEnded(modes, trace, callback, capture) <==>
        capture.callback == callback && IsBorrowed(After(modes, trace).captures, capture, false)
    {
      BorrowAgrees(modes, trace, capture, false);
    }
  }

  /** An event gives rise to exactly the states the history before it calls for. */
  lemma EmittedIffCaused(modes: map<Sites, CaptureMode>, trace: seq<Event>, event: Event, state: FeedbackState)
    ensures state in Emitted(modes, After(modes, trace), event) <==> Causes(modes, trace, event, state)
  {
    match event
    case CaptureBind(capture, _) => RetainedAgrees(modes, trace, capture.callback);
    case CallbackUnregister(callback) =>
      RetainedAgrees(modes, trace, callback);
      UnregisterCauses(modes, trace, callback);
    case CallbackInvoke(callback) =>
      RetainedAgrees(modes, trace, callback);
      InvokeCauses(modes, trace, callback);
    case ObjectDrop(_) => EndCauses(modes, trace, event, state);
    case ObjectFree(_) => EndCauses(modes, trace, event, state);
    case _ =>
  }

  /** These are the borrows the event ends whose callbacks are retained. */
  ghost predicate EndedBy(modes: map<Sites, CaptureMode>, trace: seq<Event>, event: Event, ending: set<Capture>) {
    forall capture :: capture in ending <==>
      && (event.ObjectDrop? || event.ObjectFree?) && Created(trace, |trace|, event.target)
      && BorrowEnds(modes, trace, event.target, capture)
  }

  ghost function Once(modes: map<Sites, CaptureMode>, trace: seq<Event>, event: Event, state: FeedbackState): seq<FeedbackState> {
    if Causes(modes, trace, event, state) then [state] else []
  }

  lemma EndEmits(modes: map<Sites, CaptureMode>, trace: seq<Event>, event: Event, ending: set<Capture>)
    requires (event.ObjectDrop? || event.ObjectFree?) && EndedBy(modes, trace, event, ending)
    ensures Emitted(modes, After(modes, trace), event)
      == seq(|ending|, _ => BorrowEndedRetained) + Once(modes, trace, event, ClosedOwnerWithRetainedCallback)
  {
    var watch := After(modes, trace);
    ObjectNeverCreated(modes, trace, event.target);
    OwnsRetainedAgrees(modes, trace, event.target);
    ExternalAgrees(modes, trace, event.target);
    EndCauses(modes, trace, event, ClosedOwnerWithRetainedCallback);
    if event.target in watch.objects {
      BorrowsAgree(modes, trace, event.target);
      assert ending == EndingRetained(watch, event.target);
    } else {
      assert ending == {};
    }
  }

  lemma BorrowsAgree(modes: map<Sites, CaptureMode>, trace: seq<Event>, target: Id)
    ensures forall capture ::
      capture in EndingRetained(After(modes, trace), target) <==> BorrowEnds(modes, trace, target, capture)
  {
    forall capture
      ensures capture in EndingRetained(After(modes, trace), target) <==> BorrowEnds(modes, trace, target, capture)
    {
      BorrowAgrees(modes, trace, capture, true);
      RetainedAgrees(modes, trace, capture.callback);
    }
  }

  /**
   * What an event gives rise to, exactly: one ended borrow for each that the history says it ends, then the owner's
   * state; every other state at most once.
   */
  lemma EmittedExactly(modes: map<Sites, CaptureMode>, trace: seq<Event>, event: Event, ending: set<Capture>)
    requires EndedBy(modes, trace, event, ending)
    ensures Emitted(modes, After(modes, trace), event)
      == seq(|ending|, _ => BorrowEndedRetained)
         + (Once(modes, trace, event, BorrowedRetained) + Once(modes, trace, event, InvokedAfterEnd)
            + Once(modes, trace, event, ReleasedBeforeEnd) + Once(modes, trace, event, ClosedOwnerWithRetainedCallback))
  {
    if event.ObjectDrop? || event.ObjectFree? {
      EndEmits(modes, trace, event, ending);
    } else {
      assert ending == {};
      EmittedIffCaused(modes, trace, event, BorrowedRetained);
      EmittedIffCaused(modes, trace, event, InvokedAfterEnd);
      EmittedIffCaused(modes, trace, event, ReleasedBeforeEnd);
    }
  }

  ghost predicate CausedAt(modes: map<Sites, CaptureMode>, trace: seq<Event>, k: nat, state: FeedbackState) {
    k < |trace| && Causes(modes, trace[..k], trace[k], state)
  }

  lemma SameCause(modes: map<Sites, CaptureMode>, trace: seq<Event>, k: nat, state: FeedbackState)
    requires k < |trace| - 1
    ensures CausedAt(modes, trace, k, state) <==> CausedAt(modes, Front(trace), k, state)
  {
    assert Front(trace)[..k] == trace[..k];
  }

  ghost predicate EverCaused(modes: map<Sites, CaptureMode>, trace: seq<Event>, state: FeedbackState) {
    exists k: nat :: CausedAt(modes, trace, k, state)
  }

  lemma EverCausedSnoc(modes: map<Sites, CaptureMode>, trace: seq<Event>, state: FeedbackState)
    requires trace != []
    ensures EverCaused(modes, trace, state) <==>
      EverCaused(modes, Front(trace), state) || Causes(modes, Front(trace), Last(trace), state)
  {
    var last := |trace| - 1;
    assert CausedAt(modes, trace, last, state) <==> Causes(modes, Front(trace), Last(trace), state);
    forall k: nat | k < last ensures CausedAt(modes, trace, k, state) <==> CausedAt(modes, Front(trace), k, state) {
      SameCause(modes, trace, k, state);
    }
  }

  lemma FeedbackSnoc(modes: map<Sites, CaptureMode>, trace: seq<Event>, state: FeedbackState)
    requires trace != []
    ensures state in Feedback(modes, trace) <==>
      state in Feedback(modes, Front(trace)) || state in Emitted(modes, After(modes, Front(trace)), Last(trace))
  {
  }

  /** A state has been recorded exactly if some event, after what came before it, caused it. */
  lemma {:induction false} RecordedIffCaused(modes: map<Sites, CaptureMode>, trace: seq<Event>, state: FeedbackState)
    ensures state in Feedback(modes, trace) <==> EverCaused(modes, trace, state)
  {
    if trace != [] {
      RecordedIffCaused(modes, Front(trace), state);
      EmittedIffCaused(modes, Front(trace), Last(trace), state);
      EverCausedSnoc(modes, trace, state);
      FeedbackSnoc(modes, trace, state);
    }
  }
}
