/** The observer's maps say what rescanning the trace would say. */
module ObserverHistory {
  import opened ObserverModel

  // ---- Rescanning a trace ----

  predicate Creates(event: Event, target: Id) {
    event.ObjectCreate? && event.target == target
  }

  /** The object is dropped or freed. */
  predicate Ends(event: Event, target: Id) {
    (event.ObjectDrop? || event.ObjectFree?) && event.target == target
  }

  predicate Registers(event: Event, callback: Id) {
    event.CallbackRegister? && event.callback == callback
  }

  predicate Binds(modes: map<Sites, CaptureMode>, event: Event, capture: Capture) {
    event.CaptureBind? && event.capture == capture && event.sites in modes
  }

  /** The object is created at `i`, as that kind, and not again before `end`. */
  ghost predicate LastCreated(trace: seq<Event>, end: nat, i: nat, target: Id, kind: ObjectKind)
    requires end <= |trace|
  {
    && i < end && trace[i] == ObjectCreate(target, kind)
    && forall j :: i < j < end ==> !Creates(trace[j], target)
  }

  ghost predicate Created(trace: seq<Event>, end: nat, target: Id)
    requires end <= |trace|
  {
    exists i :: 0 <= i < end && Creates(trace[i], target)
  }

  /** The object ends at `j`, having been created before. */
  ghost predicate EndsAt(trace: seq<Event>, j: nat, target: Id)
    requires j < |trace|
  {
    Ends(trace[j], target) && Created(trace, j, target)
  }

  /** The owner closes at `j`, having been created last as an external owner. */
  ghost predicate ClosesAt(trace: seq<Event>, j: nat, owner: Id)
    requires j < |trace|
  {
    Ends(trace[j], owner) && exists i :: LastCreated(trace, j, i, owner, ExternalOwner)
  }

  ghost predicate LastRegistered(trace: seq<Event>, i: nat, callback: Id, owner: Id) {
    && i < |trace| && trace[i] == CallbackRegister(callback, owner)
    && forall j :: i < j < |trace| ==> !Registers(trace[j], callback)
  }

  /** Since `i` the callback was neither unregistered nor its owner closed. */
  ghost predicate Unreleased(trace: seq<Event>, i: nat, callback: Id, owner: Id) {
    forall j :: i < j < |trace| ==> trace[j] != CallbackUnregister(callback) && !ClosesAt(trace, j, owner)
  }

  /** The capture is bound at `i`, in that mode, and not again since. */
  ghost predicate LastBound(modes: map<Sites, CaptureMode>, trace: seq<Event>, i: nat, capture: Capture, mode: CaptureMode) {
    && i < |trace| && Binds(modes, trace[i], capture) && modes[trace[i].sites] == mode
    && forall j :: i < j < |trace| ==> !Binds(modes, trace[j], capture)
  }

  ghost predicate EndedSince(trace: seq<Event>, i: nat, target: Id) {
    exists j :: i < j < |trace| && EndsAt(trace, j, target)
  }

  /** The retention of a callback, read off the trace. */
  ghost predicate RetainedBy(trace: seq<Event>, callback: Id) {
    exists i, owner :: LastRegistered(trace, i, callback, owner) && Unreleased(trace, i, callback, owner)
  }

  /** A borrow that was ended, or is active, read off the trace. */
  ghost predicate BorrowedBy(modes: map<Sites, CaptureMode>, trace: seq<Event>, capture: Capture, active: bool) {
    exists i :: LastBound(modes, trace, i, capture, Borrowed) && (active <==> !EndedSince(trace, i, capture.target))
  }

  // ---- Prefixes ----

  function Front(trace: seq<Event>): seq<Event>
    requires trace != []
  {
    trace[..|trace| - 1]
  }

  function Last(trace: seq<Event>): Event
    requires trace != []
  {
    trace[|trace| - 1]
  }

  lemma SameCreated(trace: seq<Event>, end: nat, target: Id)
    requires trace != [] && end < |trace|
    ensures Created(trace, end, target) <==> Created(Front(trace), end, target)
  {
    if i :| 0 <= i < end && Creates(trace[i], target) { assert Front(trace)[i] == trace[i]; }
    if i :| 0 <= i < end && Creates(Front(trace)[i], target) { assert Front(trace)[i] == trace[i]; }
  }

  lemma SameLastCreated(trace: seq<Event>, end: nat, i: nat, target: Id, kind: ObjectKind)
    requires trace != [] && end < |trace|
    ensures LastCreated(trace, end, i, target, kind) <==> LastCreated(Front(trace), end, i, target, kind)
  {
    assert forall j :: 0 <= j < end ==> Front(trace)[j] == trace[j];
  }

  lemma SameCloses(trace: seq<Event>, j: nat, owner: Id)
    requires trace != [] && j < |trace| - 1
    ensures ClosesAt(trace, j, owner) <==> ClosesAt(Front(trace), j, owner)
  {
    if i :| LastCreated(trace, j, i, owner, ExternalOwner) { SameLastCreated(trace, j, i, owner, ExternalOwner); }
    if i :| LastCreated(Front(trace), j, i, owner, ExternalOwner) { SameLastCreated(trace, j, i, owner, ExternalOwner); }
  }

  lemma SameEnds(trace: seq<Event>, j: nat, target: Id)
    requires trace != [] && j < |trace| - 1
    ensures EndsAt(trace, j, target) <==> EndsAt(Front(trace), j, target)
  {
    SameCreated(trace, j, target);
  }

  // ---- Objects ----

  /** The lifecycle an object has after its last creation at `i`: set by the last drop or free since. */
  ghost predicate LifecycleSince(trace: seq<Event>, i: nat, target: Id, lifecycle: ObjectLifecycle) {
    if lifecycle.Live? then forall j :: i < j < |trace| ==> !Ends(trace[j], target)
    else exists j :: LastEnded(trace, i, j, target, lifecycle)
  }

  ghost predicate LastEnded(trace: seq<Event>, i: nat, j: nat, target: Id, lifecycle: ObjectLifecycle) {
    && i < j < |trace| && trace[j] == (if lifecycle.Ended? then ObjectDrop(target) else ObjectFree(target))
    && forall k :: j < k < |trace| ==> !Ends(trace[k], target)
  }

  lemma {:induction false} ObjectNeverCreated(modes: map<Sites, CaptureMode>, trace: seq<Event>, target: Id)
    ensures target in After(modes, trace).objects <==> Created(trace, |trace|, target)
  {
    if trace != [] {
      ObjectNeverCreated(modes, Front(trace), target);
      SameCreated(trace, |trace| - 1, target);
      if i :| 0 <= i < |trace| && Creates(trace[i], target) {
        assert i < |trace| - 1 ==> Created(trace, |trace| - 1, target);
      }
    }
  }

  /** The object map holds the kind and lifecycle the trace gives an object. */
  lemma {:induction false} ObjectAgrees(modes: map<Sites, CaptureMode>, trace: seq<Event>, i: nat, target: Id, kind: ObjectKind)
    requires LastCreated(trace, |trace|, i, target, kind)
    ensures target in After(modes, trace).objects
    ensures After(modes, trace).objects[target].kind == kind
    ensures LifecycleSince(trace, i, target, After(modes, trace).objects[target].lifecycle)
  {
    var last := |trace| - 1;
    if i < last {
      SameLastCreated(trace, last, i, target, kind);
      ObjectAgrees(modes, Front(trace), i, target, kind);
      LifecycleSnoc(trace, i, target, After(modes, Front(trace)).objects[target].lifecycle);
    }
  }

  lemma LifecycleSnoc(trace: seq<Event>, i: nat, target: Id, lifecycle: ObjectLifecycle)
    requires i < |trace| - 1 && LifecycleSince(Front(trace), i, target, lifecycle)
    ensures LifecycleSince(trace, i, target,
                           if Last(trace) == ObjectDrop(target) then Ended
                           else if Last(trace) == ObjectFree(target) then Freed else lifecycle)
  {
    var last := |trace| - 1;
    assert forall j :: 0 <= j < last ==> Front(trace)[j] == trace[j];
    if Last(trace) == ObjectDrop(target) {
      assert LastEnded(trace, i, last, target, Ended);
    } else if Last(trace) == ObjectFree(target) {
      assert LastEnded(trace, i, last, target, Freed);
    } else if !lifecycle.Live? {
      var j :| LastEnded(Front(trace), i, j, target, lifecycle);
      assert LastEnded(trace, i, j, target, lifecycle);
    }
  }

  // ---- Callbacks ----

  lemma {:induction false} CallbackNeverRegistered(modes: map<Sites, CaptureMode>, trace: seq<Event>, callback: Id)
    requires callback in After(modes, trace).callbacks
    ensures exists i, owner :: LastRegistered(trace, i, callback, owner)
  {
    var last := |trace| - 1;
    if Registers(Last(trace), callback) {
      assert LastRegistered(trace, last, callback, Last(trace).owner);
    } else {
      CallbackNeverRegistered(modes, Front(trace), callback);
      var i, owner :| LastRegistered(Front(trace), i, callback, owner);
      assert forall j :: 0 <= j < last ==> Front(trace)[j] == trace[j];
      assert LastRegistered(trace, i, callback, owner);
    }
  }

  /** The owner known for a closing object is right. */
  lemma ClosingOwner(modes: map<Sites, CaptureMode>, trace: seq<Event>, owner: Id)
    requires trace != []
    ensures ClosesAt(trace, |trace| - 1, owner) <==>
      && Ends(Last(trace), owner)
      && owner in After(modes, Front(trace)).objects
      && After(modes, Front(trace)).objects[owner].kind.ExternalOwner?
  {
    var last := |trace| - 1;
    if i :| LastCreated(trace, last, i, owner, ExternalOwner) {
      SameLastCreated(trace, last, i, owner, ExternalOwner);
      ObjectAgrees(modes, Front(trace), i, owner, ExternalOwner);
    }
    if owner in After(modes, Front(trace)).objects {
      ObjectNeverCreated(modes, Front(trace), owner);
      var i, kind := LastCreation(Front(trace), owner);
      ObjectAgrees(modes, Front(trace), i, owner, kind);
      SameLastCreated(trace, last, i, owner, kind);
    }
  }

  lemma {:induction false} LastCreation(trace: seq<Event>, target: Id) returns (i: nat, kind: ObjectKind)
    requires Created(trace, |trace|, target)
    ensures LastCreated(trace, |trace|, i, target, kind)
  {
    if Creates(Last(trace), target) {
      i, kind := |trace| - 1, Last(trace).kind;
    } else {
      var k :| 0 <= k < |trace| && Creates(trace[k], target);
      assert Front(trace)[k] == trace[k];
      i, kind := LastCreation(Front(trace), target);
      SameLastCreated(trace, |trace| - 1, i, target, kind);
    }
  }

  lemma UnreleasedSnoc(trace: seq<Event>, i: nat, callback: Id, owner: Id)
    requires i < |trace| - 1
    ensures Unreleased(trace, i, callback, owner) <==>
      && Unreleased(Front(trace), i, callback, owner)
      && Last(trace) != CallbackUnregister(callback) && !ClosesAt(trace, |trace| - 1, owner)
  {
    forall j | i < j < |trace| - 1
      ensures Front(trace)[j] == trace[j] && (ClosesAt(trace, j, owner) <==> ClosesAt(Front(trace), j, owner))
    {
      SameCloses(trace, j, owner);
    }
  }

  /** The callback map holds the owner of the last registration, and whether it has been released since. */
  lemma {:induction false} CallbackAgrees(modes: map<Sites, CaptureMode>, trace: seq<Event>, i: nat, callback: Id, owner: Id)
    requires LastRegistered(trace, i, callback, owner)
    ensures callback in After(modes, trace).callbacks
    ensures After(modes, trace).callbacks[callback].owner == owner
    ensures After(modes, trace).callbacks[callback].retained <==> Unreleased(trace, i, callback, owner)
  {
    var last := |trace| - 1;
    if i < last {
      assert forall j :: 0 <= j < last ==> Front(trace)[j] == trace[j];
      assert LastRegistered(Front(trace), i, callback, owner);
      CallbackAgrees(modes, Front(trace), i, callback, owner);
      UnreleasedSnoc(trace, i, callback, owner);
      ClosingOwner(modes, trace, owner);
    }
  }

  lemma RetainedAgrees(modes: map<Sites, CaptureMode>, trace: seq<Event>, callback: Id)
    ensures IsRetained(After(modes, trace), callback) <==> RetainedBy(trace, callback)
  {
    if callback in After(modes, trace).callbacks {
      CallbackNeverRegistered(modes, trace, callback);
      var i, owner :| LastRegistered(trace, i, callback, owner);
      CallbackAgrees(modes, trace, i, callback, owner);
    }
    if i, owner :| LastRegistered(trace, i, callback, owner) && Unreleased(trace, i, callback, owner) {
      CallbackAgrees(modes, trace, i, callback, owner);
    }
  }

  // ---- Captures ----

  lemma {:induction false} CaptureNeverBound(modes: map<Sites, CaptureMode>, trace: seq<Event>, capture: Capture)
    requires capture in After(modes, trace).captures
    ensures exists i, mode :: LastBound(modes, trace, i, capture, mode)
  {
    var last := |trace| - 1;
    if Binds(modes, Last(trace), capture) {
      assert LastBound(modes, trace, last, capture, modes[Last(trace).sites]);
    } else {
      CaptureNeverBound(modes, Front(trace), capture);
      var i, mode :| LastBound(modes, Front(trace), i, capture, mode);
      assert forall j :: 0 <= j < last ==> Front(trace)[j] == trace[j];
      assert LastBound(modes, trace, i, capture, mode);
    }
  }

  lemma EndedSinceSnoc(trace: seq<Event>, i: nat, target: Id)
    requires i < |trace| - 1
    ensures EndedSince(trace, i, target) <==> EndedSince(Front(trace), i, target) || EndsAt(trace, |trace| - 1, target)
  {
    forall j | i < j < |trace| - 1 ensures EndsAt(trace, j, target) <==> EndsAt(Front(trace), j, target) {
      SameEnds(trace, j, target);
    }
    if j :| i < j < |Front(trace)| && EndsAt(Front(trace), j, target) {
      assert EndsAt(trace, j, target);
    }
  }

  /** The capture map holds the mode of the last binding, and whether a borrow has been ended since. */
  lemma {:induction false} CaptureAgrees(modes: map<Sites, CaptureMode>, trace: seq<Event>, i: nat, capture: Capture, mode: CaptureMode)
    requires LastBound(modes, trace, i, capture, mode)
    ensures capture in After(modes, trace).captures
    ensures After(modes, trace).captures[capture]
         == CaptureState(mode, mode.Owned? || !EndedSince(trace, i, capture.target))
  {
    var last := |trace| - 1;
    if i < last {
      assert forall j :: 0 <= j < last ==> Front(trace)[j] == trace[j];
      assert LastBound(modes, Front(trace), i, capture, mode);
      CaptureAgrees(modes, Front(trace), i, capture, mode);
      EndedSinceSnoc(trace, i, capture.target);
      ObjectNeverCreated(modes, Front(trace), capture.target);
      SameCreated(trace, last, capture.target);
    }
  }

  lemma BorrowAgrees(modes: map<Sites, CaptureMode>, trace: seq<Event>, capture: Capture, active: bool)
    ensures IsBorrowed(After(modes, trace).captures, capture, active) <==> BorrowedBy(modes, trace, capture, active)
  {
    if capture in After(modes, trace).captures {
      CaptureNeverBound(modes, trace, capture);
      var i, mode :| LastBound(modes, trace, i, capture, mode);
      CaptureAgrees(modes, trace, i, capture, mode);
    }
    if i :| LastBound(modes, trace, i, capture, Borrowed) && (active <==> !EndedSince(trace, i, capture.target)) {
      CaptureAgrees(modes, trace, i, capture, Borrowed);
    }
  }
}
