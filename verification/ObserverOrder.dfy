/** Which feedback states come before which, and how many ended borrows a trace can report. */
module ObserverOrder {
  import opened Support
  import opened FeedbackStates
  import opened ObserverModel
  import opened ObserverHistory
  import opened ObserverLaws

  // ---- Precedence ----

  /** Every callback is registered at most once, and captures only bind registered callbacks. */
  ghost predicate Disciplined(trace: seq<Event>) {
    && (forall i, j :: 0 <= i < j < |trace| && trace[i].CallbackRegister? ==> !Registers(trace[j], trace[i].callback))
    && (forall j :: 0 <= j < |trace| && trace[j].CaptureBind? ==> RegisteredBefore(trace, j, trace[j].capture.callback))
  }

  ghost predicate RegisteredBefore(trace: seq<Event>, end: nat, callback: Id)
    requires end <= |trace|
  {
    exists i :: 0 <= i < end && Registers(trace[i], callback)
  }

  lemma FrontIsDisciplined(trace: seq<Event>)
    requires trace != [] && Disciplined(trace)
    ensures Disciplined(Front(trace))
  {
    var last := |trace| - 1;
    forall j | 0 <= j < last && Front(trace)[j].CaptureBind?
      ensures RegisteredBefore(Front(trace), j, Front(trace)[j].capture.callback)
    {
      assert trace[j].CaptureBind? && RegisteredBefore(trace, j, trace[j].capture.callback);
      var i :| 0 <= i < j && Registers(trace[i], trace[j].capture.callback);
      assert Front(trace)[i] == trace[i];
    }
  }

  lemma KnownIffRegistered(modes: map<Sites, CaptureMode>, trace: seq<Event>, callback: Id)
    ensures callback in After(modes, trace).callbacks <==> RegisteredBefore(trace, |trace|, callback)
  {
    if callback in After(modes, trace).callbacks {
      CallbackNeverRegistered(modes, trace, callback);
    } else if RegisteredBefore(trace, |trace|, callback) {
      StaysKnown(modes, trace, callback);
    }
  }

  lemma {:induction false} StaysKnown(modes: map<Sites, CaptureMode>, trace: seq<Event>, callback: Id)
    requires RegisteredBefore(trace, |trace|, callback)
    ensures callback in After(modes, trace).callbacks
  {
    var i :| 0 <= i < |trace| && Registers(trace[i], callback);
    if i < |trace| - 1 {
      assert Front(trace)[i] == trace[i];
      StaysKnown(modes, Front(trace), callback);
    }
  }

  /** What a disciplined trace has recorded about a borrow of a retained callback. */
  ghost predicate Told(watch: Watch, feedback: seq<FeedbackState>, capture: Capture) {
    capture in watch.captures ==>
      && capture.callback in watch.callbacks
      && (watch.captures[capture].mode.Borrowed? && IsRetained(watch, capture.callback) ==>
            && BorrowedRetained in feedback
            && (!watch.captures[capture].active ==> BorrowEndedRetained in feedback))
  }

  lemma EndKeepsTold(modes: map<Sites, CaptureMode>, watch: Watch, event: Event, feedback: seq<FeedbackState>, capture: Capture)
    requires event.ObjectDrop? || event.ObjectFree?
    requires Told(watch, feedback, capture)
    ensures Told(Next(modes, watch, event), feedback + Emitted(modes, watch, event), capture)
  {
    if event.target in watch.objects && capture in Ending(watch.captures, event.target) && IsRetained(watch, capture.callback) {
      assert capture in EndingRetained(watch, event.target);
      assert EndingRetained(watch, event.target) != {};
      InRepeated(BorrowEndedRetained, |EndingRetained(watch, event.target)|, BorrowEndedRetained);
    }
  }

  lemma StepKeepsTold(modes: map<Sites, CaptureMode>, watch: Watch, event: Event, feedback: seq<FeedbackState>, capture: Capture)
    requires Told(watch, feedback, capture)
    requires event.CallbackRegister? ==> event.callback !in watch.callbacks
    requires event.CaptureBind? ==> event.capture.callback in watch.callbacks
    ensures Told(Next(modes, watch, event), feedback + Emitted(modes, watch, event), capture)
  {
    match event
    case ObjectDrop(_) => EndKeepsTold(modes, watch, event, feedback, capture);
    case ObjectFree(_) => EndKeepsTold(modes, watch, event, feedback, capture);
    case _ =>
  }

  lemma {:induction false} DisciplinedIsTold(modes: map<Sites, CaptureMode>, trace: seq<Event>, capture: Capture)
    requires Disciplined(trace)
    ensures Told(After(modes, trace), Feedback(modes, trace), capture)
  {
    if trace != [] {
      var last := |trace| - 1;
      FrontIsDisciplined(trace);
      DisciplinedIsTold(modes, Front(trace), capture);
      if trace[last].CallbackRegister? {
        KnownIffRegistered(modes, Front(trace), trace[last].callback);
      }
      if trace[last].CaptureBind? {
        KnownIffRegistered(modes, Front(trace), trace[last].capture.callback);
        var i :| 0 <= i < last && Registers(trace[i], trace[last].capture.callback);
        assert Front(trace)[i] == trace[i];
      }
      StepKeepsTold(modes, After(modes, Front(trace)), trace[last], Feedback(modes, Front(trace)), capture);
    }
  }

  /**
   * On a disciplined trace a callback invoked after its borrow ended was reported when the borrow ended, and every report
   * about an ended or released borrow comes after the report that it was retained.
   */
  lemma StatesComeInOrder(modes: map<Sites, CaptureMode>, trace: seq<Event>, event: Event, state: FeedbackState)
    requires Disciplined(trace) && state in Emitted(modes, After(modes, trace), event)
    ensures state == InvokedAfterEnd ==> BorrowEndedRetained in Feedback(modes, trace)
    ensures state in {InvokedAfterEnd, BorrowEndedRetained, ReleasedBeforeEnd} ==> BorrowedRetained in Feedback(modes, trace)
  {
    var watch := After(modes, trace);
    if state in {InvokedAfterEnd, BorrowEndedRetained, ReleasedBeforeEnd} {
      var capture := Witness(modes, watch, event, state);
      DisciplinedIsTold(modes, trace, capture);
    }
  }

  /** The borrow a report is about. */
  lemma Witness(modes: map<Sites, CaptureMode>, watch: Watch, event: Event, state: FeedbackState) returns (capture: Capture)
    requires state in Emitted(modes, watch, event)
    requires state in {InvokedAfterEnd, BorrowEndedRetained, ReleasedBeforeEnd}
    ensures IsBorrowed(watch.captures, capture, state != InvokedAfterEnd) && IsRetained(watch, capture.callback)
  {
    if event.CallbackInvoke? {
      capture :| capture in watch.captures && capture.callback == event.callback && IsBorrowed(watch.captures, capture, false);
    } else if event.CallbackUnregister? {
      capture :| capture in watch.captures && capture.callback == event.callback
                 && IsBorrowed(watch.captures, capture, true) && IsLive(watch, capture.target);
    } else {
      InRepeated(BorrowEndedRetained, |EndingRetained(watch, event.target)|, state);
      assert EndingRetained(watch, event.target) != {};
      capture :| capture in EndingRetained(watch, event.target);
    }
  }

  /** What one more event does to a trace's state and feedback. */
  lemma OneMore(modes: map<Sites, CaptureMode>, trace: seq<Event>, event: Event)
    ensures After(modes, trace + [event]) == Next(modes, After(modes, trace), event)
    ensures Feedback(modes, trace + [event]) == Feedback(modes, trace) + Emitted(modes, After(modes, trace), event)
  {
    assert (trace + [event])[..|trace|] == trace;
  }

  /** A trace that binds a borrow and lets go of the callback. */
  function LetGo(callback: Id, owner: Id, target: Id, sites: Sites): seq<Event> {
    [ObjectCreate(target, Tracked)] + [CallbackRegister(callback, owner)] + [CaptureBind(Capture(callback, target), sites)]
    + [CallbackUnregister(callback)]
  }

  lemma AfterLettingGo(callback: Id, owner: Id, target: Id, sites: Sites)
    ensures
      var modes := map[sites := Borrowed];
      var trace := LetGo(callback, owner, target, sites);
      && After(modes, trace) == Watch(map[target := ObjectState(Tracked, Live)], map[callback := CallbackState(owner, false)],
                                      map[Capture(callback, target) := CaptureState(Borrowed, true)])
      && BorrowEndedRetained !in Feedback(modes, trace)
  {
    var modes := map[sites := Borrowed];
    var capture := Capture(callback, target);
    var t1 := [ObjectCreate(target, Tracked)];
    OneMore(modes, [], ObjectCreate(target, Tracked));
    assert [] + t1 == t1;
    OneMore(modes, t1, CallbackRegister(callback, owner));
    var t2 := t1 + [CallbackRegister(callback, owner)];
    OneMore(modes, t2, CaptureBind(capture, sites));
    OneMore(modes, t2 + [CaptureBind(capture, sites)], CallbackUnregister(callback));
  }

  /** Without the discipline the order breaks: the invocation is reported although the end of the borrow never was. */
  lemma OrderNeedsDiscipline(callback: Id, owner: Id, target: Id, sites: Sites)
    ensures
      var modes := map[sites := Borrowed];
      var trace := LetGo(callback, owner, target, sites) + [ObjectDrop(target)] + [CallbackRegister(callback, owner)];
      && InvokedAfterEnd in Emitted(modes, After(modes, trace), CallbackInvoke(callback))
      && BorrowEndedRetained !in Feedback(modes, trace)
  {
    var modes := map[sites := Borrowed];
    var gone := LetGo(callback, owner, target, sites);
    AfterLettingGo(callback, owner, target, sites);
    OneMore(modes, gone, ObjectDrop(target));
    OneMore(modes, gone + [ObjectDrop(target)], CallbackRegister(callback, owner));
    assert EndingRetained(After(modes, gone), target) == {};
    assert IsBorrowed(After(modes, gone + [ObjectDrop(target)]).captures, Capture(callback, target), false);
  }

  // ---- Accounting ----

  function Count(feedback: seq<FeedbackState>, state: FeedbackState): nat {
    if feedback == [] then 0
    else Count(feedback[..|feedback| - 1], state) + if feedback[|feedback| - 1] == state then 1 else 0
  }

  lemma {:induction false} CountConcat(a: seq<FeedbackState>, b: seq<FeedbackState>, state: FeedbackState)
    ensures Count(a + b, state) == Count(a, state) + Count(b, state)
  {
    if b == [] {
      assert a + b == a;
    } else {
      var last := |b| - 1;
      assert (a + b)[..|a| + last] == a + b[..last];
      CountConcat(a, b[..last], state);
    }
  }

  lemma {:induction false} CountRepeated(state: FeedbackState, n: nat)
    ensures Count(Repeated(state, n), state) == n
  {
    if n > 0 {
      assert Repeated(state, n)[..n - 1] == Repeated(state, n - 1);
      CountRepeated(state, n - 1);
    }
  }

  function ActiveBorrows(captures: map<Capture, CaptureState>): set<Capture> {
    set capture | capture in captures && IsBorrowed(captures, capture, true)
  }

  /** How many events bind a borrowing capture. */
  function BorrowingBinds(modes: map<Sites, CaptureMode>, trace: seq<Event>): nat {
    if trace == [] then 0
    else
      var event := Last(trace);
      BorrowingBinds(modes, Front(trace))
      + if event.CaptureBind? && event.sites in modes && modes[event.sites].Borrowed? then 1 else 0
  }

  lemma CountAtEnd(watch: Watch, target: Id)
    requires target in watch.objects
    ensures Count(EmittedAtEnd(watch, target), BorrowEndedRetained) <= |Ending(watch.captures, target)|
  {
    var borrows := Repeated(BorrowEndedRetained, |EndingRetained(watch, target)|);
    CountConcat(borrows, OwnerFeedback(watch, target), BorrowEndedRetained);
    CountRepeated(BorrowEndedRetained, |EndingRetained(watch, target)|);
    SubsetCardinality(EndingRetained(watch, target), Ending(watch.captures, target));
    assert Count([ClosedOwnerWithRetainedCallback], BorrowEndedRetained) == 0;
  }

  lemma EndingLeaves(captures: map<Capture, CaptureState>, target: Id)
    ensures Ending(captures, target) <= ActiveBorrows(captures)
    ensures ActiveBorrows(WithEnded(captures, Ending(captures, target))) == ActiveBorrows(captures) - Ending(captures, target)
  {
  }

  lemma EndAccounts(modes: map<Sites, CaptureMode>, watch: Watch, event: Event)
    requires event.ObjectDrop? || event.ObjectFree?
    ensures Count(Emitted(modes, watch, event), BorrowEndedRetained) + |ActiveBorrows(Next(modes, watch, event).captures)|
         <= |ActiveBorrows(watch.captures)|
  {
    if event.target in watch.objects {
      CountAtEnd(watch, event.target);
      EndingLeaves(watch.captures, event.target);
    }
  }

  lemma BindAccounts(captures: map<Capture, CaptureState>, capture: Capture, mode: CaptureMode)
    ensures |ActiveBorrows(captures[capture := CaptureState(mode, true)])|
         <= |ActiveBorrows(captures)| + if mode.Borrowed? then 1 else 0
  {
    var next := ActiveBorrows(captures[capture := CaptureState(mode, true)]);
    if mode.Borrowed? {
      SubsetCardinality(next, ActiveBorrows(captures) + {capture});
    } else {
      SubsetCardinality(next, ActiveBorrows(captures));
    }
  }

  lemma CountSmall(modes: map<Sites, CaptureMode>, watch: Watch, event: Event)
    requires !event.ObjectDrop? && !event.ObjectFree?
    ensures Count(Emitted(modes, watch, event), BorrowEndedRetained) == 0
  {
  }

  /** Ended borrows reported plus borrows still active never exceed the borrowing captures ever bound. */
  lemma {:induction false} BorrowsAccounted(modes: map<Sites, CaptureMode>, trace: seq<Event>)
    ensures Count(Feedback(modes, trace), BorrowEndedRetained) + |ActiveBorrows(After(modes, trace).captures)|
         <= BorrowingBinds(modes, trace)
  {
    if trace == [] {
      assert ActiveBorrows(After(modes, trace).captures) == {};
    } else {
      BorrowsAccounted(modes, Front(trace));
      var watch, event := After(modes, Front(trace)), Last(trace);
      CountConcat(Feedback(modes, Front(trace)), Emitted(modes, watch, event), BorrowEndedRetained);
      if event.ObjectDrop? || event.ObjectFree? {
        EndAccounts(modes, watch, event);
      } else {
        CountSmall(modes, watch, event);
        if event.CaptureBind? && event.sites in modes { BindAccounts(watch.captures, event.capture, modes[event.sites]); }
      }
    }
  }
}
