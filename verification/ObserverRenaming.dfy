/** Feedback does not depend on which instance identities a run happens to use. */
module ObserverRenaming {
  import opened ObserverModel

  ghost predicate Injective<K(!new)>(f: K -> K) {
    forall a, b :: f(a) == f(b) ==> a == b
  }

  /** The map with its keys and values renamed. */
  ghost function Moved<K(!new), V>(f: K -> K, g: V -> V, m: map<K, V>): map<K, V>
    requires Injective(f)
  {
    map k | k in m :: f(k) := g(m[k])
  }

  lemma MovedAt<K(!new), V>(f: K -> K, g: V -> V, m: map<K, V>, k: K)
    requires Injective(f)
    ensures k in m <==> f(k) in Moved(f, g, m)
    ensures k in m ==> Moved(f, g, m)[f(k)] == g(m[k])
  {
  }

  lemma MovedUpdate<K(!new), V>(f: K -> K, g: V -> V, m: map<K, V>, k: K, v: V)
    requires Injective(f)
    ensures Moved(f, g, m[k := v]) == Moved(f, g, m)[f(k) := g(v)]
  {
    MovedAt(f, g, m, k);
  }

  ghost function Image<K(!new)>(f: K -> K, s: set<K>): set<K> {
    set k | k in s :: f(k)
  }

  lemma {:induction false} ImageCardinality<K(!new)>(f: K -> K, s: set<K>)
    requires Injective(f)
    ensures |Image(f, s)| == |s|
  {
    if s != {} {
      var k :| k in s;
      ImageCardinality(f, s - {k});
      assert Image(f, s) == Image(f, s - {k}) + {f(k)};
      assert f(k) !in Image(f, s - {k});
    }
  }

  // ---- Renaming captures, watches and events ----

  function OfCapture(f: Id -> Id): Capture -> Capture {
    (capture: Capture) => Capture(f(capture.callback), f(capture.target))
  }

  lemma OfCaptureInjective(f: Id -> Id)
    requires Injective(f)
    ensures Injective(OfCapture(f))
  {
    forall a, b | OfCapture(f)(a) == OfCapture(f)(b) ensures a == b {
      assert f(a.callback) == f(b.callback) && f(a.target) == f(b.target);
    }
  }

  function OfCallback(f: Id -> Id): CallbackState -> CallbackState {
    (state: CallbackState) => state.(owner := f(state.owner))
  }

  function Same<V>(v: V): V { v }

  ghost function Objects(f: Id -> Id, objects: map<Id, ObjectState>): map<Id, ObjectState>
    requires Injective(f)
  {
    Moved(f, Same<ObjectState>, objects)
  }

  ghost function Callbacks(f: Id -> Id, callbacks: map<Id, CallbackState>): map<Id, CallbackState>
    requires Injective(f)
  {
    Moved(f, OfCallback(f), callbacks)
  }

  ghost function Captures(f: Id -> Id, captures: map<Capture, CaptureState>): map<Capture, CaptureState>
    requires Injective(f)
  {
    OfCaptureInjective(f);
    Moved(OfCapture(f), Same<CaptureState>, captures)
  }

  ghost function OfWatch(f: Id -> Id, watch: Watch): Watch
    requires Injective(f)
  {
    Watch(Objects(f, watch.objects), Callbacks(f, watch.callbacks), Captures(f, watch.captures))
  }

  function OfEvent(f: Id -> Id, event: Event): Event {
    match event
    case ObjectCreate(target, kind) => ObjectCreate(f(target), kind)
    case CallbackRegister(callback, owner) => CallbackRegister(f(callback), f(owner))
    case CaptureBind(capture, sites) => CaptureBind(OfCapture(f)(capture), sites)
    case CallbackUnregister(callback) => CallbackUnregister(f(callback))
    case CallbackInvoke(callback) => CallbackInvoke(f(callback))
    case ObjectDrop(target) => ObjectDrop(f(target))
    case ObjectFree(target) => ObjectFree(f(target))
    case Neutral => Neutral
  }

  function OfTrace(f: Id -> Id, trace: seq<Event>): seq<Event> {
    seq(|trace|, i requires 0 <= i < |trace| => OfEvent(f, trace[i]))
  }

  // ---- Queries see no difference ----

  lemma SameHolds(f: Id -> Id, callbacks: map<Id, CallbackState>, callback: Id)
    requires Injective(f)
    ensures Holds(Callbacks(f, callbacks), f(callback)) <==> Holds(callbacks, callback)
  {
    MovedAt(f, OfCallback(f), callbacks, callback);
  }

  lemma SameBorrowed(f: Id -> Id, captures: map<Capture, CaptureState>, capture: Capture, active: bool)
    requires Injective(f)
    ensures IsBorrowed(Captures(f, captures), OfCapture(f)(capture), active) <==> IsBorrowed(captures, capture, active)
  {
    OfCaptureInjective(f);
    MovedAt(OfCapture(f), Same<CaptureState>, captures, capture);
  }

  lemma SameLive(f: Id -> Id, watch: Watch, target: Id)
    requires Injective(f)
    ensures IsLive(OfWatch(f, watch), f(target)) <==> IsLive(watch, target)
  {
    MovedAt(f, Same<ObjectState>, watch.objects, target);
  }

  lemma SameCapturesEnded(f: Id -> Id, watch: Watch, callback: Id)
    requires Injective(f)
    ensures CapturesEnded(OfWatch(f, watch), f(callback)) <==> CapturesEnded(watch, callback)
  {
    forall capture | capture in watch.captures
      ensures OfCapture(f)(capture) in Captures(f, watch.captures)
      ensures IsBorrowed(Captures(f, watch.captures), OfCapture(f)(capture), false) <==> IsBorrowed(watch.captures, capture, false)
    {
      OfCaptureInjective(f);
      SameBorrowed(f, watch.captures, capture, false);
    }
  }

  lemma SameCapturesLive(f: Id -> Id, watch: Watch, callback: Id)
    requires Injective(f)
    ensures CapturesLive(OfWatch(f, watch), f(callback)) <==> CapturesLive(watch, callback)
  {
    forall capture | capture in watch.captures
      ensures OfCapture(f)(capture) in Captures(f, watch.captures)
      ensures IsBorrowed(Captures(f, watch.captures), OfCapture(f)(capture), true) <==> IsBorrowed(watch.captures, capture, true)
      ensures IsLive(OfWatch(f, watch), f(capture.target)) <==> IsLive(watch, capture.target)
    {
      OfCaptureInjective(f);
      SameBorrowed(f, watch.captures, capture, true);
      SameLive(f, watch, capture.target);
    }
  }

  lemma SameOwnsRetained(f: Id -> Id, callbacks: map<Id, CallbackState>, owner: Id)
    requires Injective(f)
    ensures OwnsRetained(Callbacks(f, callbacks), f(owner)) <==> OwnsRetained(callbacks, owner)
  {
    forall callback | callback in callbacks
      ensures f(callback) in Callbacks(f, callbacks)
      ensures Callbacks(f, callbacks)[f(callback)] == CallbackState(f(owner), true)
         <==> callbacks[callback] == CallbackState(owner, true)
    {
      MovedAt(f, OfCallback(f), callbacks, callback);
    }
  }

  lemma MovedEnding(f: Id -> Id, captures: map<Capture, CaptureState>, target: Id)
    requires Injective(f)
    ensures Ending(Captures(f, captures), f(target)) == Image(OfCapture(f), Ending(captures, target))
  {
    OfCaptureInjective(f);
    forall capture | capture in captures
      ensures OfCapture(f)(capture) in Ending(Captures(f, captures), f(target)) <==> capture in Ending(captures, target)
    {
      SameBorrowed(f, captures, capture, true);
    }
  }

  lemma MovedEndingRetained(f: Id -> Id, watch: Watch, target: Id)
    requires Injective(f)
    ensures |EndingRetained(OfWatch(f, watch), f(target))| == |EndingRetained(watch, target)|
  {
    OfCaptureInjective(f);
    MovedEnding(f, watch.captures, target);
    forall capture | capture in Ending(watch.captures, target)
      ensures Holds(Callbacks(f, watch.callbacks), f(capture.callback)) <==> Holds(watch.callbacks, capture.callback)
    {
      SameHolds(f, watch.callbacks, capture.callback);
    }
    assert EndingRetained(OfWatch(f, watch), f(target)) == Image(OfCapture(f), EndingRetained(watch, target));
    ImageCardinality(OfCapture(f), EndingRetained(watch, target));
  }

  // ---- One step ----

  lemma MovedWithEnded(f: Id -> Id, captures: map<Capture, CaptureState>, target: Id)
    requires Injective(f)
    ensures Captures(f, WithEnded(captures, Ending(captures, target)))
         == WithEnded(Captures(f, captures), Ending(Captures(f, captures), f(target)))
  {
    OfCaptureInjective(f);
    MovedEnding(f, captures, target);
  }

  lemma MovedWithReleased(f: Id -> Id, callbacks: map<Id, CallbackState>, owner: Id)
    requires Injective(f)
    ensures Callbacks(f, WithReleased(callbacks, owner)) == WithReleased(Callbacks(f, callbacks), f(owner))
  {
  }

  lemma MovedEndObject(f: Id -> Id, watch: Watch, target: Id, lifecycle: ObjectLifecycle)
    requires Injective(f)
    ensures OfWatch(f, EndObject(watch, target, lifecycle)) == EndObject(OfWatch(f, watch), f(target), lifecycle)
  {
    MovedAt(f, Same<ObjectState>, watch.objects, target);
    if target in watch.objects {
      MovedUpdate(f, Same<ObjectState>, watch.objects, target, watch.objects[target].(lifecycle := lifecycle));
      MovedWithEnded(f, watch.captures, target);
      MovedWithReleased(f, watch.callbacks, target);
    }
  }

  lemma MovedEmittedAtEnd(f: Id -> Id, watch: Watch, target: Id)
    requires Injective(f)
    ensures EmittedAtEnd(OfWatch(f, watch), f(target)) == EmittedAtEnd(watch, target)
  {
    MovedAt(f, Same<ObjectState>, watch.objects, target);
    MovedEndingRetained(f, watch, target);
    SameOwnsRetained(f, watch.callbacks, target);
  }

  lemma MovedNext(modes: map<Sites, CaptureMode>, f: Id -> Id, watch: Watch, event: Event)
    requires Injective(f)
    ensures OfWatch(f, Next(modes, watch, event)) == Next(modes, OfWatch(f, watch), OfEvent(f, event))
  {
    match event
    case ObjectCreate(target, kind) => MovedUpdate(f, Same<ObjectState>, watch.objects, target, ObjectState(kind, Live));
    case CallbackRegister(callback, owner) =>
      MovedUpdate(f, OfCallback(f), watch.callbacks, callback, CallbackState(owner, true));
    case CaptureBind(capture, sites) =>
      if sites in modes {
        OfCaptureInjective(f);
        MovedUpdate(OfCapture(f), Same<CaptureState>, watch.captures, capture, CaptureState(modes[sites], true));
      }
    case CallbackUnregister(callback) =>
      MovedAt(f, OfCallback(f), watch.callbacks, callback);
      if callback in watch.callbacks {
        MovedUpdate(f, OfCallback(f), watch.callbacks, callback, watch.callbacks[callback].(retained := false));
      }
    case ObjectDrop(target) => MovedEndObject(f, watch, target, Ended);
    case ObjectFree(target) => MovedEndObject(f, watch, target, Freed);
    case _ =>
  }

  lemma MovedEmitted(modes: map<Sites, CaptureMode>, f: Id -> Id, watch: Watch, event: Event)
    requires Injective(f)
    ensures Emitted(modes, OfWatch(f, watch), OfEvent(f, event)) == Emitted(modes, watch, event)
  {
    if event.ObjectDrop? || event.ObjectFree? {
      MovedEmittedAtEnd(f, watch, event.target);
    } else {
      MovedEmittedByCallback(modes, f, watch, event);
    }
  }

  lemma MovedEmittedByCallback(modes: map<Sites, CaptureMode>, f: Id -> Id, watch: Watch, event: Event)
    requires Injective(f) && !event.ObjectDrop? && !event.ObjectFree?
    ensures Emitted(modes, OfWatch(f, watch), OfEvent(f, event)) == Emitted(modes, watch, event)
  {
    match event
    case CaptureBind(capture, sites) => SameHolds(f, watch.callbacks, capture.callback);
    case CallbackUnregister(callback) =>
      SameHolds(f, watch.callbacks, callback);
      SameCapturesLive(f, watch, callback);
    case CallbackInvoke(callback) =>
      SameHolds(f, watch.callbacks, callback);
      SameCapturesEnded(f, watch, callback);
    case _ =>
  }

  /** Renaming instances apart changes neither what is recorded nor in which order. */
  lemma {:induction false} RenamingKeepsFeedback(modes: map<Sites, CaptureMode>, f: Id -> Id, trace: seq<Event>)
    requires Injective(f)
    ensures After(modes, OfTrace(f, trace)) == OfWatch(f, After(modes, trace))
    ensures Feedback(modes, OfTrace(f, trace)) == Feedback(modes, trace)
  {
    if trace != [] {
      var last := |trace| - 1;
      RenamingKeepsFeedback(modes, f, trace[..last]);
      assert OfTrace(f, trace)[..last] == OfTrace(f, trace[..last]);
      MovedNext(modes, f, After(modes, trace[..last]), trace[last]);
      MovedEmitted(modes, f, After(modes, trace[..last]), trace[last]);
    }
  }
}
