/** What the contract-state observer remembers, and what one runtime event does to it. */
module ObserverModel {
  import opened FeedbackStates

  datatype Id = Id(text: string)

  datatype Site = Site(text: string)

  datatype ObjectKind = Tracked | ExternalOwner

  datatype ObjectLifecycle = Live | Ended | Freed

  datatype ObjectState = ObjectState(kind: ObjectKind, lifecycle: ObjectLifecycle)

  datatype CallbackState = CallbackState(owner: Id, retained: bool)

  datatype CaptureMode = Borrowed | Owned

  datatype CaptureState = CaptureState(mode: CaptureMode, active: bool)

  /** A callback instance together with an object instance it captures. */
  datatype Capture = Capture(callback: Id, target: Id)

  datatype Sites = Sites(callback: Site, target: Site)

  datatype Event =
    | ObjectCreate(target: Id, kind: ObjectKind)
    | CallbackRegister(callback: Id, owner: Id)
    | CaptureBind(capture: Capture, sites: Sites)
    | CallbackUnregister(callback: Id)
    | CallbackInvoke(callback: Id)
    | ObjectDrop(target: Id)
    | ObjectFree(target: Id)
    | Neutral

  datatype Watch = Watch(objects: map<Id, ObjectState>, callbacks: map<Id, CallbackState>, captures: map<Capture, CaptureState>)

  const NOTHING := Watch(map[], map[], map[])

  // ---- Queries ----

  predicate Holds(callbacks: map<Id, CallbackState>, callback: Id) {
    callback in callbacks && callbacks[callback].retained
  }

  predicate IsRetained(watch: Watch, callback: Id) {
    Holds(watch.callbacks, callback)
  }

  predicate IsBorrowed(captures: map<Capture, CaptureState>, capture: Capture, active: bool) {
    capture in captures && captures[capture] == CaptureState(Borrowed, active)
  }

  predicate IsLive(watch: Watch, target: Id) {
    target in watch.objects && watch.objects[target].lifecycle.Live?
  }

  /** The active borrows of the object. */
  function Ending(captures: map<Capture, CaptureState>, target: Id): set<Capture> {
    set capture | capture in captures && capture.target == target && IsBorrowed(captures, capture, true)
  }

  /** Those captures whose callback is still retained. */
  ghost function RetainedOf(callbacks: map<Id, CallbackState>, captures: set<Capture>): set<Capture> {
    set capture | capture in captures && Holds(callbacks, capture.callback)
  }

  ghost function EndingRetained(watch: Watch, target: Id): set<Capture> {
    RetainedOf(watch.callbacks, Ending(watch.captures, target))
  }

  predicate OwnsRetained(callbacks: map<Id, CallbackState>, owner: Id) {
    exists callback <- callbacks :: callbacks[callback] == CallbackState(owner, true)
  }

  predicate CapturesLive(watch: Watch, callback: Id) {
    exists capture <- watch.captures ::
      capture.callback == callback && IsBorrowed(watch.captures, capture, true) && IsLive(watch, capture.target)
  }

  predicate CapturesEnded(watch: Watch, callback: Id) {
    exists capture <- watch.captures :: capture.callback == callback && IsBorrowed(watch.captures, capture, false)
  }

  // ---- One event ----

  function WithEnded(captures: map<Capture, CaptureState>, ending: set<Capture>): map<Capture, CaptureState> {
    map capture | capture in captures ::
      if capture in ending then captures[capture].(active := false) else captures[capture]
  }

  function WithReleased(callbacks: map<Id, CallbackState>, owner: Id): map<Id, CallbackState> {
    map callback | callback in callbacks ::
      if callbacks[callback].owner == owner then callbacks[callback].(retained := false) else callbacks[callback]
  }

  function EndObject(watch: Watch, target: Id, lifecycle: ObjectLifecycle): Watch {
    if target !in watch.objects then watch
    else
      Watch(watch.objects[target := watch.objects[target].(lifecycle := lifecycle)],
            if watch.objects[target].kind.ExternalOwner? then WithReleased(watch.callbacks, target) else watch.callbacks,
            WithEnded(watch.captures, Ending(watch.captures, target)))
  }

  function Next(modes: map<Sites, CaptureMode>, watch: Watch, event: Event): Watch {
    match event
    case ObjectCreate(target, kind) => watch.(objects := watch.objects[target := ObjectState(kind, Live)])
    case CallbackRegister(callback, owner) => watch.(callbacks := watch.callbacks[callback := CallbackState(owner, true)])
    case CaptureBind(capture, sites) =>
      if sites in modes then watch.(captures := watch.captures[capture := CaptureState(modes[sites], true)]) else watch
    case CallbackUnregister(callback) =>
      if callback in watch.callbacks
      then watch.(callbacks := watch.callbacks[callback := watch.callbacks[callback].(retained := false)])
      else watch
    case ObjectDrop(target) => EndObject(watch, target, Ended)
    case ObjectFree(target) => EndObject(watch, target, Freed)
    case _ => watch
  }

  function Repeated(state: FeedbackState, n: nat): seq<FeedbackState> {
    seq(n, _ => state)
  }

  function OwnerFeedback(watch: Watch, target: Id): seq<FeedbackState>
    requires target in watch.objects
  {
    if watch.objects[target].kind.ExternalOwner? && OwnsRetained(watch.callbacks, target)
    then [ClosedOwnerWithRetainedCallback] else []
  }

  ghost function EmittedAtEnd(watch: Watch, target: Id): seq<FeedbackState> {
    if target !in watch.objects then []
    else Repeated(BorrowEndedRetained, |EndingRetained(watch, target)|) + OwnerFeedback(watch, target)
  }

  /** The feedback states an event gives rise to, in order. */
  ghost function Emitted(modes: map<Sites, CaptureMode>, watch: Watch, event: Event): seq<FeedbackState> {
    match event
    case CaptureBind(capture, sites) =>
      if sites in modes && modes[sites].Borrowed? && IsRetained(watch, capture.callback) then [BorrowedRetained] else []
    case CallbackUnregister(callback) =>
      if IsRetained(watch, callback) && CapturesLive(watch, callback) then [ReleasedBeforeEnd] else []
    case CallbackInvoke(callback) =>
      if IsRetained(watch, callback) && CapturesEnded(watch, callback) then [InvokedAfterEnd] else []
    case ObjectDrop(target) => EmittedAtEnd(watch, target)
    case ObjectFree(target) => EmittedAtEnd(watch, target)
    case _ => []
  }

  // ---- Whole traces ----

  function After(modes: map<Sites, CaptureMode>, trace: seq<Event>): Watch {
    if trace == [] then NOTHING else Next(modes, After(modes, trace[..|trace| - 1]), trace[|trace| - 1])
  }

  ghost function Feedback(modes: map<Sites, CaptureMode>, trace: seq<Event>): seq<FeedbackState> {
    if trace == [] then []
    else
      var last := |trace| - 1;
      Feedback(modes, trace[..last]) + Emitted(modes, After(modes, trace[..last]), trace[last])
  }
}
