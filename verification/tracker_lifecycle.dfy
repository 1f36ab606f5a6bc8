/** The base tracker listener: which tracker and handler it holds, whether its vendor
    listener is installed, and the install task that `startTracker` posts to the handler
    and that runs later, as a separate event. */
module TrackerLifecycle {
  import opened Wrappers
  import opened DataPoint

  /** A vendor health tracker, by identity. */
  type TrackerId = nat

  /** A vendor event listener, by identity. */
  type ListenerId = nat

  /** A message handler, by identity: the `n`-th one `startTracker` made on the main
      looper because none was set (each call makes a new object), or one handed in from
      outside. */
  datatype Handler = MainLooper(n: nat) | Given(id: nat)

  /** The fields of the listener, the posted install tasks (each named by the handler
      it was posted to, oldest first), per tracker the event listener installed on it,
      and how many main-looper handlers `startTracker` has made so far. */
  datatype Listener = Listener(
    handler: Option<Handler>,
    healthTracker: Option<TrackerId>,
    isHandlerRunning: bool,
    trackerEventListener: Option<ListenerId>,
    pending: seq<Handler>,
    installed: map<TrackerId, ListenerId>,
    madeHandlers: nat)

  /** A freshly constructed listener. */
  const Fresh: Listener := Listener(None, None, false, None, [], map[], 0)

  /** Every main-looper handler the listener holds or has a task on was made already. */
  predicate HandlersMade(s: Listener) {
    (s.handler.Some? && s.handler.value.MainLooper? ==> s.handler.value.n < s.madeHandlers)
    && forall i :: 0 <= i < |s.pending| && s.pending[i].MainLooper? ==> s.pending[i].n < s.madeHandlers
  }

  function SetHealthTracker(s: Listener, tracker: Option<TrackerId>): (r: Listener)
    ensures r.healthTracker == tracker
  {
    s.(healthTracker := tracker)
  }

  function SetHandler(s: Listener, handler: Option<Handler>): (r: Listener)
    ensures r.handler == handler
  {
    s.(handler := handler)
  }

  function SetHandlerRunning(s: Listener, running: bool): (r: Listener)
    ensures r.isHandlerRunning == running
  {
    s.(isHandlerRunning := running)
  }

  function SetTrackerEventListener(s: Listener, listener: Option<ListenerId>): (r: Listener)
    ensures r.trackerEventListener == listener
  {
    s.(trackerEventListener := listener)
  }

  /** Each setter stores its value, null included, and leaves every other field as it
      was. */
  lemma SettersStoreOnly(s: Listener, t: Option<TrackerId>, h: Option<Handler>, b: bool, l: Option<ListenerId>)
    ensures SetHealthTracker(s, t) == s.(healthTracker := t)
    ensures SetHandler(s, h) == s.(handler := h)
    ensures SetHandlerRunning(s, b) == s.(isHandlerRunning := b)
    ensures SetTrackerEventListener(s, l) == s.(trackerEventListener := l)
  {
  }

  /** The three branches `startTracker` chooses between once the handler is in place. */
  datatype StartBranch = Posted | AlreadyRunning | NoHandler

  /** The handler `startTracker` works with: the one held, or a new main-looper one,
      distinct from every handler made before and so from every handler a task is
      queued on. */
  function EnsureHandler(s: Listener): (r: Listener)
    ensures r.handler.Some?
    ensures s.handler.Some? ==> r == s
    ensures s.handler.None? ==>
      r == s.(handler := Some(MainLooper(s.madeHandlers)), madeHandlers := s.madeHandlers + 1)
    ensures s.handler.None? && HandlersMade(s) ==> r.handler.value !in s.pending
    ensures HandlersMade(s) ==> HandlersMade(r)
  {
    if s.handler.None? then s.(handler := Some(MainLooper(s.madeHandlers)), madeHandlers := s.madeHandlers + 1)
    else s
  }

  function Branch(s: Listener): StartBranch {
    if !s.isHandlerRunning && s.handler.Some? then Posted
    else if s.isHandlerRunning then AlreadyRunning
    else NoHandler
  }

  /** `startTracker`: makes sure there is a handler, then, unless running, posts one
      install task to it. It never sets the running flag itself. */
  function StartTracker(s: Listener): (r: Listener)
    ensures r.handler.Some? && (s.handler.Some? ==> r.handler == s.handler)
    ensures s.handler.None? ==> r.handler == Some(MainLooper(s.madeHandlers))
    ensures HandlersMade(s) ==> HandlersMade(r)
    ensures r.isHandlerRunning == s.isHandlerRunning && r.installed == s.installed
    ensures r.healthTracker == s.healthTracker && r.trackerEventListener == s.trackerEventListener
    ensures s.isHandlerRunning ==> r.pending == s.pending
    ensures !s.isHandlerRunning ==> r.pending == s.pending + [r.handler.value]
  {
    var s1 := EnsureHandler(s);
    match Branch(s1)
    case Posted => s1.(pending := s1.pending + [s1.handler.value])
    case AlreadyRunning => s1
    case NoHandler => s1
  }

  /** The "handler is null" branch of `startTracker` is dead: the handler was just made
      non-null. */
  lemma NoHandlerUnreachable(s: Listener)
    ensures Branch(EnsureHandler(s)) != NoHandler
  {
  }

  /** Starting while running changes nothing but a missing handler. */
  lemma StartWhileRunning(s: Listener)
    requires s.isHandlerRunning && s.handler.Some?
    ensures StartTracker(s) == s
  {
  }

  /** The posted install task at position `k` runs: it reads the fields as they are now
      and installs the event listener on the tracker, setting the running flag, only when
      both are set. */
  function RunTask(s: Listener, k: nat): (r: Listener)
    requires k < |s.pending|
    ensures |r.pending| == |s.pending| - 1
    ensures r.healthTracker == s.healthTracker && r.trackerEventListener == s.trackerEventListener
    ensures r.handler == s.handler
    ensures s.healthTracker.Some? && s.trackerEventListener.Some? ==>
      r.isHandlerRunning && r.installed == s.installed[s.healthTracker.value := s.trackerEventListener.value]
    ensures s.healthTracker.None? || s.trackerEventListener.None? ==>
      r.isHandlerRunning == s.isHandlerRunning && r.installed == s.installed
  {
    var s1 := s.(pending := RemoveAt(s.pending, k));
    if s.healthTracker.Some? && s.trackerEventListener.Some? then
      s1.(installed := s.installed[s.healthTracker.value := s.trackerEventListener.value],
          isHandlerRunning := true)
    else s1
  }

  /** The tasks left once `removeCallbacksAndMessages(null)` has cleared handler `h`. */
  function DropFor(q: seq<Handler>, h: Handler): (r: seq<Handler>)
    ensures |r| <= |q|
    ensures h !in r
    ensures forall x :: x != h ==> (x in r <==> x in q)
  {
    if |q| == 0 then []
    else if q[0] == h then DropFor(q[1..], h)
    else [q[0]] + DropFor(q[1..], h)
  }

  /** `stopTracker`: when running, unsets the tracker's event listener, clears the flag and
      clears the handler's queued tasks; otherwise a no-op. */
  function StopTracker(s: Listener): (r: Listener)
    ensures !s.isHandlerRunning ==> r == s
    ensures !r.isHandlerRunning
    ensures r.handler == s.handler && r.healthTracker == s.healthTracker
    ensures r.trackerEventListener == s.trackerEventListener
    ensures s.isHandlerRunning && s.healthTracker.Some? ==>
      s.healthTracker.value !in r.installed
      && forall t :: t in s.installed && t != s.healthTracker.value ==> t in r.installed && r.installed[t] == s.installed[t]
    ensures s.isHandlerRunning && s.handler.Some? ==> s.handler.value !in r.pending
  {
    if s.isHandlerRunning then
      var installed := if s.healthTracker.Some? then s.installed - {s.healthTracker.value} else s.installed;
      var pending := if s.handler.Some? then DropFor(s.pending, s.handler.value) else s.pending;
      s.(installed := installed, isHandlerRunning := false, pending := pending)
    else s
  }

  /** When every queued task sits on the current handler, stopping a running listener
      leaves none. */
  lemma StopDropsAll(s: Listener)
    requires s.isHandlerRunning && s.handler.Some?
    requires forall i :: 0 <= i < |s.pending| ==> s.pending[i] == s.handler.value
    ensures StopTracker(s).pending == []
  {
    DropForAll(s.pending, s.handler.value);
  }

  lemma {:induction false} DropForAll(q: seq<Handler>, h: Handler)
    requires forall i :: 0 <= i < |q| ==> q[i] == h
    ensures DropFor(q, h) == []
    decreases |q|
  {
    if |q| > 0 {
      DropForAll(q[1..], h);
    }
  }

  /** Stopping twice is stopping once. */
  lemma StopIdempotent(s: Listener)
    ensures StopTracker(StopTracker(s)) == StopTracker(s)
  {
  }

  /** A stop that comes after `startTracker` but before its task ran does not cancel the
      task: the flag is still clear, so the stop is a no-op, and the task later installs
      the listener and marks the tracker running. */
  lemma StopBeforeInstall(s: Listener, t: TrackerId, l: ListenerId)
    requires s == Fresh.(healthTracker := Some(t), trackerEventListener := Some(l))
    ensures var started := StartTracker(s);
      StopTracker(started) == started
      && |started.pending| == 1
      && RunTask(StopTracker(started), 0).isHandlerRunning
      && RunTask(StopTracker(started), 0).installed == map[t := l]
  {
  }

  /** The normal cycle from a fresh listener: set up, start, run the task, stop. The
      listener is installed and then removed again, and no task is left. */
  lemma StartRunStop(t: TrackerId, l: ListenerId)
    ensures var s := SetTrackerEventListener(SetHealthTracker(Fresh, Some(t)), Some(l));
      var running := RunTask(StartTracker(s), 0);
      running.isHandlerRunning && running.installed == map[t := l]
      && StopTracker(running).installed == map[] && StopTracker(running).pending == []
      && !StopTracker(running).isHandlerRunning
  {
    var s := SetTrackerEventListener(SetHealthTracker(Fresh, Some(t)), Some(l));
    var running := RunTask(StartTracker(s), 0);
    assert running.pending == [];
    assert running.installed - {t} == map[];
  }

  /** A handler replaced by `setHandler` keeps its queued install task. Start on the
      lazily made main-looper handler, then hand in handler `h` of another looper and
      start again: when `h`'s task runs first, the stop clears only `h`'s queue, and the
      main-looper task, run after the stop, installs the listener again and marks the
      tracker running. */
  lemma ReplacedHandlerOutlivesStop(t: TrackerId, l: ListenerId, h: nat)
    ensures var s0 := SetTrackerEventListener(SetHealthTracker(Fresh, Some(t)), Some(l));
      var s1 := SetHandler(StartTracker(s0), Some(Given(h)));
      var s2 := RunTask(StartTracker(s1), 1);
      var s3 := StopTracker(s2);
      s2.isHandlerRunning && s3.pending == [MainLooper(0)]
      && !s3.isHandlerRunning && s3.installed == map[]
      && RunTask(s3, 0).isHandlerRunning && RunTask(s3, 0).installed == map[t := l]
  {
    var s0 := SetTrackerEventListener(SetHealthTracker(Fresh, Some(t)), Some(l));
    var s1 := SetHandler(StartTracker(s0), Some(Given(h)));
    assert s1.pending == [MainLooper(0)];
    var s2 := RunTask(StartTracker(s1), 1);
    assert StartTracker(s1).pending == [MainLooper(0), Given(h)];
    assert s2.pending == [MainLooper(0)];
    assert s2.installed - {t} == map[];
  }

  /** The constructor of either sensor listener registers the listener's own event
      listener. */
  function New(self: ListenerId): (s: Listener)
    ensures s.trackerEventListener == Some(self) && !s.isHandlerRunning && s.pending == []
  {
    SetTrackerEventListener(Fresh, Some(self))
  }

  /** `onError` of either sensor listener: clears the running flag and classifies the error for the log. It
      publishes nothing, leaves the vendor listener installed and keeps queued tasks. */
  function OnError(s: Listener, e: Option<TrackerError>): (r: (Listener, ErrorKind))
    ensures r.1 == Classify(e)
    ensures !r.0.isHandlerRunning
    ensures r.0 == s.(isHandlerRunning := false)
    ensures r.0.installed == s.installed && r.0.pending == s.pending
  {
    (SetHandlerRunning(s, false), Classify(e))
  }
}
