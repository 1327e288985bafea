/** A supervised connection: the state between awaits, what each segment of the code
    between two awaits does to it, and that no run leaks a handle. */
module Supervision {
  import opened Options
  import opened Handles

  datatype Phase = OpeningTarget | OpeningSocket | OpeningLocal | Registering
  datatype Status = Stopped | Starting | Running | Backoff | Failed

  /** A connect attempt in flight, at the await it is suspended in. */
  datatype Attempt = Attempt(id: nat, generation: nat, phase: Phase)

  /** A retry that is due after `delay` milliseconds. */
  datatype Timer = Timer(id: nat, generation: nat, delay: nat)

  datatype State = State(
    status: Status,
    generation: nat,
    enabled: bool,
    restartNever: bool,
    restarts: nat,
    target: Option<nat>,
    local: Option<nat>,
    socket: Option<nat>,
    // `_pending` is the attempt that was started last.
    pending: Option<nat>,
    attempts: set<Attempt>,
    timer: Option<Timer>,
    armed: set<Timer>,
    // Connected attempts whose transports have not been seen to close, by attempt and generation.
    watching: set<(nat, nat)>,
    // The attempts that the unfinished `dispose` calls wait for.
    disposing: multiset<Option<nat>>,
    // Handles are numbered as they are opened; every `dispose()` of one is logged.
    handles: nat,
    disposals: seq<nat>,
    nextId: nat)

  function Initial(enabled: bool, restartNever: bool): State {
    State(Stopped, 0, enabled, restartNever, 0, None, None, None, None, {}, None, {}, {}, multiset{}, 0, [], 0)
  }

  // ---- The code between awaits --------------------------------------------------------

  function Release(handle: Option<nat>): seq<nat> {
    if handle.Some? then [handle.value] else []
  }

  function Cleanup(s: State): State {
    s.(disposals := s.disposals + Release(s.target) + Release(s.local) + Release(s.socket),
       target := None, local := None, socket := None)
  }

  function PowerOfTwo(n: nat): nat {
    if n == 0 then 1 else 2 * PowerOfTwo(n - 1)
  }

  /** `Math.min(30_000, 500 * 2 ** Math.min(restarts, 6))`. */
  function Delay(restarts: nat): nat {
    var delay := 500 * PowerOfTwo(if restarts <= 6 then restarts else 6);
    if delay <= 30_000 then delay else 30_000
  }

  function Fail(s: State, generation: nat): State {
    var c := Cleanup(s);
    if s.restartNever then c.(status := Failed)
    else
      var t := Timer(s.nextId, generation, Delay(s.restarts));
      c.(status := Backoff, timer := Some(t), armed := s.armed + {t}, nextId := s.nextId + 1)
  }

  /** `_pending = _connect(generation)`, up to the first await. */
  function Connect(s: State, generation: nat): State {
    s.(status := Starting, pending := Some(s.nextId), nextId := s.nextId + 1,
       attempts := s.attempts + {Attempt(s.nextId, generation, OpeningTarget)})
  }

  /** The generation ends, and its timer is cleared. */
  function Disarm(s: State): State {
    s.(generation := s.generation + 1, armed := if s.timer.Some? then s.armed - {s.timer.value} else s.armed)
  }

  function DisposeDone(s: State, awaited: Option<nat>): State {
    s.(status := Stopped, disposing := s.disposing - multiset{awaited})
  }

  function BeginDispose(s: State): State {
    var c := Cleanup(Disarm(s));
    c.(disposing := c.disposing + multiset{c.pending})
  }

  function Sync(s: State): State {
    if !s.enabled then BeginDispose(s)
    else if s.status in {Running, Starting, Backoff} then s
    else Connect(s.(generation := s.generation + 1), s.generation + 1)
  }

  function Advance(s: State, a: Attempt, phase: Phase): State {
    s.(attempts := s.attempts - {a} + {a.(phase := phase)})
  }

  function Finish(s: State, a: Attempt): State {
    s.(attempts := s.attempts - {a})
  }

  /** The attempt's pending open resolves with a new handle. */
  function Opened(s: State, a: Attempt): State {
    var h := s.handles;
    var o := s.(handles := h + 1);
    var current := a.generation == s.generation;
    match a.phase
    case OpeningTarget =>
      if !current then Finish(o.(disposals := o.disposals + [h]), a)
      else Advance(o.(target := Some(h)), a, OpeningSocket)
    case OpeningSocket =>
      // The field is assigned before the generation is checked.
      if !current then Finish(Cleanup(o.(socket := Some(h))), a)
      else Advance(o.(socket := Some(h)), a, OpeningLocal)
    case OpeningLocal =>
      if !current then Finish(Cleanup(o.(disposals := o.disposals + [h])), a)
      else Advance(o.(local := Some(h)), a, Registering)
    case Registering => s
  }

  /** The claim was granted; nothing checks the generation here. */
  function Registered(s: State, a: Attempt): State {
    Finish(s.(status := Running, watching := s.watching + {(a.id, a.generation)}), a)
  }

  /** The attempt's await rejects. */
  function Rejected(s: State, a: Attempt): State {
    Finish(if a.generation == s.generation then Fail(s, a.generation) else s, a)
  }

  function Closed(s: State, w: (nat, nat)): State {
    var o := s.(watching := s.watching - {w});
    if w.1 == s.generation then Fail(o, w.1) else o
  }

  function TimerFires(s: State, t: Timer): State {
    var o := s.(armed := s.armed - {t});
    if t.generation != s.generation then o else Connect(o.(restarts := s.restarts + 1), t.generation)
  }

  // ---- Runs ------------------------------------------------------------------------------

  datatype Event =
    | CallSync
    | CallUpdate(enabled: bool, restartNever: bool)
    | CallDispose
    | DisposeResolves(awaited: Option<nat>)
    | OpenResolves(attempt: Attempt)
    | ClaimResolves(attempt: Attempt)
    | AttemptRejects(attempt: Attempt)
    | TransportCloses(watch: (nat, nat))
    | Fires(timer: Timer)

  predicate PendingDone(s: State, pending: Option<nat>) {
    forall a :: a in s.attempts ==> Some(a.id) != pending
  }

  /** What can happen next. Lifecycle calls are made at any time, also while a `dispose` is unfinished
      (`restart` is a dispose followed by a sync), and everything else interleaves with them. */
  predicate Possible(s: State, e: Event) {
    match e
    case CallSync => true
    case CallUpdate(_, _) => true
    case CallDispose => true
    case DisposeResolves(p) => p in s.disposing && PendingDone(s, p)
    case OpenResolves(a) => a in s.attempts && a.phase != Registering
    case ClaimResolves(a) => a in s.attempts && a.phase == Registering
    case AttemptRejects(a) => a in s.attempts
    case TransportCloses(w) => w in s.watching
    case Fires(t) => t in s.armed
  }

  function Step(s: State, e: Event): State {
    match e
    case CallSync => Sync(s)
    case CallUpdate(enabled, never) =>
      var u := s.(enabled := enabled, restartNever := never);
      if enabled != s.enabled then Sync(u) else u
    case CallDispose => BeginDispose(s)
    case DisposeResolves(p) => DisposeDone(s, p)
    case OpenResolves(a) => Opened(s, a)
    case ClaimResolves(a) => Registered(s, a)
    case AttemptRejects(a) => Rejected(s, a)
    case TransportCloses(w) => Closed(s, w)
    case Fires(t) => TimerFires(s, t)
  }

  /** The states a run from `s` passes through. */
  ghost predicate Run(s: State, events: seq<Event>, end: State)
    decreases events
  {
    if events == [] then s == end
    else Possible(s, events[0]) && Run(Step(s, events[0]), events[1..], end)
  }

  /** A call that starts an attempt while a `dispose` is unfinished. */
  predicate Overlaps(s: State, e: Event) {
    s.disposing != multiset{} && s.status in {Stopped, Failed} &&
    match e
    case CallSync => s.enabled
    case CallUpdate(enabled, _) => enabled && !s.enabled
    case _ => false
  }

  /** A run without such calls. */
  ghost predicate CalmRun(s: State, events: seq<Event>, end: State)
    decreases events
  {
    if events == [] then s == end
    else Possible(s, events[0]) && !Overlaps(s, events[0]) && CalmRun(Step(s, events[0]), events[1..], end)
  }

  // ---- The invariant ------------------------------------------------------------------------

  predicate NoHandles(s: State) {
    s.target.None? && s.local.None? && s.socket.None?
  }

  /** Which fields an attempt has filled at an await. */
  predicate HandlesAt(s: State, phase: Phase) {
    match phase
    case OpeningTarget => NoHandles(s)
    case OpeningSocket => s.target.Some? && s.local.None? && s.socket.None?
    case OpeningLocal => s.target.Some? && s.local.None? && s.socket.Some?
    case Registering => s.target.Some? && s.local.Some? && s.socket.Some?
  }

  predicate NoCurrentWatch(s: State) {
    forall w :: w in s.watching ==> w.1 < s.generation
  }

  /** At most one attempt is in flight: the one that was started last. */
  predicate OneAttempt(s: State) {
    && (s.pending.Some? ==> s.pending.value < s.nextId)
    && (forall a, b :: a in s.attempts && b in s.attempts ==> a == b)
    && (forall a :: a in s.attempts ==> s.pending == Some(a.id) && a.generation <= s.generation)
  }

  predicate KnownWatches(s: State) {
    forall w :: w in s.watching ==> w.1 <= s.generation && w.0 < s.nextId
  }

  /** Only the timer in the field is armed. */
  predicate OneTimer(s: State) {
    forall t :: t in s.armed ==> s.timer == Some(t) && t.generation == s.generation
  }

  /** Nothing is held, armed or watched for the present generation. */
  predicate Quiet(s: State) {
    NoHandles(s) && s.armed == {} && NoCurrentWatch(s)
  }

  /** The attempt in flight is current and has filled the fields of its phase. */
  ghost predicate Connecting(s: State) {
    && s.armed == {} && NoCurrentWatch(s)
    && exists a :: a in s.attempts && a.generation == s.generation && HandlesAt(s, a.phase)
  }

  /** All three handles are held, and one watch stands for them. */
  ghost predicate Connected(s: State) {
    && s.attempts == {} && s.armed == {} && HandlesAt(s, Registering)
    && exists w :: w in s.watching && w.1 == s.generation && forall v :: v in s.watching && v != w ==> v.1 < s.generation
  }

  ghost predicate Waiting(s: State) {
    s.attempts == {} && NoHandles(s) && NoCurrentWatch(s) && s.armed != {}
  }

  /** Between lifecycle calls, the status tells what is held. */
  ghost predicate StatusTells(s: State) {
    match s.status
    case Starting => Connecting(s)
    case Running => Connected(s)
    case Backoff => Waiting(s)
    case _ => s.attempts == {} && Quiet(s)
  }

  /** While a dispose waits, an attempt still in flight is stale. */
  ghost predicate Winding(s: State) {
    && Quiet(s) && (forall p :: p in s.disposing ==> p == s.pending)
    && (forall a :: a in s.attempts ==> a.generation < s.generation)
  }

  ghost predicate Shape(s: State) {
    OneAttempt(s) && KnownWatches(s) && OneTimer(s) && if s.disposing != multiset{} then Winding(s) else StatusTells(s)
  }

  // ---- Every step keeps the shape --------------------------------------------------------

  lemma BeginDisposeShape(s: State)
    requires Shape(s)
    ensures Shape(BeginDispose(s))
  {
    var d := BeginDispose(s);
    assert d.armed == {};
  }

  lemma ConnectShape(s: State, generation: nat)
    requires OneAttempt(s) && KnownWatches(s) && s.disposing == multiset{} && s.attempts == {} && Quiet(s) && s.generation <= generation
    ensures Shape(Connect(s.(generation := generation), generation))
  {
    var c := Connect(s.(generation := generation), generation);
    assert c.attempts == {Attempt(s.nextId, generation, OpeningTarget)};
  }

  lemma SyncShape(s: State)
    requires Shape(s) && !Overlaps(s, CallSync)
    ensures Shape(Sync(s))
  {
    if !s.enabled {
      BeginDisposeShape(s);
    } else if s.status == Stopped || s.status == Failed {
      ConnectShape(s, s.generation + 1);
    }
  }

  lemma FailShape(s: State, generation: nat)
    requires OneAttempt(s) && KnownWatches(s) && s.disposing == multiset{} && s.attempts == {} && s.armed == {} && NoCurrentWatch(s)
    requires generation == s.generation
    ensures Shape(Fail(s, generation))
  {
    if !s.restartNever { assert Fail(s, generation).armed == {Timer(s.nextId, generation, Delay(s.restarts))}; }
  }

  /** The one attempt in flight is current exactly if no dispose waits. */
  lemma AttemptStands(s: State, a: Attempt)
    requires Shape(s) && a in s.attempts
    ensures s.attempts == {a}
    ensures if a.generation == s.generation then s.disposing == multiset{} && s.status == Starting && Connecting(s) && HandlesAt(s, a.phase)
            else s.disposing != multiset{} && Winding(s)
  {
  }

  lemma OpenedShape(s: State, a: Attempt)
    requires Shape(s) && a in s.attempts && a.phase != Registering
    ensures Shape(Opened(s, a))
  {
    AttemptStands(s, a);
    var e := Opened(s, a);
    if a.generation == s.generation {
      var next := a.(phase := match a.phase case OpeningTarget => OpeningSocket case OpeningSocket => OpeningLocal case _ => Registering);
      assert e.attempts == {next} && HandlesAt(e, next.phase);
    } else {
      assert e.attempts == {};
    }
  }

  lemma ClaimConnects(s: State, a: Attempt)
    requires OneAttempt(s) && KnownWatches(s) && NoCurrentWatch(s) && s.armed == {} && s.attempts == {a}
    requires a.generation == s.generation && HandlesAt(s, Registering)
    ensures Connected(Registered(s, a)) && KnownWatches(Registered(s, a))
  {
    var r := Registered(s, a);
    var w := (a.id, a.generation);
    assert r.attempts == {};
    assert w in r.watching && forall v :: v in r.watching && v != w ==> v in s.watching;
  }

  lemma ClaimShape(s: State, a: Attempt)
    requires Shape(s) && a in s.attempts && a.phase == Registering
    ensures Shape(Registered(s, a))
  {
    AttemptStands(s, a);
    if a.generation == s.generation {
      ClaimConnects(s, a);
    } else {
      assert s.attempts - {a} == {};
    }
  }

  lemma RejectShape(s: State, a: Attempt)
    requires Shape(s) && a in s.attempts
    ensures Shape(Rejected(s, a))
  {
    AttemptStands(s, a);
    assert s.attempts - {a} == {};
    if a.generation == s.generation {
      FailShape(s.(attempts := {}), a.generation);
      assert Rejected(s, a) == Fail(s.(attempts := {}), a.generation);
    }
  }

  lemma CurrentWatch(s: State, w: (nat, nat))
    requires Shape(s) && w in s.watching && w.1 == s.generation
    ensures s.disposing == multiset{} && s.status == Running && s.attempts == {} && s.armed == {}
    ensures NoCurrentWatch(s.(watching := s.watching - {w}))
  {
  }

  lemma StaleWatch(s: State, w: (nat, nat))
    requires Shape(s) && w in s.watching && w.1 != s.generation
    ensures Shape(s.(watching := s.watching - {w}))
  {
    var o := s.(watching := s.watching - {w});
    if s.disposing == multiset{} && s.status == Running {
      var v :| v in s.watching && v.1 == s.generation && forall u :: u in s.watching && u != v ==> u.1 < s.generation;
      assert v in o.watching;
    }
  }

  lemma ClosedShape(s: State, w: (nat, nat))
    requires Shape(s) && w in s.watching
    ensures Shape(Closed(s, w))
  {
    if w.1 == s.generation {
      CurrentWatch(s, w);
      FailShape(s.(watching := s.watching - {w}), w.1);
    } else {
      StaleWatch(s, w);
    }
  }

  lemma FiresShape(s: State, t: Timer)
    requires Shape(s) && t in s.armed
    ensures Shape(TimerFires(s, t))
  {
    assert s.armed - {t} == {};
    ConnectShape(s.(armed := {}, restarts := s.restarts + 1), s.generation);
  }

  lemma UpdateShape(s: State, enabled: bool, never: bool)
    requires Shape(s) && !Overlaps(s, CallUpdate(enabled, never))
    ensures Shape(Step(s, CallUpdate(enabled, never)))
  {
    var u := s.(enabled := enabled, restartNever := never);
    assert Shape(u);
    if enabled != s.enabled { SyncShape(u); }
  }

  lemma DisposedShape(s: State, p: Option<nat>)
    requires Shape(s) && Possible(s, DisposeResolves(p))
    ensures Shape(Step(s, DisposeResolves(p))) && s.attempts == {} && Quiet(s)
  {
    assert p == s.pending;
  }

  lemma StepShape(s: State, e: Event)
    requires Shape(s) && Possible(s, e) && !Overlaps(s, e)
    ensures Shape(Step(s, e))
  {
    match e {
      case CallSync => SyncShape(s);
      case CallUpdate(enabled, never) => UpdateShape(s, enabled, never);
      case CallDispose => BeginDisposeShape(s);
      case DisposeResolves(p) => DisposedShape(s, p);
      case OpenResolves(a) => OpenedShape(s, a);
      case ClaimResolves(a) => ClaimShape(s, a);
      case AttemptRejects(a) => RejectShape(s, a);
      case TransportCloses(w) => ClosedShape(s, w);
      case Fires(t) => FiresShape(s, t);
    }
  }

  // ---- Every step keeps the ledger ----------------------------------------------------------

  function Accounted(s: State): seq<nat> {
    s.disposals + Release(s.target) + Release(s.local) + Release(s.socket)
  }

  /** Every handle ever opened is either in a field or disposed, and only once. */
  ghost predicate Ledger(s: State) {
    EachOnce(Accounted(s), s.handles)
  }

  /** Disposing what the fields hold accounts for the same handles. */
  lemma CleanupAccounts(s: State)
    ensures Accounted(Cleanup(s)) == Accounted(s)
  {
  }

  lemma OneMore(log: seq<nat>, log': seq<nat>, n: nat)
    requires EachOnce(log, n) && multiset(log') == multiset(log) + multiset{n}
    ensures EachOnce(log', n + 1)
  {
    assert Numbers(n + 1) == Numbers(n) + [n];
  }

  lemma StaleOpenAccounts(s: State, a: Attempt)
    requires a.phase != Registering && a.generation != s.generation && NoHandles(s)
    ensures Accounted(Opened(s, a)) == Accounted(s) + [s.handles]
  {
  }

  lemma TargetAccounts(s: State, a: Attempt)
    requires a.phase == OpeningTarget && a.generation == s.generation && HandlesAt(s, OpeningTarget)
    ensures Accounted(Opened(s, a)) == Accounted(s) + [s.handles]
  {
  }

  lemma SocketAccounts(s: State, a: Attempt)
    requires a.phase == OpeningSocket && a.generation == s.generation && HandlesAt(s, OpeningSocket)
    ensures Accounted(Opened(s, a)) == Accounted(s) + [s.handles]
  {
  }

  lemma LocalAccounts(s: State, a: Attempt)
    requires a.phase == OpeningLocal && a.generation == s.generation && HandlesAt(s, OpeningLocal)
    ensures Accounted(Opened(s, a)) == s.disposals + [s.target.value] + [s.handles] + [s.socket.value]
    ensures Accounted(s) == s.disposals + [s.target.value] + [s.socket.value]
  {
  }

  /** An open adds its handle to a field or to the log. */
  lemma OpenedAccounts(s: State, a: Attempt)
    requires a.phase != Registering
    requires if a.generation == s.generation then HandlesAt(s, a.phase) else NoHandles(s)
    ensures multiset(Accounted(Opened(s, a))) == multiset(Accounted(s)) + multiset{s.handles}
  {
    if a.generation != s.generation {
      StaleOpenAccounts(s, a);
    } else {
      match a.phase {
        case OpeningTarget => TargetAccounts(s, a);
        case OpeningSocket => SocketAccounts(s, a);
        case OpeningLocal => LocalAccounts(s, a);
      }
    }
  }

  lemma BeginDisposeAccounts(s: State)
    ensures Accounted(BeginDispose(s)) == Accounted(s) && BeginDispose(s).handles == s.handles
  {
    CleanupAccounts(Disarm(s));
  }

  lemma FailAccounts(s: State, generation: nat)
    ensures Accounted(Fail(s, generation)) == Accounted(s) && Fail(s, generation).handles == s.handles
  {
    CleanupAccounts(s);
  }

  lemma SyncAccounts(s: State)
    ensures Accounted(Sync(s)) == Accounted(s) && Sync(s).handles == s.handles
  {
    BeginDisposeAccounts(s);
  }

  /** Only opens make handles; all other steps move them from the fields to the log, if at all. */
  lemma OthersAccount(s: State, e: Event)
    requires Possible(s, e) && !e.OpenResolves?
    ensures Accounted(Step(s, e)) == Accounted(s) && Step(s, e).handles == s.handles
  {
    match e {
      case CallSync => SyncAccounts(s);
      case CallUpdate(enabled, never) => SyncAccounts(s.(enabled := enabled, restartNever := never));
      case CallDispose => BeginDisposeAccounts(s);
      case AttemptRejects(a) => FailAccounts(s, a.generation);
      case TransportCloses(w) => FailAccounts(s.(watching := s.watching - {w}), w.1);
      case _ =>
    }
  }

  lemma OpenedCounts(s: State, a: Attempt)
    requires a.phase != Registering
    ensures Opened(s, a).handles == s.handles + 1
  {
  }

  lemma OpenedBalance(s: State, e: State)
    requires Ledger(s) && e.handles == s.handles + 1
    requires multiset(Accounted(e)) == multiset(Accounted(s)) + multiset{s.handles}
    ensures Ledger(e)
  {
    OneMore(Accounted(s), Accounted(e), s.handles);
  }

  lemma OpenLedger(s: State, a: Attempt)
    requires Ledger(s) && a.phase != Registering
    requires if a.generation == s.generation then HandlesAt(s, a.phase) else NoHandles(s)
    ensures Ledger(Opened(s, a))
  {
    OpenedAccounts(s, a);
    OpenedCounts(s, a);
    OpenedBalance(s, Opened(s, a));
  }

  lemma StandsForOpen(s: State, a: Attempt)
    requires Shape(s) && a in s.attempts
    ensures if a.generation == s.generation then HandlesAt(s, a.phase) else NoHandles(s)
  {
    AttemptStands(s, a);
  }

  lemma StepLedger(s: State, e: Event)
    requires Shape(s) && Ledger(s) && Possible(s, e)
    ensures Ledger(Step(s, e))
  {
    if e.OpenResolves? {
      StandsForOpen(s, e.attempt);
      OpenLedger(s, e.attempt);
    } else {
      OthersAccount(s, e);
    }
  }

  lemma {:induction false} RunKeeps(s: State, events: seq<Event>, end: State)
    requires Shape(s) && Ledger(s) && CalmRun(s, events, end)
    ensures Shape(end) && Ledger(end)
    decreases events
  {
    if events != [] {
      StepShape(s, events[0]);
      StepLedger(s, events[0]);
      RunKeeps(Step(s, events[0]), events[1..], end);
    }
  }

  /** In every run without overlapping starts at most one attempt is in flight, and when the last
      unfinished dispose resolves nothing is left: the status is `stopped`, no timer is armed, and every
      handle that any attempt opened was disposed exactly once. While others are unfinished the same
      holds of each that resolves. */
  lemma NothingLeaks(enabled: bool, restartNever: bool, events: seq<Event>, end: State, p: Option<nat>)
    requires CalmRun(Initial(enabled, restartNever), events, end)
    ensures forall a, b :: a in end.attempts && b in end.attempts ==> a == b
    ensures forall t, u :: t in end.armed && u in end.armed ==> t == u
    ensures Ledger(end)
    ensures Possible(end, DisposeResolves(p)) ==>
              var d := Step(end, DisposeResolves(p));
              d.status == Stopped && d.attempts == {} && d.armed == {} && NoHandles(d) && EachOnce(d.disposals, d.handles)
  {
    InitialSound(enabled, restartNever);
    RunKeeps(Initial(enabled, restartNever), events, end);
    if Possible(end, DisposeResolves(p)) { DisposedClean(end, p); }
  }

  lemma InitialSound(enabled: bool, restartNever: bool)
    ensures Shape(Initial(enabled, restartNever)) && Ledger(Initial(enabled, restartNever))
  {
    assert Accounted(Initial(enabled, restartNever)) == Numbers(0);
  }

  lemma DisposedClean(s: State, p: Option<nat>)
    requires Shape(s) && Ledger(s) && Possible(s, DisposeResolves(p))
    ensures var d := Step(s, DisposeResolves(p));
            d.status == Stopped && d.attempts == {} && d.armed == {} && NoHandles(d) && EachOnce(d.disposals, d.handles)
  {
    DisposedShape(s, p);
    assert Accounted(s) == s.disposals;
  }

  // ---- Calls that overlap a dispose -----------------------------------------------------------------

  /** An overlapping call starts an attempt of the present generation. */
  lemma OverlapStarts(s: State, e: Event)
    requires Shape(s) && Overlaps(s, e)
    ensures var t := Step(s, e);
            && t.disposing == s.disposing && t.pending == Some(s.nextId)
            && t.attempts == s.attempts + {Attempt(s.nextId, t.generation, OpeningTarget)}
            && t.generation == s.generation + 1
  {
  }

  /** A call keeps what every run keeps exactly if it does not overlap: with a dispose unfinished, only
      a sync, or an update that enables, in status `stopped` or `failed` does harm. */
  lemma OverlapsExactly(s: State, e: Event)
    requires Shape(s) && Possible(s, e)
    ensures Shape(Step(s, e)) <==> !Overlaps(s, e)
  {
    if Overlaps(s, e) {
      OverlapStarts(s, e);
      var t := Step(s, e);
      assert Attempt(s.nextId, t.generation, OpeningTarget) in t.attempts;
    } else {
      StepShape(s, e);
    }
  }

  /** The attempts that were in flight before an overlapping call are given up, one rejection each. */
  lemma StaleRejects(s: State, t: State, a: Attempt)
    requires Shape(s) && s.disposing != multiset{} && a in s.attempts
    requires t.generation == s.generation + 1 && t.attempts == s.attempts + {Attempt(s.nextId, t.generation, OpeningTarget)}
    ensures Possible(t, AttemptRejects(a))
    ensures Step(t, AttemptRejects(a)) == t.(attempts := {Attempt(s.nextId, t.generation, OpeningTarget)})
  {
    AttemptStands(s, a);
    assert a.id != s.nextId;
    assert t.attempts - {a} == {Attempt(s.nextId, t.generation, OpeningTarget)};
  }

  /** Every overlapping call leaves an attempt: from it a run leads to a dispose that resolves, in status
      `stopped`, with an attempt of the present generation in flight. */
  lemma OverlapLeavesAnAttempt(s: State, e: Event) returns (events: seq<Event>, p: Option<nat>, end: State)
    requires Shape(s) && Possible(s, e) && Overlaps(s, e)
    ensures Run(Step(s, e), events, end) && Possible(end, DisposeResolves(p))
    ensures var d := Step(end, DisposeResolves(p));
            d.status == Stopped && exists a :: a in d.attempts && a.generation == d.generation
  {
    OverlapStarts(s, e);
    var t := Step(s, e);
    var mine := Attempt(s.nextId, t.generation, OpeningTarget);
    p := s.pending;
    var q :| q in s.disposing;
    assert q == s.pending;
    if s.attempts == {} {
      events, end := [], t;
      assert t.attempts == {mine};
    } else {
      var a :| a in s.attempts;
      StaleRejects(s, t, a);
      events, end := [AttemptRejects(a)], Step(t, AttemptRejects(a));
      assert Run(end, events[1..], end);
    }
    assert mine in Step(end, DisposeResolves(p)).attempts;
  }

  /** An overlapping call is reached from the start: a dispose call, and a sync before it resolves. */
  lemma OverlapIsReached(restartNever: bool)
    ensures var s := Step(Initial(true, restartNever), CallDispose);
            CalmRun(Initial(true, restartNever), [CallDispose], s) && Shape(s) && Possible(s, CallSync) && Overlaps(s, CallSync)
  {
    var start := Initial(true, restartNever);
    assert CalmRun(Step(start, CallDispose), [CallDispose][1..], Step(start, CallDispose));
    BeginDisposeShape(start);
    assert None in Step(start, CallDispose).disposing;
  }

  // ---- Failing and trying again -----------------------------------------------------------------

  /** Something went wrong that the present generation depends on. */
  predicate Fails(s: State, e: Event) {
    match e
    case AttemptRejects(a) => a.generation == s.generation
    case TransportCloses(w) => w.1 == s.generation
    case _ => false
  }

  /** Failed is entered exactly by a failure with restart policy `never`, and Backoff exactly by one with
      another; running exactly by a granted claim. Restarts count the retries. */
  lemma StatusChanges(s: State, e: Event)
    requires Shape(s) && Possible(s, e)
    ensures Fails(s, e) ==> Step(s, e).status == if s.restartNever then Failed else Backoff
    ensures !Fails(s, e) && Step(s, e).status in {Failed, Backoff} ==> Step(s, e).status == s.status
    ensures e.ClaimResolves? ==> Step(s, e).status == Running
    ensures !e.ClaimResolves? && Step(s, e).status == Running ==> s.status == Running
    ensures Step(s, e).restarts == s.restarts + if e.Fires? then 1 else 0
  {
    if Fails(s, e) {
      FailureStatus(s, e);
    } else {
      OtherStatus(s, e);
    }
  }

  lemma FailureStatus(s: State, e: Event)
    requires Fails(s, e)
    ensures Step(s, e).status == if s.restartNever then Failed else Backoff
    ensures Step(s, e).restarts == s.restarts
  {
  }

  lemma OtherStatus(s: State, e: Event)
    requires OneTimer(s) && Possible(s, e) && !Fails(s, e)
    ensures Step(s, e).status in {Failed, Backoff} ==> Step(s, e).status == s.status
    ensures e.ClaimResolves? ==> Step(s, e).status == Running
    ensures !e.ClaimResolves? && Step(s, e).status == Running ==> s.status == Running
    ensures Step(s, e).restarts == s.restarts + if e.Fires? then 1 else 0
  {
  }

  /** An enabled supervisor that failed tries again: while it backs off a timer is armed, and that
      timer starts an attempt of the present generation. */
  lemma RetryFollows(s: State)
    requires Shape(s) && s.disposing == multiset{} && s.status == Backoff
    ensures exists t :: t in s.armed && Possible(s, Fires(t)) &&
              var r := Step(s, Fires(t));
              r.status == Starting && r.armed == {} && exists a :: a in r.attempts && a.generation == r.generation
  {
    var t :| t in s.armed;
    var r := Step(s, Fires(t));
    assert s.armed - {t} == {};
    assert Attempt(s.nextId, t.generation, OpeningTarget) in r.attempts;
  }
}
