/** What the lifecycle calls of a supervised connection bring about: disabling and disposing let
    everything go, enabling connects, and a failure tries again later. */
module SupervisionCalls {
  import opened Options
  import opened Handles
  import opened Supervision

  // ---- Letting go -------------------------------------------------------------------------------

  /** The calls that end what is there. */
  predicate Ends(s: State, e: Event) {
    match e
    case CallDispose => true
    case CallSync => !s.enabled
    case CallUpdate(enabled, _) => s.enabled && !enabled
    case _ => false
  }

  function Held(handle: Option<nat>): seq<nat> {
    match handle
    case None => []
    case Some(h) => [h]
  }

  /** Nothing of the present generation is held, armed, watched or in flight. */
  ghost predicate Idle(s: State) {
    && s.target == None && s.local == None && s.socket == None
    && s.armed == {}
    && (forall a :: a in s.attempts ==> a.generation < s.generation)
    && (forall w :: w in s.watching ==> w.1 < s.generation)
  }

  /** Disposing, syncing a disabled supervisor and disabling one dispose the target, the local transport and the
      socket, in this order, clear the timer, and wait for the attempt that was started last, which is now stale. */
  lemma EndsReleases(s: State, e: Event)
    requires Shape(s) && Ends(s, e)
    ensures var t := Step(s, e);
            && Idle(t)
            && t.disposals == s.disposals + Held(s.target) + Held(s.local) + Held(s.socket)
            && t.disposing == s.disposing + multiset{s.pending}
            && t.generation == s.generation + 1 && t.attempts == s.attempts && t.pending == s.pending
            && t.enabled == (s.enabled && !e.CallUpdate?)
            && t.restartNever == if e.CallUpdate? then e.restartNever else s.restartNever
  {
    var u := if e.CallUpdate? then s.(enabled := e.enabled, restartNever := e.restartNever) else s;
    ReleasesAll(u);
  }

  lemma ReleasesAll(s: State)
    requires Shape(s)
    ensures var t := BeginDispose(s);
            && Idle(t)
            && t.disposals == s.disposals + Held(s.target) + Held(s.local) + Held(s.socket)
            && t.disposing == s.disposing + multiset{s.pending}
            && t.generation == s.generation + 1 && t.attempts == s.attempts && t.pending == s.pending
            && t.enabled == s.enabled && t.restartNever == s.restartNever
  {
    assert BeginDispose(s).armed == {};
  }

  /** An attempt that a dispose waits for is over with its next event, whatever that is, and the dispose resolves. */
  lemma StaleEnds(s: State, a: Attempt, e: Event)
    requires Shape(s) && a in s.attempts && s.disposing != multiset{}
    requires Possible(s, e) && e in {OpenResolves(a), ClaimResolves(a), AttemptRejects(a)}
    ensures Step(s, e).attempts == {} && Step(s, e).disposing == s.disposing
    ensures forall p :: p in s.disposing ==> Possible(Step(s, e), DisposeResolves(p))
  {
    AttemptStands(s, a);
    assert s.attempts - {a} == {};
  }

  /** Whatever is held, an open that comes too late disposes its handle; the socket's and the local transport's
      also let go of what the fields hold, which are those of a later attempt if one has filled them. */
  lemma LateOpen(s: State, a: Attempt)
    requires a.generation != s.generation && a.phase != Registering
    ensures var t, h := Step(s, OpenResolves(a)), [s.handles];
            t.handles == s.handles + 1 && t.attempts == s.attempts - {a} && t.status == s.status &&
            match a.phase
            case OpeningTarget => t.disposals == s.disposals + h && t.target == s.target && t.socket == s.socket && t.local == s.local
            case OpeningSocket => t.disposals == s.disposals + Held(s.target) + Held(s.local) + h && NoHandles(t)
            case _ => t.disposals == s.disposals + h + Held(s.target) + Held(s.local) + Held(s.socket) && NoHandles(t)
  {
  }

  /** A disabled supervisor is stopped, or a dispose is unfinished. */
  predicate OffStops(s: State) {
    s.enabled || s.disposing != multiset{} || s.status == Stopped
  }

  lemma OffIdle(s: State)
    requires Shape(s) && OffStops(s) && !s.enabled
    ensures Idle(s)
  {
  }

  lemma StepOff(s: State, e: Event)
    requires Shape(s) && OffStops(s) && Possible(s, e) && !Overlaps(s, e)
    ensures OffStops(Step(s, e))
  {
    match e {
      case CallSync =>
      case CallUpdate(_, _) =>
      case CallDispose =>
      case DisposeResolves(_) =>
      case OpenResolves(_) => OtherStatusKept(s, e);
      case ClaimResolves(a) => AttemptStands(s, a);
      case AttemptRejects(a) => AttemptStands(s, a);
      case TransportCloses(w) => if w.1 == s.generation { CurrentWatch(s, w); }
      case Fires(_) =>
    }
  }

  lemma OtherStatusKept(s: State, e: Event)
    requires e.OpenResolves?
    ensures Step(s, e).status == s.status && Step(s, e).enabled == s.enabled && Step(s, e).disposing == s.disposing
  {
  }

  lemma {:induction false} RunOff(s: State, events: seq<Event>, end: State)
    requires Shape(s) && OffStops(s) && CalmRun(s, events, end)
    ensures Shape(end) && OffStops(end)
    decreases events
  {
    if events != [] {
      StepShape(s, events[0]);
      StepOff(s, events[0]);
      RunOff(Step(s, events[0]), events[1..], end);
    }
  }

  /** In every run without overlapping starts, a disabled supervisor holds no handle, has no timer armed and no
      current attempt in flight; it is stopped as soon as no dispose is unfinished. */
  lemma DisabledHoldsNothing(enabled: bool, restartNever: bool, events: seq<Event>, end: State)
    requires CalmRun(Initial(enabled, restartNever), events, end) && !end.enabled
    ensures Idle(end)
    ensures end.disposing == multiset{} ==> end.status == Stopped && end.attempts == {}
  {
    InitialSound(enabled, restartNever);
    RunOff(Initial(enabled, restartNever), events, end);
    OffIdle(end);
  }

  // ---- Connecting -------------------------------------------------------------------------------

  /** The calls that start an attempt. */
  predicate Starts(s: State, e: Event) {
    s.status in {Stopped, Failed} &&
    match e
    case CallSync => s.enabled
    case CallUpdate(enabled, _) => enabled && !s.enabled
    case _ => false
  }

  /** A sync of an enabled supervisor that is stopped or failed, and enabling one, start exactly one attempt, of a
      new generation. */
  lemma StartsOneAttempt(s: State, e: Event)
    requires Shape(s) && s.disposing == multiset{} && Starts(s, e)
    ensures var t := Step(s, e);
            && t.generation == s.generation + 1 && t.status == Starting && t.pending == Some(s.nextId)
            && t.attempts == {Attempt(s.nextId, s.generation + 1, OpeningTarget)}
            && t.enabled && t.armed == {} && t.disposals == s.disposals && NoHandles(t)
  {
    assert {Attempt(s.nextId, s.generation + 1, OpeningTarget)} + {} == {Attempt(s.nextId, s.generation + 1, OpeningTarget)};
  }

  /** A call that neither starts nor ends anything leaves the connection alone. */
  lemma CallsElseNothing(s: State, e: Event)
    requires (e.CallSync? || e.CallUpdate?) && !Starts(s, e) && !Ends(s, e)
    ensures Step(s, e) == if e.CallUpdate? then s.(enabled := e.enabled, restartNever := e.restartNever) else s
  {
    assert s.status == Stopped || s.status == Failed || s.status in {Running, Starting, Backoff};
  }

  /** The status after every step. */
  lemma StatusExactly(s: State, e: Event)
    requires Shape(s) && Possible(s, e)
    ensures var status := Step(s, e).status;
            if Fails(s, e) then status == if s.restartNever then Failed else Backoff
            else if e.ClaimResolves? then status == Running
            else if e.DisposeResolves? then status == Stopped
            else if e.Fires? || Starts(s, e) then status == Starting
            else status == s.status
  {
    if Fails(s, e) {
      FailureStatus(s, e);
    } else if e.Fires? {
      assert e.timer.generation == s.generation;
    }
  }

  lemma {:induction false} Continued(s: State, e: Event, events: seq<Event>, end: State)
    requires Possible(s, e) && !Overlaps(s, e) && CalmRun(Step(s, e), events, end)
    ensures CalmRun(s, [e] + events, end)
  {
    assert ([e] + events)[1..] == events;
  }

  lemma NextPhase(s: State, a: Attempt) returns (b: Attempt)
    requires Shape(s) && a in s.attempts && a.generation == s.generation && a.phase != Registering
    ensures b == a.(phase := match a.phase case OpeningTarget => OpeningSocket case OpeningSocket => OpeningLocal case _ => Registering)
    ensures var t := Step(s, OpenResolves(a));
            t.attempts == {b} && t.generation == s.generation && t.handles == s.handles + 1 && Shape(t) && t.watching == s.watching &&
            match a.phase
            case OpeningTarget => t.target == Some(s.handles) && t.socket == None && t.local == None
            case OpeningSocket => t.target == s.target && t.socket == Some(s.handles) && t.local == None
            case _ => t.target == s.target && t.socket == s.socket && t.local == Some(s.handles)
  {
    AttemptStands(s, a);
    StepShape(s, OpenResolves(a));
    b := a.(phase := match a.phase case OpeningTarget => OpeningSocket case OpeningSocket => OpeningLocal case _ => Registering);
    assert s.attempts - {a} + {b} == {b};
  }

  /** Running: the three handles `first`, `second` and `third` are held and one watch stands for them. */
  ghost predicate Up(s: State, target: nat, socket: nat, local: nat, watch: (nat, nat)) {
    && s.status == Running && s.attempts == {}
    && s.target == Some(target) && s.socket == Some(socket) && s.local == Some(local)
    && watch in s.watching && watch.1 == s.generation
  }

  /** From a current attempt that begins, target, socket and local transport open and the claim is granted: then the
      supervisor runs, on the handles opened. */
  lemma ComesUp(s: State, a: Attempt) returns (events: seq<Event>, end: State)
    requires Shape(s) && a in s.attempts && a.generation == s.generation && a.phase == OpeningTarget
    ensures CalmRun(s, events, end) && Shape(end)
    ensures Up(end, s.handles, s.handles + 1, s.handles + 2, (a.id, a.generation)) && end.handles == s.handles + 3
  {
    var b := NextPhase(s, a);
    var s1 := Step(s, OpenResolves(a));
    var c := NextPhase(s1, b);
    var s2 := Step(s1, OpenResolves(b));
    var d := NextPhase(s2, c);
    var s3 := Step(s2, OpenResolves(c));
    end := Granted(s3, d);
    assert CalmRun(end, [], end);
    Continued(s3, ClaimResolves(d), [], end);
    Continued(s2, OpenResolves(c), [ClaimResolves(d)] + [], end);
    Continued(s1, OpenResolves(b), [OpenResolves(c)] + ([ClaimResolves(d)] + []), end);
    events := [OpenResolves(a)] + ([OpenResolves(b)] + ([OpenResolves(c)] + ([ClaimResolves(d)] + [])));
    Continued(s, OpenResolves(a), [OpenResolves(b)] + ([OpenResolves(c)] + ([ClaimResolves(d)] + [])), end);
  }

  lemma Granted(s: State, a: Attempt) returns (end: State)
    requires Shape(s) && s.attempts == {a} && a.generation == s.generation && a.phase == Registering
    ensures end == Step(s, ClaimResolves(a)) && Possible(s, ClaimResolves(a)) && Shape(end)
    ensures s.target.Some? && s.socket.Some? && s.local.Some? && end.handles == s.handles
    ensures Up(end, s.target.value, s.socket.value, s.local.value, (a.id, a.generation))
  {
    AttemptStands(s, a);
    StepShape(s, ClaimResolves(a));
    end := Step(s, ClaimResolves(a));
    assert {a} - {a} == {};
  }

  /** An enabled supervisor that is synced reaches `running`. */
  lemma RunningIsReached(restartNever: bool) returns (events: seq<Event>, end: State)
    ensures CalmRun(Initial(true, restartNever), events, end) && Up(end, 0, 1, 2, (0, 1)) && end.handles == 3
  {
    var start := Initial(true, restartNever);
    InitialSound(true, restartNever);
    StartsOneAttempt(start, CallSync);
    StepShape(start, CallSync);
    var rest;
    rest, end := ComesUp(Step(start, CallSync), Attempt(0, 1, OpeningTarget));
    events := [CallSync] + rest;
    Continued(start, CallSync, rest, end);
  }

  // ---- Trying again -----------------------------------------------------------------------------

  /** What fails lets go of the three handles in order; unless the restart policy is `never`, one timer is armed that
      is due after a delay that doubles with every retry, from 500 milliseconds up to 30 seconds. */
  lemma FailureRetries(s: State, e: Event)
    requires Shape(s) && Possible(s, e) && Fails(s, e)
    ensures var t := Step(s, e);
            && t.disposals == s.disposals + Held(s.target) + Held(s.local) + Held(s.socket) && NoHandles(t)
            && t.attempts == {}
            && t.armed == (if s.restartNever then {} else {Timer(s.nextId, s.generation, Due(s.restarts))})
  {
    if e.AttemptRejects? {
      AttemptStands(s, e.attempt);
      assert s.attempts - {e.attempt} == {};
    } else {
      CurrentWatch(s, e.watch);
    }
    DelayIsDue(s.restarts);
  }

  function Due(restarts: nat): nat {
    match restarts
    case 0 => 500
    case 1 => 1_000
    case 2 => 2_000
    case 3 => 4_000
    case 4 => 8_000
    case 5 => 16_000
    case _ => 30_000
  }

  lemma DelayIsDue(restarts: nat)
    ensures Delay(restarts) == Due(restarts)
  {
    assert PowerOfTwo(1) == 2 && PowerOfTwo(2) == 4 && PowerOfTwo(3) == 8;
    assert PowerOfTwo(4) == 16 && PowerOfTwo(5) == 32 && PowerOfTwo(6) == 64;
  }
}
