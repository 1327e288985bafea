/** Setting up a forwarding link: four steps that may fail, hang or be cut off, and whose
    resources may arrive late. */
module LinkSetup {
  import opened Options
  import opened Handles

  /** The promise of a step. */
  datatype Promise = NotStarted | Pending | Resolved(handle: nat) | Rejected

  /** `_untilAborted`: unsettled, or settled and about to wake the setup. */
  datatype Outcome = Unsettled | Fulfilled | Failed

  /** Where the setup is: at the await of a step, at the established link, or past `finally`. */
  datatype Place = Waiting(step: nat, outcome: Outcome) | Connected | Over

  const STEPS := 4

  /** What the store of resources holds and what it has disposed; handles count what the steps
      yielded, in order of arrival. */
  datatype Store = Store(held: seq<nat>, closed: bool, disposed: seq<nat>)

  datatype State = State(place: Place, promises: seq<Promise>, aborted: bool, handles: nat, store: Store)

  function Reversed(s: seq<nat>): seq<nat> {
    if s == [] then [] else Reversed(s[1..]) + [s[0]]
  }

  /** A resource that comes after the store was disposed is disposed at once. */
  function Add(r: Store, h: nat): Store {
    if r.closed then r.(disposed := r.disposed + [h]) else r.(held := r.held + [h])
  }

  function DisposeAll(r: Store): Store {
    Store([], true, r.disposed + Reversed(r.held))
  }

  function Start(s: State, step: nat): State
    requires step < |s.promises|
  {
    s.(place := Waiting(step, if s.aborted then Failed else Unsettled), promises := s.promises[step := Pending])
  }

  function Initial(aborted: bool): State {
    Start(State(Over, [NotStarted, NotStarted, NotStarted, NotStarted], aborted, 0, Store([], false, [])), 0)
  }

  function TearDown(s: State): State {
    s.(place := Over, store := DisposeAll(s.store))
  }

  /** The promise of `step` settles; if the setup still waits for it, it wakes. */
  function Settles(s: State, step: nat, promise: Promise, outcome: Outcome): State
    requires step < |s.promises|
  {
    s.(promises := s.promises[step := promise],
       place := if s.place == Waiting(step, Unsettled) then Waiting(step, outcome) else s.place)
  }

  /** The resource is stored before the setup wakes, and also if the setup no longer waits for it. */
  function Resolves(s: State, step: nat): State
    requires step < |s.promises|
  {
    Settles(s, step, Resolved(s.handles), Fulfilled).(handles := s.handles + 1, store := Add(s.store, s.handles))
  }

  /** The deadline passes, or the link is disposed. */
  function Aborts(s: State): State {
    s.(aborted := true, place := if s.place.Waiting? && s.place.outcome == Unsettled then s.place.(outcome := Failed) else s.place)
  }

  /** The setup goes on after an await; `throws` if starting the next step throws. */
  function Continues(s: State, throws: bool): State
    requires |s.promises| == STEPS && s.place.Waiting? && s.place.step < STEPS && s.place.outcome != Unsettled
  {
    if s.place.outcome == Failed then TearDown(s)
    else if s.place.step + 1 == STEPS then s.(place := Connected)
    else if throws then TearDown(s)
    else Start(s, s.place.step + 1)
  }

  datatype Event = Resolve(step: nat) | Reject(step: nat) | Abort | Continue(throws: bool) | LinkEnds

  predicate Possible(s: State, e: Event) {
    match e
    case Resolve(k) => k < |s.promises| && s.promises[k] == Pending
    case Reject(k) => k < |s.promises| && s.promises[k] == Pending
    case Abort => true
    case Continue(_) => s.place.Waiting? && s.place.outcome != Unsettled
    case LinkEnds => s.place == Connected
  }

  function Step(s: State, e: Event): State
    requires Sequential(s) && Possible(s, e)
  {
    match e
    case Resolve(k) => Resolves(s, k)
    case Reject(k) => Settles(s, k, Rejected, Failed)
    case Abort => Aborts(s)
    case Continue(throws) => Continues(s, throws)
    case LinkEnds => TearDown(s)
  }

  // ---- One step after the other --------------------------------------------------------------------

  /** The steps before `step` have yielded their resources, and those after it have not been started. */
  ghost predicate Reached(s: State, step: nat) {
    && step <= STEPS && |s.promises| == STEPS
    && (forall k :: 0 <= k < step ==> s.promises[k] == Resolved(k))
    && (forall k :: step < k < STEPS ==> s.promises[k] == NotStarted)
  }

  /** The promise of the step that the setup waits for agrees with what the await will yield. */
  ghost predicate Agrees(s: State, step: nat, outcome: Outcome)
    requires |s.promises| == STEPS && step < STEPS
  {
    match s.promises[step]
    case NotStarted => false
    case Pending => s.handles == step && outcome == (if s.aborted then Failed else Unsettled)
    case Resolved(h) => h == step && s.handles == step + 1 && (outcome == Fulfilled || (outcome == Failed && s.aborted))
    case Rejected => s.handles == step && outcome == Failed
  }

  ghost predicate Sequential(s: State) {
    match s.place
    case Waiting(step, outcome) => step < STEPS && Reached(s, step) && Agrees(s, step, outcome)
    case Connected => Reached(s, STEPS) && s.handles == STEPS
    case Over => |s.promises| == STEPS
  }

  lemma StepSequential(s: State, e: Event)
    requires Sequential(s) && Possible(s, e)
    ensures Sequential(Step(s, e))
  {
  }

  ghost predicate Run(s: State, events: seq<Event>, end: State)
    requires Sequential(s)
    decreases events
  {
    if events == [] then s == end
    else Possible(s, events[0]) && (StepSequential(s, events[0]); Run(Step(s, events[0]), events[1..], end))
  }

  // ---- The order of disposals ----------------------------------------------------------------------

  /** The handles from `m` up to `n`. */
  function Range(m: nat, n: nat): seq<nat> {
    if n <= m then [] else Range(m, n - 1) + [n - 1]
  }

  /** Until the teardown everything is held, in order of arrival. Of the handles, the first `before`
      arrived before the teardown and were disposed in reverse, and the others as they came. */
  ghost predicate Ordered(s: State, before: nat) {
    if s.place != Over then !s.store.closed && s.store.held == Numbers(s.handles) && s.store.disposed == []
    else s.store.closed && s.store.held == [] && before <= s.handles &&
         s.store.disposed == Reversed(Numbers(before)) + Range(before, s.handles)
  }

  /** How many handles had arrived when the store was disposed. */
  function Before(s: State, before: nat): nat {
    if s.place == Over then before else s.handles
  }

  lemma ResolveOrdered(s: State, step: nat, before: nat)
    requires Ordered(s, before) && step < |s.promises|
    ensures Ordered(Resolves(s, step), before)
  {
    if s.place == Over {
      var r, h := Reversed(Numbers(before)), s.handles;
      assert Range(before, h + 1) == Range(before, h) + [h];
      assert r + Range(before, h) + [h] == r + (Range(before, h) + [h]);
    } else {
      assert Numbers(s.handles + 1) == Numbers(s.handles) + [s.handles];
    }
  }

  lemma TearDownOrdered(s: State, before: nat)
    requires Ordered(s, before) && s.place != Over
    ensures Ordered(TearDown(s), s.handles)
  {
    assert [] + Reversed(s.store.held) + [] == Reversed(s.store.held);
  }

  lemma StepOrdered(s: State, e: Event, before: nat)
    requires Sequential(s) && Ordered(s, before) && Possible(s, e)
    ensures Ordered(Step(s, e), Before(s, before))
  {
    match e {
      case Resolve(k) => ResolveOrdered(s, k, Before(s, before));
      case Continue(_) => TearDownOrdered(s, before);
      case LinkEnds => TearDownOrdered(s, before);
      case _ =>
    }
  }

  lemma {:induction false} RunOrdered(s: State, events: seq<Event>, end: State, before: nat) returns (arrived: nat)
    requires Sequential(s) && Ordered(s, before) && Run(s, events, end)
    ensures Sequential(end) && Ordered(end, arrived)
    ensures s.place == Over ==> end.place == Over && arrived == before
    decreases events
  {
    if events == [] {
      arrived := before;
    } else {
      StepSequential(s, events[0]);
      StepOrdered(s, events[0], before);
      arrived := RunOrdered(Step(s, events[0]), events[1..], end, Before(s, before));
    }
  }

  lemma {:induction false} ReversedSame(s: seq<nat>)
    ensures multiset(Reversed(s)) == multiset(s)
  {
    if s != [] {
      ReversedSame(s[1..]);
      assert s == [s[0]] + s[1..];
    }
  }

  lemma {:induction false} NumbersSplit(m: nat, n: nat)
    requires m <= n
    ensures Numbers(n) == Numbers(m) + Range(m, n)
  {
    if m < n { NumbersSplit(m, n - 1); }
  }

  /** Reversing puts the last first. */
  lemma {:induction false} ReversedAt(s: seq<nat>, k: nat)
    requires k < |s|
    ensures |Reversed(s)| == |s| && Reversed(s)[k] == s[|s| - 1 - k]
  {
    if |s| > 1 { ReversedAt(s[1..], if k < |s| - 1 then k else 0); }
  }

  // ---- Nothing leaks -------------------------------------------------------------------------------

  lemma OverDisposed(s: State, before: nat)
    requires Ordered(s, before) && s.place == Over
    ensures EachOnce(s.store.disposed, s.handles)
  {
    ReversedSame(Numbers(before));
    NumbersSplit(before, s.handles);
  }

  /** Until the setup is over it disposes nothing, and an established link holds what all four steps
      yielded; once it is over, every resource that any step ever yields is disposed exactly once. */
  lemma NothingLeaks(aborted: bool, events: seq<Event>, end: State)
    requires Run(Initial(aborted), events, end)
    ensures end.place != Over ==> end.store.disposed == [] && end.store.held == Numbers(end.handles)
    ensures end.place == Connected ==> end.handles == STEPS && end.promises == seq(STEPS, k requires 0 <= k => Resolved(k))
    ensures end.place == Over ==> end.store.held == [] && EachOnce(end.store.disposed, end.handles)
  {
    var before := RunOrdered(Initial(aborted), events, end, 0);
    if end.place == Over { OverDisposed(end, before); }
  }

  /** What had arrived when the setup ended is disposed in reverse order of arrival, and what arrives
      later in order of arrival, each as it comes. */
  lemma DisposedInOrder(aborted: bool, setup: seq<Event>, last: State, e: Event, later: seq<Event>, end: State)
    requires Run(Initial(aborted), setup, last) && last.place != Over && Possible(last, e)
    requires Sequential(last) && Step(last, e).place == Over
    requires (StepSequential(last, e); Run(Step(last, e), later, end))
    ensures end.store.disposed == Reversed(Numbers(last.handles)) + Range(last.handles, end.handles)
  {
    var before := RunOrdered(Initial(aborted), setup, last, 0);
    StepSequential(last, e);
    StepOrdered(last, e, before);
    var arrived := RunOrdered(Step(last, e), later, end, last.handles);
  }

  /** A step that hangs does not delay the end: once the deadline has passed or the link was disposed,
      the setup ends without any promise having to settle, unless it was just established. */
  lemma AbortEndsSetup(s: State, throws: bool, again: bool)
    requires Sequential(s) && s.aborted && s.place.Waiting?
    ensures Possible(s, Continue(throws))
    ensures var n := Step(s, Continue(throws));
            || n.place == Over
            || (n.place == Connected && n.handles == STEPS)
            || (n.place == Waiting(s.place.step + 1, Failed) && Possible(n, Continue(again)) &&
                (StepSequential(s, Continue(throws)); Step(n, Continue(again)).place == Over))
  {
    StepSequential(s, Continue(throws));
  }

  // ---- When a setup ends, and when the link is established -------------------------------------------

  /** A setup that goes on is over exactly if its await failed, or starting one of the later steps throws; an
      established link is over exactly when it ends. */
  lemma OverExactly(s: State, e: Event)
    requires Sequential(s) && Possible(s, e) && s.place != Over
    ensures Step(s, e).place == Over <==>
            e.LinkEnds? || (e.Continue? && (s.place.outcome == Failed || (e.throws && s.place.step + 1 < 4)))
  {
  }

  /** The link is established exactly when the last of the four steps was fulfilled and the setup goes on. */
  lemma ConnectedExactly(s: State, e: Event)
    requires Sequential(s) && Possible(s, e) && s.place != Connected
    ensures Step(s, e).place == Connected <==> e.Continue? && s.place == Waiting(3, Fulfilled)
  {
  }

  /** The steps follow each other: a fulfilled one that goes on starts the next, which fails at once after an abort. */
  lemma NextStep(s: State, e: Event)
    requires Sequential(s) && Possible(s, e) && s.place.Waiting?
    requires e == Continue(false) && s.place.outcome == Fulfilled && s.place.step < 3
    ensures var t, next := Step(s, e), s.place.step + 1;
            t.place == Waiting(next, if s.aborted then Failed else Unsettled) &&
            t.promises == s.promises[next := Pending] && t.store == s.store
  {
  }

  /** What a setup goes through that ends nothing. */
  predicate Smooth(e: Event) {
    e.Resolve? || e == Continue(false)
  }

  ghost predicate Undisturbed(s: State) {
    && Sequential(s) && !s.aborted && s.place != Over
    && (s.place.Waiting? ==> s.place.outcome != Failed)
  }

  lemma StepUndisturbed(s: State, e: Event)
    requires Undisturbed(s) && Possible(s, e) && Smooth(e)
    ensures Undisturbed(Step(s, e))
  {
    StepSequential(s, e);
  }

  lemma {:induction false} RunUndisturbed(s: State, events: seq<Event>, end: State)
    requires Undisturbed(s) && Run(s, events, end) && forall i :: 0 <= i < |events| ==> Smooth(events[i])
    ensures Undisturbed(end)
    decreases events
  {
    if events != [] {
      StepUndisturbed(s, events[0]);
      RunUndisturbed(Step(s, events[0]), events[1..], end);
    }
  }

  /** A setup that is over had a reason: it was aborted, a step rejected or threw, or the established link ended. */
  lemma OverHasReason(events: seq<Event>, end: State)
    requires Run(Initial(false), events, end) && end.place == Over
    ensures exists i :: 0 <= i < |events| && events[i] in {Reject(0), Reject(1), Reject(2), Reject(3), Abort, Continue(true), LinkEnds}
  {
    if forall i :: 0 <= i < |events| ==> Smooth(events[i]) {
      RunUndisturbed(Initial(false), events, end);
    } else {
      var i :| 0 <= i < |events| && !Smooth(events[i]);
      KnownEvents(Initial(false), events, end, i);
    }
  }

  lemma {:induction false} KnownEvents(s: State, events: seq<Event>, end: State, i: nat)
    requires Sequential(s) && Run(s, events, end) && i < |events| && !Smooth(events[i])
    ensures events[i] in {Reject(0), Reject(1), Reject(2), Reject(3), Abort, Continue(true), LinkEnds}
    decreases events
  {
    StepSequential(s, events[0]);
    if i > 0 {
      KnownEvents(Step(s, events[0]), events[1..], end, i - 1);
    } else if events[0].Reject? {
      assert |s.promises| == 4;
    }
  }

  /** The setup at step `k`, with the handles of the steps before it. */
  ghost predicate At(s: State, k: nat) {
    k < 4 && Sequential(s) && s.place == Waiting(k, Unsettled) && s.store == Store(Numbers(k), false, []) && !s.aborted
  }

  lemma StepDone(s: State, k: nat) returns (t: State)
    requires At(s, k)
    ensures Possible(s, Resolve(k)) && Sequential(Step(s, Resolve(k)))
    ensures Possible(Step(s, Resolve(k)), Continue(false)) && t == Step(Step(s, Resolve(k)), Continue(false))
    ensures if k < 3 then At(t, k + 1) else t.place == Connected && t.store == Store(Numbers(4), false, [])
  {
    var r := Step(s, Resolve(k));
    StepSequential(s, Resolve(k));
    StepSequential(r, Continue(false));
    t := Step(r, Continue(false));
    assert Numbers(k + 1) == Numbers(k) + [k];
  }

  function SmoothFrom(k: nat): seq<Event>
    decreases 4 - k
  {
    if k >= 4 then [] else [Resolve(k), Continue(false)] + SmoothFrom(k + 1)
  }

  lemma {:induction false} Establishes(s: State, k: nat) returns (end: State)
    requires At(s, k)
    ensures Run(s, SmoothFrom(k), end) && end.place == Connected && end.store == Store(Numbers(4), false, [])
    decreases 4 - k
  {
    var t := StepDone(s, k);
    var events, r := SmoothFrom(k), Step(s, Resolve(k));
    if k < 3 {
      end := Establishes(t, k + 1);
    } else {
      end := t;
    }
    assert events[1..][1..] == SmoothFrom(k + 1) && events[1..][0] == Continue(false);
    assert Run(r, events[1..], end);
  }

  /** Four steps that resolve establish the link, which then holds all four resources. */
  lemma LinkIsEstablished() returns (end: State)
    ensures SmoothFrom(0) == [Resolve(0), Continue(false), Resolve(1), Continue(false), Resolve(2), Continue(false), Resolve(3), Continue(false)]
    ensures Run(Initial(false), SmoothFrom(0), end) && end.place == Connected && end.store == Store([0, 1, 2, 3], false, [])
  {
    FourSteps();
    end := Establishes(Initial(false), 0);
    assert Numbers(4) == [0, 1, 2, 3];
  }

  lemma FourSteps()
    ensures SmoothFrom(0) == [Resolve(0), Continue(false), Resolve(1), Continue(false), Resolve(2), Continue(false), Resolve(3), Continue(false)]
  {
    assert SmoothFrom(2) == [Resolve(2), Continue(false), Resolve(3), Continue(false)];
    assert SmoothFrom(0) == [Resolve(0), Continue(false), Resolve(1), Continue(false)] + SmoothFrom(2);
  }
}
