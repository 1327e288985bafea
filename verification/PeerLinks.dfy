/** The object that sets up a link, and its store of resources. Each method of `LinkAttempt` runs
    the code between two awaits, and is one step of `LinkSetup`. */
module PeerLinks {
  import opened Options
  import opened LinkSetup

  /** Runs disposals in reverse order; one added after `Dispose` runs at once. */
  class DisposableStore {
    var disposals: seq<nat>
    var disposed: bool
    /** The disposals that were run. */
    ghost var ran: seq<nat>

    ghost function Now(): Store
      reads this
    {
      Store(disposals, disposed, ran)
    }

    constructor ()
      ensures Now() == Store([], false, [])
    {
      disposals, disposed, ran := [], false, [];
    }

    method Add(dispose: nat)
      modifies this
      ensures Now() == LinkSetup.Add(old(Now()), dispose)
    {
      if disposed {
        ran := ran + [dispose];
      } else {
        disposals := disposals + [dispose];
      }
    }

    method Dispose()
      modifies this
      ensures Now() == DisposeAll(old(Now()))
    {
      disposed := true;
      var todo := disposals;
      disposals := [];
      ghost var before := ran;
      var i := |todo|;
      assert todo[..i] == todo;
      while i > 0
        invariant 0 <= i <= |todo| && disposed && disposals == []
        invariant ran + Reversed(todo[..i]) == before + Reversed(todo)
      {
        i := i - 1;
        ReversedLast(todo[..i + 1]);
        assert todo[..i + 1][..i] == todo[..i];
        ran := ran + [todo[i]];
      }
    }
  }

  lemma {:induction false} ReversedLast(s: seq<nat>)
    requires s != []
    ensures Reversed(s) == [s[|s| - 1]] + Reversed(s[..|s| - 1])
  {
    if |s| > 1 {
      ReversedLast(s[1..]);
      assert s[1..][..|s| - 2] == s[..|s| - 1][1..];
    }
  }

  class LinkAttempt {
    const resources: DisposableStore
    var place: Place
    var promises: seq<Promise>
    var aborted: bool
    var handles: nat

    ghost function Now(): State
      reads this, resources
    {
      State(place, promises, aborted, handles, resources.Now())
    }

    /** What every run keeps: see `LinkSetup.NothingLeaks`. */
    ghost predicate Sound()
      reads this, resources
    {
      Sequential(Now()) && exists before :: Ordered(Now(), before)
    }

    constructor (aborted: bool)
      ensures Now() == Initial(aborted) && Sound() && fresh(resources)
    {
      resources := new DisposableStore();
      this.aborted, handles := aborted, 0;
      promises := [Pending, NotStarted, NotStarted, NotStarted];
      place := Waiting(0, if aborted then Failed else Unsettled);
      new;
      assert Ordered(Now(), 0);
    }

    method Start(step: nat)
      requires step < |promises|
      modifies this
      ensures Now() == LinkSetup.Start(old(Now()), step)
    {
      promises := promises[step := Pending];
      place := Waiting(step, if aborted then Failed else Unsettled);
    }

    method Wake(outcome: Outcome)
      modifies this`place
      ensures place == if old(place).Waiting? && old(place).outcome == Unsettled then Waiting(old(place).step, outcome) else old(place)
    {
      if place.Waiting? && place.outcome == Unsettled { place := Waiting(place.step, outcome); }
    }

    method Resolved(step: nat)
      requires step < |promises|
      modifies this, resources
      ensures Now() == Resolves(old(Now()), step)
    {
      var handle := handles;
      handles := handles + 1;
      promises := promises[step := Promise.Resolved(handle)];
      resources.Add(handle);
      if place == Waiting(step, Unsettled) { Wake(Fulfilled); }
    }

    method Rejected(step: nat)
      requires step < |promises|
      modifies this
      ensures Now() == Settles(old(Now()), step, Promise.Rejected, Failed)
    {
      promises := promises[step := Promise.Rejected];
      if place == Waiting(step, Unsettled) { Wake(Failed); }
    }

    method Abort()
      modifies this
      ensures Now() == Aborts(old(Now()))
    {
      aborted := true;
      Wake(Failed);
    }

    method TearDown()
      modifies this, resources
      ensures Now() == LinkSetup.TearDown(old(Now()))
    {
      place := Over;
      resources.Dispose();
    }

    method Continue(throws: bool)
      requires |promises| == STEPS && place.Waiting? && place.step < STEPS && place.outcome != Unsettled
      modifies this, resources
      ensures Now() == Continues(old(Now()), throws)
    {
      if place.outcome == Failed {
        TearDown();
        return;
      }
      if place.step + 1 == STEPS {
        place := Connected;
        return;
      }
      if throws { TearDown(); } else { Start(place.step + 1); }
    }

    /** Whatever happens next, the object takes the step of the model and stays sound. */
    method React(e: Event)
      requires Sound() && Possible(Now(), e)
      modifies this, resources
      ensures Now() == Step(old(Now()), e) && Sound()
    {
      ghost var s := Now();
      ghost var before :| Ordered(s, before);
      StepSequential(s, e);
      StepOrdered(s, e, before);
      match e {
        case Resolve(k) => Resolved(k);
        case Reject(k) => Rejected(k);
        case Abort => Abort();
        case Continue(throws) => Continue(throws);
        case LinkEnds => TearDown();
      }
      assert Ordered(Now(), Before(s, before));
    }
  }
}
