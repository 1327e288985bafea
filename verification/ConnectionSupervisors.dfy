/** The supervisor object: each method runs the code between two awaits, and is one step of
    `Supervision`. What the runtime keeps (attempts suspended at an await, armed timers,
    transports not yet closed, opened handles) is kept beside the object's own fields. */
module ConnectionSupervisors {
  import opened Options
  import opened Supervision

  class ConnectionSupervisor {
    var status: Status
    var generation: nat
    var enabled: bool
    var restartNever: bool
    var restarts: nat
    var target: Option<nat>
    var local: Option<nat>
    var socket: Option<nat>
    var pending: Option<nat>
    var timer: Option<Timer>
    var attempts: set<Attempt>
    var armed: set<Timer>
    var watching: set<(nat, nat)>
    var disposing: multiset<Option<nat>>
    var handles: nat
    var disposals: seq<nat>
    var nextId: nat

    ghost function Now(): State
      reads this
    {
      State(status, generation, enabled, restartNever, restarts, target, local, socket, pending, attempts,
            timer, armed, watching, disposing, handles, disposals, nextId)
    }

    /** What every run without overlapping starts keeps: see `Supervision.NothingLeaks`. */
    ghost predicate Sound()
      reads this
    {
      Shape(Now()) && Ledger(Now())
    }

    constructor (enabled: bool, restartNever: bool)
      ensures Now() == Initial(enabled, restartNever) && Sound()
    {
      status, generation, this.enabled, this.restartNever, restarts := Status.Stopped, 0, enabled, restartNever, 0;
      target, local, socket, pending, timer := None, None, None, None, None;
      attempts, armed, watching, disposing := {}, {}, {}, multiset{};
      handles, disposals, nextId := 0, [], 0;
    }

    method DisposeHandle(handle: Option<nat>)
      modifies this`disposals
      ensures disposals == old(disposals) + Release(handle)
    {
      if handle.Some? { disposals := disposals + [handle.value]; }
    }

    method Cleanup()
      modifies this`target, this`local, this`socket, this`disposals
      ensures Now() == Supervision.Cleanup(old(Now()))
    {
      DisposeHandle(target);
      target := None;
      DisposeHandle(local);
      local := None;
      DisposeHandle(socket);
      socket := None;
    }

    method Failed(failed: nat)
      modifies this
      ensures Now() == Fail(old(Now()), failed)
    {
      Cleanup();
      if restartNever {
        status := Status.Failed;
      } else {
        status := Backoff;
        var t := Timer(nextId, failed, Delay(restarts));
        timer, armed, nextId := Some(t), armed + {t}, nextId + 1;
      }
    }

    method Connect(attempted: nat)
      modifies this
      ensures Now() == Supervision.Connect(old(Now()), attempted)
    {
      status := Starting;
      attempts := attempts + {Attempt(nextId, attempted, OpeningTarget)};
      pending := Some(nextId);
      nextId := nextId + 1;
    }

    method Disarm()
      modifies this`generation, this`armed
      ensures Now() == Supervision.Disarm(old(Now()))
    {
      generation := generation + 1;
      if timer.Some? { armed := armed - {timer.value}; }
    }

    method Dispose()
      modifies this
      ensures Now() == BeginDispose(old(Now()))
    {
      Disarm();
      Cleanup();
      disposing := disposing + multiset{pending};
    }

    method DisposeResolved(awaited: Option<nat>)
      requires awaited in disposing
      modifies this`status, this`disposing
      ensures Now() == DisposeDone(old(Now()), awaited)
    {
      status := Status.Stopped;
      disposing := disposing - multiset{awaited};
    }

    method Sync()
      modifies this
      ensures Now() == Supervision.Sync(old(Now()))
    {
      if !enabled {
        Dispose();
        return;
      }
      if status == Running || status == Starting || status == Backoff {
        return;
      }
      generation := generation + 1;
      Connect(generation);
    }

    method Update(enabled: bool, restartNever: bool)
      modifies this
      ensures Now() == Step(old(Now()), CallUpdate(enabled, restartNever))
    {
      var enabledChanged := this.enabled != enabled;
      this.enabled := enabled;
      this.restartNever := restartNever;
      if enabledChanged { Sync(); }
    }

    method TargetOpened(a: Attempt)
      requires a.phase == OpeningTarget
      modifies this
      ensures Now() == Opened(old(Now()), a)
    {
      var handle := Some(handles);
      handles := handles + 1;
      if a.generation != generation {
        DisposeHandle(handle);
        attempts := attempts - {a};
        return;
      }
      target := handle;
      attempts := attempts - {a} + {a.(phase := OpeningSocket)};
    }

    method SocketOpened(a: Attempt)
      requires a.phase == OpeningSocket
      modifies this
      ensures Now() == Opened(old(Now()), a)
    {
      socket := Some(handles);
      handles := handles + 1;
      if a.generation != generation {
        Cleanup();
        attempts := attempts - {a};
        return;
      }
      attempts := attempts - {a} + {a.(phase := OpeningLocal)};
    }

    method LocalOpened(a: Attempt)
      requires a.phase == OpeningLocal
      modifies this`local, this`target, this`socket, this`disposals, this`handles, this`attempts
      ensures Now() == Opened(old(Now()), a)
    {
      var handle := Some(handles);
      handles := handles + 1;
      if a.generation != generation {
        DisposeHandle(handle);
        Cleanup();
        attempts := attempts - {a};
        return;
      }
      local := handle;
      attempts := attempts - {a} + {a.(phase := Registering)};
    }

    method Claimed(a: Attempt)
      modifies this
      ensures Now() == Registered(old(Now()), a)
    {
      status := Running;
      watching := watching + {(a.id, a.generation)};
      attempts := attempts - {a};
    }

    method AttemptRejected(a: Attempt)
      modifies this
      ensures Now() == Rejected(old(Now()), a)
    {
      if a.generation == generation { Failed(a.generation); }
      attempts := attempts - {a};
    }

    method TransportClosed(watch: (nat, nat))
      modifies this
      ensures Now() == Closed(old(Now()), watch)
    {
      watching := watching - {watch};
      if watch.1 == generation { Failed(watch.1); }
    }

    method TimerFired(t: Timer)
      modifies this
      ensures Now() == TimerFires(old(Now()), t)
    {
      armed := armed - {t};
      if t.generation != generation {
        return;
      }
      restarts := restarts + 1;
      Connect(t.generation);
    }

    /** Whatever happens next, the object takes the step of the model; it stays sound unless the
        event is a call that starts an attempt while a dispose is unfinished. */
    method React(e: Event)
      requires Sound() && Possible(Now(), e)
      modifies this
      ensures Now() == Step(old(Now()), e)
      ensures Sound() <==> !old(Overlaps(Now(), e))
    {
      OverlapsExactly(Now(), e);
      StepLedger(Now(), e);
      match e {
        case CallSync => Sync();
        case CallUpdate(enabled, never) => Update(enabled, never);
        case CallDispose => Dispose();
        case DisposeResolves(p) => DisposeResolved(p);
        case OpenResolves(a) =>
          if a.phase == OpeningTarget { TargetOpened(a); }
          else if a.phase == OpeningSocket { SocketOpened(a); }
          else { LocalOpened(a); }
        case ClaimResolves(a) => Claimed(a);
        case AttemptRejects(a) => AttemptRejected(a);
        case TransportCloses(w) => TransportClosed(w);
        case Fires(t) => TimerFired(t);
      }
    }
  }
}
