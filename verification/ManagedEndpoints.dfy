/** The registry object: each method runs the code between two awaits, and is one step of `Endpoints`. */
module ManagedEndpoints {
  import opened Options
  import opened Endpoints
  import opened EndpointSafety
  import opened EndpointRestore

  class Registry {
    var objects: seq<Entry>
    var entries: map<string, nat>
    var file: Option<set<Stored>>
    var queue: seq<Op>
    var running: Option<Await>
    var replies: seq<Reply>
    var closing: bool
    ghost var stranded: set<nat>

    ghost function Now(): State
      reads this
    {
      State(objects, entries, file, queue, running, replies, closing, stranded)
    }

    ghost predicate Sound()
      reads this
    {
      Inv(Now()) && Subjects(Now())
    }

    constructor ()
      ensures Now() == EMPTY && Sound()
    {
      objects, entries, file, queue, running, replies, closing, stranded := [], map[], None, [], None, [], false, {};
    }

    method Get(address: Address) returns (found: Option<nat>)
      ensures found == Find(Now(), address)
    {
      var k := Key(address);
      found := if k in entries then Some(entries[k]) else None;
    }

    method Save(saves: bool)
      modifies this`file
      ensures Now() == if saves then Endpoints.Save(old(Now())) else old(Now())
    {
      if saves {
        var saved := set i | 0 <= i < |objects| && Files(i) && objects[i].definition.persistent :: Record(objects[i]);
        assert saved == Saved(Now());
        file := Some(saved);
        assert Saved(old(Now())) == saved;
      }
    }

    /** What a successor registry restores: every listed endpoint, but never an owned one. */
    method Snapshot() returns (snapshot: set<Stored>)
      requires Sound()
      ensures snapshot == Endpoints.Snapshot(Now())
      ensures forall i: nat :: Listed(Now(), i) && !objects[i].owned ==> Stored(objects[i].definition, objects[i].desired) in snapshot
      ensures forall i: nat :: Listed(Now(), i) && objects[i].owned ==>
                forall r :: r in snapshot ==> r.definition.address != objects[i].definition.address
    {
      snapshot := set i | 0 <= i < |objects| && Files(i) && !objects[i].owned :: Record(objects[i]);
      assert snapshot == Endpoints.Snapshot(Now());
      forall i: nat | Listed(Now(), i) && objects[i].owned ensures Unsaved(Now(), i) { OwnedUnsaved(Now(), i); }
    }

    predicate Files(i: nat)
      requires i < |objects|
      reads this
    {
      var k := Key(objects[i].definition.address);
      k in entries && entries[k] == i
    }

    method RemoveEntry(i: nat)
      requires i < |objects|
      modifies this`entries, this`objects
      ensures Now() == Endpoints.RemoveEntry(old(Now()), i)
    {
      if objects[i].removed {
        return;
      }
      var k := Key(objects[i].definition.address);
      if k in entries && entries[k] == i { entries := entries - {k}; }
      objects := objects[i := objects[i].(removed := true)];
    }

    method Changed(i: nat, finished: bool)
      requires i < |objects|
      modifies this`entries, this`objects
      ensures Now() == Endpoints.Changed(old(Now()), i, finished)
    {
      if !finished {
        return;
      }
      if !closing && !objects[i].removed && !objects[i].definition.persistent { RemoveEntry(i); }
    }

    method Add(definition: Definition, desired: bool, owned: bool) returns (i: nat)
      modifies this`entries, this`objects, this`stranded
      ensures Now() == Endpoints.Add(old(Now()), definition, desired, owned) && i == old(|objects|)
    {
      i := |objects|;
      var k := Key(definition.address);
      if k in entries { stranded := stranded + {entries[k]}; }
      objects := objects + [Entry(definition, desired, owned, false)];
      entries := entries[k := i];
    }

    method Settle(reply: Reply)
      modifies this`running, this`replies
      ensures Now() == Endpoints.Settle(old(Now()), reply)
    {
      running := None;
      replies := replies + [reply];
    }

    /** A write that fails leaves the previous value. */
    method SetDesired(i: nat, desired: bool, saves: bool)
      requires i < |objects|
      modifies this`objects, this`file
      ensures Now() == if saves then Endpoints.Save(Put(old(Now()), i, old(objects)[i].(desired := desired))) else old(Now())
    {
      var previous := objects[i].desired;
      objects := objects[i := objects[i].(desired := desired)];
      Save(saves);
      if !saves { objects := objects[i := objects[i].(desired := previous)]; }
    }

    method AddAndSave(definition: Definition, owned: bool, effects: Effects)
      modifies this
      ensures Now() == Endpoints.AddAndSave(old(Now()), definition, owned, effects)
    {
      if !effects.adds {
        Settle(AddFailed);
        return;
      }
      var i := Add(definition, true, owned);
      Save(effects.saves);
      running := Some(if effects.saves then CreateSyncing(i) else Undoing(i, SaveFailed));
    }

    method Create(definition: Definition, owned: bool, replace: bool, effects: Effects)
      modifies this
      ensures Now() == BeginCreate(old(Now()), Op.Create(definition, owned, replace), effects)
    {
      var existing := Get(definition.address);
      if existing.None? {
        AddAndSave(definition, owned, effects);
      } else if replace {
        running := Some(Replacing(existing.value, definition, owned));
      } else {
        Settle(Exists);
      }
    }

    method Switch(i: nat, desired: bool, saves: bool)
      requires i < |objects|
      modifies this
      ensures Now() == BeginSwitch(old(Now()), i, desired, saves)
    {
      SetDesired(i, desired, saves);
      if saves {
        running := Some(if desired then StartUpdating(i) else StopUpdating(i));
      } else {
        Settle(SaveFailed);
      }
    }

    method Remove(i: nat, saves: bool)
      requires Listed(Now(), i)
      modifies this
      ensures Now() == BeginRemove(old(Now()), i, saves)
    {
      var k := Key(objects[i].definition.address);
      entries := entries - {k};
      Save(saves);
      if saves {
        running := Some(Removing(i));
      } else {
        entries := entries[k := i];
        Settle(SaveFailed);
      }
    }

    method Configure(i: nat, persistent: Option<bool>, restart: Option<Restart>, saves: bool)
      requires i < |objects|
      modifies this
      ensures Now() == BeginConfigure(old(Now()), i, persistent, restart, saves)
    {
      if objects[i].owned && persistent == Some(true) {
        Settle(OwnedPersistent);
        return;
      }
      var previous := objects[i].definition;
      objects := objects[i := objects[i].(definition := Configured(previous, persistent, restart))];
      Save(saves);
      if saves {
        running := Some(Configuring(i));
      } else {
        objects := objects[i := objects[i].(definition := previous)];
        Settle(SaveFailed);
      }
    }

    method Begin(op: Op, effects: Effects, aborted: bool)
      requires Filed(Now()) && (op.CleanUp? ==> op.instance < |objects|)
      modifies this
      ensures Now() == Endpoints.Begin(old(Now()), op, effects, aborted)
    {
      if op.Create? {
        if aborted { Settle(Aborted); } else { Create(op.definition, op.owned, op.replace, effects); }
        return;
      }
      if op.CleanUp? {
        running := Some(CleaningUp(op.instance));
        return;
      }
      var found := Get(op.address);
      if found.None? {
        Settle(NotFound);
        return;
      }
      BeginAt(op, found.value, effects.saves);
    }

    method BeginAt(op: Op, i: nat, saves: bool)
      requires Listed(Now(), i) && !op.Create? && !op.CleanUp?
      modifies this
      ensures Now() == Endpoints.BeginAt(old(Now()), op, i, saves)
    {
      match op {
        case Start(_) => Switch(i, true, saves);
        case Stop(_) => Switch(i, false, saves);
        case Remove(_) => Remove(i, saves);
        case Configure(_, persistent, restart) => Configure(i, persistent, restart, saves);
      }
    }

    method Resume(at: Await, effects: Effects, finished: bool)
      requires at.instance < |objects|
      modifies this
      ensures Now() == Endpoints.Resume(old(Now()), at, effects, finished)
    {
      var i := at.instance;
      match at {
        case Replacing(_, definition, owned) =>
          RemoveEntry(i);
          AddAndSave(definition, owned, effects);
        case CreateSyncing(_) => Settle(Done);
        case Undoing(_, reply) =>
          RemoveEntry(i);
          Settle(reply);
        case StartUpdating(_) => running := Some(StartSyncing(i));
        case StartSyncing(_) => Settle(Done);
        case StopUpdating(_) =>
          if !objects[i].definition.persistent { RemoveEntry(i); }
          Settle(Done);
        case Removing(_) =>
          RemoveEntry(i);
          Settle(Done);
        case Configuring(_) =>
          Changed(i, finished);
          Settle(Done);
        case CleaningUp(_) =>
          RemoveEntry(i);
          Settle(Done);
      }
    }

    method Reject(at: Await)
      requires at.instance < |objects|
      modifies this
      ensures Now() == Endpoints.Reject(old(Now()), at)
    {
      match at {
        case CreateSyncing(i) => running := Some(Undoing(i, SupervisorFailed));
        case Removing(i) =>
          stranded := stranded + {i};
          Settle(SupervisorFailed);
        case _ => Settle(SupervisorFailed);
      }
    }

    method RestoreEntry(stored: Stored) returns (ok: bool)
      modifies this`entries, this`objects, this`stranded
      ensures Now() == Endpoints.Restore(old(Now()), stored) && ok == (Key(stored.definition.address) !in old(entries))
    {
      var existing := Get(stored.definition.address);
      ok := existing.None?;
      if ok { var _ := Add(stored.definition, stored.desired, false); }
    }

    /** Restores the records of a snapshot, or those read from the file. A record whose address is taken is an error. */
    method Restore(records: seq<Stored>, fromFile: bool) returns (ok: bool)
      requires Sound()
      modifies this`entries, this`objects, this`stranded
      ensures Sound()
      ensures var all := if fromFile then ReloadedAll(records) else records;
              Now() == RestoreAll(old(Now()), all) && (ok <==> old(Free(Now(), all)))
    {
      ghost var all := if fromFile then ReloadedAll(records) else records;
      RestoreAllSound(Now(), all);
      ok := true;
      var i := 0;
      while i < |records|
        invariant 0 <= i <= |records| && ok
        invariant RestoreAll(Now(), all[i..]) == old(RestoreAll(Now(), all))
        invariant Free(Now(), all[i..]) <==> old(Free(Now(), all))
      {
        ghost var rest := all[i..];
        assert rest[0] == all[i] && rest[1..] == all[i + 1..];
        if Key(rest[0].definition.address) !in entries { FreeStep(Now(), rest); }
        ok := RestoreEntry(if fromFile then Reloaded(records[i]) else records[i]);
        if !ok {
          return;
        }
        i := i + 1;
      }
    }

    method Call(op: Op)
      modifies this`queue
      ensures Now() == if Refused(old(Now()), op) then old(Now()) else old(Now()).(queue := old(queue) + [op])
    {
      if closing || (op.Create? && op.owned && op.definition.persistent) {
        return;
      }
      queue := queue + [op];
    }

    /** Whatever happens next, the object takes the step of the model and stays sound. */
    method React(e: Event)
      requires Sound() && Possible(Now(), e)
      modifies this
      ensures Now() == Step(old(Now()), e) && Sound()
    {
      StepKeeps(Now(), e);
      StepSubjects(Now(), e);
      match e {
        case Calls(op) => Call(op);
        case Begins(effects, aborted) =>
          var op := queue[0];
          queue := queue[1..];
          Begin(op, effects, aborted);
        case Resumes(effects, finished) => Resume(running.value, effects, finished);
        case Rejects => Reject(running.value);
        case Reports(i, finished) => Changed(i, finished);
        case Restores(stored) => var _ := RestoreEntry(stored);
        case Closes => closing := true;
      }
    }
  }
}
