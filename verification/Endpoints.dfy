/** The registry of managed endpoints: what each segment of a serialized operation and each
    status callback does to it, and what every interleaving of them keeps. */
module Endpoints {
  import opened Options
  import StableKeys

  datatype Address = Address(namespace: string, id: string)

  datatype Restart = Never | OnFailure | Always

  /** `source` is what the endpoint runs; the registry only passes it on. */
  datatype Definition = Definition(address: Address, source: string, persistent: bool, restart: Restart)

  /** An instance. It is owned if a `run` call ends its life. */
  datatype Entry = Entry(definition: Definition, desired: bool, owned: bool, removed: bool)

  datatype Stored = Stored(definition: Definition, desired: bool)

  /** A serialized operation; an owned `Create` is that of a `run` call, and `CleanUp` its end. */
  datatype Op =
    | Create(definition: Definition, owned: bool, replace: bool)
    | Start(address: Address)
    | Stop(address: Address)
    | Remove(address: Address)
    | Configure(address: Address, persistent: Option<bool>, restart: Option<Restart>)
    | CleanUp(instance: nat)

  /** The await that the running operation is suspended in. */
  datatype Await =
    | Replacing(instance: nat, definition: Definition, owned: bool)
    | CreateSyncing(instance: nat)
    | Undoing(instance: nat, reply: Reply)
    | StartUpdating(instance: nat)
    | StartSyncing(instance: nat)
    | StopUpdating(instance: nat)
    | Removing(instance: nat)
    | Configuring(instance: nat)
    | CleaningUp(instance: nat)

  datatype Reply = Done | Aborted | Exists | NotFound | OwnedPersistent | AddFailed | SaveFailed | SupervisorFailed

  /** Whether a new entry can be made (its source may not be one that can run), and whether writing
      the file succeeds. */
  datatype Effects = Effects(adds: bool, saves: bool)

  /** `objects` holds every entry ever made, by instance; `entries` is the map that lists them. */
  datatype State = State(
    objects: seq<Entry>,
    entries: map<string, nat>,
    file: Option<set<Stored>>,
    queue: seq<Op>,
    running: Option<Await>,
    replies: seq<Reply>,
    closing: bool,
    // Entries that left the map without being marked removed, and will not be.
    stranded: set<nat>)

  const EMPTY := State([], map[], None, [], None, [], false, {})

  /** `JSON.stringify([namespace, id])`. */
  function Key(a: Address): string {
    StableKeys.Print(StableKeys.Js.Arr([StableKeys.Js.Str(a.namespace), StableKeys.Js.Str(a.id)]))
  }

  lemma KeyInjective(a: Address, b: Address)
    ensures Key(a) == Key(b) <==> a == b
  {
    if Key(a) == Key(b) {
      var v := StableKeys.Js.Arr([StableKeys.Js.Str(a.namespace), StableKeys.Js.Str(a.id)]);
      var w := StableKeys.Js.Arr([StableKeys.Js.Str(b.namespace), StableKeys.Js.Str(b.id)]);
      StableKeys.PrintPrefix(v, w, "", "");
      assert v.items[0] == w.items[0] && v.items[1] == w.items[1];
    }
  }

  // ---- The code between awaits --------------------------------------------------------

  function KeyOf(s: State, i: nat): string
    requires i < |s.objects|
  {
    Key(s.objects[i].definition.address)
  }

  predicate Listed(s: State, i: nat) {
    i < |s.objects| && KeyOf(s, i) in s.entries && s.entries[KeyOf(s, i)] == i
  }

  function Find(s: State, a: Address): Option<nat> {
    if Key(a) in s.entries then Some(s.entries[Key(a)]) else None
  }

  function Record(e: Entry): Stored {
    Stored(e.definition, e.desired)
  }

  /** `snapshot`: what a successor registry restores. */
  function Snapshot(s: State): set<Stored> {
    set i | 0 <= i < |s.objects| && Listed(s, i) && !s.objects[i].owned :: Record(s.objects[i])
  }

  function Saved(s: State): set<Stored> {
    set i | 0 <= i < |s.objects| && Listed(s, i) && s.objects[i].definition.persistent :: Record(s.objects[i])
  }

  function Save(s: State): State {
    s.(file := Some(Saved(s)))
  }

  function Put(s: State, i: nat, e: Entry): State
    requires i < |s.objects|
  {
    s.(objects := s.objects[i := e])
  }

  /** Only this very instance is taken off the map, never another at its address. */
  function RemoveEntry(s: State, i: nat): State
    requires i < |s.objects|
  {
    if s.objects[i].removed then s
    else Put(s.(entries := if Listed(s, i) then s.entries - {KeyOf(s, i)} else s.entries), i, s.objects[i].(removed := true))
  }

  function Add(s: State, definition: Definition, desired: bool, owned: bool): State {
    var k := Key(definition.address);
    s.(objects := s.objects + [Entry(definition, desired, owned, false)],
       entries := s.entries[k := |s.objects|],
       stranded := s.stranded + if k in s.entries then {s.entries[k]} else {})
  }

  /** A status callback. */
  function Changed(s: State, i: nat, finished: bool): State
    requires i < |s.objects|
  {
    if finished && !s.closing && !s.objects[i].removed && !s.objects[i].definition.persistent then RemoveEntry(s, i) else s
  }

  function Suspend(s: State, at: Await): State {
    s.(running := Some(at))
  }

  function Settle(s: State, reply: Reply): State {
    s.(running := None, replies := s.replies + [reply])
  }

  /** `_add`, which may throw, then `_save` within the `try` of `_create`. */
  function AddAndSave(s: State, definition: Definition, owned: bool, effects: Effects): State {
    var i := |s.objects|;
    var a := Add(s, definition, true, owned);
    if !effects.adds then Settle(s, AddFailed)
    else if effects.saves then Suspend(Save(a), CreateSyncing(i)) else Suspend(a, Undoing(i, SaveFailed))
  }

  function BeginCreate(s: State, op: Op, effects: Effects): State
    requires op.Create?
  {
    match Find(s, op.definition.address)
    case None => AddAndSave(s, op.definition, op.owned, effects)
    case Some(i) => if op.replace then Suspend(s, Replacing(i, op.definition, op.owned)) else Settle(s, Exists)
  }

  function BeginSwitch(s: State, i: nat, desired: bool, saves: bool): State
    requires i < |s.objects|
  {
    if !saves then Settle(s, SaveFailed)
    else
      var t := Save(Put(s, i, s.objects[i].(desired := desired)));
      Suspend(t, if desired then StartUpdating(i) else StopUpdating(i))
  }

  function BeginRemove(s: State, i: nat, saves: bool): State
    requires i < |s.objects|
  {
    if saves then Suspend(Save(s.(entries := s.entries - {KeyOf(s, i)})), Removing(i)) else Settle(s, SaveFailed)
  }

  function Configured(d: Definition, persistent: Option<bool>, restart: Option<Restart>): Definition {
    d.(persistent := persistent.GetOr(d.persistent), restart := restart.GetOr(d.restart))
  }

  function BeginConfigure(s: State, i: nat, persistent: Option<bool>, restart: Option<Restart>, saves: bool): State
    requires i < |s.objects|
  {
    var e := s.objects[i];
    if e.owned && persistent == Some(true) then Settle(s, OwnedPersistent)
    else if !saves then Settle(s, SaveFailed)
    else Suspend(Save(Put(s, i, e.(definition := Configured(e.definition, persistent, restart)))), Configuring(i))
  }

  function BeginAt(s: State, op: Op, i: nat, saves: bool): State
    requires i < |s.objects| && !op.Create? && !op.CleanUp?
  {
    match op
    case Start(_) => BeginSwitch(s, i, true, saves)
    case Stop(_) => BeginSwitch(s, i, false, saves)
    case Remove(_) => BeginRemove(s, i, saves)
    case Configure(_, persistent, restart) => BeginConfigure(s, i, persistent, restart, saves)
  }

  /** The first segment of an operation, up to its first await. `aborted` says whether the `run` call
      of a `Create` was cancelled while it waited. */
  function Begin(s: State, op: Op, effects: Effects, aborted: bool): State
    requires Filed(s) && (op.CleanUp? ==> op.instance < |s.objects|)
  {
    if op.Create? then if aborted then Settle(s, Aborted) else BeginCreate(s, op, effects)
    else if op.CleanUp? then Suspend(s, CleaningUp(op.instance))
    else
      match Find(s, op.address)
      case None => Settle(s, NotFound)
      case Some(i) => BeginAt(s, op, i, effects.saves)
  }

  /** The segment after an await that succeeded. `finished` is the status that a configured
      endpoint's supervisor has by then. */
  function Resume(s: State, at: Await, effects: Effects, finished: bool): State
    requires at.instance < |s.objects|
  {
    var i := at.instance;
    match at
    case Replacing(_, definition, owned) => AddAndSave(RemoveEntry(s, i), definition, owned, effects)
    case CreateSyncing(_) => Settle(s, Done)
    case Undoing(_, reply) => Settle(RemoveEntry(s, i), reply)
    case StartUpdating(_) => Suspend(s, StartSyncing(i))
    case StartSyncing(_) => Settle(s, Done)
    case StopUpdating(_) => Settle(if s.objects[i].definition.persistent then s else RemoveEntry(s, i), Done)
    case Removing(_) => Settle(RemoveEntry(s, i), Done)
    case Configuring(_) => Settle(Changed(s, i, finished), Done)
    case CleaningUp(_) => Settle(RemoveEntry(s, i), Done)
  }

  /** The segment after an await that rejected. */
  function Reject(s: State, at: Await): State
    requires at.instance < |s.objects|
  {
    match at
    case CreateSyncing(i) => Suspend(s, Undoing(i, SupervisorFailed))
    case Removing(i) => Settle(s.(stranded := s.stranded + {i}), SupervisorFailed)
    case _ => Settle(s, SupervisorFailed)
  }

  /** `_restoreEntry`; a record whose address is taken is an error. */
  function Restore(s: State, stored: Stored): State {
    if Key(stored.definition.address) in s.entries then s
    else Add(s, stored.definition, stored.desired, false)
  }

  /** What is restored of a record that was read from the file: an endpoint that is never restarted is not started. */
  function Reloaded(stored: Stored): Stored {
    stored.(desired := stored.desired && stored.definition.restart != Never)
  }

  // ---- Runs ------------------------------------------------------------------------------

  datatype Event =
    | Calls(op: Op)
    | Begins(effects: Effects, aborted: bool)
    | Resumes(effects: Effects, finished: bool)
    | Rejects
    | Reports(instance: nat, finished: bool)
    | Restores(stored: Stored)
    | Closes

  /** The supervisor of any entry may report at any time, and restoring is not serialized.
      Only an owned `run` cleans up, and only its own instance. */
  predicate Possible(s: State, e: Event) {
    match e
    case Calls(op) => op.CleanUp? ==> op.instance < |s.objects| && s.objects[op.instance].owned
    case Begins(_, _) => s.running.None? && s.queue != []
    case Resumes(_, _) => s.running.Some?
    case Rejects => s.running.Some?
    case Reports(i, _) => i < |s.objects|
    case Restores(_) => true
    case Closes => true
  }

  predicate Refused(s: State, op: Op) {
    s.closing || (op.Create? && op.owned && op.definition.persistent)
  }

  function Step(s: State, e: Event): State
    requires Filed(s) && Pending(s) && Possible(s, e)
  {
    match e
    case Calls(op) => if Refused(s, op) then s else s.(queue := s.queue + [op])
    case Begins(effects, aborted) => Begin(s.(queue := s.queue[1..]), s.queue[0], effects, aborted)
    case Resumes(effects, finished) => Resume(s, s.running.value, effects, finished)
    case Rejects => Reject(s, s.running.value)
    case Reports(i, finished) => Changed(s, i, finished)
    case Restores(stored) => Restore(s, stored)
    case Closes => s.(closing := true)
  }

  // ---- The invariant ------------------------------------------------------------------------

  /** Each address lists one entry: one filed under its own address, and not removed. */
  ghost predicate Filed(s: State) {
    forall k :: k in s.entries ==> s.entries[k] < |s.objects| && KeyOf(s, s.entries[k]) == k && !s.objects[s.entries[k]].removed
  }

  /** Waiting and running operations refer to entries that exist. */
  ghost predicate Pending(s: State) {
    && (forall op :: op in s.queue && op.CleanUp? ==> op.instance < |s.objects|)
    && (s.running.Some? ==> s.running.value.instance < |s.objects|)
  }

  /** No owned endpoint that is about to be made is persistent. */
  ghost predicate Transient(s: State) {
    && (forall op :: op in s.queue && op.Create? && op.owned ==> !op.definition.persistent)
    && (s.running.Some? && s.running.value.Replacing? && s.running.value.owned ==> !s.running.value.definition.persistent)
  }

  ghost predicate OnlyPersistent(s: State) {
    s.file.Some? ==> forall r :: r in s.file.value ==> r.definition.persistent
  }

  ghost predicate LiveListed(s: State, but: set<nat>) {
    forall i :: 0 <= i < |s.objects| && !s.objects[i].removed && i !in but ==> Listed(s, i)
  }

  function BeingRemoved(s: State): set<nat> {
    if s.running.Some? && s.running.value.Removing? then {s.running.value.instance} else {}
  }

  /** The parts of the invariant that do not depend on what runs. */
  ghost predicate Base(s: State, but: set<nat>) {
    && Filed(s) && OnlyPersistent(s) && LiveListed(s, but)
    && (forall i :: 0 <= i < |s.objects| && s.objects[i].owned ==> !s.objects[i].definition.persistent)
  }

  /** A live entry is listed, unless it is just being removed or was stranded. */
  ghost predicate Inv(s: State) {
    Base(s, s.stranded + BeingRemoved(s)) && Pending(s) && Transient(s)
  }

  /** What no step does: move an instance to another address, make it owned or not,
      revive a removed one, or list one again that was taken off the map. */
  ghost predicate Keeps(s: State, t: State) {
    && |s.objects| <= |t.objects|
    && forall i :: 0 <= i < |s.objects| ==>
         && t.objects[i].definition.address == s.objects[i].definition.address
         && t.objects[i].owned == s.objects[i].owned
         && (s.objects[i].removed ==> t.objects[i].removed)
         && (Listed(t, i) ==> Listed(s, i))
  }

  // ---- The parts of a step ------------------------------------------------------------------

  lemma RemoveEntryKeeps(s: State, i: nat, but: set<nat>)
    requires Base(s, but) && i < |s.objects|
    ensures Base(RemoveEntry(s, i), but) && RemoveEntry(s, i).objects[i].removed && Keeps(s, RemoveEntry(s, i))
  {
    var t := RemoveEntry(s, i);
    forall j | 0 <= j < |s.objects| && j != i ensures Listed(t, j) <==> Listed(s, j) {}
  }

  lemma AddKeeps(s: State, definition: Definition, desired: bool, owned: bool, but: set<nat>)
    requires Base(s, but) && s.stranded <= but && (owned ==> !definition.persistent)
    ensures var t := Add(s, definition, desired, owned);
            Base(t, but + t.stranded) && Keeps(s, t) && Listed(t, |s.objects|)
  {
    var t := Add(s, definition, desired, owned);
    forall j | 0 <= j < |s.objects|
      ensures Listed(t, j) ==> Listed(s, j)
      ensures Listed(s, j) ==> Listed(t, j) || j in t.stranded
    {
    }
  }

  lemma PutKeeps(s: State, i: nat, e: Entry, but: set<nat>)
    requires Base(s, but) && i < |s.objects|
    requires e.definition.address == s.objects[i].definition.address && e.owned == s.objects[i].owned && e.removed == s.objects[i].removed
    requires e.owned ==> !e.definition.persistent
    ensures Base(Put(s, i, e), but) && Keeps(s, Put(s, i, e))
  {
    var t := Put(s, i, e);
    forall j | 0 <= j < |s.objects| ensures Listed(t, j) <==> Listed(s, j) {}
  }

  lemma DropKeeps(s: State, i: nat, but: set<nat>)
    requires Base(s, but) && Listed(s, i)
    ensures var t := s.(entries := s.entries - {KeyOf(s, i)});
            Base(t, but + {i}) && Keeps(s, t)
  {
    var t := s.(entries := s.entries - {KeyOf(s, i)});
    forall j | 0 <= j < |s.objects| && j != i ensures Listed(t, j) <==> Listed(s, j) {}
  }

  lemma SaveKeeps(s: State, but: set<nat>)
    requires Base(s, but)
    ensures Base(Save(s), but) && Keeps(s, Save(s))
  {
    forall r | r in Saved(s) ensures r.definition.persistent {}
    forall j | 0 <= j < |s.objects| ensures Listed(Save(s), j) <==> Listed(s, j) {}
  }

  lemma KeepsTransitive(s: State, t: State, u: State)
    requires Keeps(s, t) && Keeps(t, u)
    ensures Keeps(s, u)
  {
  }

  /** What a step achieves, but for the waiting operations. */
  ghost predicate Good(s: State, t: State) {
    Base(t, t.stranded + BeingRemoved(t)) && Keeps(s, t)
  }

  /** What runs next is irrelevant to the parts. */
  lemma Lands(s: State, f: State, t: State, but: set<nat>)
    requires Base(f, but) && Keeps(s, f)
    requires t.objects == f.objects && t.entries == f.entries && t.file == f.file
    requires but <= t.stranded + BeingRemoved(t)
    ensures Good(s, t)
  {
    forall j | 0 <= j < |f.objects| ensures Listed(t, j) <==> Listed(f, j) {}
  }

  lemma Same(s: State)
    ensures Keeps(s, s)
  {
  }

  // ---- The steps ----------------------------------------------------------------------------

  lemma SaveGood(s: State, f: State, t: State, but: set<nat>)
    requires Base(f, but) && Keeps(s, f)
    requires t.objects == f.objects && t.entries == f.entries && t.file == Save(f).file
    requires but <= t.stranded + BeingRemoved(t)
    ensures Good(s, t)
  {
    SaveKeeps(f, but);
    KeepsTransitive(s, f, Save(f));
    Lands(s, Save(f), t, but);
  }

  lemma AddAndSaveGood(s: State, r: State, definition: Definition, owned: bool, effects: Effects)
    requires Base(r, r.stranded) && Keeps(s, r) && (owned ==> !definition.persistent)
    ensures Good(s, AddAndSave(r, definition, owned, effects))
  {
    var t := AddAndSave(r, definition, owned, effects);
    if effects.adds {
      AddedGood(s, r, definition, owned, effects);
    } else {
      Lands(s, r, t, r.stranded);
    }
  }

  lemma AddedGood(s: State, r: State, definition: Definition, owned: bool, effects: Effects)
    requires Base(r, r.stranded) && Keeps(s, r) && (owned ==> !definition.persistent) && effects.adds
    ensures Good(s, AddAndSave(r, definition, owned, effects))
  {
    AddKeeps(r, definition, true, owned, r.stranded);
    var a := Add(r, definition, true, owned);
    assert r.stranded + a.stranded == a.stranded;
    KeepsTransitive(s, r, a);
    var t := AddAndSave(r, definition, owned, effects);
    if effects.saves {
      SaveGood(s, a, t, a.stranded);
    } else {
      Lands(s, a, t, a.stranded);
    }
  }

  lemma SwitchGood(s: State, i: nat, desired: bool, saves: bool)
    requires Base(s, s.stranded) && i < |s.objects|
    ensures Good(s, BeginSwitch(s, i, desired, saves))
  {
    var t := BeginSwitch(s, i, desired, saves);
    if saves {
      PutKeeps(s, i, s.objects[i].(desired := desired), s.stranded);
      SaveGood(s, Put(s, i, s.objects[i].(desired := desired)), t, s.stranded);
    } else {
      Same(s);
      Lands(s, s, t, s.stranded);
    }
  }

  lemma ConfigureGood(s: State, i: nat, persistent: Option<bool>, restart: Option<Restart>, saves: bool)
    requires Base(s, s.stranded) && i < |s.objects|
    ensures Good(s, BeginConfigure(s, i, persistent, restart, saves))
  {
    var t, e := BeginConfigure(s, i, persistent, restart, saves), s.objects[i];
    var c := e.(definition := Configured(e.definition, persistent, restart));
    if saves && !(e.owned && persistent == Some(true)) {
      PutKeeps(s, i, c, s.stranded);
      SaveGood(s, Put(s, i, c), t, s.stranded);
    } else {
      Same(s);
      Lands(s, s, t, s.stranded);
    }
  }

  lemma BeginRemoveGood(s: State, i: nat, saves: bool)
    requires Base(s, s.stranded) && Listed(s, i)
    ensures Good(s, BeginRemove(s, i, saves))
  {
    var t := BeginRemove(s, i, saves);
    if saves {
      DropKeeps(s, i, s.stranded);
      SaveGood(s, s.(entries := s.entries - {KeyOf(s, i)}), t, s.stranded + {i});
    } else {
      Same(s);
      Lands(s, s, t, s.stranded);
    }
  }

  lemma BeginAtGood(s: State, op: Op, i: nat, saves: bool)
    requires Base(s, s.stranded) && Listed(s, i) && !op.Create? && !op.CleanUp?
    ensures Good(s, BeginAt(s, op, i, saves))
  {
    match op {
      case Start(_) => SwitchGood(s, i, true, saves);
      case Stop(_) => SwitchGood(s, i, false, saves);
      case Remove(_) => BeginRemoveGood(s, i, saves);
      case Configure(_, persistent, restart) => ConfigureGood(s, i, persistent, restart, saves);
    }
  }

  lemma BeginGood(s: State, op: Op, effects: Effects, aborted: bool)
    requires Base(s, s.stranded) && (op.CleanUp? ==> op.instance < |s.objects|)
    requires op.Create? && op.owned ==> !op.definition.persistent
    ensures Good(s, Begin(s, op, effects, aborted))
  {
    var t := Begin(s, op, effects, aborted);
    Same(s);
    if op.Create? && !aborted && Find(s, op.definition.address).None? {
      AddAndSaveGood(s, s, op.definition, op.owned, effects);
    } else if !op.Create? && !op.CleanUp? && Find(s, op.address).Some? {
      BeginAtGood(s, op, Find(s, op.address).value, effects.saves);
    } else {
      Lands(s, s, t, s.stranded);
    }
  }

  lemma RemoveGood(s: State, i: nat, t: State)
    requires Base(s, s.stranded + BeingRemoved(s)) && i < |s.objects|
    requires BeingRemoved(s) <= {i} && t.stranded == s.stranded
    requires var r := RemoveEntry(s, i); t.objects == r.objects && t.entries == r.entries && t.file == r.file
    ensures Good(s, t)
  {
    var r := RemoveEntry(s, i);
    RemoveEntryKeeps(s, i, s.stranded + BeingRemoved(s));
    assert LiveListed(r, s.stranded);
    Lands(s, r, t, s.stranded);
  }

  lemma ReplaceGood(s: State, i: nat, definition: Definition, owned: bool, effects: Effects)
    requires Base(s, s.stranded) && i < |s.objects| && (owned ==> !definition.persistent)
    ensures Good(s, AddAndSave(RemoveEntry(s, i), definition, owned, effects))
  {
    RemoveEntryKeeps(s, i, s.stranded);
    AddAndSaveGood(s, RemoveEntry(s, i), definition, owned, effects);
  }

  lemma ResumeGood(s: State, effects: Effects, finished: bool)
    requires Inv(s) && s.running.Some?
    ensures Good(s, Resume(s, s.running.value, effects, finished))
  {
    var at := s.running.value;
    var t := Resume(s, at, effects, finished);
    if at.Replacing? {
      assert s.stranded + BeingRemoved(s) == s.stranded;
      ReplaceGood(s, at.instance, at.definition, at.owned, effects);
    } else if t.objects == s.objects && t.entries == s.entries && !at.Removing? {
      Same(s);
      Lands(s, s, t, s.stranded + BeingRemoved(s));
    } else {
      RemoveGood(s, at.instance, t);
    }
  }

  lemma RejectGood(s: State)
    requires Inv(s) && s.running.Some?
    ensures Good(s, Reject(s, s.running.value))
  {
    Same(s);
    Lands(s, s, Reject(s, s.running.value), s.stranded + BeingRemoved(s));
  }

  lemma RestoreGood(s: State, stored: Stored)
    requires Inv(s) && Key(stored.definition.address) !in s.entries
    ensures Good(s, Add(s, stored.definition, stored.desired, false))
  {
    var but := s.stranded + BeingRemoved(s);
    AddKeeps(s, stored.definition, stored.desired, false, but);
    var t := Add(s, stored.definition, stored.desired, false);
    Lands(s, t, t, but + t.stranded);
  }

  lemma ReportGood(s: State, i: nat, finished: bool)
    requires Inv(s) && i < |s.objects|
    ensures Good(s, Changed(s, i, finished))
  {
    var but := s.stranded + BeingRemoved(s);
    RemoveEntryKeeps(s, i, but);
    Same(s);
    var t := Changed(s, i, finished);
    Lands(s, t, t, but);
  }

  lemma StepGood(s: State, e: Event)
    requires Inv(s) && Possible(s, e)
    ensures Good(s, Step(s, e))
  {
    match e {
      case Begins(effects, aborted) =>
        var d := s.(queue := s.queue[1..]);
        Same(s);
        Lands(s, s, d, s.stranded);
        BeginGood(d, s.queue[0], effects, aborted);
        KeepsTransitive(s, d, Step(s, e));
      case Resumes(effects, finished) => ResumeGood(s, effects, finished);
      case Rejects => RejectGood(s);
      case Reports(i, finished) => ReportGood(s, i, finished);
      case Restores(stored) =>
        if Key(stored.definition.address) !in s.entries { RestoreGood(s, stored); }
        else { Same(s); }
      case _ =>
        Same(s);
        Lands(s, s, Step(s, e), s.stranded + BeingRemoved(s));
    }
  }

  /** What runs after a step exists, and is no owned persistent replacement. */
  ghost predicate Next(s: State, t: State) {
    && (t.running.Some? ==> t.running.value.instance < |t.objects|)
    && (t.running.Some? && t.running.value.Replacing? && t.running.value.owned ==> !t.running.value.definition.persistent)
    && |t.objects| >= |s.objects|
    && t.queue == s.queue
  }

  lemma BeginNext(s: State, op: Op, effects: Effects, aborted: bool)
    requires Filed(s) && (op.CleanUp? ==> op.instance < |s.objects|)
    requires op.Create? && op.owned ==> !op.definition.persistent
    ensures s.running.None? ==> Next(s, Begin(s, op, effects, aborted))
  {
  }

  lemma ResumeNext(s: State, effects: Effects, finished: bool)
    requires Pending(s) && Transient(s) && s.running.Some?
    ensures Next(s, Resume(s, s.running.value, effects, finished)) && Next(s, Reject(s, s.running.value))
  {
  }

  lemma StepNext(s: State, e: Event)
    requires Inv(s) && Possible(s, e)
    ensures Pending(Step(s, e)) && Transient(Step(s, e))
  {
    match e {
      case Begins(effects, aborted) =>
        assert s.queue[0] in s.queue;
        BeginNext(s.(queue := s.queue[1..]), s.queue[0], effects, aborted);
      case Resumes(effects, finished) => ResumeNext(s, effects, finished);
      case Rejects => ResumeNext(s, Effects(false, false), false);
      case _ =>
    }
  }

  lemma StepKeeps(s: State, e: Event)
    requires Inv(s) && Possible(s, e)
    ensures Inv(Step(s, e)) && Keeps(s, Step(s, e))
  {
    StepGood(s, e);
    StepNext(s, e);
  }

  ghost predicate Run(s: State, events: seq<Event>, end: State)
    requires Inv(s)
    decreases events
  {
    if events == [] then s == end
    else Possible(s, events[0]) && (StepKeeps(s, events[0]); Run(Step(s, events[0]), events[1..], end))
  }

  lemma {:induction false} RunKeeps(s: State, events: seq<Event>, end: State)
    requires Inv(s) && Run(s, events, end)
    ensures Inv(end) && Keeps(s, end)
    decreases events
  {
    if events == [] {
      Same(s);
    } else {
      var t := Step(s, events[0]);
      StepKeeps(s, events[0]);
      RunKeeps(t, events[1..], end);
      KeepsTransitive(s, t, end);
    }
  }
}
