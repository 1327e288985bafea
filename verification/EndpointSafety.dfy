/** What the registry of managed endpoints guarantees in every run. */
module EndpointSafety {
  import opened Options
  import opened Endpoints

  // ---- One entry per address ------------------------------------------------------------------

  /** An owned instance is in no saved record, and its address in none of the snapshot while it is listed. */
  ghost predicate Unsaved(s: State, i: nat)
    requires i < |s.objects|
  {
    && (s.file.Some? ==> forall r :: r in s.file.value ==> r.definition != s.objects[i].definition)
    && (Listed(s, i) ==> forall r :: r in Snapshot(s) + Saved(s) ==> r.definition.address != s.objects[i].definition.address)
  }

  lemma EmptySound()
    ensures Inv(EMPTY)
  {
  }

  lemma OneListed(s: State, i: nat, j: nat)
    requires Listed(s, i) && Listed(s, j)
    ensures s.objects[i].definition.address == s.objects[j].definition.address ==> i == j
  {
  }

  lemma OwnedUnsaved(s: State, i: nat)
    requires Inv(s) && i < |s.objects| && s.objects[i].owned
    ensures Unsaved(s, i)
  {
    if Listed(s, i) {
      forall r | r in Snapshot(s) + Saved(s) ensures r.definition.address != s.objects[i].definition.address {
        var j :| 0 <= j < |s.objects| && Listed(s, j) && Record(s.objects[j]) == r && (!s.objects[j].owned || s.objects[j].definition.persistent);
        OneListed(s, i, j);
      }
    }
  }

  /** In every run each address lists at most one entry, a live one filed under that address; a live
      entry that is not listed is being removed or was stranded; and no owned endpoint
      is in the snapshot or the saved file. */
  lemma RegistrySafety(events: seq<Event>, end: State)
    requires (EmptySound(); Run(EMPTY, events, end))
    ensures forall k :: k in end.entries ==>
              var i := end.entries[k];
              i < |end.objects| && Key(end.objects[i].definition.address) == k && !end.objects[i].removed
    ensures forall i: nat, j: nat :: Listed(end, i) && Listed(end, j) && i != j ==>
              end.objects[i].definition.address != end.objects[j].definition.address
    ensures forall i :: 0 <= i < |end.objects| && !end.objects[i].removed && !Listed(end, i) ==>
              i in end.stranded || end.running == Some(Removing(i))
    ensures forall i :: 0 <= i < |end.objects| && end.objects[i].owned ==> Unsaved(end, i)
  {
    RunKeeps(EMPTY, events, end);
    forall i | 0 <= i < |end.objects| && end.objects[i].owned ensures Unsaved(end, i) {
      OwnedUnsaved(end, i);
    }
  }

  /** A removed entry never returns: in every run it stays removed, and an entry once off the map
      is never listed again, not even under another address. */
  lemma RemovedNeverReturns(s: State, events: seq<Event>, end: State, i: nat)
    requires Inv(s) && Run(s, events, end) && i < |s.objects|
    ensures i < |end.objects| && end.objects[i].definition.address == s.objects[i].definition.address
    ensures s.objects[i].removed ==> end.objects[i].removed && forall k :: k in end.entries ==> end.entries[k] != i
    ensures !Listed(s, i) ==> forall k :: k in end.entries ==> end.entries[k] != i
  {
    RunKeeps(s, events, end);
  }

  // ---- What leaves the map ---------------------------------------------------------------------

  /** The running operation is over with the instance it was about. */
  predicate Ends(s: State, at: Await, finished: bool)
    requires at.instance < |s.objects|
  {
    var persistent := s.objects[at.instance].definition.persistent;
    match at
    case Replacing(_, _, _) => true
    case Undoing(_, _) => true
    case StopUpdating(_) => !persistent
    case Removing(_) => true
    case Configuring(_) => finished && !s.closing && !persistent
    case CleaningUp(_) => true
    case _ => false
  }

  /** The steps that take `i` off the map. In the last case of `Resumes`, an entry restored while
      another one at its address was being replaced makes way for the replacement. */
  predicate Leaves(s: State, e: Event, i: nat)
    requires Inv(s) && Possible(s, e) && Listed(s, i)
  {
    match e
    case Begins(effects, _) => effects.saves && s.queue[0] == Remove(s.objects[i].definition.address)
    case Resumes(effects, finished) =>
      var at := s.running.value;
      (at.instance == i && Ends(s, at, finished)) || (at.Replacing? && effects.adds && at.definition.address == s.objects[i].definition.address)
    case Reports(j, finished) => j == i && finished && !s.closing && !s.objects[i].definition.persistent
    case _ => false
  }

  lemma RemovesOnly(s: State, i: nat, j: nat)
    requires Inv(s) && i < |s.objects| && Listed(s, j)
    ensures Listed(RemoveEntry(s, i), j) <==> i != j
  {
  }

  /** Nothing that was listed under another address moves when an entry is added and the file saved. */
  lemma AddLeaves(s: State, definition: Definition, owned: bool, effects: Effects, i: nat)
    requires Filed(s) && Listed(s, i)
    ensures Listed(AddAndSave(s, definition, owned, effects), i) <==>
            !effects.adds || definition.address != s.objects[i].definition.address
  {
    KeyInjective(definition.address, s.objects[i].definition.address);
    var t := AddAndSave(s, definition, owned, effects);
    assert t.objects[i] == s.objects[i];
  }

  lemma AddStays(s: State, definition: Definition, owned: bool, effects: Effects, i: nat)
    requires Filed(s) && Listed(s, i) && Find(s, definition.address).None?
    ensures Listed(AddAndSave(s, definition, owned, effects), i)
  {
    AddLeaves(s, definition, owned, effects, i);
  }

  lemma BeginAtLeaves(s: State, op: Op, found: nat, saves: bool, i: nat)
    requires Filed(s) && Listed(s, i) && Listed(s, found) && !op.Create? && !op.CleanUp?
    ensures Listed(BeginAt(s, op, found, saves), i) <==> !(saves && op.Remove? && found == i)
  {
  }

  lemma BeginLeaves(s: State, op: Op, effects: Effects, aborted: bool, i: nat)
    requires Filed(s) && Listed(s, i) && (op.CleanUp? ==> op.instance < |s.objects|)
    ensures Listed(Begin(s, op, effects, aborted), i) <==> !(effects.saves && op == Remove(s.objects[i].definition.address))
  {
    if op.Create? && Find(s, op.definition.address).None? {
      AddStays(s, op.definition, op.owned, effects, i);
    } else if !op.Create? && !op.CleanUp? && Find(s, op.address).Some? {
      var found := Find(s, op.address).value;
      KeyInjective(op.address, s.objects[i].definition.address);
      KeyInjective(op.address, s.objects[found].definition.address);
      BeginAtLeaves(s, op, found, effects.saves, i);
    }
  }

  lemma ReplaceLeaves(s: State, j: nat, definition: Definition, owned: bool, effects: Effects, i: nat)
    requires Inv(s) && j < |s.objects| && Listed(s, i)
    ensures Listed(AddAndSave(RemoveEntry(s, j), definition, owned, effects), i) <==>
            j != i && (!effects.adds || definition.address != s.objects[i].definition.address)
  {
    RemovesOnly(s, j, i);
    var r := RemoveEntry(s, j);
    RemoveEntryKeeps(s, j, s.stranded + BeingRemoved(s));
    var t := AddAndSave(r, definition, owned, effects);
    AddRelistsNone(r, definition, owned, effects, i);
    if i != j { AddLeaves(r, definition, owned, effects, i); }
  }

  lemma AddRelistsNone(r: State, definition: Definition, owned: bool, effects: Effects, i: nat)
    requires Filed(r) && i < |r.objects|
    ensures Listed(AddAndSave(r, definition, owned, effects), i) ==> Listed(r, i)
  {
  }

  /** The other segments take their instance off the map, or leave the map alone. */
  lemma ResumesEntries(s: State, at: Await, effects: Effects, finished: bool)
    requires at.instance < |s.objects| && !at.Replacing?
    ensures var t, r := Resume(s, at, effects, finished), if Ends(s, at, finished) then RemoveEntry(s, at.instance) else s;
            t.objects == r.objects && t.entries == r.entries && t.stranded == s.stranded
  {
  }

  lemma OtherResumes(s: State, effects: Effects, finished: bool, i: nat)
    requires Inv(s) && s.running.Some? && !s.running.value.Replacing? && Listed(s, i)
    ensures var at := s.running.value;
            Listed(Resume(s, at, effects, finished), i) <==> !(at.instance == i && Ends(s, at, finished))
  {
    RemovesOnly(s, s.running.value.instance, i);
    ResumesEntries(s, s.running.value, effects, finished);
  }

  lemma ResumesLeaves(s: State, effects: Effects, finished: bool, i: nat)
    requires Inv(s) && s.running.Some? && Listed(s, i)
    ensures Listed(Step(s, Resumes(effects, finished)), i) <==> !Leaves(s, Resumes(effects, finished), i)
  {
    var at := s.running.value;
    if at.Replacing? {
      ReplaceLeaves(s, at.instance, at.definition, at.owned, effects, i);
    } else {
      OtherResumes(s, effects, finished, i);
    }
  }

  lemma LeavesExactly(s: State, e: Event, i: nat)
    requires Inv(s) && Possible(s, e) && Listed(s, i)
    ensures Listed(Step(s, e), i) <==> !Leaves(s, e, i)
  {
    match e {
      case Begins(effects, aborted) => BeginLeaves(s.(queue := s.queue[1..]), s.queue[0], effects, aborted, i);
      case Resumes(effects, finished) => ResumesLeaves(s, effects, finished, i);
      case Reports(j, finished) => RemovesOnly(s, j, i);
      case _ =>
    }
  }

  /** The end of an owned run takes away its own instance, never a replacement at the same address. */
  lemma CleanUpSparesReplacements(s: State, i: nat, effects: Effects, finished: bool)
    requires Inv(s) && s.running == Some(CleaningUp(i))
    ensures var t := Step(s, Resumes(effects, finished));
            && t.objects[i].removed && !Listed(t, i) && t.file == s.file
            && forall k :: k in s.entries && s.entries[k] != i ==> k in t.entries && t.entries[k] == s.entries[k]
  {
    RemoveEntryKeeps(s, i, s.stranded);
  }

  function Stranded(s: State, e: Event): set<nat>
    requires Inv(s) && Possible(s, e)
  {
    match e
    case Resumes(effects, _) =>
      var at := s.running.value;
      if at.Replacing? && effects.adds && Find(s, at.definition.address).Some? && Find(s, at.definition.address).value != at.instance
      then {Find(s, at.definition.address).value} else {}
    case Rejects => BeingRemoved(s)
    case _ => {}
  }

  lemma BeginStrandsNone(s: State, op: Op, effects: Effects, aborted: bool)
    requires Filed(s) && (op.CleanUp? ==> op.instance < |s.objects|)
    ensures Begin(s, op, effects, aborted).stranded == s.stranded
  {
  }

  lemma ReplaceStrands(s: State, j: nat, definition: Definition, owned: bool, effects: Effects)
    requires Filed(s) && j < |s.objects| && (s.objects[j].removed ==> !Listed(s, j))
    ensures AddAndSave(RemoveEntry(s, j), definition, owned, effects).stranded == s.stranded +
            var found := Find(s, definition.address); if effects.adds && found.Some? && found.value != j then {found.value} else {}
  {
    var k := Key(definition.address);
    var r := RemoveEntry(s, j);
    assert k in r.entries <==> k in s.entries && s.entries[k] != j;
  }

  /** A live entry is stranded only if its supervisor fails to stop in a `remove`, or if it was
      restored at an address while the entry there was being replaced. */
  lemma StrandsExactly(s: State, e: Event)
    requires Inv(s) && Possible(s, e)
    ensures Step(s, e).stranded == s.stranded + Stranded(s, e)
  {
    match e {
      case Begins(effects, aborted) => BeginStrandsNone(s.(queue := s.queue[1..]), s.queue[0], effects, aborted);
      case Resumes(effects, finished) =>
        var at := s.running.value;
        if at.Replacing? {
          ReplaceStrands(s, at.instance, at.definition, at.owned, effects);
        } else {
          ResumesEntries(s, at, effects, finished);
        }
      case _ =>
    }
  }

  // ---- The saved file --------------------------------------------------------------------------

  /** Clean-ups are about owned entries, an entry being removed is off the map, and one is
      replaced at its own address. */
  ghost predicate Subjects(s: State) {
    && (forall op :: op in s.queue && op.CleanUp? ==> op.instance < |s.objects| && s.objects[op.instance].owned)
    && (s.running.Some? ==>
         var at := s.running.value;
         && at.instance < |s.objects|
         && (at.CleaningUp? ==> s.objects[at.instance].owned)
         && (at.Removing? ==> !Listed(s, at.instance))
         && (at.Replacing? ==> at.definition.address == s.objects[at.instance].definition.address))
  }

  lemma BeginSubjects(s: State, op: Op, effects: Effects, aborted: bool)
    requires Filed(s) && s.running.None? && (op.CleanUp? ==> op.instance < |s.objects| && s.objects[op.instance].owned)
    ensures var t := Begin(s, op, effects, aborted);
            && t.queue == s.queue && t.running.Some? ==>
               var at := t.running.value;
               && at.instance < |t.objects|
               && (at.CleaningUp? ==> at.instance < |s.objects| && s.objects[at.instance].owned)
               && (at.Removing? ==> !Listed(t, at.instance))
               && (at.Replacing? ==> at.definition.address == t.objects[at.instance].definition.address)
  {
    if op.Create? && Find(s, op.definition.address).Some? {
      KeyInjective(op.definition.address, s.objects[Find(s, op.definition.address).value].definition.address);
    }
  }

  /** A running operation that is new to `t` has the right subject. */
  ghost predicate NewSubject(s: State, t: State) {
    t.running.Some? && t.running != s.running ==>
      var at := t.running.value;
      && at.instance < |t.objects|
      && (at.CleaningUp? ==> at.instance < |s.objects| && s.objects[at.instance].owned)
      && (at.Removing? ==> !Listed(t, at.instance))
      && (at.Replacing? ==> at.definition.address == t.objects[at.instance].definition.address)
  }

  lemma SubjectsStay(s: State, t: State)
    requires Subjects(s) && Keeps(s, t) && NewSubject(s, t)
    requires forall op :: op in t.queue && op.CleanUp? ==> op in s.queue || (op.instance < |s.objects| && s.objects[op.instance].owned)
    ensures Subjects(t)
  {
  }

  lemma BeginNewSubject(s: State, effects: Effects, aborted: bool)
    requires Filed(s) && Pending(s) && Subjects(s) && s.running.None? && s.queue != []
    ensures NewSubject(s, Step(s, Begins(effects, aborted)))
  {
    assert s.queue[0] in s.queue;
    BeginSubjects(s.(queue := s.queue[1..]), s.queue[0], effects, aborted);
  }

  lemma StepNewSubject(s: State, e: Event)
    requires Inv(s) && Subjects(s) && Possible(s, e)
    ensures NewSubject(s, Step(s, e))
  {
    match e {
      case Begins(effects, aborted) => BeginNewSubject(s, effects, aborted);
      case Resumes(effects, finished) => ResumeSubjects(s, s.running.value, effects, finished);
      case Rejects => ResumeSubjects(s, s.running.value, Effects(false, false), false);
      case _ =>
    }
  }

  lemma StepQueue(s: State, e: Event)
    requires Inv(s) && Possible(s, e)
    ensures forall op :: op in Step(s, e).queue && op.CleanUp? ==> op in s.queue || (op.instance < |s.objects| && s.objects[op.instance].owned)
  {
    match e {
      case Begins(effects, aborted) => BeginNext(s.(queue := s.queue[1..]), s.queue[0], effects, aborted);
      case Resumes(effects, finished) => ResumeNext(s, effects, finished);
      case Rejects => ResumeNext(s, Effects(false, false), false);
      case _ =>
    }
  }

  lemma StepSubjects(s: State, e: Event)
    requires Inv(s) && Subjects(s) && Possible(s, e)
    ensures Subjects(Step(s, e))
  {
    StepKeeps(s, e);
    StepNewSubject(s, e);
    StepQueue(s, e);
    SubjectsStay(s, Step(s, e));
  }

  lemma ResumeSubjects(s: State, at: Await, effects: Effects, finished: bool)
    requires at.instance < |s.objects|
    ensures var t := Resume(s, at, effects, finished);
            t.queue == s.queue && (t.running.Some? ==>
              t.running.value.instance < |t.objects| && !t.running.value.CleaningUp? && !t.running.value.Removing? && !t.running.value.Replacing?)
    ensures var t := Reject(s, at);
            t.queue == s.queue && (t.running.Some? ==>
              t.running.value.instance < |t.objects| && !t.running.value.CleaningUp? && !t.running.value.Removing? && !t.running.value.Replacing?)
  {
  }

  /** The record of the endpoint that an address lists, if it is persistent. */
  function RecordAt(s: State, a: Address): Option<Stored> {
    var i := Find(s, a);
    if i.Some? && i.value < |s.objects| && s.objects[i.value].definition.persistent then Some(Record(s.objects[i.value])) else None
  }

  /** The record that should be at the address of a replaced entry once it is off the map: that of its
      replacement, or of what was restored in between if there is no replacement. */
  function RecordDue(s: State, at: Await, adds: bool): Option<Stored>
    requires at.Replacing?
  {
    if adds then if at.definition.persistent then Some(Stored(at.definition, true)) else None
    else if Find(s, at.definition.address) == Some(at.instance) then None
    else RecordAt(s, at.definition.address)
  }

  /** The steps that the file does not follow: the map loses, gains or changes a persistent entry
      without a write. A create does so if its write fails, or if it is undone; one that replaces also
      if its entry cannot be made. */
  predicate Drifts(s: State, e: Event)
    requires Inv(s) && Possible(s, e)
  {
    match e
    case Begins(effects, aborted) =>
      var op := s.queue[0];
      op.Create? && op.definition.persistent && Find(s, op.definition.address).None? && !aborted && effects.adds && !effects.saves
    case Resumes(effects, _) =>
      var at := s.running.value;
      if at.Replacing? then
        !(effects.adds && effects.saves) && RecordAt(s, at.definition.address) != RecordDue(s, at, effects.adds)
      else at.Undoing? && Listed(s, at.instance) && s.objects[at.instance].definition.persistent
    case Restores(stored) => Key(stored.definition.address) !in s.entries && stored.definition.persistent
    case _ => false
  }

  lemma SameSaved(s: State, t: State)
    requires |s.objects| == |t.objects|
    requires forall j :: 0 <= j < |s.objects| ==>
               (Listed(t, j) && t.objects[j].definition.persistent <==> Listed(s, j) && s.objects[j].definition.persistent)
               && Record(t.objects[j]) == Record(s.objects[j])
    ensures Saved(t) == Saved(s)
  {
    forall r | r in Saved(s) ensures r in Saved(t) {
      var j :| 0 <= j < |s.objects| && Listed(s, j) && s.objects[j].definition.persistent && r == Record(s.objects[j]);
      assert Listed(t, j);
    }
    forall r | r in Saved(t) ensures r in Saved(s) {
      var j :| 0 <= j < |s.objects| && Listed(t, j) && t.objects[j].definition.persistent && r == Record(t.objects[j]);
      assert Listed(s, j);
    }
  }

  lemma Unmoved(s: State, t: State)
    requires t.objects == s.objects && t.entries == s.entries
    ensures Saved(t) == Saved(s)
  {
    SameSaved(s, t);
  }

  ghost predicate Follows(s: State) {
    s.file == Some(Saved(s))
  }

  lemma SavedFollows(a: State, t: State)
    requires t.objects == a.objects && t.entries == a.entries && t.file == Save(a).file
    ensures Follows(t)
  {
    Unmoved(a, t);
  }

  /** The saved records are those at the addresses. */
  lemma SavedAt(s: State, r: Stored)
    requires Filed(s)
    ensures r in Saved(s) <==> RecordAt(s, r.definition.address) == Some(r)
  {
    if r in Saved(s) {
      var j :| 0 <= j < |s.objects| && Listed(s, j) && s.objects[j].definition.persistent && r == Record(s.objects[j]);
    }
    if RecordAt(s, r.definition.address) == Some(r) {
      assert Listed(s, Find(s, r.definition.address).value);
    }
  }

  lemma RecordHere(s: State, a: Address)
    requires Filed(s)
    ensures RecordAt(s, a).Some? ==> RecordAt(s, a).value.definition.address == a
  {
    if Find(s, a).Some? { KeyInjective(a, s.objects[Find(s, a).value].definition.address); }
  }

  /** `t` lists at addresses other than `a` what `s` does. */
  ghost predicate OnlyAt(s: State, t: State, a: Address) {
    forall b: Address :: b != a ==> RecordAt(t, b) == RecordAt(s, b)
  }

  /** A step that writes nothing and touches one address is followed exactly if the record there stays. */
  lemma UnwrittenFollows(s: State, t: State, a: Address)
    requires Filed(s) && Filed(t) && OnlyAt(s, t, a) && Follows(s) && t.file == s.file
    ensures Follows(t) <==> RecordAt(t, a) == RecordAt(s, a)
  {
    RecordHere(s, a);
    RecordHere(t, a);
    if RecordAt(t, a) == RecordAt(s, a) {
      forall r ensures r in Saved(t) <==> r in Saved(s) {
        SavedAt(s, r);
        SavedAt(t, r);
        assert RecordAt(t, r.definition.address) == RecordAt(s, r.definition.address);
      }
      assert Saved(t) == Saved(s);
    } else if RecordAt(s, a).Some? {
      SavedAt(s, RecordAt(s, a).value);
      SavedAt(t, RecordAt(s, a).value);
    } else {
      SavedAt(s, RecordAt(t, a).value);
      SavedAt(t, RecordAt(t, a).value);
    }
  }

  /** Taking `i` off the map touches its address, if it is listed. */
  lemma RemoveOnlyAt(s: State, i: nat)
    requires Filed(s) && i < |s.objects|
    ensures var t, a := RemoveEntry(s, i), s.objects[i].definition.address;
            OnlyAt(s, t, a) && RecordAt(t, a) == if Listed(s, i) then None else RecordAt(s, a)
  {
    var t, a := RemoveEntry(s, i), s.objects[i].definition.address;
    forall b: Address | b != a ensures RecordAt(t, b) == RecordAt(s, b) { KeyInjective(a, b); }
  }

  lemma AddOnlyAt(s: State, definition: Definition, desired: bool, owned: bool)
    requires Filed(s)
    ensures var t, a := Add(s, definition, desired, owned), definition.address;
            OnlyAt(s, t, a) && RecordAt(t, a) == if definition.persistent then Some(Stored(definition, desired)) else None
  {
    var t, a := Add(s, definition, desired, owned), definition.address;
    forall b: Address | b != a ensures RecordAt(t, b) == RecordAt(s, b) { KeyInjective(a, b); }
  }

  lemma SameRecords(s: State, t: State, a: Address)
    requires t.objects == s.objects && t.entries == s.entries
    ensures RecordAt(t, a) == RecordAt(s, a)
  {
  }

  lemma CreateFollows(s: State, op: Op, effects: Effects, aborted: bool)
    requires Filed(s) && Follows(s) && op.Create?
    ensures Follows(Begin(s, op, effects, aborted)) <==>
            !(op.definition.persistent && Find(s, op.definition.address).None? && !aborted && effects.adds && !effects.saves)
  {
    var t := Begin(s, op, effects, aborted);
    if aborted || Find(s, op.definition.address).Some? || !effects.adds {
      Unmoved(s, t);
    } else {
      var a := Add(s, op.definition, true, op.owned);
      if effects.saves {
        SavedFollows(a, t);
      } else {
        AddOnlyAt(s, op.definition, true, op.owned);
        AddFiled(s, op.definition, true, op.owned);
        UnwrittenFollows(s, a, op.definition.address);
        Unmoved(a, t);
      }
    }
  }

  lemma AddFiled(s: State, definition: Definition, desired: bool, owned: bool)
    requires Filed(s)
    ensures Filed(Add(s, definition, desired, owned))
  {
  }

  lemma BeginFollows(s: State, op: Op, effects: Effects, aborted: bool)
    requires Filed(s) && Follows(s) && (op.CleanUp? ==> op.instance < |s.objects|) && !op.Create?
    ensures Follows(Begin(s, op, effects, aborted))
  {
    var t := Begin(s, op, effects, aborted);
    if t.objects == s.objects && t.entries == s.entries && t.file == s.file {
      Unmoved(s, t);
    } else {
      var i := Find(s, op.address).value;
      assert t == BeginAt(s, op, i, effects.saves);
      BeginAtFollows(s, op, i);
    }
  }

  lemma BeginAtFollows(s: State, op: Op, i: nat)
    requires i < |s.objects| && !op.Create? && !op.CleanUp?
    requires BeginAt(s, op, i, true).file != s.file || BeginAt(s, op, i, true).objects != s.objects || BeginAt(s, op, i, true).entries != s.entries
    ensures Follows(BeginAt(s, op, i, true))
  {
    var t := BeginAt(s, op, i, true);
    SavedFollows(s.(objects := t.objects, entries := t.entries), t);
  }

  /** The entry is replaced, or only removed, without a write. */
  lemma ReplaceUnwritten(s: State, at: Await, effects: Effects)
    requires Inv(s) && Subjects(s) && s.running == Some(at) && at.Replacing? && !(effects.adds && effects.saves)
    ensures var t := Resume(s, at, effects, false);
            Filed(t) && t.file == s.file && OnlyAt(s, t, at.definition.address) &&
            RecordAt(t, at.definition.address) == RecordDue(s, at, effects.adds)
  {
    var r, a := RemoveEntry(s, at.instance), at.definition.address;
    var t := Resume(s, at, effects, false);
    RemoveEntryKeeps(s, at.instance, s.stranded + BeingRemoved(s));
    RemoveOnlyAt(s, at.instance);
    if effects.adds {
      AddOnlyAt(r, at.definition, true, at.owned);
      AddFiled(r, at.definition, true, at.owned);
      forall b: Address ensures RecordAt(t, b) == RecordAt(Add(r, at.definition, true, at.owned), b) {
        SameRecords(Add(r, at.definition, true, at.owned), t, b);
      }
    } else {
      forall b: Address ensures RecordAt(t, b) == RecordAt(r, b) { SameRecords(r, t, b); }
    }
  }

  lemma ReplaceFollows(s: State, effects: Effects, finished: bool)
    requires Inv(s) && Subjects(s) && Follows(s) && s.running.Some? && s.running.value.Replacing?
    ensures Follows(Step(s, Resumes(effects, finished))) <==> !Drifts(s, Resumes(effects, finished))
  {
    var at := s.running.value;
    var t := Step(s, Resumes(effects, finished));
    if effects.adds && effects.saves {
      SavedFollows(Add(RemoveEntry(s, at.instance), at.definition, true, at.owned), t);
    } else {
      ReplaceUnwritten(s, at, effects);
      UnwrittenFollows(s, t, at.definition.address);
    }
  }

  lemma ResumeFollows(s: State, effects: Effects, finished: bool)
    requires Inv(s) && Subjects(s) && Follows(s) && s.running.Some? && !s.running.value.Replacing?
    ensures Follows(Step(s, Resumes(effects, finished))) <==> !Drifts(s, Resumes(effects, finished))
  {
    var at := s.running.value;
    var t := Step(s, Resumes(effects, finished));
    ResumesEntries(s, at, effects, finished);
    if Ends(s, at, finished) {
      RemoveFollows(s, at.instance);
      Unmoved(RemoveEntry(s, at.instance), t);
    } else {
      Unmoved(s, t);
    }
  }

  lemma RemoveFollows(s: State, i: nat)
    requires Inv(s) && Follows(s) && i < |s.objects|
    ensures Follows(RemoveEntry(s, i)) <==> !(Listed(s, i) && s.objects[i].definition.persistent)
  {
    RemoveEntryKeeps(s, i, s.stranded + BeingRemoved(s));
    RemoveOnlyAt(s, i);
    UnwrittenFollows(s, RemoveEntry(s, i), s.objects[i].definition.address);
  }

  lemma RestoreFollows(s: State, stored: Stored)
    requires Inv(s) && Follows(s)
    ensures Follows(Step(s, Restores(stored))) <==> !Drifts(s, Restores(stored))
  {
    if Key(stored.definition.address) !in s.entries {
      AddOnlyAt(s, stored.definition, stored.desired, false);
      AddFiled(s, stored.definition, stored.desired, false);
      UnwrittenFollows(s, Add(s, stored.definition, stored.desired, false), stored.definition.address);
    }
  }

  /** The file keeps listing exactly the persistent entries in every step but those that drift. */
  lemma FileFollows(s: State, e: Event)
    requires Inv(s) && Subjects(s) && Possible(s, e) && Follows(s)
    ensures Follows(Step(s, e)) <==> !Drifts(s, e)
    ensures Subjects(Step(s, e))
  {
    StepSubjects(s, e);
    match e {
      case Begins(effects, aborted) =>
        var d := s.(queue := s.queue[1..]);
        Unmoved(s, d);
        if s.queue[0].Create? {
          CreateFollows(d, s.queue[0], effects, aborted);
        } else {
          BeginFollows(d, s.queue[0], effects, aborted);
        }
      case Resumes(effects, finished) =>
        if s.running.value.Replacing? { ReplaceFollows(s, effects, finished); } else { ResumeFollows(s, effects, finished); }
      case Reports(i, finished) => RemoveFollows(s, i);
      case Restores(stored) => RestoreFollows(s, stored);
      case _ => Unmoved(s, Step(s, e));
    }
  }

  /** A persistent endpoint that was saved but did not start is removed, and stays in the file. */
  lemma UndoneCreateStaysSaved(s: State, i: nat, reply: Reply)
    requires Inv(s) && s.running == Some(Undoing(i, reply)) && Listed(s, i) && s.objects[i].definition.persistent && Follows(s)
    ensures var t := Step(s, Resumes(Effects(true, true), false));
            t.objects[i].removed && Record(s.objects[i]) in t.file.value && Record(s.objects[i]) !in Saved(t)
  {
    var t := Step(s, Resumes(Effects(true, true), false));
    forall j | 0 <= j < |t.objects| && Listed(t, j) ensures t.objects[j].definition.address != s.objects[i].definition.address {
      assert KeyOf(t, j) in t.entries;
    }
  }

  /** An endpoint whose replacement cannot be made is gone, and if it was persistent it stays in the file. */
  lemma UnmadeReplacementStaysSaved(s: State, at: Await, saves: bool)
    requires Inv(s) && s.running == Some(at) && at.Replacing? && Listed(s, at.instance)
    requires s.objects[at.instance].definition.persistent && Follows(s)
    ensures var t := Step(s, Resumes(Effects(false, saves), false));
            && t.objects[at.instance].removed && t.replies == s.replies + [AddFailed]
            && Record(s.objects[at.instance]) in t.file.value && Record(s.objects[at.instance]) !in Saved(t)
  {
    var t := Step(s, Resumes(Effects(false, saves), false));
    forall j | 0 <= j < |t.objects| && Listed(t, j)
      ensures t.objects[j].definition.address != s.objects[at.instance].definition.address
    {
      assert KeyOf(t, j) in t.entries;
    }
  }

  /** A sequence of possible steps. */
  ghost predicate Steps(s: State, events: seq<Event>, end: State)
    decreases events
  {
    if events == [] then s == end
    else Filed(s) && Pending(s) && Possible(s, events[0]) && Steps(Step(s, events[0]), events[1..], end)
  }

  function Fresh(d: Definition): State {
    State([Entry(d, true, false, false)], map[Key(d.address) := 0], Some({Stored(d, true)}), [], None, [], false, {})
  }

  lemma FreshSaved(d: Definition, s: State)
    requires d.persistent && s.objects == Fresh(d).objects && s.entries == Fresh(d).entries && s.file == Fresh(d).file
    ensures Filed(s) && Listed(s, 0) && Follows(s)
  {
    assert Saved(s) == {Stored(d, true)} by {
      assert Record(s.objects[0]) == Stored(d, true) && Listed(s, 0);
    }
  }

  /** A create of a persistent endpoint in an empty registry, up to its first await. */
  lemma FreshCreate(d: Definition)
    requires d.persistent
    ensures var called := EMPTY.(queue := [Create(d, false, false)]);
            Begin(called.(queue := []), called.queue[0], Effects(true, true), false) == Fresh(d).(running := Some(CreateSyncing(0)))
  {
    var a := Add(EMPTY, d, true, false);
    assert a.objects == Fresh(d).objects && a.entries == Fresh(d).entries && a.stranded == {};
    assert Saved(a) == {Stored(d, true)} by {
      assert Record(a.objects[0]) == Stored(d, true) && Listed(a, 0);
    }
  }

  lemma {:induction false} StepsAreRun(s: State, events: seq<Event>, end: State)
    requires Inv(s) && Steps(s, events, end)
    ensures Run(s, events, end)
    decreases events
  {
    if events != [] {
      StepKeeps(s, events[0]);
      StepsAreRun(Step(s, events[0]), events[1..], end);
    }
  }

  lemma ThreeSteps(s: State, a: Event, b: Event, c: Event)
    requires Filed(s) && Pending(s) && Possible(s, a)
    requires var t := Step(s, a); Filed(t) && Pending(t) && Possible(t, b)
    requires var u := Step(Step(s, a), b); Filed(u) && Pending(u) && Possible(u, c)
    ensures Steps(s, [a, b, c], Step(Step(Step(s, a), b), c))
  {
    assert [a, b, c][1..] == [b, c] && [b, c][1..] == [c] && [c][1..] == [];
    var v := Step(Step(Step(s, a), b), c);
    assert Steps(v, [], v);
    assert Steps(Step(Step(s, a), b), [c], v);
  }

  /** What a create of a persistent endpoint leaves that is saved and waits for its supervisor. */
  lemma SyncingSteps(d: Definition, c: Event, end: State)
    requires d.persistent
    requires var syncing := Fresh(d).(running := Some(CreateSyncing(0)));
             Filed(syncing) && Pending(syncing) && Possible(syncing, c) && Step(syncing, c) == end
    ensures (EmptySound(); Run(EMPTY, [Calls(Create(d, false, false)), Begins(Effects(true, true), false), c], end))
  {
    var op := Create(d, false, false);
    var called, syncing := EMPTY.(queue := [op]), Fresh(d).(running := Some(CreateSyncing(0)));
    FreshCreate(d);
    EmptySound();
    assert Step(EMPTY, Calls(op)) == called && called.queue[1..] == [];
    assert Step(called, Begins(Effects(true, true), false)) == syncing;
    ThreeSteps(EMPTY, Calls(op), Begins(Effects(true, true), false), c);
    StepsAreRun(EMPTY, [Calls(op), Begins(Effects(true, true), false), c], end);
  }

  /** The first drift is reached from the start: a create is saved, and its supervisor fails to start. */
  lemma UndoingIsReached(d: Definition)
    requires d.persistent
    ensures var undoing := Fresh(d).(running := Some(Undoing(0, SupervisorFailed)));
            && (EmptySound(); Run(EMPTY, [Calls(Create(d, false, false)), Begins(Effects(true, true), false), Rejects], undoing))
            && Listed(undoing, 0) && Follows(undoing)
  {
    var undoing := Fresh(d).(running := Some(Undoing(0, SupervisorFailed)));
    FreshSaved(d, Fresh(d).(running := Some(CreateSyncing(0))));
    FreshSaved(d, undoing);
    SyncingSteps(d, Rejects, undoing);
  }

  /** The second drift too: such an endpoint has started, and a replacement for it is asked for. */
  lemma ReplacingIsReached(d: Definition, next: Definition)
    requires d.persistent && next.address == d.address
    ensures var started := Fresh(d).(replies := [Done]);
            var replacing := started.(running := Some(Replacing(0, next, false)));
            && (EmptySound();
                Run(EMPTY, [Calls(Create(d, false, false)), Begins(Effects(true, true), false), Resumes(Effects(true, true), false)], started))
            && Inv(started) && Run(started, [Calls(Create(next, false, true)), Begins(Effects(false, true), false)], replacing)
            && Listed(replacing, 0) && Follows(replacing)
  {
    var started := Fresh(d).(replies := [Done]);
    var replacing := started.(running := Some(Replacing(0, next, false)));
    var events := [Calls(Create(d, false, false)), Begins(Effects(true, true), false), Resumes(Effects(true, true), false)];
    FreshSaved(d, Fresh(d).(running := Some(CreateSyncing(0))));
    SyncingSteps(d, Resumes(Effects(true, true), false), started);
    EmptySound();
    RunKeeps(EMPTY, events, started);
    ReplaceBegins(d, next);
    StepsAreRun(started, [Calls(Create(next, false, true)), Begins(Effects(false, true), false)], replacing);
  }

  lemma ReplaceBegins(d: Definition, next: Definition)
    requires d.persistent && next.address == d.address
    ensures var started := Fresh(d).(replies := [Done]);
            var replacing := started.(running := Some(Replacing(0, next, false)));
            Steps(started, [Calls(Create(next, false, true)), Begins(Effects(false, true), false)], replacing) &&
            Listed(replacing, 0) && Follows(replacing)
  {
    var started := Fresh(d).(replies := [Done]);
    var again, begins := Create(next, false, true), Begins(Effects(false, true), false);
    var waiting, replacing := started.(queue := [again]), started.(running := Some(Replacing(0, next, false)));
    FreshSaved(d, started);
    FreshSaved(d, replacing);
    assert Step(started, Calls(again)) == waiting && waiting.queue[1..] == [];
    assert Step(waiting, begins) == replacing;
    assert Steps(replacing, [begins][1..], replacing);
    assert Steps(waiting, [begins], replacing);
    assert [Calls(again), begins][1..] == [begins];
  }

  // ---- What an operation leaves behind -----------------------------------------------------------

  /** An operation that names an address finds an entry, and does not ask for what is refused. */
  predicate Admitted(s: State, op: Op) {
    !op.Create? && !op.CleanUp? && Find(s, op.address).Some? &&
    (op.Configure? && op.persistent == Some(true) ==>
      Find(s, op.address).value < |s.objects| && !s.objects[Find(s, op.address).value].owned)
  }

  /** The record that an admitted operation is to leave in the file, if any. */
  function Intended(s: State, op: Op, i: nat): Option<Stored>
    requires i < |s.objects| && !op.Create? && !op.CleanUp?
  {
    var e := s.objects[i];
    match op
    case Start(_) => if e.definition.persistent then Some(Stored(e.definition, true)) else None
    case Stop(_) => if e.definition.persistent then Some(Stored(e.definition, false)) else None
    case Remove(_) => None
    case Configure(_, persistent, restart) =>
      var d := Configured(e.definition, persistent, restart);
      if d.persistent then Some(Stored(d, e.desired)) else None
  }

  /** A failed write leaves entries and file as they were, and a refused operation too. */
  lemma FailedWriteChangesNothing(s: State, op: Op, effects: Effects)
    requires Filed(s) && !op.Create? && !op.CleanUp? && (!effects.saves || !Admitted(s, op))
    ensures var t := Begin(s, op, effects, false);
            t.objects == s.objects && t.entries == s.entries && t.file == s.file && t.running.None? &&
            t.replies == s.replies + [if Find(s, op.address).None? then NotFound else if !Admitted(s, op) then OwnedPersistent else SaveFailed]
  {
  }

  lemma BeginAtIntended(s: State, op: Op, i: nat)
    requires Listed(s, i) && !op.Create? && !op.CleanUp?
    requires op.Configure? && op.persistent == Some(true) ==> !s.objects[i].owned
    ensures var t := BeginAt(s, op, i, true);
            && Follows(t) && t.objects[i].definition.address == s.objects[i].definition.address
            && (forall r :: r in t.file.value && r.definition.address == s.objects[i].definition.address <==> Some(r) == Intended(s, op, i))
  {
    var t := BeginAt(s, op, i, true);
    SavedFollows(s.(objects := t.objects, entries := t.entries), t);
    forall r ensures r in Saved(t) && r.definition.address == s.objects[i].definition.address <==> Some(r) == Intended(s, op, i) {
      if r in Saved(t) && r.definition.address == s.objects[i].definition.address {
        var j :| 0 <= j < |t.objects| && Listed(t, j) && t.objects[j].definition.persistent && r == Record(t.objects[j]);
        assert KeyOf(t, j) == KeyOf(s, i);
      }
      if Some(r) == Intended(s, op, i) {
        assert Listed(t, i) && r == Record(t.objects[i]);
      }
    }
  }

  /** Once an admitted operation has begun, the file holds for its address exactly the intended record. */
  lemma OperationIsSaved(s: State, op: Op)
    requires Filed(s) && Admitted(s, op)
    ensures var t := Begin(s, op, Effects(true, true), false);
            Follows(t) &&
            forall r :: r in t.file.value && r.definition.address == op.address <==> Some(r) == Intended(s, op, Find(s, op.address).value)
  {
    var i := Find(s, op.address).value;
    KeyInjective(op.address, s.objects[i].definition.address);
    BeginAtIntended(s, op, i);
  }

  /** The step writes the file. */
  predicate Writes(s: State, e: Event)
    requires Inv(s) && Possible(s, e)
  {
    match e
    case Begins(effects, aborted) =>
      var op := s.queue[0];
      effects.saves &&
      if op.Create? then !aborted && effects.adds && Find(s, op.definition.address).None? else Admitted(s, op)
    case Resumes(effects, _) => s.running.value.Replacing? && effects.adds && effects.saves
    case _ => false
  }

  /** However far the file was behind, one successful write catches up. */
  lemma WriteCatchesUp(s: State, e: Event)
    requires Inv(s) && Possible(s, e) && Writes(s, e)
    ensures Follows(Step(s, e))
  {
    match e {
      case Begins(effects, aborted) =>
        var d, op := s.(queue := s.queue[1..]), s.queue[0];
        if op.Create? {
          SavedFollows(Add(d, op.definition, true, op.owned), Step(s, e));
        } else {
          KeyInjective(op.address, d.objects[Find(d, op.address).value].definition.address);
          BeginAtIntended(d, op, Find(d, op.address).value);
        }
      case Resumes(effects, finished) =>
        var at := s.running.value;
        SavedFollows(Add(RemoveEntry(s, at.instance), at.definition, true, at.owned), Step(s, e));
    }
  }

  /** Calls that were accepted: waiting, running or answered. */
  function Accepted(s: State): nat {
    |s.queue| + (if s.running.Some? then 1 else 0) + |s.replies|
  }

  lemma BeginAnswers(s: State, op: Op, effects: Effects, aborted: bool)
    requires Filed(s) && s.running.None? && (op.CleanUp? ==> op.instance < |s.objects|)
    ensures Accepted(Begin(s, op, effects, aborted)) == Accepted(s) + 1
  {
  }

  lemma ResumeAnswers(s: State, at: Await, effects: Effects, finished: bool)
    requires at.instance < |s.objects| && s.running.Some?
    ensures Accepted(Resume(s, at, effects, finished)) == Accepted(s) && Accepted(Reject(s, at)) == Accepted(s)
  {
  }

  /** No accepted call is lost or answered twice. */
  lemma EveryCallAnswered(s: State, e: Event)
    requires Inv(s) && Possible(s, e)
    ensures Accepted(Step(s, e)) == Accepted(s) + if e.Calls? && !Refused(s, e.op) then 1 else 0
  {
    match e {
      case Begins(effects, aborted) => BeginAnswers(s.(queue := s.queue[1..]), s.queue[0], effects, aborted);
      case Resumes(effects, finished) => ResumeAnswers(s, s.running.value, effects, finished);
      case Rejects => ResumeAnswers(s, s.running.value, Effects(false, false), false);
      case _ =>
    }
  }

  // ---- Shutdown -------------------------------------------------------------------------------

  predicate Idle(s: State) {
    s.running.None? && s.queue == []
  }

  ghost predicate NoneRestored(events: seq<Event>) {
    forall e :: e in events ==> !e.Restores?
  }

  /** Once shutdown has waited for the operations, nothing changes any more, whatever is called or
      reported; and disposing the listed supervisors reaches every live entry that was not stranded. */
  lemma {:induction false} ShutdownIsFinal(s: State, events: seq<Event>, end: State)
    requires Inv(s) && s.closing && Idle(s) && Run(s, events, end) && NoneRestored(events)
    ensures end == s
    ensures forall i :: 0 <= i < |s.objects| && !s.objects[i].removed && i !in s.stranded ==> Listed(s, i)
    decreases events
  {
    if events != [] {
      assert events[0] in events;
      assert Step(s, events[0]) == s;
      ShutdownIsFinal(s, events[1..], end);
    }
  }
}
