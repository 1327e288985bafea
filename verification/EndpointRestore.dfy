/** What survives a restart of the registry: a snapshot handed to the successor, or the saved file. */
module EndpointRestore {
  import opened Options
  import opened Endpoints
  import opened EndpointSafety

  /** Exactly the listed endpoints that no `run` call owns are in the snapshot, with what they are and whether
      they should run, be they persistent or not. */
  lemma SnapshotExactly(s: State, r: Stored)
    ensures r in Snapshot(s) <==>
            exists i: nat :: Listed(s, i) && !s.objects[i].owned && r == Stored(s.objects[i].definition, s.objects[i].desired)
  {
    if i: nat :| Listed(s, i) && !s.objects[i].owned && r == Stored(s.objects[i].definition, s.objects[i].desired) {
      assert r == Record(s.objects[i]);
    }
  }

  /** Exactly the listed endpoints that are persistent are saved. */
  lemma SavedExactly(s: State, r: Stored)
    ensures r in Saved(s) <==>
            exists i: nat :: Listed(s, i) && s.objects[i].definition.persistent && r == Stored(s.objects[i].definition, s.objects[i].desired)
  {
    if i: nat :| Listed(s, i) && s.objects[i].definition.persistent && r == Stored(s.objects[i].definition, s.objects[i].desired) {
      assert r == Record(s.objects[i]);
    }
  }

  /** The records one by one, up to the first one whose address is taken. */
  function RestoreAll(s: State, records: seq<Stored>): State
    decreases records
  {
    if records == [] || Key(records[0].definition.address) in s.entries then s
    else RestoreAll(Restore(s, records[0]), records[1..])
  }

  /** No two records, and no record and a listed endpoint, have the same address. */
  ghost predicate Free(s: State, records: seq<Stored>) {
    DistinctAddresses(records) && forall i :: 0 <= i < |records| ==> Find(s, records[i].definition.address) == None
  }

  lemma FreeStep(s: State, records: seq<Stored>)
    requires records != [] && Key(records[0].definition.address) !in s.entries
    ensures Free(s, records) <==> Free(Restore(s, records[0]), records[1..])
  {
    var t, rest := Restore(s, records[0]), records[1..];
    forall i | 0 <= i < |rest|
      ensures Find(t, rest[i].definition.address).None? <==>
              Find(s, rest[i].definition.address).None? && rest[i].definition.address != records[0].definition.address {
      KeyInjective(rest[i].definition.address, records[0].definition.address);
    }
    if Free(t, rest) {
      forall i, j | 0 <= i < j < |records| ensures records[i].definition.address != records[j].definition.address {
        assert records[j] == rest[j - 1];
        if i > 0 { assert records[i] == rest[i - 1]; }
      }
      forall i | 0 <= i < |records| ensures Find(s, records[i].definition.address) == None {
        if i > 0 { assert records[i] == rest[i - 1]; }
      }
    }
    if Free(s, records) {
      forall i | 0 <= i < |rest| ensures Find(t, rest[i].definition.address) == None {
        assert rest[i] == records[i + 1];
      }
    }
  }

  function ReloadedAll(records: seq<Stored>): seq<Stored> {
    seq(|records|, i requires 0 <= i < |records| => Reloaded(records[i]))
  }

  predicate DistinctAddresses(records: seq<Stored>) {
    forall i, j :: 0 <= i < j < |records| ==> records[i].definition.address != records[j].definition.address
  }

  /** One live entry a record, in order, that is not owned and has the definition and the desired state of the
      record; and nothing else is listed. */
  ghost predicate Holds(t: State, records: seq<Stored>) {
    && |t.objects| == |records|
    && (forall i :: 0 <= i < |records| ==> t.objects[i] == Entry(records[i].definition, records[i].desired, false, false) && Listed(t, i))
    && (forall k :: k in t.entries ==> t.entries[k] < |records| && KeyOf(t, t.entries[k]) == k)
    && t.stranded == {} && t.queue == [] && t.running == None && !t.closing && t.file == None
  }

  lemma RestoreHolds(t: State, records: seq<Stored>, r: Stored)
    requires Holds(t, records) && DistinctAddresses(records + [r])
    ensures Holds(Restore(t, r), records + [r])
  {
    NotYetListed(t, records, r);
    var u := Restore(t, r);
    forall i | 0 <= i < |records| ensures Listed(u, i) {
      assert Listed(t, i) && u.objects[i] == t.objects[i];
    }
  }

  lemma NotYetListed(t: State, records: seq<Stored>, r: Stored)
    requires Holds(t, records) && DistinctAddresses(records + [r])
    ensures Key(r.definition.address) !in t.entries
  {
    var n, all := |records|, records + [r];
    forall i | 0 <= i < n ensures records[i].definition.address != r.definition.address {
      assert all[i] == records[i] && all[n] == r;
    }
    if Key(r.definition.address) in t.entries {
      KeyInjective(r.definition.address, records[t.entries[Key(r.definition.address)]].definition.address);
    }
  }

  lemma {:induction false} RestoresFrom(t: State, done: seq<Stored>, rest: seq<Stored>)
    requires Holds(t, done) && DistinctAddresses(done + rest)
    ensures Holds(RestoreAll(t, rest), done + rest)
    decreases rest
  {
    if rest == [] {
      assert done + rest == done;
    } else {
      var next := done + [rest[0]];
      assert next + rest[1..] == done + rest;
      DistinctPrefix(next, rest[1..]);
      NotYetListed(t, done, rest[0]);
      RestoreHolds(t, done, rest[0]);
      RestoresFrom(Restore(t, rest[0]), next, rest[1..]);
    }
  }

  lemma DistinctPrefix(records: seq<Stored>, more: seq<Stored>)
    requires DistinctAddresses(records + more)
    ensures DistinctAddresses(records)
  {
    assert forall i :: 0 <= i < |records| ==> (records + more)[i] == records[i];
  }

  lemma RestoresAll(records: seq<Stored>)
    requires DistinctAddresses(records)
    ensures Holds(RestoreAll(EMPTY, records), records)
  {
    assert [] + records == records;
    RestoresFrom(EMPTY, [], records);
  }

  lemma HoldsSound(t: State, records: seq<Stored>)
    requires Holds(t, records)
    ensures Inv(t)
  {
  }

  /** What is listed at an address after restoring: the record's endpoint, or nothing. */
  lemma RestoredAt(t: State, records: seq<Stored>, a: Address)
    requires Holds(t, records)
    ensures Find(t, a).Some? <==> exists i :: 0 <= i < |records| && records[i].definition.address == a
    ensures forall i :: 0 <= i < |records| && records[i].definition.address == a ==>
              Find(t, a) == Some(i) && t.objects[i] == Entry(records[i].definition, records[i].desired, false, false)
  {
    if Key(a) in t.entries {
      var i := t.entries[Key(a)];
      KeyInjective(a, t.objects[i].definition.address);
      assert records[i].definition.address == a;
    }
    forall i | 0 <= i < |records| && records[i].definition.address == a ensures Find(t, a) == Some(i) {
      assert Listed(t, i);
    }
  }

  // ---- A successor restores the snapshot ----------------------------------------------------------

  /** `records` are the snapshot of `s`, each once. */
  ghost predicate Lists(records: seq<Stored>, all: set<Stored>) {
    && (forall r :: r in all <==> r in records)
    && (forall i, j :: 0 <= i < j < |records| ==> records[i] != records[j])
  }

  lemma SnapshotDistinct(s: State, records: seq<Stored>)
    requires Lists(records, Snapshot(s))
    ensures DistinctAddresses(records)
  {
    forall i, j | 0 <= i < j < |records| ensures records[i].definition.address != records[j].definition.address {
      assert records[i] in records && records[j] in records;
      SnapshotExactly(s, records[i]);
      SnapshotExactly(s, records[j]);
      var x: nat :| Listed(s, x) && !s.objects[x].owned && records[i] == Stored(s.objects[x].definition, s.objects[x].desired);
      var y: nat :| Listed(s, y) && !s.objects[y].owned && records[j] == Stored(s.objects[y].definition, s.objects[y].desired);
      OneListed(s, x, y);
    }
  }

  /** The endpoint at an address that a restart is to bring back. */
  predicate At(s: State, i: nat, a: Address) {
    Listed(s, i) && s.objects[i].definition.address == a
  }

  /** A successor that restores the snapshot lists exactly the endpoints that were listed and not owned, each live,
      with the same definition and the same desired state; its own snapshot is the same. */
  lemma SnapshotSurvives(s: State, records: seq<Stored>)
    requires Inv(s) && Lists(records, Snapshot(s))
    ensures var t := RestoreAll(EMPTY, records);
            && Inv(t)
            && (forall a :: Find(t, a).Some? <==> exists i: nat :: At(s, i, a) && !s.objects[i].owned)
            && (forall a, i: nat :: At(s, i, a) && !s.objects[i].owned ==>
                 Find(t, a).Some? && Find(t, a).value < |t.objects| &&
                 t.objects[Find(t, a).value] == Entry(s.objects[i].definition, s.objects[i].desired, false, false))
            && Snapshot(t) == Snapshot(s)
  {
    var t := RestoreAll(EMPTY, records);
    SnapshotDistinct(s, records);
    RestoresAll(records);
    HoldsSound(t, records);
    forall a ensures Find(t, a).Some? ==> exists i: nat :: At(s, i, a) && !s.objects[i].owned {
      SnapshotHas(s, t, records, a);
    }
    forall a, i: nat | At(s, i, a) && !s.objects[i].owned
      ensures Find(t, a).Some? && Find(t, a).value < |t.objects| &&
              t.objects[Find(t, a).value] == Entry(s.objects[i].definition, s.objects[i].desired, false, false) {
      SnapshotGives(s, t, records, a, i);
    }
    SameSnapshot(t, records);
    assert Snapshot(t) == Snapshot(s);
  }

  lemma SnapshotHas(s: State, t: State, records: seq<Stored>, a: Address)
    requires Lists(records, Snapshot(s)) && Holds(t, records)
    ensures Find(t, a).Some? ==> exists i: nat :: At(s, i, a) && !s.objects[i].owned
  {
    RestoredAt(t, records, a);
    if Find(t, a).Some? {
      var j :| 0 <= j < |records| && records[j].definition.address == a;
      assert records[j] in records;
      SnapshotExactly(s, records[j]);
      var i: nat :| Listed(s, i) && !s.objects[i].owned && records[j] == Stored(s.objects[i].definition, s.objects[i].desired);
      assert At(s, i, a);
    }
  }

  lemma SnapshotGives(s: State, t: State, records: seq<Stored>, a: Address, i: nat)
    requires Lists(records, Snapshot(s)) && Holds(t, records) && At(s, i, a) && !s.objects[i].owned
    ensures Find(t, a).Some? && Find(t, a).value < |t.objects|
    ensures t.objects[Find(t, a).value] == Entry(s.objects[i].definition, s.objects[i].desired, false, false)
  {
    var r := Stored(s.objects[i].definition, s.objects[i].desired);
    SnapshotExactly(s, r);
    assert r in records;
    RestoredAt(t, records, a);
  }

  lemma SameSnapshot(t: State, records: seq<Stored>)
    requires Holds(t, records)
    ensures forall r :: r in Snapshot(t) <==> r in records
  {
    forall r ensures r in Snapshot(t) <==> r in records {
      SnapshotExactly(t, r);
      if r in records {
        var i :| 0 <= i < |records| && records[i] == r;
        assert Listed(t, i);
      }
    }
  }

  // ---- A restart reads the file -------------------------------------------------------------------

  lemma SavedDistinct(s: State, records: seq<Stored>)
    requires Lists(records, Saved(s))
    ensures DistinctAddresses(ReloadedAll(records))
  {
    forall i, j | 0 <= i < j < |records| ensures records[i].definition.address != records[j].definition.address {
      assert records[i] in records && records[j] in records;
      SavedExactly(s, records[i]);
      SavedExactly(s, records[j]);
      var x: nat :| Listed(s, x) && s.objects[x].definition.persistent && records[i] == Stored(s.objects[x].definition, s.objects[x].desired);
      var y: nat :| Listed(s, y) && s.objects[y].definition.persistent && records[j] == Stored(s.objects[y].definition, s.objects[y].desired);
      OneListed(s, x, y);
    }
  }

  /** While the file follows, a restart from it lists exactly the persistent endpoints, with the same definition; they
      are to run if they were, except those that are never restarted. */
  lemma FileSurvives(s: State, records: seq<Stored>)
    requires Inv(s) && Follows(s) && Lists(records, s.file.value)
    ensures var t := RestoreAll(EMPTY, ReloadedAll(records));
            && Inv(t)
            && (forall a :: Find(t, a).Some? ==> exists i: nat :: At(s, i, a) && s.objects[i].definition.persistent)
            && (forall a, i: nat :: At(s, i, a) && s.objects[i].definition.persistent ==>
                 Find(t, a).Some? && Find(t, a).value < |t.objects| &&
                 var e := s.objects[i];
                 t.objects[Find(t, a).value] == Entry(e.definition, e.desired && e.definition.restart != Never, false, false))
  {
    var reloaded := ReloadedAll(records);
    var t := RestoreAll(EMPTY, reloaded);
    SavedDistinct(s, records);
    RestoresAll(reloaded);
    HoldsSound(t, reloaded);
    forall a ensures Find(t, a).Some? ==> exists i: nat :: At(s, i, a) && s.objects[i].definition.persistent {
      FileHas(s, t, records, a);
    }
    forall a, i: nat | At(s, i, a) && s.objects[i].definition.persistent
      ensures Find(t, a).Some? && Find(t, a).value < |t.objects| &&
              var e := s.objects[i];
              t.objects[Find(t, a).value] == Entry(e.definition, e.desired && e.definition.restart != Never, false, false) {
      FileGives(s, t, records, a, i);
    }
  }

  lemma FileHas(s: State, t: State, records: seq<Stored>, a: Address)
    requires Lists(records, Saved(s)) && Holds(t, ReloadedAll(records))
    ensures Find(t, a).Some? ==> exists i: nat :: At(s, i, a) && s.objects[i].definition.persistent
  {
    var reloaded := ReloadedAll(records);
    RestoredAt(t, reloaded, a);
    if Find(t, a).Some? {
      var j :| 0 <= j < |reloaded| && reloaded[j].definition.address == a;
      assert records[j] in records;
      SavedExactly(s, records[j]);
      var i: nat :| Listed(s, i) && s.objects[i].definition.persistent && records[j] == Stored(s.objects[i].definition, s.objects[i].desired);
      assert At(s, i, a);
    }
  }

  lemma FileGives(s: State, t: State, records: seq<Stored>, a: Address, i: nat)
    requires Lists(records, Saved(s)) && Holds(t, ReloadedAll(records)) && At(s, i, a) && s.objects[i].definition.persistent
    ensures Find(t, a).Some? && Find(t, a).value < |t.objects|
    ensures var e := s.objects[i];
            t.objects[Find(t, a).value] == Entry(e.definition, e.desired && e.definition.restart != Never, false, false)
  {
    var r, reloaded := Stored(s.objects[i].definition, s.objects[i].desired), ReloadedAll(records);
    SavedExactly(s, r);
    var j :| 0 <= j < |records| && records[j] == r;
    RestoredAt(t, reloaded, a);
    assert reloaded[j].definition.address == a;
  }

  /** Restoring into a registry that already runs keeps its invariants. */
  lemma {:induction false} RestoreAllSound(s: State, records: seq<Stored>)
    requires Inv(s) && Subjects(s)
    ensures Inv(RestoreAll(s, records)) && Subjects(RestoreAll(s, records))
    decreases records
  {
    if records != [] && Key(records[0].definition.address) !in s.entries {
      StepKeeps(s, Restores(records[0]));
      StepSubjects(s, Restores(records[0]));
      RestoreAllSound(Restore(s, records[0]), records[1..]);
    }
  }
}
