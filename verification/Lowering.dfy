/** Lowering a value to the schema that only it matches. */
module Lowering {
  import opened Options
  import opened StableKeys
  import opened Explaining
  import opened ExplainingExact

  /** The tightest schema of a value; `undefined`, no parameters given, becomes the empty closed object. */
  function Lower(v: Js): Schema {
    match v
    case Undefined => ObjectOf([], [], False)
    case Arr(items) => ArrayOf(seq(|items|, i requires 0 <= i < |items| => Lower(items[i])), Some(False))
    case Obj(es) =>
      ObjectOf(seq(|es|, i requires 0 <= i < |es| => Property(es[i].key, Lower(es[i].val))),
               seq(|es|, i requires 0 <= i < |es| => es[i].key), False)
    case _ => Const(v)
  }

  /** A JSON value: no `undefined` anywhere, and keys are distinct. */
  predicate IsJson(v: Js) {
    match v
    case Undefined => false
    case Num(text) => IsNumber(text)
    case Arr(items) => forall i :: 0 <= i < |items| ==> IsJson(items[i])
    case Obj(es) =>
      && (forall i :: 0 <= i < |es| ==> IsJson(es[i].val))
      && (forall i, j :: 0 <= i < j < |es| ==> es[i].key != es[j].key)
    case _ => true
  }

  lemma {:induction false} JsonPrintable(v: Js)
    requires IsJson(v)
    ensures Printable(v)
  {
    match v
    case Arr(items) => forall i | 0 <= i < |items| ensures Printable(items[i]) { JsonPrintable(items[i]); }
    case Obj(es) => forall i | 0 <= i < |es| ensures Printable(es[i].val) { JsonPrintable(es[i].val); }
    case _ =>
  }

  lemma SamePrint(v: Js, w: Js)
    requires IsJson(v) && IsJson(w)
    ensures Print(v) == Print(w) <==> v == w
  {
    if Print(v) == Print(w) {
      JsonPrintable(v);
      JsonPrintable(w);
      PrintPrefix(v, w, "", "");
    }
  }

  // ---- Members ----------------------------------------------------------------------------

  ghost predicate Members(es: seq<Entry>) {
    && (forall i :: 0 <= i < |es| ==> IsJson(es[i].val))
    && (forall i, j :: 0 <= i < j < |es| ==> es[i].key != es[j].key)
  }

  lemma {:induction false} LookupAt(es: seq<Entry>, i: nat)
    requires Members(es) && i < |es|
    ensures Lookup(es, es[i].key) == Some(es[i].val)
  {
    if i > 0 { LookupAt(es[1..], i - 1); }
  }

  lemma Owned(es: seq<Entry>, key: string)
    requires Members(es)
    ensures HasOwn(es, key) <==> Lookup(es, key).Some?
  {
    if i :| 0 <= i < |es| && es[i].key == key { LookupAt(es, i); }
  }

  /** The member of `w` that a member of `v` has to match. */
  ghost predicate Counterpart(e: Entry, fs: seq<Entry>, j: nat) {
    j < |fs| && fs[j].key == e.key
  }

  lemma LoweredMember(e: Entry, w: Js, cs: Components, fuel: nat)
    requires w.Obj?
    ensures MemberMatches(e, Lower(w), cs, fuel) <==>
            exists j: nat :: Counterpart(e, w.entries, j) && FindProperty(Lower(w).properties, e.key) == Some(j)
                             && Matches(e.val, Lower(w.entries[j].val), cs, fuel)
  {
    var at := FindProperty(Lower(w).properties, e.key);
    if at.Some? {
      assert Lower(w).properties[at.value].name == w.entries[at.value].key;
      assert Counterpart(e, w.entries, at.value);
    }
  }

  lemma FoundHere(w: Js, j: nat)
    requires w.Obj? && Members(w.entries) && j < |w.entries|
    ensures FindProperty(Lower(w).properties, w.entries[j].key) == Some(j)
  {
    var ps := Lower(w).properties;
    assert ps[j].name == w.entries[j].key;
    var at := FindProperty(ps, w.entries[j].key);
    if at.Some? { assert ps[at.value].name == w.entries[at.value].key; }
  }

  // ---- Only the value matches ----------------------------------------------------------------

  lemma {:induction false} MatchesOnlyItself(v: Js, w: Js, cs: Components, fuel: nat)
    requires IsJson(v) && IsJson(w)
    ensures Matches(v, Lower(w), cs, fuel) <==> SemanticallyEqual(v, w)
    decreases w, 1
  {
    match w
    case Arr(ys) => if v.Arr? { ArrayOnly(v, w, cs, fuel); }
    case Obj(fs) => if v.Obj? { ObjectOnly(v, w, cs, fuel); }
    case _ => SamePrint(v, w);
  }

  lemma {:induction false} ArrayOnly(v: Js, w: Js, cs: Components, fuel: nat)
    requires IsJson(v) && IsJson(w) && v.Arr? && w.Arr?
    ensures Matches(v, Lower(w), cs, fuel) <==> SemanticallyEqual(v, w)
    decreases w, 0
  {
    var s := Lower(w);
    if |v.items| == |w.items| {
      forall i | 0 <= i < |w.items|
        ensures Matches(v.items[i], s.prefix[i], cs, fuel) <==> SemanticallyEqual(v.items[i], w.items[i])
      {
        MatchesOnlyItself(v.items[i], w.items[i], cs, fuel);
      }
    }
  }

  lemma {:induction false} MemberOnly(es: seq<Entry>, w: Js, i: nat, cs: Components, fuel: nat)
    requires Members(es) && IsJson(w) && w.Obj? && i < |es|
    ensures MemberMatches(es[i], Lower(w), cs, fuel) <==> SameMember(es, w.entries, es[i].key)
    decreases w, 0, 0
  {
    var e, fs := es[i], w.entries;
    LookupAt(es, i);
    Owned(fs, e.key);
    LoweredMember(e, w, cs, fuel);
    if HasOwn(fs, e.key) {
      var j: nat :| j < |fs| && fs[j].key == e.key;
      LookupAt(fs, j);
      FoundHere(w, j);
      assert Counterpart(e, fs, j);
      MatchesOnlyItself(e.val, fs[j].val, cs, fuel);
    }
  }

  lemma {:induction false} ObjectOnly(v: Js, w: Js, cs: Components, fuel: nat)
    requires IsJson(v) && IsJson(w) && v.Obj? && w.Obj?
    ensures Matches(v, Lower(w), cs, fuel) <==> SemanticallyEqual(v, w)
    decreases w, 0, 1
  {
    LoweredObject(v, w, cs, fuel);
    forall i | 0 <= i < |v.entries|
      ensures MemberMatches(v.entries[i], Lower(w), cs, fuel) <==> SameMember(v.entries, w.entries, v.entries[i].key)
    {
      MemberOnly(v.entries, w, i, cs, fuel);
    }
    SameMembers(v.entries, w.entries);
    ObjectEqual(v, w);
  }

  lemma LoweredObject(v: Js, w: Js, cs: Components, fuel: nat)
    requires v.Obj? && w.Obj?
    ensures Matches(v, Lower(w), cs, fuel) <==>
            (forall j :: 0 <= j < |w.entries| ==> HasOwn(v.entries, w.entries[j].key)) &&
            (forall i :: 0 <= i < |v.entries| ==> MemberMatches(v.entries[i], Lower(w), cs, fuel))
  {
    var s := Lower(w);
    ObjectMatches(v, s, cs, fuel);
    assert |s.required| == |w.entries| && forall j :: 0 <= j < |w.entries| ==> s.required[j] == w.entries[j].key;
  }

  ghost predicate AllSame(es: seq<Entry>, fs: seq<Entry>) {
    forall key :: SameMember(es, fs, key)
  }

  lemma ObjectEqual(v: Js, w: Js)
    requires v.Obj? && w.Obj?
    ensures SemanticallyEqual(v, w) <==> AllSame(v.entries, w.entries)
  {
    if SemanticallyEqual(v, w) {
      forall key ensures SameMember(v.entries, w.entries, key) {}
    }
    if AllSame(v.entries, w.entries) {
      assert SemanticallyEqual(v, w);
    }
  }

  /** `es` has all keys of `fs`, and agrees with it on its own. */
  ghost predicate Covers(es: seq<Entry>, fs: seq<Entry>) {
    (forall j :: 0 <= j < |fs| ==> HasOwn(es, fs[j].key)) && (forall i :: 0 <= i < |es| ==> SameMember(es, fs, es[i].key))
  }

  lemma CoveredMember(es: seq<Entry>, fs: seq<Entry>, key: string)
    requires Members(es) && Members(fs) && Covers(es, fs)
    ensures SameMember(es, fs, key)
  {
    Owned(es, key);
    Owned(fs, key);
  }

  lemma SharedKey(es: seq<Entry>, fs: seq<Entry>, j: nat)
    requires Members(es) && Members(fs) && j < |fs| && SameMember(es, fs, fs[j].key)
    ensures HasOwn(es, fs[j].key)
  {
    Owned(es, fs[j].key);
    LookupAt(fs, j);
  }

  /** Objects agree on all keys if one covers the other. */
  lemma SameMembers(es: seq<Entry>, fs: seq<Entry>)
    requires Members(es) && Members(fs)
    ensures AllSame(es, fs) <==> Covers(es, fs)
  {
    if Covers(es, fs) {
      forall key ensures SameMember(es, fs, key) { CoveredMember(es, fs, key); }
    }
    if AllSame(es, fs) {
      forall j | 0 <= j < |fs| ensures HasOwn(es, fs[j].key) { SharedKey(es, fs, j); }
    }
  }

  // ---- The walk of a lowered schema ends -----------------------------------------------------

  /** A schema without references. */
  predicate Plain(s: Schema) {
    match s
    case Ref(_) => false
    case Union(branches) => forall i :: 0 <= i < |branches| ==> Plain(branches[i])
    case ArrayOf(prefix, items) => (forall i :: 0 <= i < |prefix| ==> Plain(prefix[i])) && (items.Some? ==> Plain(items.value))
    case ObjectOf(properties, _, additional) =>
      (forall i :: 0 <= i < |properties| ==> Plain(properties[i].schema)) && Plain(additional)
    case _ => true
  }

  lemma {:induction false} LowerPlain(v: Js)
    ensures Plain(Lower(v))
  {
    match v
    case Arr(items) => forall i | 0 <= i < |items| ensures Plain(Lower(items[i])) { LowerPlain(items[i]); }
    case Obj(es) => forall i | 0 <= i < |es| ensures Plain(Lower(es[i].val)) { LowerPlain(es[i].val); }
    case _ =>
  }

  lemma {:induction false} PlainEnds(v: Js, s: Schema, path: string, cs: Components, fuel: nat)
    requires Plain(s)
    ensures Walk(v, s, path, cs, fuel).Some?
    decreases s, 2, 0
  {
    match s
    case Union(branches) => BranchesEnd(v, branches, path, cs, fuel, None);
    case ArrayOf(_, _) => if v.Arr? { ItemsEnd(v.items, 0, s, path, cs, fuel); }
    case ObjectOf(_, _, _) => if v.Obj? { MembersEnd(v.entries, s, path, cs, fuel); }
    case _ =>
  }

  lemma {:induction false} BranchesEnd(v: Js, branches: seq<Schema>, path: string, cs: Components, fuel: nat, best: Option<seq<Issue>>)
    requires forall i :: 0 <= i < |branches| ==> Plain(branches[i])
    ensures WalkBranches(v, branches, path, cs, fuel, best).Some?
    decreases branches, 2, 0
  {
    if branches != [] {
      PlainEnds(v, branches[0], path, cs, fuel);
      var sub := Walk(v, branches[0], path, cs, fuel);
      BranchesEnd(v, branches[1..], path, cs, fuel, if best.None? || |sub.value| < |best.value| then sub else best);
    }
  }

  lemma {:induction false} ItemsEnd(items: seq<Js>, i: nat, s: Schema, path: string, cs: Components, fuel: nat)
    requires s.ArrayOf? && Plain(s) && i <= |items|
    ensures WalkItems(items, i, s, path, cs, fuel).Some?
    decreases s, 1, |items| - i
  {
    if i < |items| {
      if i < |s.prefix| {
        PlainEnds(items[i], s.prefix[i], JoinIndex(path, i), cs, fuel);
      } else if s.items.Some? {
        PlainEnds(items[i], s.items.value, JoinIndex(path, i), cs, fuel);
      }
      ItemsEnd(items, i + 1, s, path, cs, fuel);
    }
  }

  lemma {:induction false} MembersEnd(es: seq<Entry>, s: Schema, path: string, cs: Components, fuel: nat)
    requires s.ObjectOf? && Plain(s)
    ensures WalkMembers(es, s, path, cs, fuel).Some?
    decreases s, 1, |es|
  {
    if es != [] {
      var at := FindProperty(s.properties, es[0].key);
      if at.Some? {
        PlainEnds(es[0].val, s.properties[at.value].schema, JoinKey(path, es[0].key), cs, fuel);
      } else {
        PlainEnds(es[0].val, s.additional, JoinKey(path, es[0].key), cs, fuel);
      }
      MembersEnd(es[1..], s, path, cs, fuel);
    }
  }

  /** Lowering gives a singleton schema: the walk always ends, and finds no issue exactly in values
      equal to the lowered one, whatever the order of members. */
  lemma LoweringIsSingleton(v: Js, w: Js, path: string, cs: Components, fuel: nat)
    requires IsJson(v) && IsJson(w)
    ensures Walk(v, Lower(w), path, cs, fuel).Some?
    ensures Walk(v, Lower(w), path, cs, fuel) == Some([]) <==> SemanticallyEqual(v, w)
  {
    LowerPlain(w);
    PlainEnds(v, Lower(w), path, cs, fuel);
    WalkExact(v, Lower(w), path, cs, fuel);
    MatchesOnlyItself(v, w, cs, fuel);
  }

  /** No parameters given is the same as an empty object, and nothing else. */
  lemma UndefinedIsEmptyObject(v: Js, path: string, cs: Components, fuel: nat)
    requires IsJson(v)
    ensures Walk(v, Lower(Undefined), path, cs, fuel) == Some([]) <==> v == Obj([])
  {
    LowerPlain(Undefined);
    PlainEnds(v, Lower(Undefined), path, cs, fuel);
    WalkExact(v, Lower(Undefined), path, cs, fuel);
    if v.Obj? && v.entries != [] {
      assert FindProperty([], v.entries[0].key).None? && !Matches(v.entries[0].val, False, cs, fuel);
    }
  }
}
