/** Equality of JSON values: equal values are those that no look at them can tell apart. */
module JsonEquality {
  import opened Options
  import opened JsonValues
  import opened Pointers
  import opened NodePointers

  /** What one sees at a node: nothing, a scalar, an array of some length, or an object. */
  datatype Look = Absent | Scalar(v: Json) | Array(length: nat) | Object

  function LookAt(v: Json, node: Node): Look {
    match Reach(v, node)
    case None => Absent
    case Some(Arr(items)) => Array(|items|)
    case Some(Obj(_)) => Object
    case Some(w) => Scalar(w)
  }

  ghost predicate LookAlike(a: Json, b: Json) {
    forall node :: LookAt(a, node) == LookAt(b, node)
  }

  // ---- The keys of an object ---------------------------------------------------------------------

  function Keys(ms: seq<Member>): set<string> {
    if ms == [] then {} else {ms[0].key} + Keys(ms[1..])
  }

  lemma {:induction false} KeysHave(ms: seq<Member>, key: string)
    ensures key in Keys(ms) <==> Has(ms, key)
  {
    if ms != [] { KeysHave(ms[1..], key); }
  }

  lemma {:induction false} KeysCount(ms: seq<Member>)
    requires DistinctKeys(ms)
    ensures |Keys(ms)| == |ms|
  {
    if ms != [] {
      KeysCount(ms[1..]);
      KeysHave(ms[1..], ms[0].key);
    }
  }

  lemma {:induction false} SubsetFills<T>(a: set<T>, b: set<T>)
    requires a <= b && |a| == |b|
    ensures a == b
  {
    if a != {} {
      var x :| x in a;
      SubsetFills(a - {x}, b - {x});
    }
  }

  lemma SameKeys(ms: seq<Member>, ns: seq<Member>)
    requires DistinctKeys(ms) && DistinctKeys(ns) && |ms| == |ns|
    requires forall i :: 0 <= i < |ms| ==> Has(ns, ms[i].key)
    ensures Keys(ms) == Keys(ns)
  {
    forall key | key in Keys(ms) ensures key in Keys(ns) {
      KeysHave(ms, key);
      KeysHave(ns, key);
    }
    KeysCount(ms);
    KeysCount(ns);
    SubsetFills(Keys(ms), Keys(ns));
  }

  // ---- Equal values look alike -----------------------------------------------------------------------

  /** Equal values have equal children, or none, at the same places. */
  lemma EqualChildren(a: Json, b: Json, seg: Seg)
    requires WellFormed(a) && WellFormed(b) && Equal(a, b)
    ensures var x, y := Child(a, seg), Child(b, seg);
            if x.None? then y.None?
            else y.Some? && WellFormed(x.value) && WellFormed(y.value) && Equal(x.value, y.value)
  {
    if a.Obj? && seg.Key? {
      var ms, ns := a.members, b.members;
      SameKeys(ms, ns);
      KeysHave(ms, seg.k);
      KeysHave(ns, seg.k);
      if Has(ms, seg.k) { EqualMembers(ms, ns, seg.k); }
    }
  }

  lemma EqualMembers(ms: seq<Member>, ns: seq<Member>, key: string)
    requires WellFormed(Obj(ms)) && WellFormed(Obj(ns)) && Equal(Obj(ms), Obj(ns)) && Has(ms, key) && Has(ns, key)
    ensures var x, y := Get(ms, key).value, Get(ns, key).value;
            WellFormed(x) && WellFormed(y) && Equal(x, y)
  {
    var i :| 0 <= i < |ms| && ms[i].key == key && ms[i].val == Get(ms, key).value;
  }

  lemma {:induction false} EqualLooks(a: Json, b: Json, node: Node)
    requires WellFormed(a) && WellFormed(b) && Equal(a, b)
    ensures LookAt(a, node) == LookAt(b, node)
    decreases node
  {
    if node != [] {
      EqualChildren(a, b, node[0]);
      if Child(a, node[0]).Some? { EqualLooks(Child(a, node[0]).value, Child(b, node[0]).value, node[1..]); }
    }
  }

  // ---- Values that look alike are equal ----------------------------------------------------------------

  lemma LookBelow(v: Json, seg: Seg, node: Node)
    requires Child(v, seg).Some?
    ensures LookAt(v, [seg] + node) == LookAt(Child(v, seg).value, node)
  {
    assert ([seg] + node)[1..] == node;
  }

  lemma ChildPresent(v: Json, seg: Seg)
    ensures Child(v, seg).Some? <==> LookAt(v, [seg]) != Absent
  {
    assert [seg][1..] == [];
    if Child(v, seg).Some? { assert Reach(Child(v, seg).value, []) == Child(v, seg); }
  }

  lemma AlikeChildren(a: Json, b: Json, seg: Seg)
    requires LookAlike(a, b) && Child(a, seg).Some?
    ensures Child(b, seg).Some? && LookAlike(Child(a, seg).value, Child(b, seg).value)
  {
    ChildPresent(a, seg);
    ChildPresent(b, seg);
    forall node ensures LookAt(Child(a, seg).value, node) == LookAt(Child(b, seg).value, node) {
      LookBelow(a, seg, node);
      LookBelow(b, seg, node);
    }
  }

  lemma AlikeKeys(ms: seq<Member>, ns: seq<Member>)
    requires LookAlike(Obj(ms), Obj(ns))
    ensures Keys(ms) == Keys(ns)
  {
    forall key ensures key in Keys(ms) <==> key in Keys(ns) {
      KeysHave(ms, key);
      KeysHave(ns, key);
      ChildPresent(Obj(ms), Key(key));
      ChildPresent(Obj(ns), Key(key));
    }
  }

  lemma {:induction false} AlikeEqual(a: Json, b: Json)
    requires WellFormed(a) && WellFormed(b) && LookAlike(a, b)
    ensures Equal(a, b)
    decreases a
  {
    assert LookAt(a, []) == LookAt(b, []);
    match a
    case Arr(xs) =>
      forall i | 0 <= i < |xs| ensures Equal(xs[i], b.items[i]) {
        AlikeChildren(a, b, Index(i));
        AlikeEqual(xs[i], b.items[i]);
      }
    case Obj(ms) =>
      var ns := b.members;
      AlikeKeys(ms, ns);
      KeysCount(ms);
      KeysCount(ns);
      forall i | 0 <= i < |ms| ensures Has(ns, ms[i].key) && Equal(ms[i].val, Get(ns, ms[i].key).value) {
        AlikeMember(a, b, i);
        AlikeEqual(ms[i].val, Get(ns, ms[i].key).value);
      }
    case _ =>
  }

  lemma AlikeMember(a: Json, b: Json, i: nat)
    requires WellFormed(a) && WellFormed(b) && LookAlike(a, b) && a.Obj? && b.Obj? && i < |a.members|
    ensures var y := Get(b.members, a.members[i].key);
            y.Some? && WellFormed(y.value) && LookAlike(a.members[i].val, y.value)
  {
    GetAt(a.members, i);
    AlikeChildren(a, b, Key(a.members[i].key));
  }

  /** Two values are equal exactly if they show the same at every node, whatever the order of their members. */
  lemma EqualIsAlike(a: Json, b: Json)
    requires WellFormed(a) && WellFormed(b)
    ensures Equal(a, b) <==> LookAlike(a, b)
  {
    if Equal(a, b) {
      forall node ensures LookAt(a, node) == LookAt(b, node) { EqualLooks(a, b, node); }
    }
    if LookAlike(a, b) { AlikeEqual(a, b); }
  }
}
