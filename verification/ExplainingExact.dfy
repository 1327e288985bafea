/** The walker finds issues exactly in values that do not match. */
module ExplainingExact {
  import opened Options
  import opened StableKeys
  import opened Explaining

  /** A walk that comes to an end finds no issue exactly if the value matches. */
  ghost predicate Exact(walk: Option<seq<Issue>>, matches: bool) {
    walk.Some? ==> (walk.value == [] <==> matches)
  }

  lemma ThenExact(a: Option<seq<Issue>>, b: Option<seq<Issue>>, p: bool, q: bool)
    requires Exact(a, p) && Exact(b, q)
    ensures Exact(Then(a, b), p && q)
  {
  }

  lemma {:induction false} WalkExact(v: Js, s: Schema, path: string, cs: Components, fuel: nat)
    ensures Exact(Walk(v, s, path, cs, fuel), Matches(v, s, cs, fuel))
    decreases fuel, s, 2, 0
  {
    match s
    case Ref(ref) =>
      if Resolve(ref, cs).Some? && fuel > 0 { WalkExact(v, Resolve(ref, cs).value, path, cs, fuel - 1); }
    case Union(branches) => BranchesExact(v, branches, path, cs, fuel, None);
    case ArrayOf(prefix, items) => if v.Arr? { ArrayExact(v, s, path, cs, fuel); }
    case ObjectOf(properties, required, additional) => if v.Obj? { ObjectExact(v, s, path, cs, fuel); }
    case _ =>
  }

  ghost predicate SomeBranch(v: Js, branches: seq<Schema>, cs: Components, fuel: nat) {
    exists i :: 0 <= i < |branches| && Matches(v, branches[i], cs, fuel)
  }

  lemma NextBranch(v: Js, branches: seq<Schema>, cs: Components, fuel: nat)
    requires branches != []
    ensures SomeBranch(v, branches, cs, fuel) <==> Matches(v, branches[0], cs, fuel) || SomeBranch(v, branches[1..], cs, fuel)
  {
    if i :| 1 <= i < |branches| && Matches(v, branches[i], cs, fuel) { assert Matches(v, branches[1..][i - 1], cs, fuel); }
    if i :| 0 <= i < |branches[1..]| && Matches(v, branches[1..][i], cs, fuel) { assert Matches(v, branches[i + 1], cs, fuel); }
  }

  lemma {:induction false} BranchesExact(v: Js, branches: seq<Schema>, path: string, cs: Components, fuel: nat, best: Option<seq<Issue>>)
    requires best.Some? ==> best.value != []
    ensures Exact(WalkBranches(v, branches, path, cs, fuel, best), SomeBranch(v, branches, cs, fuel))
    decreases fuel, branches, 2, 0
  {
    if branches != [] {
      NextBranch(v, branches, cs, fuel);
      WalkExact(v, branches[0], path, cs, fuel);
      var sub := Walk(v, branches[0], path, cs, fuel);
      if sub.Some? && sub.value != [] {
        BranchesExact(v, branches[1..], path, cs, fuel, if best.None? || |sub.value| < |best.value| then sub else best);
      }
    }
  }

  /** One item matches what the schema says about its place. */
  ghost predicate ItemMatches(v: Js, i: nat, s: Schema, cs: Components, fuel: nat)
    requires s.ArrayOf?
  {
    if i < |s.prefix| then Matches(v, s.prefix[i], cs, fuel) else s.items.Some? ==> Matches(v, s.items.value, cs, fuel)
  }

  lemma {:induction false} ItemsExact(items: seq<Js>, i: nat, s: Schema, path: string, cs: Components, fuel: nat)
    requires s.ArrayOf? && i <= |items|
    ensures Exact(WalkItems(items, i, s, path, cs, fuel), forall k: nat :: i <= k < |items| ==> ItemMatches(items[k], k, s, cs, fuel))
    decreases fuel, s, 1, |items| - i
  {
    if i < |items| {
      ItemExact(items[i], i, s, path, cs, fuel);
      ItemsExact(items, i + 1, s, path, cs, fuel);
      ThenExact(WalkItem(items[i], i, s, path, cs, fuel), WalkItems(items, i + 1, s, path, cs, fuel),
                ItemMatches(items[i], i, s, cs, fuel), forall k: nat :: i + 1 <= k < |items| ==> ItemMatches(items[k], k, s, cs, fuel));
    }
  }

  lemma {:induction false} ItemExact(v: Js, i: nat, s: Schema, path: string, cs: Components, fuel: nat)
    requires s.ArrayOf?
    ensures Exact(WalkItem(v, i, s, path, cs, fuel), ItemMatches(v, i, s, cs, fuel))
    decreases fuel, s, 0, 0
  {
    if i < |s.prefix| {
      WalkExact(v, s.prefix[i], JoinIndex(path, i), cs, fuel);
    } else if s.items.Some? {
      WalkExact(v, s.items.value, JoinIndex(path, i), cs, fuel);
    }
  }

  /** An array matches if its items do; a closed tuple also has its length. */
  lemma ArrayMatches(v: Js, s: Schema, cs: Components, fuel: nat)
    requires v.Arr? && s.ArrayOf?
    ensures Matches(v, s, cs, fuel) <==>
            (forall k: nat :: k < |v.items| ==> ItemMatches(v.items[k], k, s, cs, fuel)) &&
            !(|v.items| < |s.prefix| && s.items == Some(False))
  {
    assert s.items == Some(False) && |v.items| > |s.prefix| ==> !ItemMatches(v.items[|s.prefix|], |s.prefix|, s, cs, fuel);
    if forall k: nat :: k < |v.items| ==> ItemMatches(v.items[k], k, s, cs, fuel) {
      forall i | 0 <= i < |v.items| && i < |s.prefix| ensures Matches(v.items[i], s.prefix[i], cs, fuel) {
        assert ItemMatches(v.items[i], i, s, cs, fuel);
      }
      forall i | |s.prefix| <= i < |v.items| && s.items.Some? ensures Matches(v.items[i], s.items.value, cs, fuel) {
        assert ItemMatches(v.items[i], i, s, cs, fuel);
      }
    }
  }

  lemma {:induction false} ArrayExact(v: Js, s: Schema, path: string, cs: Components, fuel: nat)
    requires v.Arr? && s.ArrayOf?
    ensures Exact(Walk(v, s, path, cs, fuel), Matches(v, s, cs, fuel))
    decreases fuel, s, 1, |v.items| + 1
  {
    ItemsExact(v.items, 0, s, path, cs, fuel);
    ArrayMatches(v, s, cs, fuel);
  }

  lemma {:induction false} MissingExact(es: seq<Entry>, required: seq<string>, path: string)
    ensures MissingIssues(es, required, path) == [] <==> forall i :: 0 <= i < |required| ==> HasOwn(es, required[i])
  {
    if required != [] {
      MissingExact(es, required[1..], path);
      if forall i :: 0 <= i < |required[1..]| ==> HasOwn(es, required[1..][i]) {
        forall i | 1 <= i < |required| ensures HasOwn(es, required[i]) { assert HasOwn(es, required[1..][i - 1]); }
      }
    }
  }

  ghost predicate MemberMatches(e: Entry, s: Schema, cs: Components, fuel: nat)
    requires s.ObjectOf?
  {
    var at := FindProperty(s.properties, e.key);
    Matches(e.val, if at.Some? then s.properties[at.value].schema else s.additional, cs, fuel)
  }

  lemma {:induction false} MembersExact(es: seq<Entry>, s: Schema, path: string, cs: Components, fuel: nat)
    requires s.ObjectOf?
    ensures Exact(WalkMembers(es, s, path, cs, fuel), forall i :: 0 <= i < |es| ==> MemberMatches(es[i], s, cs, fuel))
    decreases fuel, s, 1, |es|
  {
    if es != [] {
      MemberExact(es[0], s, path, cs, fuel);
      MembersExact(es[1..], s, path, cs, fuel);
      if forall i :: 0 <= i < |es[1..]| ==> MemberMatches(es[1..][i], s, cs, fuel) {
        forall i | 1 <= i < |es| ensures MemberMatches(es[i], s, cs, fuel) { assert MemberMatches(es[1..][i - 1], s, cs, fuel); }
      }
      ThenExact(WalkMember(es[0], s, path, cs, fuel), WalkMembers(es[1..], s, path, cs, fuel),
                MemberMatches(es[0], s, cs, fuel), forall i :: 0 <= i < |es[1..]| ==> MemberMatches(es[1..][i], s, cs, fuel));
    }
  }

  lemma {:induction false} MemberExact(e: Entry, s: Schema, path: string, cs: Components, fuel: nat)
    requires s.ObjectOf?
    ensures Exact(WalkMember(e, s, path, cs, fuel), MemberMatches(e, s, cs, fuel))
    decreases fuel, s, 0, 0
  {
    var at := FindProperty(s.properties, e.key);
    if at.Some? {
      WalkExact(e.val, s.properties[at.value].schema, JoinKey(path, e.key), cs, fuel);
    } else {
      WalkExact(e.val, s.additional, JoinKey(path, e.key), cs, fuel);
    }
  }

  lemma ObjectMatches(v: Js, s: Schema, cs: Components, fuel: nat)
    requires v.Obj? && s.ObjectOf?
    ensures Matches(v, s, cs, fuel) <==>
            (forall i :: 0 <= i < |s.required| ==> HasOwn(v.entries, s.required[i])) &&
            (forall i :: 0 <= i < |v.entries| ==> MemberMatches(v.entries[i], s, cs, fuel))
  {
    if forall i :: 0 <= i < |v.entries| ==> MemberMatches(v.entries[i], s, cs, fuel) {
      forall i | 0 <= i < |v.entries|
        ensures var at := FindProperty(s.properties, v.entries[i].key);
                if at.Some? then Matches(v.entries[i].val, s.properties[at.value].schema, cs, fuel)
                else Matches(v.entries[i].val, s.additional, cs, fuel)
      {
        assert MemberMatches(v.entries[i], s, cs, fuel);
      }
    }
  }

  lemma {:induction false} ObjectExact(v: Js, s: Schema, path: string, cs: Components, fuel: nat)
    requires v.Obj? && s.ObjectOf?
    ensures Exact(Walk(v, s, path, cs, fuel), Matches(v, s, cs, fuel))
    decreases fuel, s, 1, |v.entries| + 1
  {
    MembersExact(v.entries, s, path, cs, fuel);
    MissingExact(v.entries, s.required, path);
    ObjectMatches(v, s, cs, fuel);
  }

  // ---- Unions -----------------------------------------------------------------------------------

  /** Of the branches of a union that do not match, one with the fewest issues is reported. */
  lemma {:induction false} FewestReported(v: Js, branches: seq<Schema>, path: string, cs: Components, fuel: nat, best: Option<seq<Issue>>)
    requires best.Some? ==> best.value != []
    requires branches != [] || best.Some?
    ensures var walk := WalkBranches(v, branches, path, cs, fuel, best);
            walk.Some? && walk.value != [] ==>
              && (forall i :: 0 <= i < |branches| ==>
                    Walk(v, branches[i], path, cs, fuel).Some? && |Walk(v, branches[i], path, cs, fuel).value| >= |walk.value|)
              && (best.Some? ==> |best.value| >= |walk.value|)
              && (walk == best || exists i :: 0 <= i < |branches| && walk == Walk(v, branches[i], path, cs, fuel))
    decreases branches
  {
    if branches != [] {
      var sub := Walk(v, branches[0], path, cs, fuel);
      if sub.Some? && sub.value != [] {
        var next := if best.None? || |sub.value| < |best.value| then sub else best;
        FewestReported(v, branches[1..], path, cs, fuel, next);
        var walk := WalkBranches(v, branches[1..], path, cs, fuel, next);
        if walk.Some? && walk.value != [] {
          FewestStep(v, branches, path, cs, fuel, walk);
        }
      }
    }
  }

  lemma FewestStep(v: Js, branches: seq<Schema>, path: string, cs: Components, fuel: nat, walk: Option<seq<Issue>>)
    requires branches != [] && walk.Some?
    requires forall i :: 0 <= i < |branches[1..]| ==>
               Walk(v, branches[1..][i], path, cs, fuel).Some? && |Walk(v, branches[1..][i], path, cs, fuel).value| >= |walk.value|
    ensures forall i :: 1 <= i < |branches| ==>
              Walk(v, branches[i], path, cs, fuel).Some? && |Walk(v, branches[i], path, cs, fuel).value| >= |walk.value|
    ensures (exists i :: 0 <= i < |branches[1..]| && walk == Walk(v, branches[1..][i], path, cs, fuel)) ==>
            exists i :: 0 <= i < |branches| && walk == Walk(v, branches[i], path, cs, fuel)
  {
    forall i | 1 <= i < |branches|
      ensures Walk(v, branches[i], path, cs, fuel).Some? && |Walk(v, branches[i], path, cs, fuel).value| >= |walk.value|
    {
      assert branches[1..][i - 1] == branches[i];
    }
    if i :| 0 <= i < |branches[1..]| && walk == Walk(v, branches[1..][i], path, cs, fuel) {
      assert branches[1..][i] == branches[i + 1];
    }
  }

  // ---- Fuel ----------------------------------------------------------------------------------------

  ghost predicate Stable(now: Option<seq<Issue>>, more: Option<seq<Issue>>) {
    now.Some? ==> more == now
  }

  /** A walk that ends does so whatever else the limit on references would have allowed. */
  lemma {:induction false} MoreFuel(v: Js, s: Schema, path: string, cs: Components, fuel: nat)
    ensures Stable(Walk(v, s, path, cs, fuel), Walk(v, s, path, cs, fuel + 1))
    decreases fuel, s, 2, 0
  {
    match s
    case Ref(ref) =>
      if Resolve(ref, cs).Some? && fuel > 0 { MoreFuel(v, Resolve(ref, cs).value, path, cs, fuel - 1); }
    case Union(branches) => BranchesFuel(v, branches, path, cs, fuel, None);
    case ArrayOf(_, _) => if v.Arr? { ItemsFuel(v.items, 0, s, path, cs, fuel); }
    case ObjectOf(_, _, _) => if v.Obj? { MembersFuel(v.entries, s, path, cs, fuel); }
    case _ =>
  }

  lemma {:induction false} BranchesFuel(v: Js, branches: seq<Schema>, path: string, cs: Components, fuel: nat, best: Option<seq<Issue>>)
    ensures Stable(WalkBranches(v, branches, path, cs, fuel, best), WalkBranches(v, branches, path, cs, fuel + 1, best))
    decreases fuel, branches, 2, 0
  {
    if branches != [] {
      MoreFuel(v, branches[0], path, cs, fuel);
      var sub := Walk(v, branches[0], path, cs, fuel);
      if sub.Some? && sub.value != [] {
        BranchesFuel(v, branches[1..], path, cs, fuel, if best.None? || |sub.value| < |best.value| then sub else best);
      }
    }
  }

  lemma {:induction false} ItemsFuel(items: seq<Js>, i: nat, s: Schema, path: string, cs: Components, fuel: nat)
    requires s.ArrayOf? && i <= |items|
    ensures Stable(WalkItems(items, i, s, path, cs, fuel), WalkItems(items, i, s, path, cs, fuel + 1))
    decreases fuel, s, 1, |items| - i
  {
    if i < |items| {
      if i < |s.prefix| {
        MoreFuel(items[i], s.prefix[i], JoinIndex(path, i), cs, fuel);
      } else if s.items.Some? {
        MoreFuel(items[i], s.items.value, JoinIndex(path, i), cs, fuel);
      }
      ItemsFuel(items, i + 1, s, path, cs, fuel);
    }
  }

  lemma {:induction false} MembersFuel(es: seq<Entry>, s: Schema, path: string, cs: Components, fuel: nat)
    requires s.ObjectOf?
    ensures Stable(WalkMembers(es, s, path, cs, fuel), WalkMembers(es, s, path, cs, fuel + 1))
    decreases fuel, s, 1, |es|
  {
    if es != [] {
      var at := FindProperty(s.properties, es[0].key);
      if at.Some? {
        MoreFuel(es[0].val, s.properties[at.value].schema, JoinKey(path, es[0].key), cs, fuel);
      } else {
        MoreFuel(es[0].val, s.additional, JoinKey(path, es[0].key), cs, fuel);
      }
      MembersFuel(es[1..], s, path, cs, fuel);
    }
  }
}
