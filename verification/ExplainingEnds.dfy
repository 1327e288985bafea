/** When the walker ends: references must not lead back to a component without descending into the value. */
module ExplainingEnds {
  import opened Options
  import opened StableKeys
  import opened Explaining

  function RefName(ref: string): string {
    if |ref| < |REF_PREFIX| then "" else ref[|REF_PREFIX|..]
  }

  lemma ResolvesByName(ref: string, cs: Components)
    ensures Resolve(ref, cs).Some? ==> RefName(ref) in cs && Resolve(ref, cs).value == cs[RefName(ref)]
  {
  }

  /** The components that a schema refers to at the same place of the value: by itself, or by a branch. */
  function Names(s: Schema, cs: Components): set<string> {
    match s
    case Ref(ref) => if Resolve(ref, cs).Some? then {RefName(ref)} else {}
    case Union(branches) => set i, n | 0 <= i < |branches| && n in Names(branches[i], cs) :: n
    case _ => {}
  }

  lemma {:induction false} NamesKnown(s: Schema, cs: Components)
    ensures Names(s, cs) <= cs.Keys
  {
    match s
    case Ref(ref) => ResolvesByName(ref, cs);
    case Union(branches) => forall i | 0 <= i < |branches| ensures Names(branches[i], cs) <= cs.Keys { NamesKnown(branches[i], cs); }
    case _ =>
  }

  /** Following references and branches from `s`, no component of `seen` is met, and none twice on one way. */
  predicate Unlooped(s: Schema, cs: Components, seen: set<string>)
    requires seen <= cs.Keys
    decreases cs.Keys - seen
  {
    NamesKnown(s, cs);
    forall n :: n in Names(s, cs) ==> n !in seen && Unlooped(cs[n], cs, seen + {n})
  }

  /** No component is reached again from itself through references and branches alone. */
  predicate Guarded(cs: Components) {
    forall n :: n in cs ==> Unlooped(cs[n], cs, {n})
  }

  lemma GuardedStart(s: Schema, cs: Components)
    requires Guarded(cs)
    ensures Unlooped(s, cs, {})
  {
    NamesKnown(s, cs);
    forall n | n in Names(s, cs) ensures Unlooped(cs[n], cs, {} + {n}) { assert {} + {n} == {n}; }
  }

  // ---- The bound ------------------------------------------------------------------------------------

  function Max(a: nat, b: nat): nat {
    if a < b then b else a
  }

  function Depth(v: Js): nat
    decreases v, 1
  {
    match v
    case Arr(items) => 1 + ItemsDepth(items)
    case Obj(es) => 1 + MembersDepth(es)
    case _ => 0
  }

  function ItemsDepth(items: seq<Js>): nat
    decreases items, 0
  {
    if items == [] then 0 else Max(Depth(items[0]), ItemsDepth(items[1..]))
  }

  function MembersDepth(es: seq<Entry>): nat
    decreases es, 0
  {
    if es == [] then 0 else Max(Depth(es[0].val), MembersDepth(es[1..]))
  }

  lemma {:induction false} ItemDepth(items: seq<Js>, i: nat)
    requires i < |items|
    ensures Depth(items[i]) <= ItemsDepth(items)
  {
    if i > 0 { ItemDepth(items[1..], i - 1); }
  }

  lemma {:induction false} MemberDepth(es: seq<Entry>, i: nat)
    requires i < |es|
    ensures Depth(es[i].val) <= MembersDepth(es)
  {
    if i > 0 { MemberDepth(es[1..], i - 1); }
  }

  /** `depth` levels of the value, each with every component once. */
  function Levels(depth: nat, width: nat): nat {
    if depth == 0 then 0 else Levels(depth - 1, width) + width
  }

  lemma {:induction false} LevelsGrow(d: nat, e: nat, width: nat)
    requires d <= e
    ensures Levels(d, width) <= Levels(e, width)
  {
    if d < e { LevelsGrow(d, e - 1, width); }
  }

  /** The references that one branch follows at most. */
  function Bound(v: Js, cs: Components): nat {
    Levels(Depth(v) + 1, |cs|)
  }

  /** Enough for what is left at this place once `seen` have been followed, and for everything below. */
  predicate Enough(v: Js, cs: Components, seen: set<string>, fuel: nat) {
    Levels(Depth(v), |cs|) + |cs.Keys - seen| <= fuel
  }

  lemma EnoughBelow(v: Js, child: Js, cs: Components, seen: set<string>, fuel: nat)
    requires Enough(v, cs, seen, fuel) && Depth(child) < Depth(v)
    ensures Enough(child, cs, {}, fuel)
  {
    assert cs.Keys - {} == cs.Keys;
    LevelsGrow(Depth(child) + 1, Depth(v), |cs|);
  }

  lemma EnoughNext(v: Js, cs: Components, seen: set<string>, fuel: nat, n: string)
    requires Enough(v, cs, seen, fuel) && n in cs && n !in seen
    ensures fuel > 0 && Enough(v, cs, seen + {n}, fuel - 1)
  {
    assert cs.Keys - (seen + {n}) == cs.Keys - seen - {n};
  }

  // ---- The walk ends ----------------------------------------------------------------------------------

  /** A walk over items ends if the walk of each does. */
  lemma {:induction false} AllItemsEnd(items: seq<Js>, i: nat, s: Schema, path: string, cs: Components, fuel: nat)
    requires s.ArrayOf? && i <= |items|
    requires forall k: nat :: i <= k < |items| ==> WalkItem(items[k], k, s, path, cs, fuel).Some?
    ensures WalkItems(items, i, s, path, cs, fuel).Some?
    decreases |items| - i
  {
    if i < |items| { AllItemsEnd(items, i + 1, s, path, cs, fuel); }
  }

  lemma {:induction false} AllMembersEnd(es: seq<Entry>, s: Schema, path: string, cs: Components, fuel: nat)
    requires s.ObjectOf?
    requires forall i :: 0 <= i < |es| ==> WalkMember(es[i], s, path, cs, fuel).Some?
    ensures WalkMembers(es, s, path, cs, fuel).Some?
  {
    if es != [] {
      forall i | 0 <= i < |es[1..]| ensures WalkMember(es[1..][i], s, path, cs, fuel).Some? { assert es[1..][i] == es[i + 1]; }
      AllMembersEnd(es[1..], s, path, cs, fuel);
    }
  }

  lemma {:induction false} AllBranchesEnd(v: Js, branches: seq<Schema>, path: string, cs: Components, fuel: nat, best: Option<seq<Issue>>)
    requires forall i :: 0 <= i < |branches| ==> Walk(v, branches[i], path, cs, fuel).Some?
    ensures WalkBranches(v, branches, path, cs, fuel, best).Some?
    decreases branches
  {
    if branches != [] {
      var sub := Walk(v, branches[0], path, cs, fuel);
      AllBranchesEnd(v, branches[1..], path, cs, fuel, if best.None? || |sub.value| < |best.value| then sub else best);
    }
  }

  lemma {:induction false} WalkEnds(v: Js, s: Schema, path: string, cs: Components, seen: set<string>, fuel: nat)
    requires Guarded(cs) && seen <= cs.Keys && Unlooped(s, cs, seen) && Enough(v, cs, seen, fuel)
    ensures Walk(v, s, path, cs, fuel).Some?
    decreases v, fuel, 1, s, 0
  {
    match s
    case Ref(ref) =>
      if Resolve(ref, cs).Some? {
        var n := TargetUnlooped(ref, cs, seen);
        TargetEnds(v, n, path, cs, seen, fuel);
      }
    case Union(branches) =>
      forall i | 0 <= i < |branches| ensures Walk(v, branches[i], path, cs, fuel).Some? {
        BranchUnlooped(s, i, cs, seen);
        WalkEnds(v, branches[i], path, cs, seen, fuel);
      }
      AllBranchesEnd(v, branches, path, cs, fuel, None);
    case ArrayOf(_, _) => if v.Arr? { ItemsEnd(v, s, path, cs, seen, fuel); }
    case ObjectOf(_, _, _) => if v.Obj? { MembersEnd(v, s, path, cs, seen, fuel); }
    case _ =>
  }

  lemma {:induction false} TargetEnds(v: Js, n: string, path: string, cs: Components, seen: set<string>, fuel: nat)
    requires Guarded(cs) && seen <= cs.Keys && n in cs && n !in seen
    requires Unlooped(cs[n], cs, seen + {n}) && Enough(v, cs, seen, fuel)
    ensures fuel > 0 && Walk(v, cs[n], path, cs, fuel - 1).Some?
    decreases v, fuel, 0, True, 0
  {
    EnoughNext(v, cs, seen, fuel, n);
    WalkEnds(v, cs[n], path, cs, seen + {n}, fuel - 1);
  }

  lemma TargetUnlooped(ref: string, cs: Components, seen: set<string>) returns (n: string)
    requires seen <= cs.Keys && Resolve(ref, cs).Some? && Unlooped(Ref(ref), cs, seen)
    ensures n in cs && n !in seen && cs[n] == Resolve(ref, cs).value && Unlooped(cs[n], cs, seen + {n})
  {
    n := RefName(ref);
    ResolvesByName(ref, cs);
    assert n in Names(Ref(ref), cs);
  }

  lemma BranchUnlooped(s: Schema, i: nat, cs: Components, seen: set<string>)
    requires s.Union? && i < |s.branches| && seen <= cs.Keys && Unlooped(s, cs, seen)
    ensures Unlooped(s.branches[i], cs, seen)
  {
    NamesKnown(s.branches[i], cs);
    assert Names(s.branches[i], cs) <= Names(s, cs);
  }

  lemma {:induction false} ChildEnds(v: Js, child: Js, s: Schema, path: string, cs: Components, seen: set<string>, fuel: nat)
    requires Guarded(cs) && Enough(v, cs, seen, fuel) && Depth(child) < Depth(v)
    ensures Walk(child, s, path, cs, fuel).Some?
    decreases child, fuel, 2, s, 0
  {
    EnoughBelow(v, child, cs, seen, fuel);
    GuardedStart(s, cs);
    WalkEnds(child, s, path, cs, {}, fuel);
  }

  lemma {:induction false} ItemsEnd(v: Js, s: Schema, path: string, cs: Components, seen: set<string>, fuel: nat)
    requires s.ArrayOf? && v.Arr? && Guarded(cs) && Enough(v, cs, seen, fuel)
    ensures WalkItems(v.items, 0, s, path, cs, fuel).Some?
    decreases v, fuel, 0, s, 0
  {
    forall k: nat | k < |v.items| ensures WalkItem(v.items[k], k, s, path, cs, fuel).Some? {
      ItemDepth(v.items, k);
      if k < |s.prefix| {
        ChildEnds(v, v.items[k], s.prefix[k], JoinIndex(path, k), cs, seen, fuel);
      } else if s.items.Some? {
        ChildEnds(v, v.items[k], s.items.value, JoinIndex(path, k), cs, seen, fuel);
      }
    }
    AllItemsEnd(v.items, 0, s, path, cs, fuel);
  }

  lemma {:induction false} MembersEnd(v: Js, s: Schema, path: string, cs: Components, seen: set<string>, fuel: nat)
    requires s.ObjectOf? && v.Obj? && Guarded(cs) && Enough(v, cs, seen, fuel)
    ensures WalkMembers(v.entries, s, path, cs, fuel).Some?
    decreases v, fuel, 0, s, 0
  {
    forall i | 0 <= i < |v.entries| ensures WalkMember(v.entries[i], s, path, cs, fuel).Some? {
      var e := v.entries[i];
      MemberDepth(v.entries, i);
      var at := FindProperty(s.properties, e.key);
      ChildEnds(v, e.val, if at.Some? then s.properties[at.value].schema else s.additional, JoinKey(path, e.key), cs, seen, fuel);
    }
    AllMembersEnd(v.entries, s, path, cs, fuel);
  }

  /** If no component is reached again without descending, the walk ends for every value and schema;
      every value has a bound on the references that have to be followed. */
  lemma GuardedEnds(v: Js, s: Schema, path: string, cs: Components, fuel: nat)
    requires Guarded(cs) && Bound(v, cs) <= fuel
    ensures Walk(v, s, path, cs, fuel).Some?
  {
    GuardedStart(s, cs);
    assert cs.Keys - {} == cs.Keys;
    WalkEnds(v, s, path, cs, {}, fuel);
  }

  /** The components of `loop` are bare references to each other. */
  predicate BareLoop(cs: Components, loop: set<string>) {
    forall n :: n in loop ==> n in cs && cs[n].Ref? && Resolve(cs[n].ref, cs).Some? && RefName(cs[n].ref) in loop
  }

  /** A reference into such a loop, or to itself, never ends. */
  lemma {:induction false} BareLoopNeverEnds(v: Js, ref: string, path: string, cs: Components, loop: set<string>, fuel: nat)
    requires BareLoop(cs, loop) && Resolve(ref, cs).Some? && RefName(ref) in loop
    ensures Walk(v, Ref(ref), path, cs, fuel) == None
    decreases fuel
  {
    if fuel > 0 {
      ResolvesByName(ref, cs);
      BareLoopNeverEnds(v, cs[RefName(ref)].ref, path, cs, loop, fuel - 1);
    }
  }
}
