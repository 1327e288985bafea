/** The walker as it runs: it pushes issues into a list, and loops over members, items and branches. */
module ExplainValidation {
  import opened Options
  import opened StableKeys
  import opened Explaining
  import opened ExplainingExact
  import opened Lowering

  /** The list that a walk pushes its issues into. */
  class IssueList {
    var issues: seq<Issue>

    constructor ()
      ensures issues == []
    {
      issues := [];
    }

    method Push(path: string, reason: Reason)
      modifies this
      ensures issues == old(issues) + [Issue(path, reason)]
    {
      issues := issues + [Issue(path, reason)];
    }

    method PushAll(more: seq<Issue>)
      modifies this
      ensures issues == old(issues) + more
    {
      issues := issues + more;
    }
  }

  /** Either the walk ended and pushed its issues, or it did not end. */
  ghost predicate Pushed(before: seq<Issue>, after: seq<Issue>, ended: bool, walk: Option<seq<Issue>>) {
    ended == walk.Some? && (ended ==> after == before + walk.value)
  }

  lemma PushedMore(before: seq<Issue>, done: seq<Issue>, after: seq<Issue>, ended: bool, first: Option<seq<Issue>>, rest: Option<seq<Issue>>)
    requires Pushed(before + done, after, ended, first)
    ensures ended ==> after == before + (done + first.value) && Then(Some(done), Then(first, rest)) == Then(Some(done + first.value), rest)
    ensures !ended ==> Then(Some(done), Then(first, rest)) == None
  {
    if ended && rest.Some? {
      assert (before + done) + first.value == before + (done + first.value);
      assert done + (first.value + rest.value) == (done + first.value) + rest.value;
    }
  }

  lemma NothingDone(walk: Option<seq<Issue>>)
    ensures Then(Some([]), walk) == walk && Then(walk, Some([])) == walk
  {
    if walk.Some? { assert [] + walk.value == walk.value && walk.value + [] == walk.value; }
  }

  lemma Associate(a: seq<Issue>, b: seq<Issue>, c: seq<Issue>)
    ensures (a + b) + c == a + (b + c)
  {
  }

  lemma NextMissing(es: seq<Entry>, required: seq<string>, i: nat, path: string)
    requires i < |required|
    ensures MissingIssues(es, required[i..], path) ==
            (if HasOwn(es, required[i]) then [] else [Issue(JoinKey(path, required[i]), Missing)]) + MissingIssues(es, required[i + 1..], path)
  {
    assert required[i..][1..] == required[i + 1..];
  }

  method Walks(v: Js, s: Schema, path: string, cs: Components, fuel: nat, out: IssueList) returns (ended: bool)
    modifies out
    ensures Pushed(old(out.issues), out.issues, ended, Walk(v, s, path, cs, fuel))
    decreases fuel, s, 2, 0
  {
    match s {
      case True => ended := true;
      case False =>
        out.Push(path, NoValueValid);
        ended := true;
      case Ref(ref) =>
        var target := Resolve(ref, cs);
        if target.None? {
          out.Push(path, UnresolvedRef(ref));
          return true;
        }
        if fuel == 0 {
          return false;
        }
        ended := Walks(v, target.value, path, cs, fuel - 1, out);
      case Const(c) =>
        if Print(v) != Print(c) { out.Push(path, ExpectedConst(c)); }
        ended := true;
      case Enum(values) =>
        if !(exists i :: 0 <= i < |values| && Print(v) == Print(values[i])) { out.Push(path, ExpectedEnum(values)); }
        ended := true;
      case Union(branches) => ended := WalksUnion(v, s, path, cs, fuel, out);
      case Typed(typ) =>
        if !HasType(v, typ) { out.Push(path, ExpectedType(typ)); }
        ended := true;
      case ArrayOf(_, _) => ended := WalksArray(v, s, path, cs, fuel, out);
      case ObjectOf(_, _, _) => ended := WalksObject(v, s, path, cs, fuel, out);
      case Other =>
        out.Push(path, Vague);
        ended := true;
    }
  }

  method WalksUnion(v: Js, s: Schema, path: string, cs: Components, fuel: nat, out: IssueList) returns (ended: bool)
    requires s.Union?
    modifies out
    ensures Pushed(old(out.issues), out.issues, ended, Walk(v, s, path, cs, fuel))
    decreases fuel, s, 1, 0
  {
    var branches := s.branches;
    var best: Option<seq<Issue>> := None;
    var i := 0;
    assert branches[0..] == branches;
    while i < |branches|
      invariant i <= |branches| && out.issues == old(out.issues)
      invariant WalkBranches(v, branches, path, cs, fuel, None) == WalkBranches(v, branches[i..], path, cs, fuel, best)
    {
      var sub := new IssueList();
      var finished := Walks(v, branches[i], path, cs, fuel, sub);
      assert branches[i..][0] == branches[i] && branches[i..][1..] == branches[i + 1..];
      if !finished {
        return false;
      }
      NothingDone(Walk(v, branches[i], path, cs, fuel));
      assert sub.issues == [] + Walk(v, branches[i], path, cs, fuel).value;
      if sub.issues == [] {
        return true;
      }
      if best.None? || |sub.issues| < |best.value| { best := Some(sub.issues); }
      i := i + 1;
    }
    if best.Some? { out.PushAll(best.value); } else { out.Push(path, NoBranch); }
    ended := true;
  }

  method WalksArray(v: Js, s: Schema, path: string, cs: Components, fuel: nat, out: IssueList) returns (ended: bool)
    requires s.ArrayOf?
    modifies out
    ensures Pushed(old(out.issues), out.issues, ended, Walk(v, s, path, cs, fuel))
    decreases fuel, s, 1, 0
  {
    if !v.Arr? {
      out.Push(OrRoot(path), ExpectedArray);
      return true;
    }
    ghost var done: seq<Issue> := [];
    ghost var whole := WalkItems(v.items, 0, s, path, cs, fuel);
    NothingDone(whole);
    var i := 0;
    while i < |v.items|
      invariant i <= |v.items| && out.issues == old(out.issues) + done
      invariant whole == Then(Some(done), WalkItems(v.items, i, s, path, cs, fuel))
    {
      var finished := WalksItem(v.items[i], i, s, path, cs, fuel, out);
      ghost var item := WalkItem(v.items[i], i, s, path, cs, fuel);
      PushedMore(old(out.issues), done, out.issues, finished, item, WalkItems(v.items, i + 1, s, path, cs, fuel));
      if !finished {
        return false;
      }
      done := done + item.value;
      i := i + 1;
    }
    if |s.prefix| > 0 && |v.items| < |s.prefix| && s.items == Some(False) { out.Push(OrRoot(path), ExpectedLength(|s.prefix|)); }
    ended := true;
  }

  method WalksItem(v: Js, i: nat, s: Schema, path: string, cs: Components, fuel: nat, out: IssueList) returns (ended: bool)
    requires s.ArrayOf?
    modifies out
    ensures Pushed(old(out.issues), out.issues, ended, WalkItem(v, i, s, path, cs, fuel))
    decreases fuel, s, 0, 0
  {
    ended := true;
    if i < |s.prefix| {
      ended := Walks(v, s.prefix[i], JoinIndex(path, i), cs, fuel, out);
    } else if s.items == Some(False) {
      out.Push(JoinIndex(path, i), ExtraElement(|s.prefix|));
    } else if s.items.Some? {
      ended := Walks(v, s.items.value, JoinIndex(path, i), cs, fuel, out);
    }
  }

  method PushMissing(es: seq<Entry>, required: seq<string>, path: string, out: IssueList)
    modifies out
    ensures out.issues == old(out.issues) + MissingIssues(es, required, path)
  {
    var i := 0;
    assert required[0..] == required;
    while i < |required|
      invariant i <= |required|
      invariant old(out.issues) + MissingIssues(es, required, path) == out.issues + MissingIssues(es, required[i..], path)
    {
      ghost var so := out.issues;
      NextMissing(es, required, i, path);
      PushIfMissing(es, required[i], path, out);
      Associate(so, if HasOwn(es, required[i]) then [] else [Issue(JoinKey(path, required[i]), Missing)],
                MissingIssues(es, required[i + 1..], path));
      i := i + 1;
    }
  }

  method PushIfMissing(es: seq<Entry>, name: string, path: string, out: IssueList)
    modifies out
    ensures out.issues == old(out.issues) + if HasOwn(es, name) then [] else [Issue(JoinKey(path, name), Missing)]
  {
    if !HasOwn(es, name) { out.Push(JoinKey(path, name), Missing); }
  }

  method WalksObject(v: Js, s: Schema, path: string, cs: Components, fuel: nat, out: IssueList) returns (ended: bool)
    requires s.ObjectOf?
    modifies out
    ensures Pushed(old(out.issues), out.issues, ended, Walk(v, s, path, cs, fuel))
    decreases fuel, s, 1, 0
  {
    if !v.Obj? {
      out.Push(OrRoot(path), ExpectedObject);
      return true;
    }
    PushMissing(v.entries, s.required, path, out);
    ended := WalksMembers(v.entries, s, path, cs, fuel, out);
  }

  method WalksMembers(es: seq<Entry>, s: Schema, path: string, cs: Components, fuel: nat, out: IssueList) returns (ended: bool)
    requires s.ObjectOf?
    modifies out
    ensures Pushed(old(out.issues), out.issues, ended, WalkMembers(es, s, path, cs, fuel))
    decreases fuel, s, 0, 1
  {
    ghost var done: seq<Issue> := [];
    ghost var whole := WalkMembers(es, s, path, cs, fuel);
    NothingDone(whole);
    var i := 0;
    assert es[0..] == es;
    while i < |es|
      invariant i <= |es| && out.issues == old(out.issues) + done
      invariant whole == Then(Some(done), WalkMembers(es[i..], s, path, cs, fuel))
    {
      var finished := WalksMember(es[i], s, path, cs, fuel, out);
      ghost var member := WalkMember(es[i], s, path, cs, fuel);
      assert es[i..][0] == es[i] && es[i..][1..] == es[i + 1..];
      PushedMore(old(out.issues), done, out.issues, finished, member, WalkMembers(es[i + 1..], s, path, cs, fuel));
      if !finished {
        return false;
      }
      done := done + member.value;
      i := i + 1;
    }
    ended := true;
  }

  method WalksMember(e: Entry, s: Schema, path: string, cs: Components, fuel: nat, out: IssueList) returns (ended: bool)
    requires s.ObjectOf?
    modifies out
    ensures Pushed(old(out.issues), out.issues, ended, WalkMember(e, s, path, cs, fuel))
    decreases fuel, s, 0, 0
  {
    var p := JoinKey(path, e.key);
    var property := FindProperty(s.properties, e.key);
    ended := true;
    if property.Some? {
      ended := Walks(e.val, s.properties[property.value].schema, p, cs, fuel, out);
    } else if s.additional == False {
      out.Push(p, UnknownProperty(s.properties));
    } else {
      ended := Walks(e.val, s.additional, p, cs, fuel, out);
    }
  }

  /** `explainValidation`: no issue is found exactly in values that match. */
  method Explain(v: Js, s: Schema, cs: Components, fuel: nat) returns (r: Option<seq<Issue>>)
    ensures r == Walk(v, s, "", cs, fuel)
    ensures r.Some? ==> (r.value == [] <==> Matches(v, s, cs, fuel))
  {
    var out := new IssueList();
    var ended := Walks(v, s, "", cs, fuel, out);
    r := if ended then Some(out.issues) else None;
    NothingDone(Walk(v, s, "", cs, fuel));
    WalkExact(v, s, "", cs, fuel);
  }

  /** `valueToConstSchema`: the schema that only the value matches. */
  method ValueToConstSchema(v: Js) returns (s: Schema)
    ensures s == Lower(v)
    decreases v
  {
    match v {
      case Undefined => s := ObjectOf([], [], False);
      case Arr(items) =>
        var prefix: seq<Schema> := [];
        for i := 0 to |items|
          invariant |prefix| == i && forall k :: 0 <= k < i ==> prefix[k] == Lower(items[k])
        {
          var item := ValueToConstSchema(items[i]);
          prefix := prefix + [item];
        }
        s := ArrayOf(prefix, Some(False));
      case Obj(es) =>
        var properties: seq<Property> := [];
        var required: seq<string> := [];
        for i := 0 to |es|
          invariant |properties| == |required| == i
          invariant forall k :: 0 <= k < i ==> properties[k] == Property(es[k].key, Lower(es[k].val)) && required[k] == es[k].key
        {
          var member := ValueToConstSchema(es[i].val);
          properties := properties + [Property(es[i].key, member)];
          required := required + [es[i].key];
        }
        s := ObjectOf(properties, required, False);
      case _ => s := Const(v);
    }
  }
}
