/** What is in the issue list of a walk: everything that its parts find wrong, and nothing else. */
module ExplainingComplete {
  import opened Options
  import opened Pointers
  import opened StableKeys
  import opened Explaining
  import opened ExplainingPaths

  /** Branch `i` of a union is the one that is reported: no branch matches, none has fewer issues, and those
      before it have more. */
  ghost predicate Reported(v: Js, branches: seq<Schema>, path: string, cs: Components, fuel: nat, i: nat) {
    && i < |branches| && (forall j :: 0 <= j < |branches| ==> Fails(v, branches[j], path, cs, fuel))
    && (forall j :: 0 <= j < |branches| ==> Count(v, branches[i], path, cs, fuel) <= Count(v, branches[j], path, cs, fuel))
    && (forall j :: 0 <= j < i ==> Count(v, branches[i], path, cs, fuel) < Count(v, branches[j], path, cs, fuel))
  }

  ghost predicate Fails(v: Js, s: Schema, path: string, cs: Components, fuel: nat) {
    var walk := Walk(v, s, path, cs, fuel);
    walk.Some? && walk.value != []
  }

  ghost function Count(v: Js, s: Schema, path: string, cs: Components, fuel: nat): nat {
    var walk := Walk(v, s, path, cs, fuel);
    if walk.Some? then |walk.value| else 0
  }

  /** What is wrong with a value: itself, or what its schema says about its parts. */
  ghost predicate Finds(v: Js, s: Schema, path: string, cs: Components, fuel: nat, issue: Issue)
    decreases fuel, s, 1
  {
    match s
    case True => false
    case False => issue == Issue(path, NoValueValid)
    case Ref(ref) =>
      if Resolve(ref, cs).None? then issue == Issue(path, UnresolvedRef(ref))
      else fuel > 0 && Finds(v, Resolve(ref, cs).value, path, cs, fuel - 1, issue)
    case Const(c) => Print(v) != Print(c) && issue == Issue(path, ExpectedConst(c))
    case Enum(values) => (forall i :: 0 <= i < |values| ==> Print(v) != Print(values[i])) && issue == Issue(path, ExpectedEnum(values))
    case Union(branches) =>
      if branches == [] then issue == Issue(path, NoBranch)
      else exists i: nat :: Reported(v, branches, path, cs, fuel, i) && Finds(v, branches[i], path, cs, fuel, issue)
    case Typed(typ) => !HasType(v, typ) && issue == Issue(path, ExpectedType(typ))
    case ArrayOf(prefix, items) =>
      if !v.Arr? then issue == Issue(if path == "" then "(root)" else path, ExpectedArray)
      else
        || (|v.items| < |prefix| && items == Some(False) && issue == Issue(if path == "" then "(root)" else path, ExpectedLength(|prefix|)))
        || exists i: nat :: i < |v.items| && ItemFinds(v.items[i], i, s, path, cs, fuel, issue)
    case ObjectOf(properties, required, additional) =>
      if !v.Obj? then issue == Issue(if path == "" then "(root)" else path, ExpectedObject)
      else
        || (exists i :: 0 <= i < |required| && !HasOwn(v.entries, required[i]) && issue == Issue(JoinKey(path, required[i]), Missing))
        || (exists i :: 0 <= i < |v.entries| && MemberFinds(v.entries[i], s, path, cs, fuel, issue))
    case Other => issue == Issue(path, Vague)
  }

  ghost predicate ItemFinds(v: Js, i: nat, s: Schema, path: string, cs: Components, fuel: nat, issue: Issue)
    requires s.ArrayOf?
    decreases fuel, s, 0
  {
    if i < |s.prefix| then Finds(v, s.prefix[i], JoinIndex(path, i), cs, fuel, issue)
    else if s.items == Some(False) then issue == Issue(JoinIndex(path, i), ExtraElement(|s.prefix|))
    else s.items.Some? && Finds(v, s.items.value, JoinIndex(path, i), cs, fuel, issue)
  }

  ghost predicate MemberFinds(e: Entry, s: Schema, path: string, cs: Components, fuel: nat, issue: Issue)
    requires s.ObjectOf?
    decreases fuel, s, 0
  {
    var at := FindProperty(s.properties, e.key);
    if at.Some? then Finds(e.val, s.properties[at.value].schema, JoinKey(path, e.key), cs, fuel, issue)
    else if s.additional == False then issue == Issue(JoinKey(path, e.key), UnknownProperty(s.properties))
    else Finds(e.val, s.additional, JoinKey(path, e.key), cs, fuel, issue)
  }

  // ---- A walk finds exactly that ------------------------------------------------------------------

  /** A walk that comes to an end has the issue exactly if it is there. */
  ghost predicate Tells(walk: Option<seq<Issue>>, issue: Issue, found: bool) {
    walk.Some? ==> (issue in walk.value <==> found)
  }

  lemma ThenTells(a: Option<seq<Issue>>, b: Option<seq<Issue>>, issue: Issue, p: bool, q: bool)
    requires Tells(a, issue, p) && Tells(b, issue, q)
    ensures Tells(Then(a, b), issue, p || q)
  {
  }

  /** The issues of a walk that ends are exactly those that there are to find. */
  lemma {:induction false} WalkFinds(v: Js, s: Schema, path: string, cs: Components, fuel: nat, issue: Issue)
    ensures Tells(Walk(v, s, path, cs, fuel), issue, Finds(v, s, path, cs, fuel, issue))
    decreases fuel, s, 2, 0
  {
    match s
    case Ref(ref) =>
      if Resolve(ref, cs).Some? && fuel > 0 { WalkFinds(v, Resolve(ref, cs).value, path, cs, fuel - 1, issue); }
    case Union(branches) => UnionFinds(v, s, path, cs, fuel, issue);
    case ArrayOf(_, _) => if v.Arr? { ArrayFinds(v, s, path, cs, fuel, issue); }
    case ObjectOf(_, _, _) => if v.Obj? { ObjectFinds(v, s, path, cs, fuel, issue); }
    case _ =>
  }

  // ---- Unions -----------------------------------------------------------------------------------

  lemma {:induction false} UnionFinds(v: Js, s: Schema, path: string, cs: Components, fuel: nat, issue: Issue)
    requires s.Union?
    ensures Tells(Walk(v, s, path, cs, fuel), issue, Finds(v, s, path, cs, fuel, issue))
    decreases fuel, s, 1, 0
  {
    var branches, walk := s.branches, Walk(v, s, path, cs, fuel);
    if branches != [] && walk.Some? {
      if walk.value == [] {
        MatchedBranch(v, branches, path, cs, fuel, None);
      } else {
        var i := EarliestReported(v, branches, path, cs, fuel);
        WalkFinds(v, branches[i], path, cs, fuel, issue);
        forall j: nat | Reported(v, branches, path, cs, fuel, j) ensures i == j { OneReported(v, branches, path, cs, fuel, i, j); }
      }
    }
  }

  lemma OneReported(v: Js, branches: seq<Schema>, path: string, cs: Components, fuel: nat, i: nat, j: nat)
    requires Reported(v, branches, path, cs, fuel, i) && Reported(v, branches, path, cs, fuel, j)
    ensures i == j
  {
    var m, n := Count(v, branches[i], path, cs, fuel), Count(v, branches[j], path, cs, fuel);
    assert m <= n && n <= m;
    assert i < j ==> n < m;
    assert j < i ==> m < n;
  }

  /** A walk of branches without issues found a branch that matches, and then nothing is reported. */
  lemma {:induction false} MatchedBranch(v: Js, branches: seq<Schema>, path: string, cs: Components, fuel: nat, best: Option<seq<Issue>>)
    requires branches != [] && (best.Some? ==> best.value != []) && WalkBranches(v, branches, path, cs, fuel, best) == Some([])
    ensures exists i :: 0 <= i < |branches| && !Fails(v, branches[i], path, cs, fuel)
    decreases branches
  {
    var sub := Walk(v, branches[0], path, cs, fuel);
    if sub == Some([]) {
      assert !Fails(v, branches[0], path, cs, fuel);
    } else {
      var next := if best.None? || |sub.value| < |best.value| then sub else best;
      MatchedBranch(v, branches[1..], path, cs, fuel, next);
      var i :| 0 <= i < |branches[1..]| && !Fails(v, branches[1..][i], path, cs, fuel);
      assert !Fails(v, branches[i + 1], path, cs, fuel);
    }
  }

  /** The first branches, of which branch `i` is the best so far. */
  ghost predicate BestOf(v: Js, branches: seq<Schema>, path: string, cs: Components, fuel: nat, k: nat, best: Option<seq<Issue>>, i: nat) {
    && k <= |branches| && Reported(v, branches[..k], path, cs, fuel, i) && best == Walk(v, branches[i], path, cs, fuel)
  }

  lemma FirstBest(v: Js, branches: seq<Schema>, path: string, cs: Components, fuel: nat)
    requires branches != [] && Fails(v, branches[0], path, cs, fuel)
    ensures BestOf(v, branches, path, cs, fuel, 1, Walk(v, branches[0], path, cs, fuel), 0)
  {
    assert branches[..1] == [branches[0]];
  }

  lemma FewerReported(v: Js, branches: seq<Schema>, path: string, cs: Components, fuel: nat, k: nat, i: nat)
    requires k < |branches| && Reported(v, branches[..k], path, cs, fuel, i) && Fails(v, branches[k], path, cs, fuel)
    requires Count(v, branches[k], path, cs, fuel) < Count(v, branches[i], path, cs, fuel)
    ensures Reported(v, branches[..k + 1], path, cs, fuel, k)
  {
    var before, now := branches[..k], branches[..k + 1];
    assert before[i] == branches[i] && now[k] == branches[k];
    forall m | 0 <= m < k ensures Fails(v, now[m], path, cs, fuel) && Count(v, now[k], path, cs, fuel) < Count(v, now[m], path, cs, fuel) {
      assert now[m] == before[m];
    }
  }

  lemma StillReported(v: Js, branches: seq<Schema>, path: string, cs: Components, fuel: nat, k: nat, i: nat)
    requires k < |branches| && Reported(v, branches[..k], path, cs, fuel, i) && Fails(v, branches[k], path, cs, fuel)
    requires Count(v, branches[i], path, cs, fuel) <= Count(v, branches[k], path, cs, fuel)
    ensures Reported(v, branches[..k + 1], path, cs, fuel, i)
  {
    var before, now := branches[..k], branches[..k + 1];
    assert before[i] == now[i] && now[k] == branches[k];
    forall m | 0 <= m < k
      ensures Fails(v, now[m], path, cs, fuel) && Count(v, now[i], path, cs, fuel) <= Count(v, now[m], path, cs, fuel)
      ensures m < i ==> Count(v, now[i], path, cs, fuel) < Count(v, now[m], path, cs, fuel)
    {
      assert now[m] == before[m];
    }
  }

  lemma NextBest(v: Js, branches: seq<Schema>, path: string, cs: Components, fuel: nat, k: nat, best: Option<seq<Issue>>, i: nat)
    returns (j: nat)
    requires k < |branches| && BestOf(v, branches, path, cs, fuel, k, best, i) && Fails(v, branches[k], path, cs, fuel)
    ensures var sub := Walk(v, branches[k], path, cs, fuel);
            best.Some? && BestOf(v, branches, path, cs, fuel, k + 1, if |sub.value| < |best.value| then sub else best, j)
  {
    assert branches[..k][i] == branches[i];
    if Count(v, branches[k], path, cs, fuel) < Count(v, branches[i], path, cs, fuel) {
      FewerReported(v, branches, path, cs, fuel, k, i);
      j := k;
    } else {
      StillReported(v, branches, path, cs, fuel, k, i);
      j := i;
    }
  }

  lemma {:induction false} RestReported(
    v: Js, branches: seq<Schema>, path: string, cs: Components, fuel: nat, k: nat, best: Option<seq<Issue>>, i: nat) returns (j: nat)
    requires BestOf(v, branches, path, cs, fuel, k, best, i)
    requires var walk := WalkBranches(v, branches[k..], path, cs, fuel, best); walk.Some? && walk.value != []
    ensures Reported(v, branches, path, cs, fuel, j) && WalkBranches(v, branches[k..], path, cs, fuel, best) == Walk(v, branches[j], path, cs, fuel)
    decreases |branches| - k
  {
    if k == |branches| {
      assert branches[..k] == branches;
      j := i;
    } else {
      var sub, rest := Walk(v, branches[k], path, cs, fuel), branches[k..];
      assert rest[0] == branches[k] && rest[1..] == branches[k + 1..];
      j := NextBest(v, branches, path, cs, fuel, k, best, i);
      j := RestReported(v, branches, path, cs, fuel, k + 1, if |sub.value| < |best.value| then sub else best, j);
    }
  }

  /** A union that does not match reports the first of the branches with the fewest issues. */
  lemma EarliestReported(v: Js, branches: seq<Schema>, path: string, cs: Components, fuel: nat) returns (i: nat)
    requires branches != []
    requires var walk := WalkBranches(v, branches, path, cs, fuel, None); walk.Some? && walk.value != []
    ensures Reported(v, branches, path, cs, fuel, i) && WalkBranches(v, branches, path, cs, fuel, None) == Walk(v, branches[i], path, cs, fuel)
  {
    FirstBest(v, branches, path, cs, fuel);
    i := RestReported(v, branches, path, cs, fuel, 1, Walk(v, branches[0], path, cs, fuel), 0);
  }

  // ---- Arrays -----------------------------------------------------------------------------------

  lemma {:induction false} ItemTells(v: Js, i: nat, s: Schema, path: string, cs: Components, fuel: nat, issue: Issue)
    requires s.ArrayOf?
    ensures Tells(WalkItem(v, i, s, path, cs, fuel), issue, ItemFinds(v, i, s, path, cs, fuel, issue))
    decreases fuel, s, 0, 0
  {
    if i < |s.prefix| {
      WalkFinds(v, s.prefix[i], JoinIndex(path, i), cs, fuel, issue);
    } else if s.items.Some? && s.items != Some(False) {
      WalkFinds(v, s.items.value, JoinIndex(path, i), cs, fuel, issue);
    }
  }

  lemma {:induction false} ItemsTell(items: seq<Js>, i: nat, s: Schema, path: string, cs: Components, fuel: nat, issue: Issue)
    requires s.ArrayOf? && i <= |items|
    ensures Tells(WalkItems(items, i, s, path, cs, fuel), issue,
                  exists k: nat :: i <= k < |items| && ItemFinds(items[k], k, s, path, cs, fuel, issue))
    decreases fuel, s, 1, |items| - i
  {
    if i < |items| {
      ItemTells(items[i], i, s, path, cs, fuel, issue);
      ItemsTell(items, i + 1, s, path, cs, fuel, issue);
      ThenTells(WalkItem(items[i], i, s, path, cs, fuel), WalkItems(items, i + 1, s, path, cs, fuel), issue,
                ItemFinds(items[i], i, s, path, cs, fuel, issue),
                exists k: nat :: i + 1 <= k < |items| && ItemFinds(items[k], k, s, path, cs, fuel, issue));
    }
  }

  lemma {:induction false} ArrayFinds(v: Js, s: Schema, path: string, cs: Components, fuel: nat, issue: Issue)
    requires v.Arr? && s.ArrayOf?
    ensures Tells(Walk(v, s, path, cs, fuel), issue, Finds(v, s, path, cs, fuel, issue))
    decreases fuel, s, 1, |v.items| + 1
  {
    ItemsTell(v.items, 0, s, path, cs, fuel, issue);
  }

  // ---- Objects ----------------------------------------------------------------------------------

  lemma {:induction false} MissingTells(es: seq<Entry>, required: seq<string>, path: string, issue: Issue)
    ensures issue in MissingIssues(es, required, path) <==>
            exists i :: 0 <= i < |required| && !HasOwn(es, required[i]) && issue == Issue(JoinKey(path, required[i]), Missing)
  {
    if required != [] {
      var rest := required[1..];
      MissingTells(es, rest, path, issue);
      if i :| 0 <= i < |required| && !HasOwn(es, required[i]) && issue == Issue(JoinKey(path, required[i]), Missing) {
        if i > 0 { assert rest[i - 1] == required[i]; }
      }
      if i :| 0 <= i < |rest| && !HasOwn(es, rest[i]) && issue == Issue(JoinKey(path, rest[i]), Missing) {
        assert rest[i] == required[i + 1];
      }
    }
  }

  lemma {:induction false} MemberTells(e: Entry, s: Schema, path: string, cs: Components, fuel: nat, issue: Issue)
    requires s.ObjectOf?
    ensures Tells(WalkMember(e, s, path, cs, fuel), issue, MemberFinds(e, s, path, cs, fuel, issue))
    decreases fuel, s, 0, 0
  {
    var at := FindProperty(s.properties, e.key);
    if at.Some? {
      WalkFinds(e.val, s.properties[at.value].schema, JoinKey(path, e.key), cs, fuel, issue);
    } else if s.additional != False {
      WalkFinds(e.val, s.additional, JoinKey(path, e.key), cs, fuel, issue);
    }
  }

  ghost predicate SomeMember(es: seq<Entry>, s: Schema, path: string, cs: Components, fuel: nat, issue: Issue)
    requires s.ObjectOf?
  {
    exists i :: 0 <= i < |es| && MemberFinds(es[i], s, path, cs, fuel, issue)
  }

  lemma SomeMemberFirst(es: seq<Entry>, s: Schema, path: string, cs: Components, fuel: nat, issue: Issue)
    requires s.ObjectOf? && es != []
    ensures SomeMember(es, s, path, cs, fuel, issue) <==>
            MemberFinds(es[0], s, path, cs, fuel, issue) || SomeMember(es[1..], s, path, cs, fuel, issue)
  {
    if i :| 1 <= i < |es| && MemberFinds(es[i], s, path, cs, fuel, issue) { assert es[1..][i - 1] == es[i]; }
    if i :| 0 <= i < |es[1..]| && MemberFinds(es[1..][i], s, path, cs, fuel, issue) { assert es[i + 1] == es[1..][i]; }
  }

  lemma {:induction false} MembersTell(es: seq<Entry>, s: Schema, path: string, cs: Components, fuel: nat, issue: Issue)
    requires s.ObjectOf?
    ensures Tells(WalkMembers(es, s, path, cs, fuel), issue, SomeMember(es, s, path, cs, fuel, issue))
    decreases fuel, s, 1, |es|
  {
    if es != [] {
      MemberTells(es[0], s, path, cs, fuel, issue);
      MembersTell(es[1..], s, path, cs, fuel, issue);
      SomeMemberFirst(es, s, path, cs, fuel, issue);
      ThenTells(WalkMember(es[0], s, path, cs, fuel), WalkMembers(es[1..], s, path, cs, fuel), issue,
                MemberFinds(es[0], s, path, cs, fuel, issue), SomeMember(es[1..], s, path, cs, fuel, issue));
    }
  }

  lemma {:induction false} ObjectFinds(v: Js, s: Schema, path: string, cs: Components, fuel: nat, issue: Issue)
    requires v.Obj? && s.ObjectOf?
    ensures Tells(Walk(v, s, path, cs, fuel), issue, Finds(v, s, path, cs, fuel, issue))
    decreases fuel, s, 1, |v.entries| + 1
  {
    MissingTells(v.entries, s.required, path, issue);
    MembersTell(v.entries, s, path, cs, fuel, issue);
    ThenTells(Some(MissingIssues(v.entries, s.required, path)), WalkMembers(v.entries, s, path, cs, fuel), issue,
              issue in MissingIssues(v.entries, s.required, path), SomeMember(v.entries, s, path, cs, fuel, issue));
  }

  // ---- References, names of types, and paths ----------------------------------------------------

  /** A reference is resolved exactly if it is the prefix and the name of a component other than `false`. */
  lemma ResolvesExactly(ref: string, cs: Components, target: Schema)
    ensures Resolve(ref, cs) == Some(target) <==>
            exists name :: ref == "#/components/schemas/" + name && name in cs && cs[name] == target && target != False
  {
    if Resolve(ref, cs) == Some(target) {
      var name := ref[|Explaining.REF_PREFIX|..];
      assert ref == ref[..|Explaining.REF_PREFIX|] + name;
      assert ref == "#/components/schemas/" + name;
    }
    if name :| ref == "#/components/schemas/" + name && name in cs && cs[name] == target && target != False {
      assert ref[|Explaining.REF_PREFIX|..] == name && ref[..|Explaining.REF_PREFIX|] == Explaining.REF_PREFIX;
    }
  }

  /** The types of a value; no other types have names. */
  lemma TypesTold(v: Js)
    ensures (set typ: Primitive | HasType(v, typ)) ==
            match v
            case Null => {NullType}
            case Bool(_) => {BooleanType}
            case Num(text) => if '+' in text || ('.' !in text && 'e' !in text) then {NumberType, IntegerType} else {NumberType}
            case Str(_) => {StringType}
            case Undefined => {}
            case Arr(_) => {}
            case Obj(_) => {}
  {
  }

  /** The numerals of numbers without a fraction. */
  lemma Integers()
    ensures HasType(Js.Num("0"), IntegerType) && HasType(Js.Num("-12"), IntegerType) && HasType(Js.Num("1.5e+21"), IntegerType)
    ensures !HasType(Js.Num("1.5"), IntegerType) && !HasType(Js.Num("1e-7"), IntegerType) && !HasType(Js.Str("1"), IntegerType)
    ensures HasType(Js.Num("1.5"), NumberType) && !HasType(Js.Str("1"), NumberType)
  {
    assert "1.5e+21"[4] == '+' && "1.5"[1] == '.' && "1e-7"[1] == 'e';
  }

  lemma {:induction false} PiecesJoin(a: Way, b: Way)
    ensures Pieces(a + b) == Pieces(a) + Pieces(b)
  {
    if a == [] {
      assert a + b == b;
    } else {
      assert (a + b)[1..] == a[1..] + b;
      PiecesJoin(a[1..], b);
      Joined(Piece(a[0]), Pieces(a[1..]), Pieces(b));
    }
  }

  /** How paths read: the path below a place goes on from that of the place, after a dot with a name, and in brackets
      with a position or with a key that is no name, in quotes. */
  lemma PathsRead(way: Way, p: Place)
    ensures Render(way + [p]) == Render(way) +
            match p
            case Element(i) => "[" + Decimal(i) + "]"
            case Member(key) => if IsIdentifier(key) then "." + key else "[" + Quote(key) + "]"
    ensures Render([]) == ""
  {
    RenderPush(way, p);
    ExtendPiece(Render(way), p);
  }

  lemma PathsJoin(a: Way, b: Way)
    ensures Render(a + b) == Render(a) + Render(b)
  {
    RenderIsPieces(a);
    RenderIsPieces(b);
    RenderIsPieces(a + b);
    PiecesJoin(a, b);
  }

  /** What a name is: letters, digits, underscores and dollars, and no digit first. */
  lemma Identifiers()
    ensures IsIdentifier("query") && IsIdentifier("$ref") && IsIdentifier("_x1") && IsIdentifier("Ab")
    ensures !IsIdentifier("") && !IsIdentifier("1a") && !IsIdentifier("a b") && !IsIdentifier("a-b") && !IsIdentifier("a.b")
    ensures OrRoot("") == "(root)" && OrRoot(".query") == ".query"
  {
    NoName("a b", 1);
    NoName("a-b", 1);
    NoName("a.b", 1);
  }

  lemma NoName(key: string, i: nat)
    requires i < |key| && key[i] in [' ', '-', '.']
    ensures !IsIdentifier(key)
  {
    assert !IsWordChar(key[i]) && key[i] != '$';
  }
}
