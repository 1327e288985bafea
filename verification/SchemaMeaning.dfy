/** The declarative meaning of the schema subset, as a least fixpoint over `$ref`,
    and the proof that the validator's active-reference check decides exactly it. */
module SchemaMeaning {
  import opened Options
  import opened JsonValues
  import opened Pointers
  import opened Validator

  /** `v` fits `s` by a derivation that unfolds at most `n` references on any branch. */
  ghost predicate Accepts(v: Json, s: Json, comps: Components, n: nat)
    decreases n, v, s, 3
  {
    match s
    case Bool(allowed) => allowed
    case Obj(o) =>
      if Reference(o).Some? then
        var name := Resolve(Reference(o).value, comps);
        name.Some? && n > 0 && Accepts(v, comps[name.value], comps, n - 1)
      else
        KeywordsFit(v, s, comps, n)
    case _ => false
  }

  ghost predicate KeywordsFit(v: Json, s: Json, comps: Components, n: nat)
    requires s.Obj?
    decreases n, v, s, 2
  {
    var o := s.members;
    && (Has(o, "const") ==> Equal(v, Get(o, "const").value))
    && (AsArray(Get(o, "enum")).Some? ==> InEnum(v, AsArray(Get(o, "enum")).value))
    && (Has(o, "type") ==> TypeOk(Get(o, "type").value, v))
    && EveryBranch(v, s, comps, n)
    && SomeBranch(v, s, "anyOf", comps, n)
    && SomeBranch(v, s, "oneOf", comps, n)
    && (v.Arr? ==> ItemsFit(v, s, comps, n))
    && (v.Obj? ==> NothingRequired(v.members, Required(o)) && MembersFit(v, s, comps, n))
  }

  ghost predicate EveryBranch(v: Json, s: Json, comps: Components, n: nat)
    requires s.Obj?
    decreases n, v, s, 1
  {
    var branches := Branches(s.members, "allOf");
    forall i :: 0 <= i < |branches| ==> Accepts(v, branches[i], comps, n)
  }

  ghost predicate SomeBranch(v: Json, s: Json, keyword: string, comps: Components, n: nat)
    requires s.Obj?
    decreases n, v, s, 1
  {
    var branches := AsArray(Get(s.members, keyword));
    branches.Some? ==> exists i :: 0 <= i < |branches.value| && Accepts(v, branches.value[i], comps, n)
  }

  /** The items of a tuple prefix fit one by one, all later ones fit `items`. */
  ghost predicate ItemsFit(v: Json, s: Json, comps: Components, n: nat)
    requires v.Arr? && s.Obj?
    decreases n, v, s, 1
  {
    var prefix, rest := Prefix(s.members), Get(s.members, "items");
    && |prefix| <= |v.items|
    && (forall i :: 0 <= i < |prefix| ==> Accepts(v.items[i], prefix[i], comps, n))
    && (rest.Some? ==> forall i :: |prefix| <= i < |v.items| ==> Accepts(v.items[i], rest.value, comps, n))
  }

  ghost predicate NothingRequired(ms: seq<Member>, required: seq<Json>) {
    forall i :: 0 <= i < |required| && required[i].Str? ==> Has(ms, required[i].s)
  }

  ghost predicate MembersFit(v: Json, s: Json, comps: Components, n: nat)
    requires v.Obj? && s.Obj?
    decreases n, v, s, 1
  {
    forall i :: 0 <= i < |v.members| ==> MemberFits(v, i, s, comps, n)
  }

  /** A member fits its own schema, or else `additionalProperties`. */
  ghost predicate MemberFits(v: Json, i: nat, s: Json, comps: Components, n: nat)
    requires v.Obj? && s.Obj? && i < |v.members|
    decreases n, v, s, 0
  {
    var schema := MemberSchema(Properties(s.members), Additional(s.members), v.members[i].key);
    schema.Some? ==> Accepts(v.members[i].val, schema.value, comps, n)
  }

  /** A finite derivation exists: the least fixpoint of the reference equations. */
  ghost predicate Fits(v: Json, s: Json, comps: Components) {
    exists n: nat :: Accepts(v, s, comps, n)
  }

  // ---- One node, keyword by keyword ------------------------------------------

  ghost predicate GoalHolds(g: Goal, comps: Components, n: nat) {
    match g
    case All(t) => Accepts(t.value, t.schema, comps, n)
    case Any(_, tasks) => exists i :: 0 <= i < |tasks| && Accepts(tasks[i].value, tasks[i].schema, comps, n)
  }

  ghost predicate GoalsHold(goals: seq<Goal>, comps: Components, n: nat) {
    forall i :: 0 <= i < |goals| ==> GoalHolds(goals[i], comps, n)
  }

  lemma HoldAppend(xs: seq<Goal>, ys: seq<Goal>, comps: Components, n: nat)
    ensures GoalsHold(xs + ys, comps, n) <==> GoalsHold(xs, comps, n) && GoalsHold(ys, comps, n)
  {
    if GoalsHold(xs + ys, comps, n) {
      assert forall i :: 0 <= i < |xs| ==> (xs + ys)[i] == xs[i];
      assert forall i :: 0 <= i < |ys| ==> (xs + ys)[|xs| + i] == ys[i];
    }
  }

  lemma {:induction false} NothingMissing(ms: seq<Member>, node: Node, required: seq<Json>)
    ensures MissingIssues(ms, node, required) == [] <==> NothingRequired(ms, required)
  {
    if required != [] { NothingMissing(ms, node, required[..|required| - 1]); }
  }

  ghost predicate NoneClosed(ms: seq<Member>, properties: seq<Member>, additional: Option<Json>) {
    forall i :: 0 <= i < |ms| ==> !Closed(properties, additional, ms[i].key)
  }

  lemma NoneClosedLast(ms: seq<Member>, properties: seq<Member>, additional: Option<Json>)
    requires ms != []
    ensures NoneClosed(ms, properties, additional) <==>
            NoneClosed(ms[..|ms| - 1], properties, additional) && !Closed(properties, additional, ms[|ms| - 1].key)
  {
    var init := ms[..|ms| - 1];
    assert forall i :: 0 <= i < |init| ==> init[i] == ms[i];
  }

  lemma {:induction false} NothingUnexpected(ms: seq<Member>, node: Node, properties: seq<Member>, additional: Option<Json>)
    ensures UnexpectedIssues(ms, node, properties, additional) == [] <==> NoneClosed(ms, properties, additional)
  {
    if ms != [] {
      NothingUnexpected(ms[..|ms| - 1], node, properties, additional);
      NoneClosedLast(ms, properties, additional);
    }
  }

  ghost predicate EachHolds(
    ms: seq<Member>, node: Node, properties: seq<Member>, additional: Option<Json>, comps: Components, n: nat)
  {
    forall i :: 0 <= i < |ms| ==> GoalsHold(MemberGoal(ms[i], node, properties, additional), comps, n)
  }

  lemma EachHoldsLast(
    ms: seq<Member>, node: Node, properties: seq<Member>, additional: Option<Json>, comps: Components, n: nat)
    requires ms != []
    ensures EachHolds(ms, node, properties, additional, comps, n) <==>
            EachHolds(ms[..|ms| - 1], node, properties, additional, comps, n) &&
            GoalsHold(MemberGoal(ms[|ms| - 1], node, properties, additional), comps, n)
  {
    var init := ms[..|ms| - 1];
    assert forall i :: 0 <= i < |init| ==> init[i] == ms[i];
  }

  lemma {:induction false} MemberGoalsHold(
    ms: seq<Member>, node: Node, properties: seq<Member>, additional: Option<Json>, comps: Components, n: nat)
    ensures GoalsHold(MemberGoals(ms, node, properties, additional), comps, n) <==>
            EachHolds(ms, node, properties, additional, comps, n)
  {
    if ms != [] {
      var init, m := ms[..|ms| - 1], ms[|ms| - 1];
      MemberGoalsHold(init, node, properties, additional, comps, n);
      EachHoldsLast(ms, node, properties, additional, comps, n);
      HoldAppend(MemberGoals(init, node, properties, additional), MemberGoal(m, node, properties, additional), comps, n);
    }
  }

  lemma MemberMeaning(v: Json, i: nat, node: Node, s: Json, comps: Components, n: nat)
    requires v.Obj? && s.Obj? && i < |v.members|
    ensures MemberFits(v, i, s, comps, n) <==>
            !Closed(Properties(s.members), Additional(s.members), v.members[i].key) &&
            GoalsHold(MemberGoal(v.members[i], node, Properties(s.members), Additional(s.members)), comps, n)
  {
    var goals := MemberGoal(v.members[i], node, Properties(s.members), Additional(s.members));
    if goals != [] {
      assert GoalsHold(goals, comps, n) <==> GoalHolds(goals[0], comps, n);
    }
  }

  /** Members fit exactly if none is unexpected and all their goals hold. */
  lemma MembersMeaning(v: Json, node: Node, s: Json, comps: Components, n: nat)
    requires v.Obj? && s.Obj?
    ensures MembersFit(v, s, comps, n) <==>
            UnexpectedIssues(v.members, node, Properties(s.members), Additional(s.members)) == [] &&
            GoalsHold(ObjectGoals(v, node, s.members), comps, n)
  {
    var properties, additional := Properties(s.members), Additional(s.members);
    NothingUnexpected(v.members, node, properties, additional);
    MemberGoalsHold(v.members, node, properties, additional, comps, n);
    forall i | 0 <= i < |v.members|
      ensures MemberFits(v, i, s, comps, n) <==>
              !Closed(properties, additional, v.members[i].key) &&
              GoalsHold(MemberGoal(v.members[i], node, properties, additional), comps, n)
    {
      MemberMeaning(v, i, node, s, comps, n);
    }
  }

  lemma AnyMeaning(v: Json, node: Node, s: Json, keyword: string, comps: Components, n: nat)
    requires s.Obj?
    ensures GoalsHold(AnyGoals(v, node, s.members, keyword), comps, n) <==> SomeBranch(v, s, keyword, comps, n)
  {
    var branches := AsArray(Get(s.members, keyword));
    if branches.Some? {
      var tasks := Tasks(v, node, branches.value);
      var goals := AnyGoals(v, node, s.members, keyword);
      assert goals == [Any(keyword, tasks)];
      assert GoalsHold(goals, comps, n) <==> GoalHolds(goals[0], comps, n);
      if i :| 0 <= i < |tasks| && Accepts(v, branches.value[i], comps, n) {
        assert Accepts(tasks[i].value, tasks[i].schema, comps, n);
      }
    }
  }

  lemma EveryMeaning(v: Json, node: Node, s: Json, comps: Components, n: nat)
    requires s.Obj?
    ensures GoalsHold(AllGoals(v, node, Branches(s.members, "allOf")), comps, n) <==> EveryBranch(v, s, comps, n)
  {
    var branches := Branches(s.members, "allOf");
    var goals := AllGoals(v, node, branches);
    if GoalsHold(goals, comps, n) {
      forall i | 0 <= i < |branches| ensures Accepts(v, branches[i], comps, n) {
        assert GoalHolds(goals[i], comps, n);
      }
    }
  }

  lemma BranchesMeaning(v: Json, node: Node, s: Json, comps: Components, n: nat)
    requires s.Obj?
    ensures GoalsHold(BranchGoals(v, node, s.members), comps, n) <==>
            EveryBranch(v, s, comps, n) &&
            SomeBranch(v, s, "anyOf", comps, n) && SomeBranch(v, s, "oneOf", comps, n)
  {
    var o := s.members;
    var all := AllGoals(v, node, Branches(o, "allOf"));
    var any, one := AnyGoals(v, node, o, "anyOf"), AnyGoals(v, node, o, "oneOf");
    HoldAppend(all, any, comps, n);
    HoldAppend(all + any, one, comps, n);
    EveryMeaning(v, node, s, comps, n);
    AnyMeaning(v, node, s, "anyOf", comps, n);
    AnyMeaning(v, node, s, "oneOf", comps, n);
  }

  lemma ItemsMeaning(v: Json, node: Node, s: Json, comps: Components, n: nat)
    requires v.Arr? && s.Obj? && |Prefix(s.members)| <= |v.items|
    ensures GoalsHold(ArrayGoals(v, node, s.members), comps, n) <==> ItemsFit(v, s, comps, n)
  {
    var items, prefix, schema := v.items, Prefix(s.members), Get(s.members, "items");
    var from := |prefix|;
    var first, rest := PrefixGoals(items, node, prefix), RestGoals(items, node, from, schema);
    HoldAppend(first, rest, comps, n);
    assert forall i :: 0 <= i < |first| ==> first[i] == ItemGoal(items, node, i, prefix[i]);
    if GoalsHold(first, comps, n) {
      forall i | 0 <= i < from ensures Accepts(items[i], prefix[i], comps, n) {
        assert GoalHolds(first[i], comps, n);
      }
    }
    if schema.Some? {
      assert forall i :: 0 <= i < |rest| ==> rest[i] == ItemGoal(items, node, from + i, schema.value);
      if GoalsHold(rest, comps, n) {
        forall i | from <= i < |items| ensures Accepts(items[i], schema.value, comps, n) {
          assert GoalHolds(rest[i - from], comps, n);
        }
      }
    }
  }

  lemma KeywordsMeaning(t: Task, comps: Components, n: nat)
    requires t.schema.Obj?
    ensures KeywordsFit(t.value, t.schema, comps, n) <==>
            Own(t.value, t.node, t.schema.members) == [] &&
            GoalsHold(Goals(t.value, t.node, t.schema.members), comps, n)
  {
    var v, node, s, o := t.value, t.node, t.schema, t.schema.members;
    if !BadType(v, o) {
      var branches, items, members := BranchGoals(v, node, o), ArrayGoals(v, node, o), ObjectGoals(v, node, o);
      HoldAppend(items, members, comps, n);
      HoldAppend(branches, items + members, comps, n);
      BranchesMeaning(v, node, s, comps, n);
      if v.Arr? && |Prefix(o)| <= |v.items| { ItemsMeaning(v, node, s, comps, n); }
      if v.Obj? {
        NothingMissing(v.members, node, Required(o));
        MembersMeaning(v, node, s, comps, n);
      }
    }
  }

  /** A node is accepted exactly if it has no issue of its own and every goal it hands on holds. */
  lemma NodeMeaning(t: Task, comps: Components, n: nat)
    requires t.schema.Obj? && Reference(t.schema.members).None?
    ensures Accepts(t.value, t.schema, comps, n) <==>
            Own(t.value, t.node, t.schema.members) == [] &&
            GoalsHold(Goals(t.value, t.node, t.schema.members), comps, n)
  {
    KeywordsMeaning(t, comps, n);
  }

  // ---- Monotonicity and minimal fuel ---------------------------------------------

  /** A larger allowance of unfoldings accepts no less. */
  lemma {:induction false} AcceptsMore(t: Task, comps: Components, m: nat, n: nat)
    requires m <= n && Accepts(t.value, t.schema, comps, m)
    ensures Accepts(t.value, t.schema, comps, n)
    decreases m, t.value, t.schema, 1
  {
    if t.schema.Obj? {
      var o := t.schema.members;
      if Reference(o).Some? {
        AcceptsMore(t.(schema := comps[Resolve(Reference(o).value, comps).value]), comps, m - 1, n - 1);
      } else {
        NodeMeaning(t, comps, m);
        NodeMeaning(t, comps, n);
        GoalsSmaller(t);
        var goals := Goals(t.value, t.node, o);
        forall i | 0 <= i < |goals| ensures GoalHolds(goals[i], comps, n) {
          HoldsMore(goals[i], t, comps, m, n);
        }
      }
    }
  }

  lemma HoldsMore(g: Goal, p: Task, comps: Components, m: nat, n: nat)
    requires m <= n && SmallerGoal(g, p) && GoalHolds(g, comps, m)
    ensures GoalHolds(g, comps, n)
    decreases m, p.value, p.schema, 0
  {
    match g
    case All(t) => AcceptsMore(t, comps, m, n);
    case Any(_, tasks) =>
      var i :| 0 <= i < |tasks| && Accepts(tasks[i].value, tasks[i].schema, comps, m);
      AcceptsMore(tasks[i], comps, m, n);
  }

  /** The height of a lowest derivation. */
  lemma {:induction false} LeastFuel(t: Task, comps: Components, n: nat) returns (m: nat)
    requires Accepts(t.value, t.schema, comps, n)
    ensures m <= n && Accepts(t.value, t.schema, comps, m)
    ensures m > 0 ==> !Accepts(t.value, t.schema, comps, m - 1)
  {
    if n > 0 && Accepts(t.value, t.schema, comps, n - 1) {
      m := LeastFuel(t, comps, n - 1);
    } else {
      m := n;
    }
  }

  // ---- Results without issues ------------------------------------------------------

  lemma {:induction false} FlattenEmpty(rs: seq<seq<Issue>>)
    ensures Flatten(rs) == [] <==> forall i :: 0 <= i < |rs| ==> rs[i] == []
  {
    if rs != [] { FlattenEmpty(rs[1..]); }
  }

  lemma {:induction false} GoalResultAt(goals: seq<Goal>, p: Task, comps: Components, names: set<string>, i: nat)
    requires SmallerGoals(goals, p) && i < |goals|
    ensures GoalResults(goals, p, comps, names)[|goals| - 1 - i] == GoalIssues(goals[i], p, comps, names)
  {
    if i < |goals| - 1 { GoalResultAt(goals[..|goals| - 1], p, comps, names, i); }
  }

  lemma {:induction false} TaskResultAt(tasks: seq<Task>, p: Task, comps: Components, names: set<string>, i: nat)
    requires i < |tasks| && forall j :: 0 <= j < |tasks| ==> SmallerTask(tasks[j], p)
    ensures TaskResults(tasks, p, comps, names)[|tasks| - 1 - i] == Issues(tasks[i], comps, NamesFor(tasks[i], p, names))
  {
    if i < |tasks| - 1 { TaskResultAt(tasks[..|tasks| - 1], p, comps, names, i); }
  }

  lemma ResultsEmpty(goals: seq<Goal>, p: Task, comps: Components, names: set<string>)
    requires SmallerGoals(goals, p)
    ensures Flatten(GoalResults(goals, p, comps, names)) == [] <==>
            forall i :: 0 <= i < |goals| ==> GoalIssues(goals[i], p, comps, names) == []
  {
    var rs := GoalResults(goals, p, comps, names);
    FlattenEmpty(rs);
    forall i | 0 <= i < |goals| ensures rs[|goals| - 1 - i] == GoalIssues(goals[i], p, comps, names) {
      GoalResultAt(goals, p, comps, names, i);
    }
    if forall i :: 0 <= i < |goals| ==> GoalIssues(goals[i], p, comps, names) == [] {
      forall j | 0 <= j < |rs| ensures rs[j] == [] {
        assert rs[|goals| - 1 - (|goals| - 1 - j)] == GoalIssues(goals[|goals| - 1 - j], p, comps, names);
      }
    }
  }

  lemma NodeClean(t: Task, comps: Components, names: set<string>)
    requires t.schema.Obj? && Reference(t.schema.members).None?
    ensures var goals := Goals(t.value, t.node, t.schema.members);
            SmallerGoals(goals, t) &&
            (Issues(t, comps, names) == [] <==>
               Own(t.value, t.node, t.schema.members) == [] &&
               forall i :: 0 <= i < |goals| ==> GoalIssues(goals[i], t, comps, names) == [])
  {
    var own, goals := Own(t.value, t.node, t.schema.members), Goals(t.value, t.node, t.schema.members);
    NodeIs(t, comps, names);
    ResultsEmpty(goals, t, comps, names);
    BothEmpty(own, Flatten(GoalResults(goals, t, comps, names)));
  }

  lemma BothEmpty(a: seq<Issue>, b: seq<Issue>)
    ensures a + b == [] <==> a == [] && b == []
  {
  }

  /** A union without issues has a branch without issues. */
  lemma CleanBranch(g: Goal, p: Task, comps: Components, names: set<string>) returns (i: nat)
    requires SmallerGoal(g, p) && g.Any? && GoalIssues(g, p, comps, names) == []
    ensures i < |g.tasks| && Issues(g.tasks[i], comps, NamesFor(g.tasks[i], p, names)) == []
  {
    var rs := TaskResults(g.tasks, p, comps, names);
    var j :| 0 <= j < |rs| && rs[j] == [];
    i := |g.tasks| - 1 - j;
    TaskResultAt(g.tasks, p, comps, names, i);
  }

  // ---- The active-reference check is exact -------------------------------------------

  function MaxDepth(items: seq<Json>): nat {
    if items == [] then 0
    else
      var head, rest := Depth(items[0]), MaxDepth(items[1..]);
      if head > rest then head else rest
  }

  function MaxMemberDepth(ms: seq<Member>): nat {
    if ms == [] then 0
    else
      var head, rest := Depth(ms[0].val), MaxMemberDepth(ms[1..]);
      if head > rest then head else rest
  }

  /** How deep a value nests. */
  function Depth(v: Json): nat {
    match v
    case Arr(items) => 1 + MaxDepth(items)
    case Obj(ms) => 1 + MaxMemberDepth(ms)
    case _ => 0
  }

  lemma {:induction false} ItemDepth(items: seq<Json>, i: nat)
    requires i < |items|
    ensures Depth(items[i]) <= MaxDepth(items)
  {
    if i > 0 { ItemDepth(items[1..], i - 1); }
  }

  lemma {:induction false} MemberDepth(ms: seq<Member>, i: nat)
    requires i < |ms|
    ensures Depth(ms[i].val) <= MaxMemberDepth(ms)
  {
    if i > 0 {
      assert ms[1..][i - 1] == ms[i];
      MemberDepth(ms[1..], i - 1);
    }
  }

  lemma ChildDepth(c: Json, v: Json)
    requires IsChild(c, v)
    ensures Depth(c) < Depth(v)
  {
    match v
    case Arr(items) => var i :| 0 <= i < |items| && items[i] == c; ItemDepth(items, i);
    case Obj(ms) => var i :| 0 <= i < |ms| && ms[i].val == c; MemberDepth(ms, i);
  }

  lemma DepthRanks()
    ensures Ranks(Depth)
  {
    forall c, v | IsChild(c, v) ensures Depth(c) < Depth(v) { ChildDepth(c, v); }
  }

  function Times(d: nat, k: nat): nat {
    if d == 0 then 0 else Times(d - 1, k) + k
  }

  /** A rank that decreases from a value to its children, such as `Depth`. */
  ghost predicate Ranks(rank: Json -> nat) {
    forall c, v {:trigger IsChild(c, v)} :: IsChild(c, v) ==> rank(c) < rank(v)
  }

  /** Unfoldings that suffice: one of each component at every level of the value,
      less those already unfolded at the present node. */
  ghost function Bound(level: nat, comps: Components, names: set<string>): nat {
    Times(level, |comps|) + |comps.Keys - names|
  }

  lemma {:induction false} OneLevelLess(d: nat, e: nat, k: nat)
    requires d < e
    ensures Times(d, k) + k <= Times(e, k)
  {
    if d < e - 1 { OneLevelLess(d, e - 1, k); }
  }

  lemma BoundUnfold(level: nat, comps: Components, names: set<string>, name: string)
    requires name in comps && name !in names
    ensures Bound(level, comps, names + {name}) + 1 == Bound(level, comps, names)
    ensures comps.Keys - (names + {name}) < comps.Keys - names
  {
    assert comps.Keys - names == (comps.Keys - (names + {name})) + {name};
  }

  lemma BoundSmaller(t: Task, p: Task, rank: Json -> nat, comps: Components, names: set<string>)
    requires SmallerTask(t, p) && Ranks(rank)
    ensures Bound(rank(t.value), comps, NamesFor(t, p, names)) <= Bound(rank(p.value), comps, names)
  {
    if t.node != p.node {
      assert comps.Keys - {} == comps.Keys;
      OneLevelLess(rank(t.value), rank(p.value), |comps|);
    }
  }

  /** Sound: no issues means a derivation, and one of bounded height. */
  lemma {:induction false} CleanAccepts(t: Task, rank: Json -> nat, comps: Components, names: set<string>, n: nat)
    requires Ranks(rank) && Bound(rank(t.value), comps, names) <= n
    requires Issues(t, comps, names) == []
    ensures Accepts(t.value, t.schema, comps, n)
    decreases t.value, comps.Keys - names, t.schema, 1
  {
    if t.schema.Obj? {
      var o := t.schema.members;
      if Reference(o).Some? {
        CleanTarget(t, rank, comps, names, n);
      } else {
        NodeClean(t, comps, names);
        NodeMeaning(t, comps, n);
        var goals := Goals(t.value, t.node, o);
        forall i | 0 <= i < |goals| ensures GoalHolds(goals[i], comps, n) {
          CleanHolds(goals[i], t, rank, comps, names, n);
        }
      }
    }
  }

  lemma CleanTarget(t: Task, rank: Json -> nat, comps: Components, names: set<string>, n: nat)
    requires Ranks(rank) && Bound(rank(t.value), comps, names) <= n
    requires t.schema.Obj? && Reference(t.schema.members).Some? && Issues(t, comps, names) == []
    ensures Accepts(t.value, t.schema, comps, n)
    decreases t.value, comps.Keys - names, t.schema, 0
  {
    var name := CleanReference(t, comps, names);
    BoundUnfold(rank(t.value), comps, names, name);
    var target := t.(schema := comps[name]);
    CleanAccepts(target, rank, comps, names + {name}, n - 1);
    assert Accepts(t.value, comps[name], comps, n - 1);
  }

  lemma CleanReference(t: Task, comps: Components, names: set<string>) returns (name: string)
    requires t.schema.Obj? && Reference(t.schema.members).Some? && Issues(t, comps, names) == []
    ensures Resolve(Reference(t.schema.members).value, comps) == Some(name)
    ensures name in comps && name !in names
    ensures Issues(t.(schema := comps[name]), comps, names + {name}) == []
  {
    name := Resolve(Reference(t.schema.members).value, comps).value;
  }

  lemma CleanHolds(g: Goal, p: Task, rank: Json -> nat, comps: Components, names: set<string>, n: nat)
    requires Ranks(rank) && Bound(rank(p.value), comps, names) <= n
    requires SmallerGoal(g, p) && GoalIssues(g, p, comps, names) == []
    ensures GoalHolds(g, comps, n)
    decreases p.value, comps.Keys - names, p.schema, 0, 1
  {
    match g
    case All(t) => CleanTask(t, p, rank, comps, names, n);
    case Any(_, tasks) =>
      var i := CleanBranch(g, p, comps, names);
      CleanTask(tasks[i], p, rank, comps, names, n);
  }

  lemma CleanTask(t: Task, p: Task, rank: Json -> nat, comps: Components, names: set<string>, n: nat)
    requires Ranks(rank) && Bound(rank(p.value), comps, names) <= n
    requires SmallerTask(t, p) && Issues(t, comps, NamesFor(t, p, names)) == []
    ensures Accepts(t.value, t.schema, comps, n)
    decreases p.value, comps.Keys - names, p.schema, 0, 0
  {
    BoundSmaller(t, p, rank, comps, names);
    CleanAccepts(t, rank, comps, NamesFor(t, p, names), n);
  }

  /** No active component is derivable at this value with fewer unfoldings than are left. */
  ghost predicate ActiveTooHigh(v: Json, comps: Components, names: set<string>, n: nat) {
    forall name :: name in names && name in comps && n > 0 ==> !Accepts(v, comps[name], comps, n - 1)
  }

  lemma TargetTooHigh(t: Task, comps: Components, names: set<string>, n: nat, name: string) returns (m: nat)
    requires n > 0 && name in comps && Accepts(t.value, comps[name], comps, n - 1)
    requires ActiveTooHigh(t.value, comps, names, n)
    ensures m < n && Accepts(t.value, comps[name], comps, m)
    ensures ActiveTooHigh(t.value, comps, names + {name}, m)
  {
    m := LeastFuel(t.(schema := comps[name]), comps, n - 1);
    forall other | other in names + {name} && other in comps && m > 0
      ensures !Accepts(t.value, comps[other], comps, m - 1)
    {
      if other != name && Accepts(t.value, comps[other], comps, m - 1) {
        AcceptsMore(t.(schema := comps[other]), comps, m - 1, n - 1);
      }
    }
  }

  /** Complete: a lowest derivation never meets an active reference, so it is found. */
  lemma {:induction false} AcceptsClean(t: Task, comps: Components, names: set<string>, n: nat)
    requires Accepts(t.value, t.schema, comps, n)
    requires ActiveTooHigh(t.value, comps, names, n)
    ensures Issues(t, comps, names) == []
    decreases n, t.value, t.schema, 1
  {
    if t.schema.Obj? {
      var o := t.schema.members;
      if Reference(o).Some? {
        var name := Resolve(Reference(o).value, comps).value;
        var m := TargetTooHigh(t, comps, names, n, name);
        AcceptsClean(t.(schema := comps[name]), comps, names + {name}, m);
      } else {
        NodeClean(t, comps, names);
        NodeMeaning(t, comps, n);
        var goals := Goals(t.value, t.node, o);
        forall i | 0 <= i < |goals| ensures GoalIssues(goals[i], t, comps, names) == [] {
          HoldsClean(goals[i], t, comps, names, n);
        }
      }
    }
  }

  lemma HoldsClean(g: Goal, p: Task, comps: Components, names: set<string>, n: nat)
    requires SmallerGoal(g, p) && GoalHolds(g, comps, n)
    requires ActiveTooHigh(p.value, comps, names, n)
    ensures GoalIssues(g, p, comps, names) == []
    decreases n, p.value, p.schema, 0
  {
    match g
    case All(t) => AcceptsClean(t, comps, NamesFor(t, p, names), n);
    case Any(_, tasks) =>
      var i :| 0 <= i < |tasks| && Accepts(tasks[i].value, tasks[i].schema, comps, n);
      assert SmallerTask(tasks[i], p);
      AcceptsClean(tasks[i], comps, NamesFor(tasks[i], p, names), n);
      TaskResultAt(tasks, p, comps, names, i);
  }

  /** Validation finds no issue exactly if a finite derivation exists, for every
      component graph; one unfolding a component and level then suffices. */
  lemma ValidationIsExact(v: Json, s: Json, comps: Components)
    ensures Issues(Task(v, [], s), comps, {}) == [] <==> Fits(v, s, comps)
    ensures Fits(v, s, comps) ==> Accepts(v, s, comps, Bound(Depth(v), comps, {}))
  {
    var t := Task(v, [], s);
    if Fits(v, s, comps) {
      var n: nat :| Accepts(v, s, comps, n);
      AcceptsClean(t, comps, {}, n);
    }
    if Issues(t, comps, {}) == [] {
      DepthRanks();
      CleanAccepts(t, Depth, comps, {}, Bound(Depth(v), comps, {}));
    }
  }

  /** The components being unfolded do not fit the value: they are not going to accept it. */
  ghost predicate ActiveRejected(v: Json, names: set<string>, comps: Components) {
    forall name :: name in names && name in comps ==> !Fits(v, comps[name], comps)
  }

  /** The same at any point of a validation that is going to fail: the issues of a part are not
      artefacts of the active references. */
  lemma ExactWithin(t: Task, comps: Components, names: set<string>)
    requires ActiveRejected(t.value, names, comps)
    ensures Issues(t, comps, names) == [] <==> Fits(t.value, t.schema, comps)
  {
    if Fits(t.value, t.schema, comps) {
      var n: nat :| Accepts(t.value, t.schema, comps, n);
      AcceptsClean(t, comps, names, n);
    }
    if Issues(t, comps, names) == [] {
      DepthRanks();
      CleanAccepts(t, Depth, comps, names, Bound(Depth(t.value), comps, names));
    }
  }

  /** A reference that does not fit is to a component that does not. */
  lemma TargetRejected(t: Task, comps: Components, name: string)
    requires t.schema.Obj? && Reference(t.schema.members).Some?
    requires Resolve(Reference(t.schema.members).value, comps) == Some(name) && !Fits(t.value, t.schema, comps)
    ensures !Fits(t.value, comps[name], comps)
  {
    if Fits(t.value, comps[name], comps) {
      var n: nat :| Accepts(t.value, comps[name], comps, n);
      assert Accepts(t.value, t.schema, comps, n + 1);
    }
  }
}
