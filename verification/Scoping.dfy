/** Scoping an error contract: component names get a prefix, references follow.
    Validation is unchanged, and nested scopes compose. */
module Scoping {
  import opened Options
  import opened JsonValues
  import opened Pointers
  import opened Validator
  import opened Contracts
  import opened SchemaParts

  /** What a contract is scoped by: the prefix, and the component names it applies to. */
  datatype Scope = Scope(prefix: string, names: set<string>)

  function ScopedName(prefix: string, name: string): string {
    prefix + "." + name
  }

  function ScopedRef(reference: string, scope: Scope): string {
    var name := ComponentRefName(reference);
    if name.Some? && name.value in scope.names then ComponentRef(ScopedName(scope.prefix, name.value)) else reference
  }

  /** `rewrite_schema_refs`: only schema positions are visited, and nothing beside a `$ref`. */
  function Rewrite(s: Json, scope: Scope): Json
    decreases s, 0
  {
    if !s.Obj? then s
    else
      var o := s.members;
      var reference := Reference(o);
      if reference.Some? then
        Obj(seq(|o|, i requires 0 <= i < |o| =>
          if o[i].key == "$ref" then Member("$ref", Str(ScopedRef(reference.value, scope))) else o[i]))
      else
        Obj(seq(|o|, i requires 0 <= i < |o| => Member(o[i].key, RewriteValue(o[i].key, o[i].val, scope))))
  }

  function RewriteValue(key: string, v: Json, scope: Scope): Json
    decreases v, 1
  {
    if key == "properties" && v.Obj? then
      Obj(seq(|v.members|, i requires 0 <= i < |v.members| => Member(v.members[i].key, Rewrite(v.members[i].val, scope))))
    else if key in ["items", "additionalProperties"] then Rewrite(v, scope)
    else if key in ["prefixItems", "anyOf", "oneOf", "allOf"] && v.Arr? then
      Arr(seq(|v.items|, i requires 0 <= i < |v.items| => Rewrite(v.items[i], scope)))
    else v
  }

  function RewriteAll(schemas: seq<Json>, scope: Scope): seq<Json> {
    seq(|schemas|, i requires 0 <= i < |schemas| => Rewrite(schemas[i], scope))
  }

  function RewriteOption(s: Option<Json>, scope: Scope): Option<Json> {
    if s.None? then None else Some(Rewrite(s.value, scope))
  }

  function RewriteProperties(ms: seq<Member>, scope: Scope): seq<Member> {
    seq(|ms|, i requires 0 <= i < |ms| => Member(ms[i].key, Rewrite(ms[i].val, scope)))
  }

  function RewriteKeywords(ms: seq<Member>, scope: Scope): seq<Member> {
    seq(|ms|, i requires 0 <= i < |ms| => Member(ms[i].key, RewriteValue(ms[i].key, ms[i].val, scope)))
  }

  lemma {:induction false} GetKeyword(ms: seq<Member>, key: string, scope: Scope)
    ensures Get(RewriteKeywords(ms, scope), key) ==
            if Get(ms, key).None? then None else Some(RewriteValue(key, Get(ms, key).value, scope))
  {
    if ms != [] {
      assert RewriteKeywords(ms, scope)[1..] == RewriteKeywords(ms[1..], scope);
      GetKeyword(ms[1..], key, scope);
    }
  }

  lemma {:induction false} GetProperty(ms: seq<Member>, key: string, scope: Scope)
    ensures Get(RewriteProperties(ms, scope), key) == RewriteOption(Get(ms, key), scope)
  {
    if ms != [] {
      assert RewriteProperties(ms, scope)[1..] == RewriteProperties(ms[1..], scope);
      GetProperty(ms[1..], key, scope);
    }
  }

  lemma BranchesRewritten(o: seq<Member>, keyword: string, scope: Scope)
    requires keyword in ["prefixItems", "anyOf", "oneOf", "allOf"]
    ensures AsArray(Get(RewriteKeywords(o, scope), keyword)).Some? <==> AsArray(Get(o, keyword)).Some?
    ensures Branches(RewriteKeywords(o, scope), keyword) == RewriteAll(Branches(o, keyword), scope)
  {
    GetKeyword(o, keyword, scope);
  }

  lemma OtherKeyword(o: seq<Member>, key: string, scope: Scope)
    requires key !in ["properties", "items", "additionalProperties", "prefixItems", "anyOf", "oneOf", "allOf"]
    ensures Get(RewriteKeywords(o, scope), key) == Get(o, key)
  {
    GetKeyword(o, key, scope);
  }

  lemma ChildKeyword(o: seq<Member>, key: string, scope: Scope)
    requires key in ["items", "additionalProperties"]
    ensures Get(RewriteKeywords(o, scope), key) == RewriteOption(Get(o, key), scope)
  {
    GetKeyword(o, key, scope);
  }

  lemma PropertiesRewritten(o: seq<Member>, scope: Scope)
    ensures Properties(RewriteKeywords(o, scope)) == RewriteProperties(Properties(o), scope)
  {
    GetKeyword(o, "properties", scope);
  }

  lemma PlainKeywords(o: seq<Member>, scope: Scope)
    ensures var r := RewriteKeywords(o, scope);
            Get(r, "$ref") == Get(o, "$ref") && Get(r, "const") == Get(o, "const") && Get(r, "enum") == Get(o, "enum") &&
            Get(r, "type") == Get(o, "type") && Get(r, "required") == Get(o, "required")
  {
    RefKept(o, scope);
    ConstKept(o, scope);
    EnumKept(o, scope);
    TypeKept(o, scope);
    RequiredKept(o, scope);
  }

  lemma RefKept(o: seq<Member>, scope: Scope)
    ensures Get(RewriteKeywords(o, scope), "$ref") == Get(o, "$ref")
  {
    OtherKeyword(o, "$ref", scope);
  }

  lemma ConstKept(o: seq<Member>, scope: Scope)
    ensures Get(RewriteKeywords(o, scope), "const") == Get(o, "const")
  {
    OtherKeyword(o, "const", scope);
  }

  lemma EnumKept(o: seq<Member>, scope: Scope)
    ensures Get(RewriteKeywords(o, scope), "enum") == Get(o, "enum")
  {
    OtherKeyword(o, "enum", scope);
  }

  lemma TypeKept(o: seq<Member>, scope: Scope)
    ensures Get(RewriteKeywords(o, scope), "type") == Get(o, "type")
  {
    OtherKeyword(o, "type", scope);
  }

  lemma RequiredKept(o: seq<Member>, scope: Scope)
    ensures Get(RewriteKeywords(o, scope), "required") == Get(o, "required")
  {
    OtherKeyword(o, "required", scope);
  }

  lemma ValueRewritten(v: Json, node: Node, o: seq<Member>, scope: Scope)
    ensures ValueIssues(v, node, RewriteKeywords(o, scope)) == ValueIssues(v, node, o)
    ensures BadType(v, RewriteKeywords(o, scope)) <==> BadType(v, o)
    ensures Reference(RewriteKeywords(o, scope)) == Reference(o)
    ensures Get(RewriteKeywords(o, scope), "type") == Get(o, "type")
    ensures Required(RewriteKeywords(o, scope)) == Required(o)
  {
    PlainKeywords(o, scope);
  }

  lemma PrefixRewritten(o: seq<Member>, scope: Scope)
    ensures Prefix(RewriteKeywords(o, scope)) == RewriteAll(Prefix(o), scope)
  {
    BranchesRewritten(o, "prefixItems", scope);
  }

  lemma StructureRewritten(v: Json, node: Node, o: seq<Member>, scope: Scope)
    ensures StructureIssues(v, node, RewriteKeywords(o, scope)) == StructureIssues(v, node, o)
  {
    if v.Arr? {
      PrefixRewritten(o, scope);
    } else if v.Obj? {
      ValueRewritten(v, node, o, scope);
      ChildKeyword(o, "additionalProperties", scope);
      PropertiesRewritten(o, scope);
      UnexpectedRewritten(v.members, node, Properties(o), Additional(o), scope);
    }
  }

  lemma OwnRewritten(v: Json, node: Node, o: seq<Member>, scope: Scope)
    ensures Own(v, node, RewriteKeywords(o, scope)) == Own(v, node, o)
  {
    ValueRewritten(v, node, o, scope);
    StructureRewritten(v, node, o, scope);
  }

  lemma {:induction false} UnexpectedRewritten(
    ms: seq<Member>, node: Node, properties: seq<Member>, additional: Option<Json>, scope: Scope)
    ensures UnexpectedIssues(ms, node, RewriteProperties(properties, scope), RewriteOption(additional, scope)) ==
            UnexpectedIssues(ms, node, properties, additional)
  {
    if ms != [] {
      UnexpectedRewritten(ms[..|ms| - 1], node, properties, additional, scope);
      GetProperty(properties, ms[|ms| - 1].key, scope);
    }
  }

  // ---- Goals -------------------------------------------------------------------------

  function RewriteTask(t: Task, scope: Scope): Task {
    t.(schema := Rewrite(t.schema, scope))
  }

  function RewriteTasks(tasks: seq<Task>, scope: Scope): seq<Task> {
    seq(|tasks|, i requires 0 <= i < |tasks| => RewriteTask(tasks[i], scope))
  }

  function RewriteGoal(g: Goal, scope: Scope): Goal {
    match g
    case All(t) => All(RewriteTask(t, scope))
    case Any(keyword, tasks) => Any(keyword, RewriteTasks(tasks, scope))
  }

  function RewriteGoals(goals: seq<Goal>, scope: Scope): seq<Goal> {
    seq(|goals|, i requires 0 <= i < |goals| => RewriteGoal(goals[i], scope))
  }

  lemma GoalsAppend(xs: seq<Goal>, ys: seq<Goal>, scope: Scope)
    ensures RewriteGoals(xs + ys, scope) == RewriteGoals(xs, scope) + RewriteGoals(ys, scope)
  {
  }

  lemma AnyRewritten(v: Json, node: Node, o: seq<Member>, keyword: string, scope: Scope)
    requires keyword in ["anyOf", "oneOf"]
    ensures AnyGoals(v, node, RewriteKeywords(o, scope), keyword) == RewriteGoals(AnyGoals(v, node, o, keyword), scope)
  {
    BranchesRewritten(o, keyword, scope);
    var branches := Branches(o, keyword);
    assert Tasks(v, node, RewriteAll(branches, scope)) == RewriteTasks(Tasks(v, node, branches), scope);
  }

  lemma BranchGoalsRewritten(v: Json, node: Node, o: seq<Member>, scope: Scope)
    ensures BranchGoals(v, node, RewriteKeywords(o, scope)) == RewriteGoals(BranchGoals(v, node, o), scope)
  {
    var all, any, one := AllGoals(v, node, Branches(o, "allOf")), AnyGoals(v, node, o, "anyOf"), AnyGoals(v, node, o, "oneOf");
    BranchesRewritten(o, "allOf", scope);
    assert AllGoals(v, node, RewriteAll(Branches(o, "allOf"), scope)) == RewriteGoals(all, scope);
    AnyRewritten(v, node, o, "anyOf", scope);
    AnyRewritten(v, node, o, "oneOf", scope);
    GoalsAppend(all, any, scope);
    GoalsAppend(all + any, one, scope);
  }

  lemma RestRewritten(items: seq<Json>, node: Node, from: nat, schema: Option<Json>, scope: Scope)
    ensures RestGoals(items, node, from, RewriteOption(schema, scope)) == RewriteGoals(RestGoals(items, node, from, schema), scope)
  {
    var r, rest := RestGoals(items, node, from, RewriteOption(schema, scope)), RestGoals(items, node, from, schema);
    forall i | 0 <= i < |rest| ensures r[i] == RewriteGoal(rest[i], scope) {
      assert rest[i] == ItemGoal(items, node, from + i, schema.value);
      assert r[i] == ItemGoal(items, node, from + i, Rewrite(schema.value, scope));
    }
  }

  lemma ArrayGoalsRewritten(v: Json, node: Node, o: seq<Member>, scope: Scope)
    ensures ArrayGoals(v, node, RewriteKeywords(o, scope)) == RewriteGoals(ArrayGoals(v, node, o), scope)
  {
    if v.Arr? {
      var first, rest := PrefixGoals(v.items, node, Prefix(o)), RestGoals(v.items, node, |Prefix(o)|, Get(o, "items"));
      PrefixRewritten(o, scope);
      ChildKeyword(o, "items", scope);
      assert PrefixGoals(v.items, node, RewriteAll(Prefix(o), scope)) == RewriteGoals(first, scope);
      RestRewritten(v.items, node, |Prefix(o)|, Get(o, "items"), scope);
      GoalsAppend(first, rest, scope);
    }
  }

  lemma {:induction false} MemberGoalsRewritten(
    ms: seq<Member>, node: Node, properties: seq<Member>, additional: Option<Json>, scope: Scope)
    ensures MemberGoals(ms, node, RewriteProperties(properties, scope), RewriteOption(additional, scope)) ==
            RewriteGoals(MemberGoals(ms, node, properties, additional), scope)
  {
    if ms != [] {
      var init, m := ms[..|ms| - 1], ms[|ms| - 1];
      MemberGoalsRewritten(init, node, properties, additional, scope);
      MemberGoalRewritten(m, node, properties, additional, scope);
      GoalsAppend(MemberGoals(init, node, properties, additional), MemberGoal(m, node, properties, additional), scope);
    }
  }

  lemma MemberGoalRewritten(m: Member, node: Node, properties: seq<Member>, additional: Option<Json>, scope: Scope)
    ensures MemberGoal(m, node, RewriteProperties(properties, scope), RewriteOption(additional, scope)) ==
            RewriteGoals(MemberGoal(m, node, properties, additional), scope)
  {
    GetProperty(properties, m.key, scope);
  }

  lemma ObjectGoalsRewritten(v: Json, node: Node, o: seq<Member>, scope: Scope)
    ensures ObjectGoals(v, node, RewriteKeywords(o, scope)) == RewriteGoals(ObjectGoals(v, node, o), scope)
  {
    if v.Obj? {
      ChildKeyword(o, "additionalProperties", scope);
      PropertiesRewritten(o, scope);
      MemberGoalsRewritten(v.members, node, Properties(o), Additional(o), scope);
    }
  }

  /** The rewriter visits exactly what the validator hands on. */
  lemma GoalsRewritten(v: Json, node: Node, o: seq<Member>, scope: Scope)
    ensures Goals(v, node, RewriteKeywords(o, scope)) == RewriteGoals(Goals(v, node, o), scope)
  {
    ValueRewritten(v, node, o, scope);
    BranchGoalsRewritten(v, node, o, scope);
    ArrayGoalsRewritten(v, node, o, scope);
    ObjectGoalsRewritten(v, node, o, scope);
    GoalsAppend(ArrayGoals(v, node, o), ObjectGoals(v, node, o), scope);
    GoalsAppend(BranchGoals(v, node, o), ArrayGoals(v, node, o) + ObjectGoals(v, node, o), scope);
  }

  // ---- Contracts without captured references ---------------------------------------------

  /** An unresolved reference whose name is that of a component after scoping. */
  predicate Captured(reference: string, scope: Scope) {
    var name := ComponentRefName(reference);
    name.Some? && name.value !in scope.names && exists n :: n in scope.names && name.value == ScopedName(scope.prefix, n)
  }

  /** No schema position holds a captured reference. */
  predicate Safe(s: Json, scope: Scope)
    decreases s, 0
  {
    s.Obj? ==>
      var o := s.members;
      if Reference(o).Some? then !Captured(Reference(o).value, scope)
      else forall i :: 0 <= i < |o| ==> SafeValue(o[i].key, o[i].val, scope)
  }

  predicate SafeValue(key: string, v: Json, scope: Scope)
    decreases v, 1
  {
    if key == "properties" && v.Obj? then forall i :: 0 <= i < |v.members| ==> Safe(v.members[i].val, scope)
    else if key in ["items", "additionalProperties"] then Safe(v, scope)
    else if key in ["prefixItems", "anyOf", "oneOf", "allOf"] && v.Arr? then
      forall i :: 0 <= i < |v.items| ==> Safe(v.items[i], scope)
    else true
  }

  ghost predicate SafeGoal(g: Goal, scope: Scope) {
    match g
    case All(t) => Safe(t.schema, scope)
    case Any(_, tasks) => forall i :: 0 <= i < |tasks| ==> Safe(tasks[i].schema, scope)
  }

  ghost predicate SafeGoals(goals: seq<Goal>, scope: Scope) {
    forall i :: 0 <= i < |goals| ==> SafeGoal(goals[i], scope)
  }

  lemma {:induction false} PartSafe(p: Json, s: Json, scope: Scope)
    requires Safe(s, scope) && Part(p, s)
    ensures Safe(p, scope)
    decreases s, 0
  {
    if p != s {
      var i :| 0 <= i < |s.members| && ValuePart(p, s.members[i].key, s.members[i].val);
      ValuePartSafe(p, s.members[i].key, s.members[i].val, scope);
    }
  }

  lemma {:induction false} ValuePartSafe(p: Json, key: string, v: Json, scope: Scope)
    requires SafeValue(key, v, scope) && ValuePart(p, key, v)
    ensures Safe(p, scope)
    decreases v, 1
  {
    if key == "properties" && v.Obj? {
      var i :| 0 <= i < |v.members| && Part(p, v.members[i].val);
      PartSafe(p, v.members[i].val, scope);
    } else if key in ["items", "additionalProperties"] {
      PartSafe(p, v, scope);
    } else {
      var i :| 0 <= i < |v.items| && Part(p, v.items[i]);
      PartSafe(p, v.items[i], scope);
    }
  }

  lemma SafeNode(v: Json, node: Node, o: seq<Member>, scope: Scope)
    requires Safe(Obj(o), scope) && Reference(o).None?
    ensures SafeGoals(Goals(v, node, o), scope)
  {
    NodeFrom(v, node, o);
    var goals := Goals(v, node, o);
    forall i | 0 <= i < |goals| ensures SafeGoal(goals[i], scope) { FromSafe(goals[i], v, node, o, scope); }
  }

  lemma FromSafe(g: Goal, v: Json, node: Node, o: seq<Member>, scope: Scope)
    requires Safe(Obj(o), scope) && GoalFrom(g, v, node, o)
    ensures SafeGoal(g, scope)
  {
    match g
    case All(t) => PartSafe(t.schema, Obj(o), scope);
    case Any(_, tasks) =>
      forall i | 0 <= i < |tasks| ensures Safe(tasks[i].schema, scope) { PartSafe(tasks[i].schema, Obj(o), scope); }
  }

  // ---- Scoped components --------------------------------------------------------------------

  lemma ScopedNameInjective(prefix: string, a: string, b: string)
    requires ScopedName(prefix, a) == ScopedName(prefix, b)
    ensures a == b
  {
    assert ScopedName(prefix, a)[|prefix| + 1..] == a && ScopedName(prefix, b)[|prefix| + 1..] == b;
  }

  lemma ScopedNamesInjective(prefix: string)
    ensures forall a, b {:trigger ScopedName(prefix, a), ScopedName(prefix, b)} ::
              ScopedName(prefix, a) == ScopedName(prefix, b) ==> a == b
  {
    forall a, b | ScopedName(prefix, a) == ScopedName(prefix, b) { ScopedNameInjective(prefix, a, b); }
  }

  function ScopedNames(names: set<string>, prefix: string): set<string> {
    set n | n in names :: ScopedName(prefix, n)
  }

  function UnscopedName(prefix: string, name: string): string
    requires |prefix| < |name|
  {
    name[|prefix| + 1..]
  }

  lemma UnscopedNames(names: set<string>, prefix: string)
    ensures forall n :: n in names ==> UnscopedName(prefix, ScopedName(prefix, n)) == n
    ensures forall k :: k in ScopedNames(names, prefix) ==> |prefix| < |k| && UnscopedName(prefix, k) in names
  {
    forall n | n in names ensures UnscopedName(prefix, ScopedName(prefix, n)) == n {
    }
  }

  function ScopedComponents(comps: Components, prefix: string): (r: Components)
    ensures r.Keys == ScopedNames(comps.Keys, prefix)
    ensures forall n :: n in comps ==>
              ScopedName(prefix, n) in r && r[ScopedName(prefix, n)] == Rewrite(comps[n], Scope(prefix, comps.Keys))
  {
    UnscopedNames(comps.Keys, prefix);
    map k | k in ScopedNames(comps.Keys, prefix) :: Rewrite(comps[UnscopedName(prefix, k)], Scope(prefix, comps.Keys))
  }

  /** Apart from the text of a reference, an issue stays the same. */
  function RenameIssue(issue: Issue, scope: Scope): Issue {
    match issue.kind
    case UnguardedRef(reference) => Issue(issue.path, UnguardedRef(ScopedRef(reference, scope)))
    case _ => issue
  }

  function RenameIssues(issues: seq<Issue>, scope: Scope): seq<Issue> {
    seq(|issues|, i requires 0 <= i < |issues| => RenameIssue(issues[i], scope))
  }

  function RenameResults(rs: seq<seq<Issue>>, scope: Scope): seq<seq<Issue>> {
    seq(|rs|, i requires 0 <= i < |rs| => RenameIssues(rs[i], scope))
  }

  lemma {:induction false} FlattenRenamed(rs: seq<seq<Issue>>, scope: Scope)
    ensures Flatten(RenameResults(rs, scope)) == RenameIssues(Flatten(rs), scope)
  {
    if rs != [] {
      FlattenRenamed(rs[1..], scope);
      assert RenameResults(rs, scope)[1..] == RenameResults(rs[1..], scope);
      RenameAppend(rs[0], Flatten(rs[1..]), scope);
    }
  }

  lemma RenameAppend(xs: seq<Issue>, ys: seq<Issue>, scope: Scope)
    ensures RenameIssues(xs + ys, scope) == RenameIssues(xs, scope) + RenameIssues(ys, scope)
  {
  }

  /** References resolve to the same component, under its new name. */
  lemma ResolveScoped(reference: string, comps: Components, prefix: string)
    ensures var name, scope := Resolve(reference, comps), Scope(prefix, comps.Keys);
            var scoped := Resolve(ScopedRef(reference, scope), ScopedComponents(comps, prefix));
            && (name.Some? ==> scoped == Some(ScopedName(prefix, name.value)))
            && (name.None? ==> ScopedRef(reference, scope) == reference && (scoped.None? <==> !Captured(reference, scope)))
  {
    var name := Resolve(reference, comps);
    if name.Some? { ComponentRefRoundTrip(ScopedName(prefix, name.value)); }
  }

  // ---- The rewritten schema position by position ------------------------------------------------

  lemma RewriteNode(o: seq<Member>, scope: Scope)
    requires Reference(o).None?
    ensures Rewrite(Obj(o), scope) == Obj(RewriteKeywords(o, scope)) && Reference(RewriteKeywords(o, scope)).None?
  {
    PlainKeywords(o, scope);
  }

  lemma {:induction false} GetReference(o: seq<Member>, reference: string, scope: Scope)
    requires Reference(o).Some?
    ensures var r := seq(|o|, i requires 0 <= i < |o| => if o[i].key == "$ref" then Member("$ref", Str(reference)) else o[i]);
            Reference(r) == Some(reference)
  {
    var r := seq(|o|, i requires 0 <= i < |o| => if o[i].key == "$ref" then Member("$ref", Str(reference)) else o[i]);
    if o[0].key != "$ref" {
      assert r[1..] == seq(|o[1..]|, i requires 0 <= i < |o[1..]| =>
                             if o[1..][i].key == "$ref" then Member("$ref", Str(reference)) else o[1..][i]);
      GetReference(o[1..], reference, scope);
    }
  }

  lemma RewriteReference(s: Json, scope: Scope)
    requires s.Obj? && Reference(s.members).Some?
    ensures Rewrite(s, scope).Obj?
    ensures Reference(Rewrite(s, scope).members) == Some(ScopedRef(Reference(s.members).value, scope))
  {
    GetReference(s.members, ScopedRef(Reference(s.members).value, scope), scope);
  }

  // ---- Scoping preserves validation ----------------------------------------------------------------

  ghost predicate NoReference(issues: seq<Issue>) {
    forall i :: 0 <= i < |issues| ==> !issues[i].kind.UnguardedRef?
  }

  lemma {:induction false} MissingPlain(ms: seq<Member>, node: Node, required: seq<Json>)
    ensures NoReference(MissingIssues(ms, node, required))
  {
    if required != [] { MissingPlain(ms, node, required[..|required| - 1]); }
  }

  lemma {:induction false} UnexpectedPlain(ms: seq<Member>, node: Node, properties: seq<Member>, additional: Option<Json>)
    ensures NoReference(UnexpectedIssues(ms, node, properties, additional))
  {
    if ms != [] { UnexpectedPlain(ms[..|ms| - 1], node, properties, additional); }
  }

  lemma OwnRenamed(v: Json, node: Node, o: seq<Member>, scope: Scope)
    ensures RenameIssues(Own(v, node, o), scope) == Own(v, node, o)
  {
    OwnPlain(v, node, o);
    PlainRenamed(Own(v, node, o), scope);
  }

  lemma OwnPlain(v: Json, node: Node, o: seq<Member>)
    ensures NoReference(Own(v, node, o))
  {
    if v.Obj? {
      MissingPlain(v.members, node, Required(o));
      UnexpectedPlain(v.members, node, Properties(o), Additional(o));
    }
    assert NoReference(ValueIssues(v, node, o)) && NoReference(StructureIssues(v, node, o));
  }

  lemma PlainRenamed(issues: seq<Issue>, scope: Scope)
    requires NoReference(issues)
    ensures RenameIssues(issues, scope) == issues
  {
  }

  ghost predicate SafeComponents(comps: Components, prefix: string) {
    forall n :: n in comps ==> Safe(comps[n], Scope(prefix, comps.Keys))
  }

  lemma SmallerRewritten(goals: seq<Goal>, p: Task, scope: Scope)
    requires p.schema.Obj? && Reference(p.schema.members).None? && goals == Goals(p.value, p.node, p.schema.members)
    ensures SmallerGoals(RewriteGoals(goals, scope), RewriteTask(p, scope))
  {
    RewriteNode(p.schema.members, scope);
    GoalsSmaller(RewriteTask(p, scope));
    GoalsRewritten(p.value, p.node, p.schema.members, scope);
  }

  lemma ScopedNamesAdd(names: set<string>, name: string, prefix: string)
    ensures ScopedNames(names + {name}, prefix) == ScopedNames(names, prefix) + {ScopedName(prefix, name)}
    ensures ScopedName(prefix, name) in ScopedNames(names, prefix) <==> name in names
  {
    ScopedNamesInjective(prefix);
  }

  /** The rewritten schema under the scoped components reports the same issues at the same
      paths, in the same order, up to the text of references. */
  lemma {:induction false} IssuesScoped(t: Task, comps: Components, prefix: string, names: set<string>)
    requires SafeComponents(comps, prefix) && Safe(t.schema, Scope(prefix, comps.Keys))
    ensures var scope := Scope(prefix, comps.Keys);
            Issues(RewriteTask(t, scope), ScopedComponents(comps, prefix), ScopedNames(names, prefix)) ==
            RenameIssues(Issues(t, comps, names), scope)
    decreases t.value, comps.Keys - names, t.schema, 2, 0
  {
    if t.schema.Obj? {
      if Reference(t.schema.members).Some? {
        ReferenceScoped(t, comps, prefix, names);
      } else {
        NodeScoped(t, comps, prefix, names);
      }
    }
  }

  lemma ReferenceScoped(t: Task, comps: Components, prefix: string, names: set<string>)
    requires SafeComponents(comps, prefix) && Safe(t.schema, Scope(prefix, comps.Keys))
    requires t.schema.Obj? && Reference(t.schema.members).Some?
    ensures var scope := Scope(prefix, comps.Keys);
            Issues(RewriteTask(t, scope), ScopedComponents(comps, prefix), ScopedNames(names, prefix)) ==
            RenameIssues(Issues(t, comps, names), scope)
    decreases t.value, comps.Keys - names, t.schema, 1
  {
    var scope, reference := Scope(prefix, comps.Keys), Reference(t.schema.members).value;
    var name := Resolve(reference, comps);
    var target, scoped := RewriteTask(t, scope), ScopedComponents(comps, prefix);
    RewriteReference(t.schema, scope);
    ResolveScoped(reference, comps, prefix);
    if name.None? {
      UnresolvedIs(t, comps, names);
      UnresolvedIs(target, scoped, ScopedNames(names, prefix));
    } else {
      ScopedNamesAdd(names, name.value, prefix);
      if name.value in names {
        UnguardedIs(t, comps, names);
        UnguardedIs(target, scoped, ScopedNames(names, prefix));
      } else {
        TargetIs(t, comps, names, name.value);
        TargetIs(target, scoped, ScopedNames(names, prefix), ScopedName(prefix, name.value));
        IssuesScoped(t.(schema := comps[name.value]), comps, prefix, names + {name.value});
      }
    }
  }

  lemma UnresolvedIs(t: Task, comps: Components, names: set<string>)
    requires t.schema.Obj? && Reference(t.schema.members).Some? && Resolve(Reference(t.schema.members).value, comps).None?
    ensures Issues(t, comps, names) == [Issue(Pointer(t.node), UnresolvedRef(Reference(t.schema.members).value))]
  {
  }

  lemma UnguardedIs(t: Task, comps: Components, names: set<string>)
    requires t.schema.Obj? && Reference(t.schema.members).Some? && Resolve(Reference(t.schema.members).value, comps).Some?
    requires Resolve(Reference(t.schema.members).value, comps).value in names
    ensures Issues(t, comps, names) == [Issue(Pointer(t.node), UnguardedRef(Reference(t.schema.members).value))]
  {
  }

  lemma TargetIs(t: Task, comps: Components, names: set<string>, name: string)
    requires t.schema.Obj? && Reference(t.schema.members).Some? && Resolve(Reference(t.schema.members).value, comps) == Some(name)
    requires name !in names
    ensures Issues(t, comps, names) == Issues(t.(schema := comps[name]), comps, names + {name})
  {
  }

  lemma NodeScoped(t: Task, comps: Components, prefix: string, names: set<string>)
    requires SafeComponents(comps, prefix) && Safe(t.schema, Scope(prefix, comps.Keys))
    requires t.schema.Obj? && Reference(t.schema.members).None?
    ensures var scope := Scope(prefix, comps.Keys);
            Issues(RewriteTask(t, scope), ScopedComponents(comps, prefix), ScopedNames(names, prefix)) ==
            RenameIssues(Issues(t, comps, names), scope)
    decreases t.value, comps.Keys - names, t.schema, 1, |Goals(t.value, t.node, t.schema.members)| + 1
  {
    var scope, o := Scope(prefix, comps.Keys), t.schema.members;
    var goals := Goals(t.value, t.node, o);
    NodeIs(t, comps, names);
    RewrittenIs(t, scope, ScopedComponents(comps, prefix), ScopedNames(names, prefix));
    OwnRenamed(t.value, t.node, o, scope);
    SafeNode(t.value, t.node, o, scope);
    ResultsScoped(goals, t, comps, prefix, names);
    FlattenRenamed(GoalResults(goals, t, comps, names), scope);
    RenameAppend(Own(t.value, t.node, o), Flatten(GoalResults(goals, t, comps, names)), scope);
  }

  /** The issues of a rewritten node: its own ones are the same, and its goals are the rewritten ones. */
  lemma RewrittenIs(t: Task, scope: Scope, comps: Components, names: set<string>)
    requires t.schema.Obj? && Reference(t.schema.members).None?
    ensures var goals := RewriteGoals(Goals(t.value, t.node, t.schema.members), scope);
            SmallerGoals(goals, RewriteTask(t, scope)) &&
            Issues(RewriteTask(t, scope), comps, names) ==
            Own(t.value, t.node, t.schema.members) + Flatten(GoalResults(goals, RewriteTask(t, scope), comps, names))
  {
    var o := t.schema.members;
    RewriteNode(o, scope);
    OwnRewritten(t.value, t.node, o, scope);
    GoalsRewritten(t.value, t.node, o, scope);
    SmallerRewritten(Goals(t.value, t.node, o), t, scope);
    NodeIs(RewriteTask(t, scope), comps, names);
  }

  lemma NamesScoped(t: Task, p: Task, prefix: string, names: set<string>, scope: Scope)
    ensures NamesFor(RewriteTask(t, scope), RewriteTask(p, scope), ScopedNames(names, prefix)) ==
            ScopedNames(NamesFor(t, p, names), prefix)
  {
  }

  lemma RewriteGoalsLast(goals: seq<Goal>, scope: Scope)
    requires goals != []
    ensures var r := RewriteGoals(goals, scope);
            r != [] && r[|r| - 1] == RewriteGoal(goals[|goals| - 1], scope) &&
            r[..|r| - 1] == RewriteGoals(goals[..|goals| - 1], scope)
  {
  }

  lemma RenameResultsCons(r: seq<Issue>, rs: seq<seq<Issue>>, scope: Scope)
    ensures RenameResults([r] + rs, scope) == [RenameIssues(r, scope)] + RenameResults(rs, scope)
  {
  }

  lemma {:induction false} ResultsScoped(goals: seq<Goal>, p: Task, comps: Components, prefix: string, names: set<string>)
    requires SmallerGoals(goals, p) && SafeGoals(goals, Scope(prefix, comps.Keys)) && SafeComponents(comps, prefix)
    requires SmallerGoals(RewriteGoals(goals, Scope(prefix, comps.Keys)), RewriteTask(p, Scope(prefix, comps.Keys)))
    ensures var scope := Scope(prefix, comps.Keys);
            GoalResults(RewriteGoals(goals, scope), RewriteTask(p, scope), ScopedComponents(comps, prefix), ScopedNames(names, prefix)) ==
            RenameResults(GoalResults(goals, p, comps, names), scope)
    decreases p.value, comps.Keys - names, p.schema, 1, |goals|
  {
    if goals != [] {
      var scope, init, g := Scope(prefix, comps.Keys), goals[..|goals| - 1], goals[|goals| - 1];
      assert SmallerGoal(g, p) && SafeGoal(g, scope);
      RewriteGoalsLast(goals, scope);
      GoalScoped(g, p, comps, prefix, names);
      ResultsScoped(init, p, comps, prefix, names);
      RenameResultsCons(GoalIssues(g, p, comps, names), GoalResults(init, p, comps, names), scope);
    }
  }

  lemma GoalScoped(g: Goal, p: Task, comps: Components, prefix: string, names: set<string>)
    requires SmallerGoal(g, p) && SafeGoal(g, Scope(prefix, comps.Keys)) && SafeComponents(comps, prefix)
    requires SmallerGoal(RewriteGoal(g, Scope(prefix, comps.Keys)), RewriteTask(p, Scope(prefix, comps.Keys)))
    ensures var scope := Scope(prefix, comps.Keys);
            GoalIssues(RewriteGoal(g, scope), RewriteTask(p, scope), ScopedComponents(comps, prefix), ScopedNames(names, prefix)) ==
            RenameIssues(GoalIssues(g, p, comps, names), scope)
    decreases p.value, comps.Keys - names, p.schema, 1, 0
  {
    match g
    case All(t) => TaskScoped(t, p, comps, prefix, names);
    case Any(keyword, tasks) =>
      var scope := Scope(prefix, comps.Keys);
      TasksSmaller(tasks, p, scope, keyword);
      TasksScoped(tasks, p, comps, prefix, names);
      UnionRenamed(Pointer(p.node), keyword, TaskResults(tasks, p, comps, names), scope);
  }

  lemma TasksSmaller(tasks: seq<Task>, p: Task, scope: Scope, keyword: string)
    requires SmallerGoal(RewriteGoal(Any(keyword, tasks), scope), RewriteTask(p, scope))
    ensures forall i :: 0 <= i < |tasks| ==> SmallerTask(RewriteTask(tasks[i], scope), RewriteTask(p, scope))
  {
    assert forall i :: 0 <= i < |tasks| ==> RewriteTasks(tasks, scope)[i] == RewriteTask(tasks[i], scope);
  }

  lemma TaskScoped(t: Task, p: Task, comps: Components, prefix: string, names: set<string>)
    requires SmallerTask(t, p) && Safe(t.schema, Scope(prefix, comps.Keys)) && SafeComponents(comps, prefix)
    ensures var scope := Scope(prefix, comps.Keys);
            Issues(RewriteTask(t, scope), ScopedComponents(comps, prefix),
                   NamesFor(RewriteTask(t, scope), RewriteTask(p, scope), ScopedNames(names, prefix))) ==
            RenameIssues(Issues(t, comps, NamesFor(t, p, names)), scope)
    decreases p.value, comps.Keys - names, p.schema, 0, 0
  {
    NamesScoped(t, p, prefix, names, Scope(prefix, comps.Keys));
    IssuesScoped(t, comps, prefix, NamesFor(t, p, names));
  }

  lemma UnionRenamed(path: string, keyword: string, rs: seq<seq<Issue>>, scope: Scope)
    ensures UnionIssues(path, keyword, RenameResults(rs, scope)) == RenameIssues(UnionIssues(path, keyword, rs), scope)
  {
    assert SomeEmpty(RenameResults(rs, scope)) <==> SomeEmpty(rs) by {
      assert forall i :: 0 <= i < |rs| ==> |RenameResults(rs, scope)[i]| == |rs[i]|;
    }
    FlattenRenamed(rs, scope);
    RenameAppend([Issue(path, NoBranch(keyword))], Flatten(rs), scope);
  }

  lemma {:induction false} TasksScoped(tasks: seq<Task>, p: Task, comps: Components, prefix: string, names: set<string>)
    requires SafeComponents(comps, prefix)
    requires var scope := Scope(prefix, comps.Keys);
             forall i :: 0 <= i < |tasks| ==>
               SmallerTask(tasks[i], p) && Safe(tasks[i].schema, scope) &&
               SmallerTask(RewriteTask(tasks[i], scope), RewriteTask(p, scope))
    ensures var scope := Scope(prefix, comps.Keys);
            var rewritten := RewriteTasks(tasks, scope);
            (forall i :: 0 <= i < |rewritten| ==> SmallerTask(rewritten[i], RewriteTask(p, scope))) &&
            TaskResults(rewritten, RewriteTask(p, scope), ScopedComponents(comps, prefix), ScopedNames(names, prefix)) ==
            RenameResults(TaskResults(tasks, p, comps, names), scope)
    decreases p.value, comps.Keys - names, p.schema, 0, |tasks|
  {
    if tasks != [] {
      var scope, init, t := Scope(prefix, comps.Keys), tasks[..|tasks| - 1], tasks[|tasks| - 1];
      assert RewriteTasks(tasks, scope)[..|tasks| - 1] == RewriteTasks(init, scope);
      TaskScoped(t, p, comps, prefix, names);
      TasksScoped(init, p, comps, prefix, names);
      RenameResultsCons(Issues(t, comps, NamesFor(t, p, names)), TaskResults(init, p, comps, names), scope);
    }
  }

  /** For a contract without captured references, a value has the same issues at the same
      paths under the rewritten schema and the scoped components as before. */
  lemma ScopingPreservesValidation(v: Json, s: Json, comps: Components, prefix: string)
    requires SafeComponents(comps, prefix) && Safe(s, Scope(prefix, comps.Keys))
    ensures var scope := Scope(prefix, comps.Keys);
            var before := Issues(Task(v, [], s), comps, {});
            var after := Issues(Task(v, [], Rewrite(s, scope)), ScopedComponents(comps, prefix), {});
            && after == RenameIssues(before, scope)
            && |after| == |before|
            && (forall i :: 0 <= i < |after| ==> after[i].path == before[i].path)
  {
    assert ScopedNames({}, prefix) == {};
    IssuesScoped(Task(v, [], s), comps, prefix, {});
    RenamedInPlace(Issues(Task(v, [], s), comps, {}), Scope(prefix, comps.Keys));
  }

  lemma RenamedInPlace(issues: seq<Issue>, scope: Scope)
    ensures |RenameIssues(issues, scope)| == |issues|
    ensures forall i :: 0 <= i < |issues| ==> RenameIssues(issues, scope)[i].path == issues[i].path
  {
  }

  // ---- Nested scopes compose -----------------------------------------------------------------------

  /** The scope that stands for scoping by `inner` and then by `outer`. */
  function Composed(inner: Scope, outer: string): Scope {
    Scope(ScopedName(outer, inner.prefix), inner.names)
  }

  function Outer(inner: Scope, outer: string): Scope {
    Scope(outer, ScopedNames(inner.names, inner.prefix))
  }

  lemma NameTwice(outer: string, inner: string, name: string)
    ensures ScopedName(outer, ScopedName(inner, name)) == ScopedName(ScopedName(outer, inner), name)
    ensures ScopedName(outer, name) != name
  {
    assert |ScopedName(outer, name)| > |name|;
  }

  lemma ReferenceTwice(reference: string, inner: Scope, outer: string)
    ensures ScopedRef(ScopedRef(reference, inner), Outer(inner, outer)) == ScopedRef(reference, Composed(inner, outer)) <==>
            !Captured(reference, inner)
  {
    var name := ComponentRefName(reference);
    if name.Some? {
      NameTwice(outer, inner.prefix, name.value);
      if name.value in inner.names {
        ComponentRefRoundTrip(ScopedName(inner.prefix, name.value));
        assert ScopedName(inner.prefix, name.value) in Outer(inner, outer).names;
      } else if Captured(reference, inner) {
        ComponentRefRoundTrip(ScopedName(outer, name.value));
      }
    }
  }

  /** Rewriting twice is rewriting once by the composed scope, just if nothing is captured in between. */
  lemma {:induction false} RewriteTwice(s: Json, inner: Scope, outer: string)
    ensures Rewrite(Rewrite(s, inner), Outer(inner, outer)) == Rewrite(s, Composed(inner, outer)) <==> Safe(s, inner)
    decreases s, 0
  {
    if s.Obj? {
      var o := s.members;
      if Reference(o).Some? {
        ReferenceSchemaTwice(s, inner, outer);
      } else {
        var once, twice, composed := RewriteKeywords(o, inner), RewriteKeywords(RewriteKeywords(o, inner), Outer(inner, outer)), RewriteKeywords(o, Composed(inner, outer));
        RewriteNode(o, inner);
        RewriteNode(once, Outer(inner, outer));
        RewriteNode(o, Composed(inner, outer));
        forall i | 0 <= i < |o| ensures twice[i] == composed[i] <==> SafeValue(o[i].key, o[i].val, inner) {
          ValueTwice(o[i].key, o[i].val, inner, outer);
        }
        assert twice == composed <==> forall i :: 0 <= i < |o| ==> twice[i] == composed[i];
      }
    }
  }

  lemma ReferenceSchemaTwice(s: Json, inner: Scope, outer: string)
    requires s.Obj? && Reference(s.members).Some?
    ensures Rewrite(Rewrite(s, inner), Outer(inner, outer)) == Rewrite(s, Composed(inner, outer)) <==> Safe(s, inner)
  {
    var o, reference := s.members, Reference(s.members).value;
    RewriteReference(s, inner);
    ReferenceTwice(reference, inner, outer);
    var i :| 0 <= i < |o| && o[i].key == "$ref";
    var twice, composed := Rewrite(Rewrite(s, inner), Outer(inner, outer)), Rewrite(s, Composed(inner, outer));
    assert twice.members[i].val == Str(ScopedRef(ScopedRef(reference, inner), Outer(inner, outer)));
    assert composed.members[i].val == Str(ScopedRef(reference, Composed(inner, outer)));
  }

  lemma {:induction false} ValueTwice(key: string, v: Json, inner: Scope, outer: string)
    ensures RewriteValue(key, RewriteValue(key, v, inner), Outer(inner, outer)) == RewriteValue(key, v, Composed(inner, outer)) <==>
            SafeValue(key, v, inner)
    decreases v, 1
  {
    if key == "properties" && v.Obj? {
      MembersTwice(v.members, inner, outer);
    } else if key in ["items", "additionalProperties"] {
      RewriteTwice(v, inner, outer);
    } else if key in ["prefixItems", "anyOf", "oneOf", "allOf"] && v.Arr? {
      ItemsTwice(v.items, inner, outer);
    }
  }

  lemma {:induction false} MembersTwice(ms: seq<Member>, inner: Scope, outer: string)
    ensures RewriteProperties(RewriteProperties(ms, inner), Outer(inner, outer)) == RewriteProperties(ms, Composed(inner, outer)) <==>
            forall i :: 0 <= i < |ms| ==> Safe(ms[i].val, inner)
    decreases ms, 0
  {
    var twice, composed := RewriteProperties(RewriteProperties(ms, inner), Outer(inner, outer)), RewriteProperties(ms, Composed(inner, outer));
    forall i | 0 <= i < |ms| ensures twice[i] == composed[i] <==> Safe(ms[i].val, inner) {
      RewriteTwice(ms[i].val, inner, outer);
    }
    assert twice == composed <==> forall i :: 0 <= i < |ms| ==> twice[i] == composed[i];
  }

  lemma {:induction false} ItemsTwice(items: seq<Json>, inner: Scope, outer: string)
    ensures RewriteAll(RewriteAll(items, inner), Outer(inner, outer)) == RewriteAll(items, Composed(inner, outer)) <==>
            forall i :: 0 <= i < |items| ==> Safe(items[i], inner)
    decreases items, 0
  {
    var twice, composed := RewriteAll(RewriteAll(items, inner), Outer(inner, outer)), RewriteAll(items, Composed(inner, outer));
    forall i | 0 <= i < |items| ensures twice[i] == composed[i] <==> Safe(items[i], inner) {
      RewriteTwice(items[i], inner, outer);
    }
    assert twice == composed <==> forall i :: 0 <= i < |items| ==> twice[i] == composed[i];
  }

  lemma ComponentTwice(comps: Components, inner: string, outer: string, n: string)
    requires n in comps
    ensures var name := ScopedName(ScopedName(outer, inner), n);
            var twice := ScopedComponents(ScopedComponents(comps, inner), outer);
            var composed := ScopedComponents(comps, ScopedName(outer, inner));
            name in twice && name in composed &&
            (twice[name] == composed[name] <==> Safe(comps[n], Scope(inner, comps.Keys)))
  {
    NameTwice(outer, inner, n);
    RewriteTwice(comps[n], Scope(inner, comps.Keys), outer);
    assert ScopedName(inner, n) in ScopedComponents(comps, inner);
  }

  lemma NamesTwice(names: set<string>, inner: string, outer: string)
    ensures ScopedNames(ScopedNames(names, inner), outer) == ScopedNames(names, ScopedName(outer, inner))
  {
    forall n | n in names ensures ScopedName(outer, ScopedName(inner, n)) == ScopedName(ScopedName(outer, inner), n) {
      NameTwice(outer, inner, n);
    }
  }

  lemma SafeTwice(comps: Components, inner: string, outer: string)
    requires SafeComponents(comps, inner)
    ensures ScopedComponents(ScopedComponents(comps, inner), outer) == ScopedComponents(comps, ScopedName(outer, inner))
  {
    var twice, composed := ScopedComponents(ScopedComponents(comps, inner), outer), ScopedComponents(comps, ScopedName(outer, inner));
    NamesTwice(comps.Keys, inner, outer);
    forall k | k in composed.Keys ensures k in twice && twice[k] == composed[k] {
      SafeTwiceAt(comps, inner, outer, k);
    }
    SameMap(twice, composed);
  }

  lemma SafeTwiceAt(comps: Components, inner: string, outer: string, k: string)
    requires SafeComponents(comps, inner) && k in ScopedNames(comps.Keys, ScopedName(outer, inner))
    ensures var twice := ScopedComponents(ScopedComponents(comps, inner), outer);
            k in twice && twice[k] == ScopedComponents(comps, ScopedName(outer, inner))[k]
  {
    var n :| n in comps.Keys && k == ScopedName(ScopedName(outer, inner), n);
    ComponentTwice(comps, inner, outer, n);
  }

  lemma SameMap(a: Components, b: Components)
    requires a.Keys == b.Keys && forall k :: k in b ==> a[k] == b[k]
    ensures a == b
  {
  }

  /** Scoping a component map twice is scoping it once by the composed prefix. */
  lemma ComponentsTwice(comps: Components, inner: string, outer: string)
    ensures ScopedComponents(ScopedComponents(comps, inner), outer) == ScopedComponents(comps, ScopedName(outer, inner)) <==>
            SafeComponents(comps, inner)
  {
    if SafeComponents(comps, inner) {
      SafeTwice(comps, inner, outer);
    } else {
      var n :| n in comps && !Safe(comps[n], Scope(inner, comps.Keys));
      ComponentTwice(comps, inner, outer, n);
    }
  }

  // ---- The contract as a whole ------------------------------------------------------------------------

  function ScopedError(e: ErrorSchema, scope: Scope): ErrorSchema {
    e.(data := RewriteOption(e.data, scope), schema := RewriteOption(e.schema, scope))
  }

  method ScopeComponents(prefix: string, comps: Components) returns (scoped: Components)
    ensures scoped == ScopedComponents(comps, prefix)
  {
    ghost var all := ScopedComponents(comps, prefix);
    var todo := comps.Keys;
    scoped := map[];
    while todo != {}
      invariant todo <= comps.Keys
      invariant scoped.Keys == ScopedNames(comps.Keys - todo, prefix)
      invariant forall k :: k in scoped ==> k in all && scoped[k] == all[k]
      decreases todo
    {
      var name :| name in todo;
      ScopedNamesAdd(comps.Keys - todo, name, prefix);
      assert comps.Keys - (todo - {name}) == (comps.Keys - todo) + {name};
      scoped := scoped[ScopedName(prefix, name) := Rewrite(comps[name], Scope(prefix, comps.Keys))];
      todo := todo - {name};
    }
    assert comps.Keys - {} == comps.Keys;
  }

  /** Errors are rewritten in place, the component map is replaced; without a map nothing happens. */
  method ScopeErrorContract(prefix: string, errors: array<ErrorSchema>, schemas: Option<Components>)
    returns (scoped: Option<Components>)
    modifies errors
    ensures schemas.None? ==> scoped.None? && errors[..] == old(errors[..])
    ensures schemas.Some? ==>
              scoped == Some(ScopedComponents(schemas.value, prefix)) &&
              forall i :: 0 <= i < errors.Length ==> errors[i] == ScopedError(old(errors[i]), Scope(prefix, schemas.value.Keys))
  {
    if schemas.None? {
      return None;
    }
    var scope := Scope(prefix, schemas.value.Keys);
    var renamed := ScopeComponents(prefix, schemas.value);
    for i := 0 to errors.Length
      invariant forall j :: 0 <= j < i ==> errors[j] == ScopedError(old(errors[j]), scope)
      invariant forall j :: i <= j < errors.Length ==> errors[j] == old(errors[j])
    {
      errors[i] := errors[i].(data := RewriteOption(errors[i].data, scope), schema := RewriteOption(errors[i].schema, scope));
    }
    scoped := Some(renamed);
  }
}
