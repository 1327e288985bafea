/** The recursive meaning of one validator step: what a schema says about a
    value itself, and which (value, schema) pairs it hands on. */
module Validator {
  import opened Options
  import opened JsonValues
  import opened Pointers

  type Components = map<string, Json>

  /** The issue messages of the validator, with the data they quote. */
  datatype Kind =
    | Forbidden
    | UnguardedRef(reference: string)
    | UnresolvedRef(reference: string)
    | ExpectedConst(constant: Json)
    | NoEnumMember(candidates: seq<Json>)
    | NoBranch(keyword: string)
    | ExpectedType(kind: Json)
    | TooFewItems(expected: nat)
    | MissingProperty
    | UnexpectedProperty
    | InvalidSchema

  datatype Issue = Issue(path: string, kind: Kind)

  /** A value still to be checked: `node` stands for the value's address. */
  datatype Task = Task(value: Json, node: Node, schema: Json)

  datatype Goal = All(task: Task) | Any(keyword: string, tasks: seq<Task>)

  // ---- Keywords -----------------------------------------------------------

  function Reference(o: seq<Member>): Option<string> {
    AsStr(Get(o, "$ref"))
  }

  function Resolve(reference: string, comps: Components): Option<string> {
    var name := ComponentRefName(reference);
    if name.Some? && name.value in comps then name else None
  }

  predicate TypeMatches(kind: string, v: Json) {
    match kind
    case "null" => v.Null?
    case "boolean" => v.Bool?
    case "string" => v.Str?
    case "number" => v.Num?
    case "integer" => v.Num? && (v.n.Int? || v.n.r == v.n.r.Floor as real)
    case "array" => v.Arr?
    case "object" => v.Obj?
    case _ => false
  }

  predicate TypeOk(kind: Json, v: Json) {
    match kind
    case Str(k) => TypeMatches(k, v)
    case Arr(kinds) => exists i :: 0 <= i < |kinds| && kinds[i].Str? && TypeMatches(kinds[i].s, v)
    case _ => false
  }

  predicate BadType(v: Json, o: seq<Member>) {
    var kind := Get(o, "type");
    kind.Some? && !TypeOk(kind.value, v)
  }

  function ConstIssues(v: Json, node: Node, o: seq<Member>): seq<Issue> {
    var constant := Get(o, "const");
    if constant.Some? && !Equal(v, constant.value)
    then [Issue(Pointer(node), ExpectedConst(constant.value))] else []
  }

  predicate InEnum(v: Json, candidates: seq<Json>) {
    exists i :: 0 <= i < |candidates| && Equal(candidates[i], v)
  }

  function EnumIssues(v: Json, node: Node, o: seq<Member>): seq<Issue> {
    var values := AsArray(Get(o, "enum"));
    if values.Some? && !InEnum(v, values.value)
    then [Issue(Pointer(node), NoEnumMember(values.value))] else []
  }

  function Prefix(o: seq<Member>): seq<Json> {
    AsArray(Get(o, "prefixItems")).GetOr([])
  }

  function LengthIssues(v: Json, node: Node, o: seq<Member>): seq<Issue> {
    if v.Arr? && |v.items| < |Prefix(o)| then [Issue(Pointer(node), TooFewItems(|Prefix(o)|))] else []
  }

  function MissingIssues(ms: seq<Member>, node: Node, required: seq<Json>): seq<Issue> {
    if required == [] then []
    else
      var name := required[|required| - 1];
      MissingIssues(ms, node, required[..|required| - 1]) +
      if name.Str? && !Has(ms, name.s) then [Issue(Pointer(node + [Key(name.s)]), MissingProperty)] else []
  }

  function Properties(o: seq<Member>): seq<Member> {
    var properties := Get(o, "properties");
    if properties.Some? && properties.value.Obj? then properties.value.members else []
  }

  function Additional(o: seq<Member>): Option<Json> {
    Get(o, "additionalProperties")
  }

  /** The schema of member `key`: its own, else `additionalProperties`. */
  function MemberSchema(properties: seq<Member>, additional: Option<Json>, key: string): Option<Json> {
    var own := Get(properties, key);
    if own.Some? then own else additional
  }

  /** A member without a schema of its own where `additionalProperties` is `false`. */
  predicate Closed(properties: seq<Member>, additional: Option<Json>, key: string) {
    !Has(properties, key) && additional == Some(Bool(false))
  }

  function UnexpectedIssues(ms: seq<Member>, node: Node, properties: seq<Member>, additional: Option<Json>): seq<Issue> {
    if ms == [] then []
    else
      var key := ms[|ms| - 1].key;
      UnexpectedIssues(ms[..|ms| - 1], node, properties, additional) +
      if Closed(properties, additional, key) then [Issue(Pointer(node + [Key(key)]), UnexpectedProperty)] else []
  }

  function Required(o: seq<Member>): seq<Json> {
    AsArray(Get(o, "required")).GetOr([])
  }

  function ValueIssues(v: Json, node: Node, o: seq<Member>): seq<Issue> {
    ConstIssues(v, node, o) + EnumIssues(v, node, o)
  }

  /** What the length of an array or the members of an object are missing or have too much. */
  function StructureIssues(v: Json, node: Node, o: seq<Member>): seq<Issue> {
    if v.Arr? then LengthIssues(v, node, o)
    else if v.Obj? then
      MissingIssues(v.members, node, Required(o)) +
      UnexpectedIssues(v.members, node, Properties(o), Additional(o))
    else []
  }

  /** What the node's own keywords find, in the order the loop reports it. */
  function Own(v: Json, node: Node, o: seq<Member>): seq<Issue> {
    ValueIssues(v, node, o) +
    if BadType(v, o) then [Issue(Pointer(node), ExpectedType(Get(o, "type").value))] else StructureIssues(v, node, o)
  }

  // ---- What is handed on ----------------------------------------------------

  function Branches(o: seq<Member>, keyword: string): seq<Json> {
    AsArray(Get(o, keyword)).GetOr([])
  }

  function Tasks(v: Json, node: Node, branches: seq<Json>): seq<Task> {
    seq(|branches|, i requires 0 <= i < |branches| => Task(v, node, branches[i]))
  }

  function AllGoals(v: Json, node: Node, branches: seq<Json>): seq<Goal> {
    seq(|branches|, i requires 0 <= i < |branches| => All(Task(v, node, branches[i])))
  }

  function AnyGoals(v: Json, node: Node, o: seq<Member>, keyword: string): seq<Goal> {
    var branches := AsArray(Get(o, keyword));
    if branches.Some? then [Any(keyword, Tasks(v, node, branches.value))] else []
  }

  function BranchGoals(v: Json, node: Node, o: seq<Member>): seq<Goal> {
    AllGoals(v, node, Branches(o, "allOf")) + AnyGoals(v, node, o, "anyOf") + AnyGoals(v, node, o, "oneOf")
  }

  function ItemGoal(items: seq<Json>, node: Node, i: nat, schema: Json): Goal
    requires i < |items|
  {
    All(Task(items[i], node + [Index(i)], schema))
  }

  function PrefixGoals(items: seq<Json>, node: Node, prefix: seq<Json>): seq<Goal> {
    seq(if |prefix| <= |items| then |prefix| else |items|,
        i requires 0 <= i < |prefix| && i < |items| => ItemGoal(items, node, i, prefix[i]))
  }

  function RestGoals(items: seq<Json>, node: Node, from: nat, schema: Option<Json>): seq<Goal> {
    if schema.None? || |items| <= from then []
    else seq(|items| - from, i requires 0 <= i < |items| - from => ItemGoal(items, node, from + i, schema.value))
  }

  /** The goal of one member, if a schema applies to it. */
  function MemberGoal(m: Member, node: Node, properties: seq<Member>, additional: Option<Json>): seq<Goal> {
    var schema := MemberSchema(properties, additional, m.key);
    if schema.Some? && !Closed(properties, additional, m.key)
    then [All(Task(m.val, node + [Key(m.key)], schema.value))] else []
  }

  function MemberGoals(ms: seq<Member>, node: Node, properties: seq<Member>, additional: Option<Json>): seq<Goal> {
    if ms == [] then []
    else
      MemberGoals(ms[..|ms| - 1], node, properties, additional) +
      MemberGoal(ms[|ms| - 1], node, properties, additional)
  }

  function ArrayGoals(v: Json, node: Node, o: seq<Member>): seq<Goal> {
    if v.Arr? then PrefixGoals(v.items, node, Prefix(o)) + RestGoals(v.items, node, |Prefix(o)|, Get(o, "items")) else []
  }

  function ObjectGoals(v: Json, node: Node, o: seq<Member>): seq<Goal> {
    if v.Obj? then MemberGoals(v.members, node, Properties(o), Additional(o)) else []
  }

  /** Nothing is handed on after a type mismatch. */
  function Goals(v: Json, node: Node, o: seq<Member>): seq<Goal> {
    if BadType(v, o) then []
    else BranchGoals(v, node, o) + (ArrayGoals(v, node, o) + ObjectGoals(v, node, o))
  }

  // ---- Everything handed on is smaller ---------------------------------------

  predicate IsChild(c: Json, v: Json) {
    match v
    case Arr(items) => c in items
    case Obj(ms) => exists i :: 0 <= i < |ms| && ms[i].val == c
    case _ => false
  }

  /** The same value under a part of the schema, or a child of the value. */
  ghost predicate SmallerTask(t: Task, p: Task) {
    (t.value == p.value && t.node == p.node && t.schema < p.schema) ||
    (IsChild(t.value, p.value) && |t.node| == |p.node| + 1)
  }

  ghost predicate SmallerGoal(g: Goal, p: Task) {
    match g
    case All(t) => SmallerTask(t, p)
    case Any(_, tasks) => forall i :: 0 <= i < |tasks| ==> SmallerTask(tasks[i], p)
  }

  ghost predicate SmallerGoals(goals: seq<Goal>, p: Task) {
    forall i :: 0 <= i < |goals| ==> SmallerGoal(goals[i], p)
  }

  lemma {:induction false} MemberGoalsSmaller(p: Task, ms: seq<Member>, properties: seq<Member>, additional: Option<Json>)
    requires forall i :: 0 <= i < |ms| ==> IsChild(ms[i].val, p.value)
    ensures SmallerGoals(MemberGoals(ms, p.node, properties, additional), p)
  {
    if ms != [] { MemberGoalsSmaller(p, ms[..|ms| - 1], properties, additional); }
  }

  lemma BranchGoalsSmaller(p: Task)
    requires p.schema.Obj?
    ensures SmallerGoals(BranchGoals(p.value, p.node, p.schema.members), p)
  {
    var v, node, o := p.value, p.node, p.schema.members;
    assert SmallerGoals(AllGoals(v, node, Branches(o, "allOf")), p);
    assert SmallerGoals(AnyGoals(v, node, o, "anyOf"), p);
    assert SmallerGoals(AnyGoals(v, node, o, "oneOf"), p);
  }

  lemma ArrayGoalsSmaller(p: Task)
    requires p.schema.Obj?
    ensures SmallerGoals(ArrayGoals(p.value, p.node, p.schema.members), p)
  {
    if p.value.Arr? {
      var items, o := p.value.items, p.schema.members;
      assert SmallerGoals(PrefixGoals(items, p.node, Prefix(o)), p);
      var rest := RestGoals(items, p.node, |Prefix(o)|, Get(o, "items"));
      forall i | 0 <= i < |rest| ensures SmallerGoal(rest[i], p) {
        assert rest[i] == ItemGoal(items, p.node, |Prefix(o)| + i, Get(o, "items").value);
      }
    }
  }

  lemma GoalsSmaller(p: Task)
    requires p.schema.Obj?
    ensures SmallerGoals(Goals(p.value, p.node, p.schema.members), p)
  {
    BranchGoalsSmaller(p);
    ArrayGoalsSmaller(p);
    if p.value.Obj? { MemberGoalsSmaller(p, p.value.members, Properties(p.schema.members), Additional(p.schema.members)); }
    assert SmallerGoals(ObjectGoals(p.value, p.node, p.schema.members), p);
  }

  // ---- The recursive validator -----------------------------------------------

  function Flatten(rs: seq<seq<Issue>>): seq<Issue> {
    if rs == [] then [] else rs[0] + Flatten(rs[1..])
  }

  /** The names active at a task handed on by `p`: a child value starts afresh. */
  function NamesFor(t: Task, p: Task, names: set<string>): set<string> {
    if t.node == p.node then names else {}
  }

  /** All issues of a task; `names` are the components being unfolded at its node. */
  function Issues(t: Task, comps: Components, names: set<string>): seq<Issue>
    decreases t.value, comps.Keys - names, t.schema, 2, 0
  {
    match t.schema
    case Bool(allowed) => if allowed then [] else [Issue(Pointer(t.node), Forbidden)]
    case Obj(o) =>
      var reference := Reference(o);
      if reference.Some? then
        var name := Resolve(reference.value, comps);
        if name.None? then [Issue(Pointer(t.node), UnresolvedRef(reference.value))]
        else if name.value in names then [Issue(Pointer(t.node), UnguardedRef(reference.value))]
        else Issues(t.(schema := comps[name.value]), comps, names + {name.value})
      else
        GoalsSmaller(t);
        Own(t.value, t.node, o) + Flatten(GoalResults(Goals(t.value, t.node, o), t, comps, names))
    case _ => [Issue(Pointer(t.node), InvalidSchema)]
  }

  /** One result a goal, the last goal first. */
  function GoalResults(goals: seq<Goal>, p: Task, comps: Components, names: set<string>): (rs: seq<seq<Issue>>)
    requires SmallerGoals(goals, p)
    ensures |rs| == |goals|
    decreases p.value, comps.Keys - names, p.schema, 1, |goals|
  {
    if goals == [] then []
    else [GoalIssues(goals[|goals| - 1], p, comps, names)] + GoalResults(goals[..|goals| - 1], p, comps, names)
  }

  function GoalIssues(g: Goal, p: Task, comps: Components, names: set<string>): seq<Issue>
    requires SmallerGoal(g, p)
    decreases p.value, comps.Keys - names, p.schema, 1, 0
  {
    match g
    case All(t) => Issues(t, comps, NamesFor(t, p, names))
    case Any(keyword, tasks) => UnionIssues(Pointer(p.node), keyword, TaskResults(tasks, p, comps, names))
  }

  /** One result a branch, the last branch first. */
  function TaskResults(tasks: seq<Task>, p: Task, comps: Components, names: set<string>): (rs: seq<seq<Issue>>)
    requires forall i :: 0 <= i < |tasks| ==> SmallerTask(tasks[i], p)
    ensures |rs| == |tasks|
    decreases p.value, comps.Keys - names, p.schema, 0, |tasks|
  {
    if tasks == [] then []
    else
      var t := tasks[|tasks| - 1];
      assert SmallerTask(t, p);
      [Issues(t, comps, NamesFor(t, p, names))] + TaskResults(tasks[..|tasks| - 1], p, comps, names)
  }

  predicate SomeEmpty(rs: seq<seq<Issue>>) {
    exists i :: 0 <= i < |rs| && rs[i] == []
  }

  function UnionIssues(path: string, keyword: string, rs: seq<seq<Issue>>): seq<Issue> {
    if SomeEmpty(rs) then [] else [Issue(path, NoBranch(keyword))] + Flatten(rs)
  }

  /** A node's issues are its own ones, then those of its goals from last to first. */
  lemma NodeIs(t: Task, comps: Components, names: set<string>)
    requires t.schema.Obj? && Reference(t.schema.members).None?
    ensures var goals := Goals(t.value, t.node, t.schema.members);
            SmallerGoals(goals, t) &&
            Issues(t, comps, names) == Own(t.value, t.node, t.schema.members) + Flatten(GoalResults(goals, t, comps, names))
  {
    GoalsSmaller(t);
  }
}
