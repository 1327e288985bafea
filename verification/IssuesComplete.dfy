/** What is in the issue list: for every part of the contract that is checked and counts, what it
    rejects, and nothing else. */
module IssuesComplete {
  import opened Options
  import opened JsonValues
  import opened Pointers
  import opened Validator
  import opened SchemaMeaning

  /** A task together with the components being unfolded at its node. */
  datatype Checked = Checked(task: Task, names: set<string>)

  // ---- What is checked ----------------------------------------------------------------------

  /** The schema of an item: that of its place in the prefix, else `items`. */
  function ItemSchema(o: seq<Member>, i: nat): Option<Json> {
    if i < |Prefix(o)| then Some(Prefix(o)[i]) else Get(o, "items")
  }

  ghost predicate EveryLeads(p: Task, x: Task)
    requires p.schema.Obj?
  {
    exists i :: 0 <= i < |Branches(p.schema.members, "allOf")| && x == p.(schema := Branches(p.schema.members, "allOf")[i])
  }

  ghost predicate ItemLeads(p: Task, x: Task)
    requires p.schema.Obj?
  {
    p.value.Arr? && exists i: nat :: ItemAt(p, x, i)
  }

  ghost predicate ItemAt(p: Task, x: Task, i: nat)
    requires p.schema.Obj? && p.value.Arr?
  {
    i < |p.value.items| && ItemSchema(p.schema.members, i) == Some(x.schema) &&
    x.value == p.value.items[i] && x.node == p.node + [Index(i)]
  }

  ghost predicate MemberLeads(p: Task, x: Task)
    requires p.schema.Obj?
  {
    p.value.Obj? && exists i: nat :: MemberAt(p, x, i)
  }

  ghost predicate MemberAt(p: Task, x: Task, i: nat)
    requires p.schema.Obj? && p.value.Obj?
  {
    var o := p.schema.members;
    i < |p.value.members| &&
    var m := p.value.members[i];
    && !Closed(Properties(o), Additional(o), m.key)
    && MemberSchema(Properties(o), Additional(o), m.key) == Some(x.schema)
    && x.value == m.val && x.node == p.node + [Key(m.key)]
  }

  /** A branch counts if no branch of its union fits. */
  ghost predicate UnionLeads(p: Task, x: Task, keyword: string, comps: Components)
    requires p.schema.Obj?
  {
    NoneFits(p, keyword, comps) &&
    exists i :: 0 <= i < |Branches(p.schema.members, keyword)| && x == p.(schema := Branches(p.schema.members, keyword)[i])
  }

  ghost predicate NoneFits(p: Task, keyword: string, comps: Components)
    requires p.schema.Obj?
  {
    AsArray(Get(p.schema.members, keyword)).Some? &&
    forall i :: 0 <= i < |Branches(p.schema.members, keyword)| ==> !Fits(p.value, Branches(p.schema.members, keyword)[i], comps)
  }

  /** One step from a checked task to the next: into a component, a part, an item or a member. */
  ghost predicate Leads(c: Checked, d: Checked, comps: Components) {
    c.task.schema.Obj? &&
    var o := c.task.schema.members;
    if Reference(o).Some? then
      var name := Resolve(Reference(o).value, comps);
      name.Some? && name.value !in c.names && d == Checked(c.task.(schema := comps[name.value]), c.names + {name.value})
    else
      && !BadType(c.task.value, o)
      && ((d.names == c.names &&
           (EveryLeads(c.task, d.task) || UnionLeads(c.task, d.task, "anyOf", comps) || UnionLeads(c.task, d.task, "oneOf", comps))) ||
          (d.names == {} && (ItemLeads(c.task, d.task) || MemberLeads(c.task, d.task))))
  }

  /** From `c` the validation gets to `d`. */
  ghost predicate Trail(trail: seq<Checked>, c: Checked, d: Checked, comps: Components) {
    trail != [] && trail[0] == c && trail[|trail| - 1] == d &&
    forall i :: 0 <= i < |trail| - 1 ==> Leads(trail[i], trail[i + 1], comps)
  }

  ghost predicate Counts(c: Checked, d: Checked, comps: Components) {
    exists trail :: Trail(trail, c, d, comps)
  }

  // ---- What it rejects -------------------------------------------------------------------------

  /** The issue that a part has with its value, by itself. */
  ghost predicate Rejects(c: Checked, issue: Issue, comps: Components) {
    var t := c.task;
    match t.schema
    case Bool(allowed) => !allowed && issue == Issue(Pointer(t.node), Forbidden)
    case Obj(o) =>
      if Reference(o).Some? then issue.path == Pointer(t.node) && ReferenceRejects(c, Reference(o).value, issue.kind, comps)
      else KeywordRejects(t, o, issue, comps)
    case _ => issue == Issue(Pointer(t.node), InvalidSchema)
  }

  ghost predicate ReferenceRejects(c: Checked, reference: string, kind: Kind, comps: Components) {
    var name := Resolve(reference, comps);
    if name.None? then kind == UnresolvedRef(reference) else name.value in c.names && kind == UnguardedRef(reference)
  }

  ghost predicate KeywordRejects(t: Task, o: seq<Member>, issue: Issue, comps: Components)
    requires t.schema == Obj(o)
  {
    || (issue.path == Pointer(t.node) && ValueRejects(t.value, o, issue.kind))
    || (!BadType(t.value, o) && MemberRejects(t, o, issue))
    || (!BadType(t.value, o) && issue.path == Pointer(t.node) && issue.kind.NoBranch? &&
        issue.kind.keyword in ["anyOf", "oneOf"] && NoneFits(t, issue.kind.keyword, comps))
  }

  ghost predicate ValueRejects(v: Json, o: seq<Member>, kind: Kind) {
    match kind
    case ExpectedConst(constant) => Get(o, "const") == Some(constant) && !Equal(v, constant)
    case NoEnumMember(candidates) => AsArray(Get(o, "enum")) == Some(candidates) && !InEnum(v, candidates)
    case ExpectedType(k) => Get(o, "type") == Some(k) && !TypeOk(k, v)
    case TooFewItems(n) => !BadType(v, o) && v.Arr? && n == |Prefix(o)| && |v.items| < n
    case _ => false
  }

  ghost predicate MemberRejects(t: Task, o: seq<Member>, issue: Issue) {
    t.value.Obj? && exists key :: issue.path == Pointer(t.node + [Key(key)]) && MemberRejected(t.value.members, o, key, issue.kind)
  }

  ghost predicate MemberRejected(ms: seq<Member>, o: seq<Member>, key: string, kind: Kind) {
    match kind
    case MissingProperty => Str(key) in Required(o) && !Has(ms, key)
    case UnexpectedProperty => Has(ms, key) && Closed(Properties(o), Additional(o), key)
    case _ => false
  }

  // ---- A node's own issues -----------------------------------------------------------------------

  lemma {:induction false} MissingExact(ms: seq<Member>, node: Node, required: seq<Json>, issue: Issue)
    ensures issue in MissingIssues(ms, node, required) <==>
            issue.kind == MissingProperty &&
            exists key :: issue.path == Pointer(node + [Key(key)]) && Str(key) in required && !Has(ms, key)
  {
    if required != [] {
      var init, name := required[..|required| - 1], required[|required| - 1];
      MissingExact(ms, node, init, issue);
      assert required == init + [name];
    }
  }

  lemma {:induction false} UnexpectedExact(ms: seq<Member>, node: Node, properties: seq<Member>, additional: Option<Json>, issue: Issue)
    ensures issue in UnexpectedIssues(ms, node, properties, additional) <==>
            issue.kind == UnexpectedProperty &&
            exists key :: issue.path == Pointer(node + [Key(key)]) && KeyIn(ms, key) && Closed(properties, additional, key)
  {
    if ms != [] {
      var init, last := ms[..|ms| - 1], ms[|ms| - 1];
      UnexpectedExact(init, node, properties, additional, issue);
      forall key ensures KeyIn(ms, key) <==> KeyIn(init, key) || key == last.key { KeyInLast(ms, key); }
    }
  }

  ghost predicate KeyIn(ms: seq<Member>, key: string) {
    exists i :: 0 <= i < |ms| && ms[i].key == key
  }

  lemma KeyInLast(ms: seq<Member>, key: string)
    requires ms != []
    ensures KeyIn(ms, key) <==> KeyIn(ms[..|ms| - 1], key) || key == ms[|ms| - 1].key
  {
    var init := ms[..|ms| - 1];
    assert forall i :: 0 <= i < |init| ==> init[i] == ms[i];
    if KeyIn(init, key) {
      var i :| 0 <= i < |init| && init[i].key == key;
      assert ms[i].key == key;
    }
  }

  lemma HasKey(ms: seq<Member>, key: string)
    ensures KeyIn(ms, key) <==> Has(ms, key)
  {
  }

  lemma ValueExact(v: Json, node: Node, o: seq<Member>, issue: Issue)
    ensures issue in ValueIssues(v, node, o) <==>
            issue.path == Pointer(node) && (issue.kind.ExpectedConst? || issue.kind.NoEnumMember?) && ValueRejects(v, o, issue.kind)
  {
  }

  lemma MembersExact(t: Task, o: seq<Member>, issue: Issue)
    requires t.value.Obj?
    ensures issue in MissingIssues(t.value.members, t.node, Required(o)) ||
            issue in UnexpectedIssues(t.value.members, t.node, Properties(o), Additional(o)) <==>
            MemberRejects(t, o, issue)
  {
    MissingExact(t.value.members, t.node, Required(o), issue);
    UnexpectedExact(t.value.members, t.node, Properties(o), Additional(o), issue);
    forall key ensures KeyIn(t.value.members, key) <==> Has(t.value.members, key) { HasKey(t.value.members, key); }
    if MemberRejects(t, o, issue) {
      var key :| issue.path == Pointer(t.node + [Key(key)]) && MemberRejected(t.value.members, o, key, issue.kind);
    }
    if issue in MissingIssues(t.value.members, t.node, Required(o)) {
      var key :| issue.path == Pointer(t.node + [Key(key)]) && Str(key) in Required(o) && !Has(t.value.members, key);
      assert MemberRejected(t.value.members, o, key, issue.kind);
    }
    if issue in UnexpectedIssues(t.value.members, t.node, Properties(o), Additional(o)) {
      var key :| issue.path == Pointer(t.node + [Key(key)]) && KeyIn(t.value.members, key) && Closed(Properties(o), Additional(o), key);
      assert MemberRejected(t.value.members, o, key, issue.kind);
    }
  }

  lemma StructureExact(t: Task, o: seq<Member>, issue: Issue)
    ensures issue in StructureIssues(t.value, t.node, o) <==>
            (t.value.Arr? && |t.value.items| < |Prefix(o)| && issue == Issue(Pointer(t.node), TooFewItems(|Prefix(o)|))) ||
            MemberRejects(t, o, issue)
  {
    if t.value.Obj? { MembersExact(t, o, issue); }
  }

  /** A node's own issues are what its keywords reject by themselves. */
  lemma OwnExact(t: Task, o: seq<Member>, issue: Issue)
    ensures issue in Own(t.value, t.node, o) <==>
            (issue.path == Pointer(t.node) && ValueRejects(t.value, o, issue.kind)) ||
            (!BadType(t.value, o) && MemberRejects(t, o, issue))
  {
    ValueExact(t.value, t.node, o, issue);
    if !BadType(t.value, o) { StructureExact(t, o, issue); }
  }

  // ---- What a node hands on -------------------------------------------------------------------------

  ghost predicate HandsOn(p: Task, x: Task)
    requires p.schema.Obj?
  {
    !BadType(p.value, p.schema.members) && (EveryLeads(p, x) || ItemLeads(p, x) || MemberLeads(p, x))
  }

  lemma EveryExact(p: Task, x: Task)
    requires p.schema.Obj?
    ensures All(x) in AllGoals(p.value, p.node, Branches(p.schema.members, "allOf")) <==> EveryLeads(p, x)
  {
    var branches := Branches(p.schema.members, "allOf");
    var goals := AllGoals(p.value, p.node, branches);
    forall i | 0 <= i < |branches| ensures goals[i] == All(p.(schema := branches[i])) {}
  }

  lemma ItemExact(p: Task, x: Task)
    requires p.schema.Obj?
    ensures All(x) in ArrayGoals(p.value, p.node, p.schema.members) <==> ItemLeads(p, x)
  {
    if p.value.Arr? {
      var items, o := p.value.items, p.schema.members;
      var first, rest := PrefixGoals(items, p.node, Prefix(o)), RestGoals(items, p.node, |Prefix(o)|, Get(o, "items"));
      forall i | 0 <= i < |first| ensures ItemAt(p, first[i].task, i) && first[i].All? {}
      forall i | 0 <= i < |rest| ensures rest[i].All? && ItemAt(p, rest[i].task, |Prefix(o)| + i) {
        assert rest[i] == ItemGoal(items, p.node, |Prefix(o)| + i, Get(o, "items").value);
      }
      if ItemLeads(p, x) {
        var i: nat :| ItemAt(p, x, i);
        if i < |Prefix(o)| {
          assert first[i] == All(x);
        } else {
          assert rest[i - |Prefix(o)|] == ItemGoal(items, p.node, i, Get(o, "items").value);
        }
      }
      if All(x) in first {
        var i :| 0 <= i < |first| && first[i] == All(x);
        assert ItemAt(p, x, i);
      }
      if All(x) in rest {
        var i :| 0 <= i < |rest| && rest[i] == All(x);
        assert ItemAt(p, x, |Prefix(o)| + i);
      }
    }
  }

  lemma OneMemberExact(p: Task, x: Task, i: nat)
    requires p.schema.Obj? && p.value.Obj? && i < |p.value.members|
    ensures var o := p.schema.members;
            All(x) in MemberGoal(p.value.members[i], p.node, Properties(o), Additional(o)) <==> MemberAt(p, x, i)
  {
  }

  lemma {:induction false} MemberExact(p: Task, x: Task, k: nat)
    requires p.schema.Obj? && p.value.Obj? && k <= |p.value.members|
    ensures var o := p.schema.members;
            All(x) in MemberGoals(p.value.members[..k], p.node, Properties(o), Additional(o)) <==>
            exists i: nat :: i < k && MemberAt(p, x, i)
  {
    if k > 0 {
      var ms, o := p.value.members, p.schema.members;
      MemberExact(p, x, k - 1);
      assert ms[..k][..k - 1] == ms[..k - 1];
      OneMemberExact(p, x, k - 1);
      LastIn(All(x), MemberGoals(ms[..k - 1], p.node, Properties(o), Additional(o)), MemberGoal(ms[k - 1], p.node, Properties(o), Additional(o)));
    }
  }

  lemma LastIn(g: Goal, xs: seq<Goal>, ys: seq<Goal>)
    ensures g in xs + ys <==> g in xs || g in ys
  {
  }

  /** A node hands on exactly its parts with the value, its items and its members. */
  lemma HandsOnExact(p: Task, x: Task)
    requires p.schema.Obj?
    ensures All(x) in Goals(p.value, p.node, p.schema.members) <==> HandsOn(p, x)
  {
    var v, node, o := p.value, p.node, p.schema.members;
    EveryExact(p, x);
    ItemExact(p, x);
    if v.Obj? {
      assert v.members[..|v.members|] == v.members;
      MemberExact(p, x, |v.members|);
    }
    assert All(x) !in AnyGoals(v, node, o, "anyOf") && All(x) !in AnyGoals(v, node, o, "oneOf");
  }

  /** And exactly its unions. */
  lemma UnionsExact(p: Task, keyword: string, tasks: seq<Task>)
    requires p.schema.Obj?
    ensures Any(keyword, tasks) in Goals(p.value, p.node, p.schema.members) <==>
            !BadType(p.value, p.schema.members) && keyword in ["anyOf", "oneOf"] &&
            AsArray(Get(p.schema.members, keyword)).Some? && tasks == Tasks(p.value, p.node, Branches(p.schema.members, keyword))
  {
    var v, node, o := p.value, p.node, p.schema.members;
    var g := Any(keyword, tasks);
    assert g !in AllGoals(v, node, Branches(o, "allOf"));
    NoUnionBelow(p, g);
  }

  lemma NoUnionBelow(p: Task, g: Goal)
    requires p.schema.Obj? && g.Any?
    ensures g !in ArrayGoals(p.value, p.node, p.schema.members) && g !in ObjectGoals(p.value, p.node, p.schema.members)
  {
    if p.value.Arr? {
      var rest := RestGoals(p.value.items, p.node, |Prefix(p.schema.members)|, Get(p.schema.members, "items"));
      forall i | 0 <= i < |rest| ensures rest[i].All? {
        assert rest[i] == ItemGoal(p.value.items, p.node, |Prefix(p.schema.members)| + i, Get(p.schema.members, "items").value);
      }
    }
    if p.value.Obj? { NoUnionMembers(p.value.members, p.node, Properties(p.schema.members), Additional(p.schema.members), g); }
  }

  lemma {:induction false} NoUnionMembers(ms: seq<Member>, node: Node, properties: seq<Member>, additional: Option<Json>, g: Goal)
    requires g.Any?
    ensures g !in MemberGoals(ms, node, properties, additional)
  {
    if ms != [] { NoUnionMembers(ms[..|ms| - 1], node, properties, additional, g); }
  }

  // ---- Everything rejected is in the list ------------------------------------------------------------

  lemma {:induction false} InFlatten(rs: seq<seq<Issue>>, i: nat, issue: Issue)
    requires i < |rs| && issue in rs[i]
    ensures issue in Flatten(rs)
  {
    if i > 0 { InFlatten(rs[1..], i - 1, issue); }
  }

  lemma {:induction false} FromFlatten(rs: seq<seq<Issue>>, issue: Issue) returns (i: nat)
    requires issue in Flatten(rs)
    ensures i < |rs| && issue in rs[i]
  {
    if issue in rs[0] {
      i := 0;
    } else {
      i := FromFlatten(rs[1..], issue);
      i := i + 1;
    }
  }

  ghost predicate Plain(t: Task) {
    t.schema.Obj? && Reference(t.schema.members).None?
  }

  /** A node's issues are its own ones and those of its goals. */
  lemma NodeExact(t: Task, comps: Components, names: set<string>, issue: Issue)
    requires Plain(t)
    ensures var goals := Goals(t.value, t.node, t.schema.members);
            SmallerGoals(goals, t) &&
            (issue in Issues(t, comps, names) <==>
             issue in Own(t.value, t.node, t.schema.members) ||
             exists i: nat :: GoalHas(goals, t, comps, names, i, issue))
  {
    NodeIs(t, comps, names);
    GoalsExact(Goals(t.value, t.node, t.schema.members), t, comps, names, issue);
  }

  ghost predicate GoalHas(goals: seq<Goal>, p: Task, comps: Components, names: set<string>, i: nat, issue: Issue)
    requires SmallerGoals(goals, p)
  {
    i < |goals| && issue in GoalIssues(goals[i], p, comps, names)
  }

  lemma GoalsExact(goals: seq<Goal>, p: Task, comps: Components, names: set<string>, issue: Issue)
    requires SmallerGoals(goals, p)
    ensures issue in Flatten(GoalResults(goals, p, comps, names)) <==> exists i: nat :: GoalHas(goals, p, comps, names, i, issue)
  {
    if issue in Flatten(GoalResults(goals, p, comps, names)) { var i := FromGoal(goals, p, comps, names, issue); }
    if i: nat :| GoalHas(goals, p, comps, names, i, issue) { InGoal(goals, p, comps, names, i, issue); }
  }

  lemma InGoal(goals: seq<Goal>, p: Task, comps: Components, names: set<string>, i: nat, issue: Issue)
    requires SmallerGoals(goals, p) && GoalHas(goals, p, comps, names, i, issue)
    ensures issue in Flatten(GoalResults(goals, p, comps, names))
  {
    GoalResultAt(goals, p, comps, names, i);
    InFlatten(GoalResults(goals, p, comps, names), |goals| - 1 - i, issue);
  }

  lemma FromGoal(goals: seq<Goal>, p: Task, comps: Components, names: set<string>, issue: Issue) returns (i: nat)
    requires SmallerGoals(goals, p) && issue in Flatten(GoalResults(goals, p, comps, names))
    ensures GoalHas(goals, p, comps, names, i, issue)
  {
    var rs := GoalResults(goals, p, comps, names);
    var k := FromFlatten(rs, issue);
    i := |goals| - 1 - k;
    assert rs[k] == GoalIssues(goals[i], p, comps, names) by { GoalResultAt(goals, p, comps, names, i); }
  }

  /** What fits has no issues, so what has none of its own branches fitting has issues in each. */
  lemma UnfitHasIssues(t: Task, comps: Components, names: set<string>)
    requires !Fits(t.value, t.schema, comps)
    ensures Issues(t, comps, names) != []
  {
    if Issues(t, comps, names) == [] {
      DepthRanks();
      CleanAccepts(t, Depth, comps, names, Bound(Depth(t.value), comps, names));
    }
  }

  /** The results of a union's branches, from last to first. */
  lemma BranchResult(p: Task, keyword: string, tasks: seq<Task>, comps: Components, names: set<string>, i: nat)
    requires SmallerGoal(Any(keyword, tasks), p) && i < |tasks| && tasks[i].node == p.node
    ensures TaskResults(tasks, p, comps, names)[|tasks| - 1 - i] == Issues(tasks[i], comps, names)
  {
    assert SmallerTask(tasks[i], p);
    TaskResultAt(tasks, p, comps, names, i);
  }

  lemma FailedResults(p: Task, keyword: string, tasks: seq<Task>, comps: Components, names: set<string>)
    requires SmallerGoal(Any(keyword, tasks), p)
    requires forall i :: 0 <= i < |tasks| ==> tasks[i].node == p.node && Issues(tasks[i], comps, names) != []
    ensures !SomeEmpty(TaskResults(tasks, p, comps, names))
  {
    var rs := TaskResults(tasks, p, comps, names);
    if SomeEmpty(rs) {
      var k :| 0 <= k < |rs| && rs[k] == [];
      BranchResult(p, keyword, tasks, comps, names, |tasks| - 1 - k);
    }
  }

  /** The issues of a union that no branch fits: that, and those of every branch. */
  lemma UnionExact(p: Task, keyword: string, tasks: seq<Task>, comps: Components, names: set<string>, issue: Issue)
    requires SmallerGoal(Any(keyword, tasks), p)
    requires forall i :: 0 <= i < |tasks| ==> tasks[i].node == p.node && Issues(tasks[i], comps, names) != []
    ensures issue in GoalIssues(Any(keyword, tasks), p, comps, names) <==>
            issue == Issue(Pointer(p.node), NoBranch(keyword)) || exists i :: 0 <= i < |tasks| && issue in Issues(tasks[i], comps, names)
  {
    FailedResults(p, keyword, tasks, comps, names);
    if issue in Flatten(TaskResults(tasks, p, comps, names)) {
      var i := FromBranch(p, keyword, tasks, comps, names, issue);
    }
    if i :| 0 <= i < |tasks| && issue in Issues(tasks[i], comps, names) {
      InBranch(p, keyword, tasks, comps, names, i, issue);
    }
  }

  lemma InBranch(p: Task, keyword: string, tasks: seq<Task>, comps: Components, names: set<string>, i: nat, issue: Issue)
    requires SmallerGoal(Any(keyword, tasks), p) && i < |tasks| && tasks[i].node == p.node
    requires issue in Issues(tasks[i], comps, names)
    ensures issue in Flatten(TaskResults(tasks, p, comps, names))
  {
    BranchResult(p, keyword, tasks, comps, names, i);
    InFlatten(TaskResults(tasks, p, comps, names), |tasks| - 1 - i, issue);
  }

  lemma FromBranch(p: Task, keyword: string, tasks: seq<Task>, comps: Components, names: set<string>, issue: Issue) returns (i: nat)
    requires SmallerGoal(Any(keyword, tasks), p) && forall j :: 0 <= j < |tasks| ==> tasks[j].node == p.node
    requires issue in Flatten(TaskResults(tasks, p, comps, names))
    ensures i < |tasks| && issue in Issues(tasks[i], comps, names)
  {
    var rs := TaskResults(tasks, p, comps, names);
    var k := FromFlatten(rs, issue);
    i := |tasks| - 1 - k;
    assert rs[k] == Issues(tasks[i], comps, names) by { BranchResult(p, keyword, tasks, comps, names, i); }
  }

  /** The issue is the union's own, or one of its branches has it. */
  ghost predicate OfUnion(p: Task, keyword: string, comps: Components, names: set<string>, issue: Issue)
    requires p.schema.Obj?
  {
    issue == Issue(Pointer(p.node), NoBranch(keyword)) ||
    exists i :: 0 <= i < |Branches(p.schema.members, keyword)| &&
                issue in Issues(p.(schema := Branches(p.schema.members, keyword)[i]), comps, names)
  }

  lemma UnionHas(p: Task, keyword: string, tasks: seq<Task>, comps: Components, names: set<string>, issue: Issue)
    requires p.schema.Obj? && NoneFits(p, keyword, comps) && OfUnion(p, keyword, comps, names, issue)
    requires tasks == Tasks(p.value, p.node, Branches(p.schema.members, keyword)) && SmallerGoal(Any(keyword, tasks), p)
    ensures issue in GoalIssues(Any(keyword, tasks), p, comps, names)
  {
    var branches := Branches(p.schema.members, keyword);
    forall i | 0 <= i < |tasks| ensures Issues(tasks[i], comps, names) != [] {
      assert tasks[i] == p.(schema := branches[i]);
      UnfitHasIssues(tasks[i], comps, names);
    }
    if i :| 0 <= i < |branches| && issue in Issues(p.(schema := branches[i]), comps, names) {
      assert tasks[i] == p.(schema := branches[i]);
    }
    UnionExact(p, keyword, tasks, comps, names, issue);
  }

  lemma UnionFails(p: Task, keyword: string, comps: Components, names: set<string>, issue: Issue)
    requires Plain(p) && !BadType(p.value, p.schema.members) && keyword in ["anyOf", "oneOf"] && NoneFits(p, keyword, comps)
    requires OfUnion(p, keyword, comps, names, issue)
    ensures issue in Issues(p, comps, names)
  {
    var goals := Goals(p.value, p.node, p.schema.members);
    var tasks := Tasks(p.value, p.node, Branches(p.schema.members, keyword));
    UnionsExact(p, keyword, tasks);
    NodeExact(p, comps, names, issue);
    var k :| 0 <= k < |goals| && goals[k] == Any(keyword, tasks);
    assert SmallerGoal(goals[k], p);
    UnionHas(p, keyword, tasks, comps, names, issue);
    assert GoalHas(goals, p, comps, names, k, issue);
  }

  /** What a checked part rejects is an issue of it. */
  lemma RejectsFound(c: Checked, issue: Issue, comps: Components)
    requires Rejects(c, issue, comps)
    ensures issue in Issues(c.task, comps, c.names)
  {
    var t := c.task;
    if Plain(t) {
      OwnExact(t, t.schema.members, issue);
      NodeExact(t, comps, c.names, issue);
      if issue !in Own(t.value, t.node, t.schema.members) { UnionFails(t, issue.kind.keyword, comps, c.names, issue); }
    }
  }

  /** The issues of what is handed on are issues of the node. */
  lemma HandedIn(p: Task, x: Task, comps: Components, names: set<string>, issue: Issue)
    requires Plain(p) && HandsOn(p, x) && issue in Issues(x, comps, NamesFor(x, p, names))
    ensures issue in Issues(p, comps, names)
  {
    var goals := Goals(p.value, p.node, p.schema.members);
    HandsOnExact(p, x);
    NodeExact(p, comps, names, issue);
    var k :| 0 <= k < |goals| && goals[k] == All(x);
    assert GoalHas(goals, p, comps, names, k, issue);
  }

  lemma LeadsIn(c: Checked, d: Checked, comps: Components, issue: Issue)
    requires Leads(c, d, comps) && issue in Issues(d.task, comps, d.names)
    ensures issue in Issues(c.task, comps, c.names)
  {
    var p, x := c.task, d.task;
    if Plain(p) {
      if EveryLeads(p, x) && d.names == c.names {
        HandedIn(p, x, comps, c.names, issue);
      } else if UnionLeads(p, x, "anyOf", comps) && d.names == c.names {
        UnionFails(p, "anyOf", comps, c.names, issue);
      } else if UnionLeads(p, x, "oneOf", comps) && d.names == c.names {
        UnionFails(p, "oneOf", comps, c.names, issue);
      } else {
        assert |x.node| == |p.node| + 1;
        HandedIn(p, x, comps, c.names, issue);
      }
    }
  }

  lemma {:induction false} TrailIn(trail: seq<Checked>, c: Checked, d: Checked, comps: Components, issue: Issue)
    requires Trail(trail, c, d, comps) && issue in Issues(d.task, comps, d.names)
    ensures issue in Issues(c.task, comps, c.names)
    decreases trail
  {
    if |trail| > 1 {
      var rest := trail[1..];
      forall i | 0 <= i < |rest| - 1 ensures Leads(rest[i], rest[i + 1], comps) { assert Leads(trail[i + 1], trail[i + 2], comps); }
      TrailIn(rest, trail[1], d, comps, issue);
      assert Leads(trail[0], trail[1], comps);
      LeadsIn(c, trail[1], comps, issue);
    }
  }

  // ---- Nothing else is in the list --------------------------------------------------------------------

  lemma LongerTrail(trail: seq<Checked>, c: Checked, e: Checked, d: Checked, comps: Components)
    requires Leads(c, e, comps) && Trail(trail, e, d, comps)
    ensures Trail([c] + trail, c, d, comps)
  {
    var longer := [c] + trail;
    forall i | 0 <= i < |longer| - 1 ensures Leads(longer[i], longer[i + 1], comps) {
      if i > 0 { assert Leads(trail[i - 1], trail[i], comps); }
    }
  }

  lemma {:induction false} Found(c: Checked, issue: Issue, comps: Components) returns (trail: seq<Checked>, d: Checked)
    requires ActiveRejected(c.task.value, c.names, comps) && issue in Issues(c.task, comps, c.names)
    ensures Trail(trail, c, d, comps) && Rejects(d, issue, comps)
    decreases c.task.value, comps.Keys - c.names, c.task.schema, 1
  {
    var t := c.task;
    if !t.schema.Obj? {
      trail, d := [c], c;
    } else if Reference(t.schema.members).Some? {
      trail, d := FoundReference(c, issue, comps);
    } else {
      NodeExact(t, comps, c.names, issue);
      OwnExact(t, t.schema.members, issue);
      if issue in Own(t.value, t.node, t.schema.members) {
        trail, d := [c], c;
      } else {
        trail, d := FoundGoal(c, issue, comps);
      }
    }
  }

  lemma {:induction false} FoundReference(c: Checked, issue: Issue, comps: Components) returns (trail: seq<Checked>, d: Checked)
    requires ActiveRejected(c.task.value, c.names, comps) && issue in Issues(c.task, comps, c.names)
    requires c.task.schema.Obj? && Reference(c.task.schema.members).Some?
    ensures Trail(trail, c, d, comps) && Rejects(d, issue, comps)
    decreases c.task.value, comps.Keys - c.names, c.task.schema, 0
  {
    var name := Resolve(Reference(c.task.schema.members).value, comps);
    if name.None? || name.value in c.names {
      trail, d := [c], c;
    } else {
      ExactWithin(c.task, comps, c.names);
      TargetRejected(c.task, comps, name.value);
      var e := Checked(c.task.(schema := comps[name.value]), c.names + {name.value});
      trail, d := Found(e, issue, comps);
      LongerTrail(trail, c, e, d, comps);
      trail := [c] + trail;
    }
  }

  lemma {:induction false} FoundGoal(c: Checked, issue: Issue, comps: Components) returns (trail: seq<Checked>, d: Checked)
    requires Plain(c.task) && ActiveRejected(c.task.value, c.names, comps)
    requires var goals := Goals(c.task.value, c.task.node, c.task.schema.members);
             SmallerGoals(goals, c.task) && exists i: nat :: GoalHas(goals, c.task, comps, c.names, i, issue)
    ensures Trail(trail, c, d, comps) && Rejects(d, issue, comps)
    decreases c.task.value, comps.Keys - c.names, c.task.schema, 0, 1
  {
    var p := c.task;
    var goals := Goals(p.value, p.node, p.schema.members);
    var k: nat :| GoalHas(goals, p, comps, c.names, k, issue);
    assert SmallerGoal(goals[k], p) && goals[k] in goals;
    match goals[k] {
      case All(x) =>
        HandsOnExact(p, x);
        trail, d := FoundHanded(c, x, issue, comps);
      case Any(keyword, tasks) =>
        UnionsExact(p, keyword, tasks);
        trail, d := FoundUnion(c, keyword, tasks, issue, comps);
    }
  }

  lemma {:induction false} FoundHanded(c: Checked, x: Task, issue: Issue, comps: Components) returns (trail: seq<Checked>, d: Checked)
    requires Plain(c.task) && ActiveRejected(c.task.value, c.names, comps) && HandsOn(c.task, x) && SmallerTask(x, c.task)
    requires issue in Issues(x, comps, NamesFor(x, c.task, c.names))
    ensures Trail(trail, c, d, comps) && Rejects(d, issue, comps)
    decreases c.task.value, comps.Keys - c.names, c.task.schema, 0, 0
  {
    var e := NextChecked(c, x, comps);
    trail, d := Found(e, issue, comps);
    LongerTrail(trail, c, e, d, comps);
    trail := [c] + trail;
  }

  lemma {:induction false} FoundUnion(c: Checked, keyword: string, tasks: seq<Task>, issue: Issue, comps: Components)
    returns (trail: seq<Checked>, d: Checked)
    requires Plain(c.task) && ActiveRejected(c.task.value, c.names, comps) && !BadType(c.task.value, c.task.schema.members)
    requires keyword in ["anyOf", "oneOf"] && AsArray(Get(c.task.schema.members, keyword)).Some?
    requires tasks == Tasks(c.task.value, c.task.node, Branches(c.task.schema.members, keyword))
    requires SmallerGoal(Any(keyword, tasks), c.task)
    requires issue in GoalIssues(Any(keyword, tasks), c.task, comps, c.names)
    ensures Trail(trail, c, d, comps) && Rejects(d, issue, comps)
    decreases c.task.value, comps.Keys - c.names, c.task.schema, 0, 0
  {
    var i := FailedUnion(c, keyword, tasks, issue, comps);
    if i < |tasks| {
      assert SmallerTask(tasks[i], c.task);
      var e := Checked(tasks[i], c.names);
      assert UnionLeads(c.task, tasks[i], keyword, comps);
      trail, d := Found(e, issue, comps);
      LongerTrail(trail, c, e, d, comps);
      trail := [c] + trail;
    } else {
      trail, d := [c], c;
    }
  }

  /** What is handed on is checked next: at the same node with the same names, below without any. */
  lemma NextChecked(c: Checked, x: Task, comps: Components) returns (e: Checked)
    requires Plain(c.task) && HandsOn(c.task, x) && ActiveRejected(c.task.value, c.names, comps)
    ensures e == Checked(x, NamesFor(x, c.task, c.names)) && Leads(c, e, comps) && ActiveRejected(x.value, e.names, comps)
  {
    e := Checked(x, NamesFor(x, c.task, c.names));
    if !EveryLeads(c.task, x) { assert |x.node| == |c.task.node| + 1; }
  }

  /** A union with issues fits no branch; the issue is the union's own, or that of branch `i`. */
  lemma FailedUnion(c: Checked, keyword: string, tasks: seq<Task>, issue: Issue, comps: Components) returns (i: nat)
    requires Plain(c.task) && ActiveRejected(c.task.value, c.names, comps)
    requires AsArray(Get(c.task.schema.members, keyword)).Some?
    requires tasks == Tasks(c.task.value, c.task.node, Branches(c.task.schema.members, keyword))
    requires SmallerGoal(Any(keyword, tasks), c.task)
    requires issue in GoalIssues(Any(keyword, tasks), c.task, comps, c.names)
    ensures NoneFits(c.task, keyword, comps)
    ensures if i < |tasks| then issue in Issues(tasks[i], comps, c.names) && tasks[i] == c.task.(schema := Branches(c.task.schema.members, keyword)[i])
            else issue == Issue(Pointer(c.task.node), NoBranch(keyword))
  {
    var branches := Branches(c.task.schema.members, keyword);
    forall j | 0 <= j < |tasks| ensures Issues(tasks[j], comps, c.names) != [] && !Fits(c.task.value, branches[j], comps) {
      assert SmallerTask(tasks[j], c.task);
      TaskResultAt(tasks, c.task, comps, c.names, j);
      ExactWithin(tasks[j], comps, c.names);
    }
    UnionExact(c.task, keyword, tasks, comps, c.names, issue);
    if issue == Issue(Pointer(c.task.node), NoBranch(keyword)) {
      i := |tasks|;
    } else {
      i :| 0 <= i < |tasks| && issue in Issues(tasks[i], comps, c.names);
    }
  }

  /** The issues of a validation are exactly what the parts of the contract that are checked and count reject,
      each at its own place: what fails is reported, in goals and in the branches of failed unions alike. */
  lemma IssuesExactly(v: Json, s: Json, comps: Components, issue: Issue)
    ensures var root := Checked(Task(v, [], s), {});
            issue in Issues(root.task, comps, {}) <==> exists d :: Counts(root, d, comps) && Rejects(d, issue, comps)
  {
    var root := Checked(Task(v, [], s), {});
    if issue in Issues(root.task, comps, {}) {
      var trail, d := Found(root, issue, comps);
      assert Counts(root, d, comps);
    }
    if d :| Counts(root, d, comps) && Rejects(d, issue, comps) {
      var trail :| Trail(trail, root, d, comps);
      RejectsFound(d, issue, comps);
      TrailIn(trail, root, d, comps, issue);
    }
  }
}
