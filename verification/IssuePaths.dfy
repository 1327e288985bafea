/** Every issue tells the truth about the value its JSON Pointer leads to. */
module IssuePaths {
  import opened Options
  import opened JsonValues
  import opened Pointers
  import opened NodePointers
  import opened Validator
  import opened SchemaMeaning
  import opened SchemaParts

  // ---- What issues say --------------------------------------------------------------

  /** What is validated against which contract. */
  datatype Validation = Validation(value: Json, schema: Json, comps: Components)

  ghost predicate InRun(part: Json, run: Validation) {
    InContract(part, [run.schema], run.comps)
  }

  /** What an issue of kind `kind` says: part of the contract demands something that `w` is not. */
  ghost predicate Contradicts(w: Json, part: Json, kind: Kind, comps: Components) {
    match kind
    case Forbidden => part == Bool(false)
    case InvalidSchema => !part.Bool? && !part.Obj?
    case _ => part.Obj? && KeywordContradicts(w, part.members, kind, comps)
  }

  ghost predicate KeywordContradicts(w: Json, o: seq<Member>, kind: Kind, comps: Components) {
    match kind
    case ExpectedConst(constant) => Get(o, "const") == Some(constant) && !Equal(w, constant)
    case NoEnumMember(candidates) => AsArray(Get(o, "enum")) == Some(candidates) && !InEnum(w, candidates)
    case ExpectedType(k) => Get(o, "type") == Some(k) && !TypeOk(k, w)
    case TooFewItems(n) => |Prefix(o)| == n && w.Arr? && |w.items| < n
    case UnresolvedRef(reference) => Reference(o) == Some(reference) && Resolve(reference, comps).None?
    case UnguardedRef(reference) =>
      Reference(o) == Some(reference) && Resolve(reference, comps).Some? &&
      !Fits(w, comps[Resolve(reference, comps).value], comps)
    case NoBranch(keyword) =>
      AsArray(Get(o, keyword)).Some? &&
      forall i :: 0 <= i < |Branches(o, keyword)| ==> !Fits(w, Branches(o, keyword)[i], comps)
    case _ => false
  }

  /** The kinds that are about a member: one that is required and absent, or present and not allowed. */
  predicate OfMember(kind: Kind) {
    kind.MissingProperty? || kind.UnexpectedProperty?
  }

  ghost predicate MemberContradicts(w: Json, key: string, part: Json, kind: Kind) {
    w.Obj? && part.Obj? &&
    if kind.MissingProperty? then !Has(w.members, key) && Str(key) in Required(part.members)
    else Has(w.members, key) && Closed(Properties(part.members), Additional(part.members), key)
  }

  /** The issue is true of the node its path names, or of the object that its member is missing from. */
  ghost predicate True(run: Validation, node: Node, kind: Kind, part: Json) {
    InRun(part, run) &&
    if OfMember(kind) then
      node != [] && node[|node| - 1].Key? &&
      var parent := Reach(run.value, node[..|node| - 1]);
      parent.Some? && MemberContradicts(parent.value, node[|node| - 1].k, part, kind)
    else
      Reach(run.value, node).Some? && Contradicts(Reach(run.value, node).value, part, kind, run.comps)
  }

  ghost predicate Truthful(run: Validation, issue: Issue) {
    exists node, part :: issue.path == Pointer(node) && True(run, node, issue.kind, part)
  }

  ghost predicate AllTruthful(run: Validation, issues: seq<Issue>) {
    forall i :: 0 <= i < |issues| ==> Truthful(run, issues[i])
  }

  /** The node of a `Task` really is where its value sits. */
  ghost predicate Placed(root: Json, t: Task) {
    Reach(root, t.node) == Some(t.value) && WellFormed(t.value)
  }

  ghost predicate PlacedGoal(root: Json, g: Goal) {
    match g
    case All(t) => Placed(root, t)
    case Any(_, tasks) => forall i :: 0 <= i < |tasks| ==> Placed(root, tasks[i])
  }

  ghost predicate PlacedGoals(root: Json, goals: seq<Goal>) {
    forall i :: 0 <= i < |goals| ==> PlacedGoal(root, goals[i])
  }

  lemma PlacedItem(root: Json, t: Task, i: nat, schema: Json)
    requires Placed(root, t) && t.value.Arr? && i < |t.value.items|
    ensures PlacedGoal(root, ItemGoal(t.value.items, t.node, i, schema))
  {
    ReachPush(root, t.node, Index(i));
  }

  lemma PlacedMember(root: Json, t: Task, i: nat, properties: seq<Member>, additional: Option<Json>)
    requires Placed(root, t) && t.value.Obj? && i < |t.value.members|
    ensures PlacedGoals(root, MemberGoal(t.value.members[i], t.node, properties, additional))
    ensures Reach(root, t.node + [Key(t.value.members[i].key)]) == Some(t.value.members[i].val)
  {
    ReachPush(root, t.node, Key(t.value.members[i].key));
    GetAt(t.value.members, i);
  }

  lemma {:induction false} PlacedMembers(root: Json, t: Task, k: nat, properties: seq<Member>, additional: Option<Json>)
    requires Placed(root, t) && t.value.Obj? && k <= |t.value.members|
    ensures PlacedGoals(root, MemberGoals(t.value.members[..k], t.node, properties, additional))
  {
    if k > 0 {
      var ms := t.value.members;
      PlacedMembers(root, t, k - 1, properties, additional);
      PlacedMember(root, t, k - 1, properties, additional);
      assert ms[..k][..k - 1] == ms[..k - 1];
    }
  }

  lemma PlacedArray(root: Json, t: Task, o: seq<Member>)
    requires Placed(root, t)
    ensures PlacedGoals(root, ArrayGoals(t.value, t.node, o))
  {
    if t.value.Arr? {
      var items, from, schema := t.value.items, |Prefix(o)|, Get(o, "items");
      var first, rest := PrefixGoals(items, t.node, Prefix(o)), RestGoals(items, t.node, from, schema);
      forall i | 0 <= i < |first| ensures PlacedGoal(root, first[i]) { PlacedItem(root, t, i, Prefix(o)[i]); }
      forall i | 0 <= i < |rest| ensures PlacedGoal(root, rest[i]) {
        assert rest[i] == ItemGoal(items, t.node, from + i, schema.value);
        PlacedItem(root, t, from + i, schema.value);
      }
    }
  }

  lemma PlacedBranches(root: Json, t: Task, o: seq<Member>)
    requires Placed(root, t)
    ensures PlacedGoals(root, BranchGoals(t.value, t.node, o))
  {
    var v, node := t.value, t.node;
    assert PlacedGoals(root, AllGoals(v, node, Branches(o, "allOf")));
    assert PlacedGoals(root, AnyGoals(v, node, o, "anyOf"));
    assert PlacedGoals(root, AnyGoals(v, node, o, "oneOf"));
  }

  lemma PlacedObject(root: Json, t: Task, o: seq<Member>)
    requires Placed(root, t)
    ensures PlacedGoals(root, ObjectGoals(t.value, t.node, o))
  {
    if t.value.Obj? {
      assert t.value.members[..|t.value.members|] == t.value.members;
      PlacedMembers(root, t, |t.value.members|, Properties(o), Additional(o));
    }
  }

  lemma PlacedAppend(root: Json, xs: seq<Goal>, ys: seq<Goal>)
    requires PlacedGoals(root, xs) && PlacedGoals(root, ys)
    ensures PlacedGoals(root, xs + ys)
  {
  }

  lemma PlacedNode(root: Json, t: Task)
    requires Placed(root, t) && t.schema.Obj?
    ensures PlacedGoals(root, Goals(t.value, t.node, t.schema.members))
  {
    var v, node, o := t.value, t.node, t.schema.members;
    PlacedBranches(root, t, o);
    PlacedArray(root, t, o);
    PlacedObject(root, t, o);
    PlacedAppend(root, ArrayGoals(v, node, o), ObjectGoals(v, node, o));
    PlacedAppend(root, BranchGoals(v, node, o), ArrayGoals(v, node, o) + ObjectGoals(v, node, o));
  }

  lemma TruthAt(run: Validation, node: Node, issues: seq<Issue>, part: Json)
    requires forall i :: 0 <= i < |issues| ==> issues[i].path == Pointer(node) && True(run, node, issues[i].kind, part)
    ensures AllTruthful(run, issues)
  {
  }

  lemma OneTrue(run: Validation, node: Node, kind: Kind, part: Json)
    requires True(run, node, kind, part)
    ensures AllTruthful(run, [Issue(Pointer(node), kind)])
  {
    assert Truthful(run, Issue(Pointer(node), kind));
  }

  lemma {:induction false} MissingTruthful(run: Validation, t: Task, k: nat)
    requires Placed(run.value, t) && t.value.Obj? && t.schema.Obj? && InRun(t.schema, run) && k <= |Required(t.schema.members)|
    ensures AllTruthful(run, MissingIssues(t.value.members, t.node, Required(t.schema.members)[..k]))
  {
    if k > 0 {
      var required := Required(t.schema.members);
      MissingTruthful(run, t, k - 1);
      assert required[..k][..k - 1] == required[..k - 1];
      MissingOne(run, t, required[k - 1]);
      TruthAppend(run, MissingIssues(t.value.members, t.node, required[..k - 1]), MissingAt(t, required[k - 1]));
    }
  }

  function MissingAt(t: Task, name: Json): seq<Issue>
    requires t.value.Obj?
  {
    if name.Str? && !Has(t.value.members, name.s) then [Issue(Pointer(t.node + [Key(name.s)]), MissingProperty)] else []
  }

  lemma MissingOne(run: Validation, t: Task, name: Json)
    requires Placed(run.value, t) && t.value.Obj? && t.schema.Obj? && InRun(t.schema, run)
    requires name in Required(t.schema.members)
    ensures AllTruthful(run, MissingAt(t, name))
  {
    if name.Str? && !Has(t.value.members, name.s) {
      MissingTrue(run, t, name.s);
      OneTrue(run, t.node + [Key(name.s)], MissingProperty, t.schema);
    }
  }

  lemma MissingTrue(run: Validation, t: Task, key: string)
    requires Placed(run.value, t) && t.value.Obj? && t.schema.Obj? && InRun(t.schema, run)
    requires !Has(t.value.members, key) && Str(key) in Required(t.schema.members)
    ensures True(run, t.node + [Key(key)], MissingProperty, t.schema)
  {
    var node := t.node + [Key(key)];
    assert node[..|node| - 1] == t.node;
  }

  lemma {:induction false} UnexpectedTruthful(run: Validation, t: Task, k: nat)
    requires Placed(run.value, t) && t.value.Obj? && t.schema.Obj? && InRun(t.schema, run) && k <= |t.value.members|
    ensures var o := t.schema.members;
            AllTruthful(run, UnexpectedIssues(t.value.members[..k], t.node, Properties(o), Additional(o)))
  {
    if k > 0 {
      var ms, o := t.value.members, t.schema.members;
      UnexpectedTruthful(run, t, k - 1);
      assert ms[..k][..k - 1] == ms[..k - 1];
      UnexpectedOne(run, t, k - 1);
      TruthAppend(run, UnexpectedIssues(ms[..k - 1], t.node, Properties(o), Additional(o)), UnexpectedAt(t, o, ms[k - 1].key));
    }
  }

  function UnexpectedAt(t: Task, o: seq<Member>, key: string): seq<Issue> {
    if Closed(Properties(o), Additional(o), key) then [Issue(Pointer(t.node + [Key(key)]), UnexpectedProperty)] else []
  }

  lemma UnexpectedOne(run: Validation, t: Task, i: nat)
    requires Placed(run.value, t) && t.value.Obj? && t.schema.Obj? && InRun(t.schema, run) && i < |t.value.members|
    ensures AllTruthful(run, UnexpectedAt(t, t.schema.members, t.value.members[i].key))
  {
    var o, key := t.schema.members, t.value.members[i].key;
    if Closed(Properties(o), Additional(o), key) {
      UnexpectedTrue(run, t, i);
      OneTrue(run, t.node + [Key(key)], UnexpectedProperty, t.schema);
    }
  }

  lemma UnexpectedTrue(run: Validation, t: Task, i: nat)
    requires Placed(run.value, t) && t.value.Obj? && t.schema.Obj? && InRun(t.schema, run) && i < |t.value.members|
    requires Closed(Properties(t.schema.members), Additional(t.schema.members), t.value.members[i].key)
    ensures True(run, t.node + [Key(t.value.members[i].key)], UnexpectedProperty, t.schema)
  {
    var node := t.node + [Key(t.value.members[i].key)];
    assert node[..|node| - 1] == t.node;
    GetAt(t.value.members, i);
  }

  lemma TruthAppend(run: Validation, xs: seq<Issue>, ys: seq<Issue>)
    requires AllTruthful(run, xs) && AllTruthful(run, ys)
    ensures AllTruthful(run, xs + ys)
  {
  }

  lemma StructureTruthful(run: Validation, t: Task)
    requires Placed(run.value, t) && t.schema.Obj? && InRun(t.schema, run)
    ensures AllTruthful(run, StructureIssues(t.value, t.node, t.schema.members))
  {
    var v, node, o := t.value, t.node, t.schema.members;
    if v.Arr? {
      TruthAt(run, node, LengthIssues(v, node, o), t.schema);
    } else if v.Obj? {
      MissingTruthful(run, t, |Required(o)|);
      UnexpectedTruthful(run, t, |v.members|);
      assert v.members[..|v.members|] == v.members && Required(o)[..|Required(o)|] == Required(o);
      TruthAppend(run, MissingIssues(v.members, node, Required(o)), UnexpectedIssues(v.members, node, Properties(o), Additional(o)));
    }
  }

  lemma ValueTruthful(run: Validation, t: Task)
    requires Placed(run.value, t) && t.schema.Obj? && InRun(t.schema, run)
    ensures AllTruthful(run, ValueIssues(t.value, t.node, t.schema.members))
  {
    var v, node, o := t.value, t.node, t.schema.members;
    TruthAt(run, node, ConstIssues(v, node, o), t.schema);
    TruthAt(run, node, EnumIssues(v, node, o), t.schema);
    TruthAppend(run, ConstIssues(v, node, o), EnumIssues(v, node, o));
  }

  lemma OwnTruthful(run: Validation, t: Task)
    requires Placed(run.value, t) && t.schema.Obj? && InRun(t.schema, run)
    ensures AllTruthful(run, Own(t.value, t.node, t.schema.members))
  {
    var v, node, o := t.value, t.node, t.schema.members;
    ValueTruthful(run, t);
    if BadType(v, o) {
      var mismatch := [Issue(Pointer(node), ExpectedType(Get(o, "type").value))];
      TruthAt(run, node, mismatch, t.schema);
      TruthAppend(run, ValueIssues(v, node, o), mismatch);
    } else {
      StructureTruthful(run, t);
      TruthAppend(run, ValueIssues(v, node, o), StructureIssues(v, node, o));
    }
  }

  lemma {:induction false} FlattenTruthful(run: Validation, rs: seq<seq<Issue>>)
    requires forall i :: 0 <= i < |rs| ==> AllTruthful(run, rs[i])
    ensures AllTruthful(run, Flatten(rs))
  {
    if rs != [] { FlattenTruthful(run, rs[1..]); }
  }

  /** A task of the run: its value is where its node is, its schema is part of the contract, and
      the components being unfolded do not accept the value. */
  ghost predicate Ongoing(run: Validation, t: Task, names: set<string>) {
    Placed(run.value, t) && InRun(t.schema, run) && ActiveRejected(t.value, names, run.comps)
  }

  lemma {:induction false} IssuesTruthful(run: Validation, t: Task, names: set<string>)
    requires Ongoing(run, t, names)
    ensures AllTruthful(run, Issues(t, run.comps, names))
    decreases t.value, run.comps.Keys - names, t.schema, 2, 0
  {
    if !t.schema.Obj? {
      TruthAt(run, t.node, Issues(t, run.comps, names), t.schema);
    } else if Reference(t.schema.members).None? {
      NodeTruthful(run, t, names);
    } else if Issues(t, run.comps, names) != [] {
      ExactWithin(t, run.comps, names);
      ReferenceTruthful(run, t, names);
    }
  }

  lemma {:induction false} ReferenceTruthful(run: Validation, t: Task, names: set<string>)
    requires Ongoing(run, t, names) && t.schema.Obj? && Reference(t.schema.members).Some?
    requires !Fits(t.value, t.schema, run.comps)
    ensures AllTruthful(run, Issues(t, run.comps, names))
    decreases t.value, run.comps.Keys - names, t.schema, 1, 0
  {
    var name := Resolve(Reference(t.schema.members).value, run.comps);
    if name.Some? { TargetRejected(t, run.comps, name.value); }
    if name.Some? && name.value !in names {
      var target := t.(schema := run.comps[name.value]);
      assert Part(target.schema, run.comps[name.value]);
      IssuesTruthful(run, target, names + {name.value});
    } else {
      TruthAt(run, t.node, Issues(t, run.comps, names), t.schema);
    }
  }

  lemma {:induction false} NodeTruthful(run: Validation, t: Task, names: set<string>)
    requires Ongoing(run, t, names) && t.schema.Obj? && Reference(t.schema.members).None?
    ensures AllTruthful(run, Issues(t, run.comps, names))
    decreases t.value, run.comps.Keys - names, t.schema, 1, |Goals(t.value, t.node, t.schema.members)| + 1
  {
    var own, goals := Own(t.value, t.node, t.schema.members), Goals(t.value, t.node, t.schema.members);
    NodeGoals(run, t, goals);
    OwnTruthful(run, t);
    GoalResultsTruthful(run, goals, t, names);
    NodeIs(t, run.comps, names);
    JoinTruthful(run, own, GoalResults(goals, t, run.comps, names));
  }

  lemma NodeGoals(run: Validation, t: Task, goals: seq<Goal>)
    requires t.schema.Obj? && Reference(t.schema.members).None? && goals == Goals(t.value, t.node, t.schema.members)
    requires Placed(run.value, t)
    ensures SmallerGoals(goals, t) && PlacedGoals(run.value, goals) && GoalsFrom(goals, t.value, t.node, t.schema.members)
  {
    GoalsSmaller(t);
    PlacedNode(run.value, t);
    NodeFrom(t.value, t.node, t.schema.members);
  }

  lemma JoinTruthful(run: Validation, own: seq<Issue>, rs: seq<seq<Issue>>)
    requires AllTruthful(run, own) && forall i :: 0 <= i < |rs| ==> AllTruthful(run, rs[i])
    ensures AllTruthful(run, own + Flatten(rs))
  {
    FlattenTruthful(run, rs);
    TruthAppend(run, own, Flatten(rs));
  }

  lemma {:induction false} GoalResultsTruthful(run: Validation, goals: seq<Goal>, p: Task, names: set<string>)
    requires SmallerGoals(goals, p) && PlacedGoals(run.value, goals) && Ongoing(run, p, names)
    requires p.schema.Obj? && GoalsFrom(goals, p.value, p.node, p.schema.members)
    ensures forall i :: 0 <= i < |goals| ==> AllTruthful(run, GoalResults(goals, p, run.comps, names)[i])
    decreases p.value, run.comps.Keys - names, p.schema, 1, |goals|
  {
    if goals != [] {
      GoalTruthful(run, goals[|goals| - 1], p, names);
      GoalResultsTruthful(run, goals[..|goals| - 1], p, names);
    }
  }

  /** What is handed on goes on in the run: at the same node with the same names, below without any. */
  lemma StaysOngoing(run: Validation, t: Task, p: Task, names: set<string>)
    requires Ongoing(run, p, names) && SmallerTask(t, p) && Placed(run.value, t) && Part(t.schema, p.schema)
    ensures Ongoing(run, t, NamesFor(t, p, names))
  {
    PartInContract(t.schema, p.schema, [run.schema], run.comps);
  }

  lemma GoalTruthful(run: Validation, g: Goal, p: Task, names: set<string>)
    requires SmallerGoal(g, p) && PlacedGoal(run.value, g) && Ongoing(run, p, names)
    requires p.schema.Obj? && GoalFrom(g, p.value, p.node, p.schema.members)
    ensures AllTruthful(run, GoalIssues(g, p, run.comps, names))
    decreases p.value, run.comps.Keys - names, p.schema, 1, 0
  {
    match g
    case All(t) =>
      StaysOngoing(run, t, p, names);
      IssuesTruthful(run, t, NamesFor(t, p, names));
    case Any(keyword, tasks) =>
      if GoalIssues(g, p, run.comps, names) != [] {
        TaskResultsTruthful(run, tasks, p, names);
        FlattenTruthful(run, TaskResults(tasks, p, run.comps, names));
        NoBranchTrue(run, keyword, tasks, p, names);
        TruthAt(run, p.node, [Issue(Pointer(p.node), NoBranch(keyword))], p.schema);
      }
  }

  /** A union that has issues has no branch that fits. */
  lemma NoBranchTrue(run: Validation, keyword: string, tasks: seq<Task>, p: Task, names: set<string>)
    requires SmallerGoal(Any(keyword, tasks), p) && Ongoing(run, p, names)
    requires p.schema.Obj? && GoalFrom(Any(keyword, tasks), p.value, p.node, p.schema.members)
    requires GoalIssues(Any(keyword, tasks), p, run.comps, names) != []
    ensures True(run, p.node, NoBranch(keyword), p.schema)
  {
    var branches := Branches(p.schema.members, keyword);
    forall i | 0 <= i < |branches| ensures !Fits(p.value, branches[i], run.comps) {
      assert SmallerTask(tasks[i], p);
      TaskResultAt(tasks, p, run.comps, names, i);
      ExactWithin(tasks[i], run.comps, names);
    }
  }

  lemma {:induction false} TaskResultsTruthful(run: Validation, tasks: seq<Task>, p: Task, names: set<string>)
    requires Ongoing(run, p, names)
    requires forall i :: 0 <= i < |tasks| ==> SmallerTask(tasks[i], p) && Placed(run.value, tasks[i]) && Part(tasks[i].schema, p.schema)
    ensures forall i :: 0 <= i < |tasks| ==> AllTruthful(run, TaskResults(tasks, p, run.comps, names)[i])
    decreases p.value, run.comps.Keys - names, p.schema, 0, |tasks|
  {
    if tasks != [] {
      var t := tasks[|tasks| - 1];
      assert SmallerTask(t, p);
      StaysOngoing(run, t, p, names);
      IssuesTruthful(run, t, NamesFor(t, p, names));
      TaskResultsTruthful(run, tasks[..|tasks| - 1], p, names);
    }
  }

  /** The path, as a string, evaluated on the value it was reported for. */
  ghost predicate PathIsTrue(run: Validation, path: string, kind: Kind) {
    if OfMember(kind) then
      (EvalPointer(run.value, path).Some? <==> kind.UnexpectedProperty?) && exists node, key, part :: MemberAt(run, path, kind, node, key, part)
    else
      EvalPointer(run.value, path).Some? &&
      exists part :: InRun(part, run) && Contradicts(EvalPointer(run.value, path).value, part, kind, run.comps)
  }

  /** The path is that of member `key` of the object that the node's pointer leads to. */
  ghost predicate MemberAt(run: Validation, path: string, kind: Kind, node: Node, key: string, part: Json) {
    var parent := EvalPointer(run.value, Pointer(node));
    path == PointerChild(Pointer(node), key) && InRun(part, run) && parent.Some? && MemberContradicts(parent.value, key, part, kind)
  }

  lemma TruePath(run: Validation, node: Node, kind: Kind, part: Json)
    requires True(run, node, kind, part)
    ensures PathIsTrue(run, Pointer(node), kind)
  {
    if OfMember(kind) {
      var parent, key := node[..|node| - 1], node[|node| - 1].k;
      assert node == parent + [Key(key)];
      PointerPush(parent, Key(key));
      PointerReaches(run.value, parent);
      assert MemberAt(run, Pointer(node), kind, parent, key, part);
      if kind.MissingProperty? {
        PointerMisses(run.value, parent, key);
      } else {
        ReachPush(run.value, parent, Key(key));
        PointerReaches(run.value, node);
      }
    } else {
      PointerReaches(run.value, node);
    }
  }

  /** Evaluated on the root value, an issue's path reaches a value that part of the contract rejects for the
      reason given; a missing property's path is that of a required member absent from an object that is there. */
  lemma PathsAreTrue(v: Json, s: Json, comps: Components)
    requires WellFormed(v)
    ensures forall issue :: issue in Issues(Task(v, [], s), comps, {}) ==> PathIsTrue(Validation(v, s, comps), issue.path, issue.kind)
  {
    var run := Validation(v, s, comps);
    assert Part(s, [s][0]);
    IssuesTruthful(run, Task(v, [], s), {});
    forall issue | issue in Issues(Task(v, [], s), comps, {}) ensures PathIsTrue(run, issue.path, issue.kind) {
      var node: Node, part :| issue.path == Pointer(node) && True(run, node, issue.kind, part);
      TruePath(run, node, issue.kind, part);
    }
  }
}
