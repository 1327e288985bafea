/** `validate`: an explicit work stack, a result stack and a set of active
    references. It refines the recursive validator and always terminates. */
module ValidatorMachine {
  import opened Options
  import opened JsonValues
  import opened Pointers
  import opened Validator

  datatype Step =
    | Check(task: Task, path: string)
    | Merge(count: nat)
    | Union(count: nat, path: string, keyword: string)
    | ExitRef(node: Node, name: string)

  type Active = set<(Node, string)>

  // ---- The steps that stand for goals -------------------------------------------

  function CheckOf(t: Task): Step {
    Check(t, Pointer(t.node))
  }

  function ChecksOf(tasks: seq<Task>): seq<Step> {
    if tasks == [] then [] else ChecksOf(tasks[..|tasks| - 1]) + [CheckOf(tasks[|tasks| - 1])]
  }

  function StepsOfGoal(g: Goal, node: Node): seq<Step> {
    match g
    case All(t) => [CheckOf(t)]
    case Any(keyword, tasks) => [Union(|tasks|, Pointer(node), keyword)] + ChecksOf(tasks)
  }

  function StepsOf(goals: seq<Goal>, node: Node): seq<Step> {
    if goals == [] then [] else StepsOf(goals[..|goals| - 1], node) + StepsOfGoal(goals[|goals| - 1], node)
  }

  lemma Associative<T>(a: seq<T>, b: seq<T>, c: seq<T>)
    ensures a + (b + c) == (a + b) + c
  {
  }

  lemma StepsPush(goals: seq<Goal>, g: Goal, node: Node)
    ensures StepsOf(goals + [g], node) == StepsOf(goals, node) + StepsOfGoal(g, node)
  {
    assert (goals + [g])[..|goals|] == goals;
  }

  lemma StepsNext(goals: seq<Goal>, i: nat, node: Node)
    requires i < |goals|
    ensures StepsOf(goals[..i + 1], node) == StepsOf(goals[..i], node) + StepsOfGoal(goals[i], node)
  {
    assert goals[..i + 1][..i] == goals[..i];
  }

  lemma LastApart<T>(xs: seq<T>)
    requires xs != []
    ensures xs[..|xs| - 1] + [xs[|xs| - 1]] == xs
  {
  }

  lemma {:induction false} StepsAppend(xs: seq<Goal>, ys: seq<Goal>, node: Node)
    ensures StepsOf(xs + ys, node) == StepsOf(xs, node) + StepsOf(ys, node)
  {
    if ys == [] {
      assert xs + ys == xs;
    } else {
      var init, g := ys[..|ys| - 1], ys[|ys| - 1];
      StepsAppend(xs, init, node);
      AppendOne(xs, init, g, node);
      Associative(xs, init, [g]);
      LastApart(ys);
    }
  }

  lemma AppendOne(xs: seq<Goal>, ys: seq<Goal>, g: Goal, node: Node)
    requires StepsOf(xs + ys, node) == StepsOf(xs, node) + StepsOf(ys, node)
    ensures StepsOf((xs + ys) + [g], node) == StepsOf(xs, node) + StepsOf(ys + [g], node)
  {
    StepsPush(xs + ys, g, node);
    StepsPush(ys, g, node);
    Associative(StepsOf(xs, node), StepsOf(ys, node), StepsOfGoal(g, node));
  }

  // ---- What a stack still computes ------------------------------------------------

  /** The names of the references that the stack below has yet to leave at a node. */
  function NamesAt(pending: seq<Step>, node: Node): set<string> {
    set i | 0 <= i < |pending| && pending[i].ExitRef? && pending[i].node == node :: pending[i].name
  }

  ghost predicate NoExits(steps: seq<Step>) {
    forall i :: 0 <= i < |steps| ==> !steps[i].ExitRef?
  }

  /** No reference below was entered at a node deeper than `depth`. */
  ghost predicate ExitsWithin(pending: seq<Step>, depth: nat) {
    forall i :: 0 <= i < |pending| && pending[i].ExitRef? ==> |pending[i].node| <= depth
  }

  lemma NamesAbove(pending: seq<Step>, steps: seq<Step>, node: Node)
    requires NoExits(steps)
    ensures NamesAt(pending + steps, node) == NamesAt(pending, node)
  {
    forall name | name in NamesAt(pending, node) ensures name in NamesAt(pending + steps, node) {
      var i :| 0 <= i < |pending| && pending[i].ExitRef? && pending[i].node == node && pending[i].name == name;
      assert (pending + steps)[i] == pending[i];
    }
  }

  lemma NamesEntered(pending: seq<Step>, node: Node, name: string)
    ensures NamesAt(pending + [ExitRef(node, name)], node) == NamesAt(pending, node) + {name}
  {
    var pushed := pending + [ExitRef(node, name)];
    assert pushed[|pending|].name == name;
    forall other | other in NamesAt(pending, node) ensures other in NamesAt(pushed, node) {
      var i :| 0 <= i < |pending| && pending[i].ExitRef? && pending[i].node == node && pending[i].name == other;
      assert pushed[i] == pending[i];
    }
  }

  lemma NamesOfTask(pending: seq<Step>, t: Task, p: Task)
    requires SmallerTask(t, p) && ExitsWithin(pending, |p.node|)
    ensures NamesAt(pending, t.node) == NamesFor(t, p, NamesAt(pending, p.node))
  {
  }

  /** The outcome of running the stack with recursive results for every check:
      `None` if a step would take more results than there are. */
  function Final(pending: seq<Step>, results: seq<seq<Issue>>, comps: Components): Option<seq<Issue>> {
    if pending == [] then (if |results| == 1 then Some(results[0]) else None)
    else
      var rest, k := pending[..|pending| - 1], |results|;
      match pending[|pending| - 1]
      case Check(t, _) => Final(rest, results + [Issues(t, comps, NamesAt(rest, t.node))], comps)
      case ExitRef(_, _) => Final(rest, results, comps)
      case Merge(count) =>
        if k < count then None else Final(rest, results[..k - count] + [Flatten(results[k - count..])], comps)
      case Union(count, path, keyword) =>
        if k < count then None
        else Final(rest, results[..k - count] + [UnionIssues(path, keyword, results[k - count..])], comps)
  }

  lemma FinalPush(pending: seq<Step>, step: Step, results: seq<seq<Issue>>, comps: Components)
    requires step.Check?
    ensures Final(pending + [step], results, comps) ==
            Final(pending, results + [Issues(step.task, comps, NamesAt(pending, step.task.node))], comps)
  {
    assert (pending + [step])[..|pending|] == pending;
  }

  lemma {:induction false} FinalTasks(base: seq<Step>, tasks: seq<Task>, p: Task, results: seq<seq<Issue>>, comps: Components)
    requires ExitsWithin(base, |p.node|) && forall i :: 0 <= i < |tasks| ==> SmallerTask(tasks[i], p)
    ensures NoExits(ChecksOf(tasks))
    ensures Final(base + ChecksOf(tasks), results, comps) ==
            Final(base, results + TaskResults(tasks, p, comps, NamesAt(base, p.node)), comps)
  {
    var names := NamesAt(base, p.node);
    if tasks == [] {
      assert base + ChecksOf(tasks) == base;
      assert results + TaskResults(tasks, p, comps, names) == results;
    } else {
      var init, t := tasks[..|tasks| - 1], tasks[|tasks| - 1];
      var r := Issues(t, comps, NamesFor(t, p, names));
      FinalTasks(base, init, p, results + [r], comps);
      var below := base + ChecksOf(init);
      assert Final(base + ChecksOf(tasks), results, comps) == Final(below, results + [r], comps) by {
        Associative(base, ChecksOf(init), [CheckOf(t)]);
        FinalPush(below, CheckOf(t), results, comps);
        NamesAbove(base, ChecksOf(init), t.node);
        NamesOfTask(base, t, p);
      }
      Associative(results, [r], TaskResults(init, p, comps, names));
    }
  }

  lemma FinalGoal(base: seq<Step>, g: Goal, p: Task, results: seq<seq<Issue>>, comps: Components)
    requires ExitsWithin(base, |p.node|) && SmallerGoal(g, p)
    ensures NoExits(StepsOfGoal(g, p.node))
    ensures Final(base + StepsOfGoal(g, p.node), results, comps) ==
            Final(base, results + [GoalIssues(g, p, comps, NamesAt(base, p.node))], comps)
  {
    match g
    case All(t) =>
      FinalPush(base, CheckOf(t), results, comps);
      NamesOfTask(base, t, p);
    case Any(keyword, tasks) => FinalUnion(base, keyword, tasks, p, results, comps);
  }

  lemma FinalUnion(base: seq<Step>, keyword: string, tasks: seq<Task>, p: Task, results: seq<seq<Issue>>, comps: Components)
    requires ExitsWithin(base, |p.node|) && forall i :: 0 <= i < |tasks| ==> SmallerTask(tasks[i], p)
    ensures NoExits(ChecksOf(tasks))
    ensures var rs := TaskResults(tasks, p, comps, NamesAt(base, p.node));
            Final(base + ([Union(|tasks|, Pointer(p.node), keyword)] + ChecksOf(tasks)), results, comps) ==
            Final(base, results + [UnionIssues(Pointer(p.node), keyword, rs)], comps)
  {
    var union := Union(|tasks|, Pointer(p.node), keyword);
    NamesAbove(base, [union], p.node);
    FinalTasks(base + [union], tasks, p, results, comps);
    Associative(base, [union], ChecksOf(tasks));
    UnionPush(base, union, results, TaskResults(tasks, p, comps, NamesAt(base, p.node)), comps);
  }

  lemma UnionPush(rest: seq<Step>, union: Step, results: seq<seq<Issue>>, rs: seq<seq<Issue>>, comps: Components)
    requires union.Union? && union.count == |rs|
    ensures Final(rest + [union], results + rs, comps) ==
            Final(rest, results + [UnionIssues(union.path, union.keyword, rs)], comps)
  {
    assert (rest + [union])[..|rest|] == rest;
    assert (results + rs)[..|results|] == results && (results + rs)[|results|..] == rs;
  }

  lemma FinalLast(base: seq<Step>, goals: seq<Goal>, p: Task, results: seq<seq<Issue>>, comps: Components)
    requires goals != [] && ExitsWithin(base, |p.node|) && SmallerGoals(goals, p)
    requires NoExits(StepsOf(goals[..|goals| - 1], p.node))
    ensures NoExits(StepsOf(goals, p.node))
    ensures var r := GoalIssues(goals[|goals| - 1], p, comps, NamesAt(base, p.node));
            Final(base + StepsOf(goals, p.node), results, comps) ==
            Final(base + StepsOf(goals[..|goals| - 1], p.node), results + [r], comps)
  {
    var steps, last := StepsOf(goals[..|goals| - 1], p.node), goals[|goals| - 1];
    Associative(base, steps, StepsOfGoal(last, p.node));
    FinalGoal(base + steps, last, p, results, comps);
    NamesAbove(base, steps, p.node);
  }

  lemma {:induction false} FinalGoals(base: seq<Step>, goals: seq<Goal>, p: Task, results: seq<seq<Issue>>, comps: Components)
    requires ExitsWithin(base, |p.node|) && SmallerGoals(goals, p)
    ensures NoExits(StepsOf(goals, p.node))
    ensures Final(base + StepsOf(goals, p.node), results, comps) ==
            Final(base, results + GoalResults(goals, p, comps, NamesAt(base, p.node)), comps)
  {
    var names := NamesAt(base, p.node);
    if goals == [] {
      assert base + StepsOf(goals, p.node) == base;
      assert results + GoalResults(goals, p, comps, names) == results;
    } else {
      var init := goals[..|goals| - 1];
      var r := GoalIssues(goals[|goals| - 1], p, comps, names);
      FinalGoals(base, init, p, results + [r], comps);
      FinalLast(base, goals, p, results, comps);
      Associative(results, [r], GoalResults(init, p, comps, names));
    }
  }

  // ---- How long a stack still runs --------------------------------------------------

  /** Iterations that a check leads to, itself included. */
  function Cost(t: Task, comps: Components, names: set<string>): nat
    decreases t.value, comps.Keys - names, t.schema, 2, 0
  {
    if !t.schema.Obj? then 2
    else
      var o := t.schema.members;
      if Reference(o).Some? then
        var name := Resolve(Reference(o).value, comps);
        if name.None? || name.value in names then 2
        else 2 + Cost(t.(schema := comps[name.value]), comps, names + {name.value})
      else
        GoalsSmaller(t);
        2 + GoalsCost(Goals(t.value, t.node, o), t, comps, names)
  }

  function GoalsCost(goals: seq<Goal>, p: Task, comps: Components, names: set<string>): nat
    requires SmallerGoals(goals, p)
    decreases p.value, comps.Keys - names, p.schema, 1, |goals|
  {
    if goals == [] then 0
    else GoalsCost(goals[..|goals| - 1], p, comps, names) + GoalCost(goals[|goals| - 1], p, comps, names)
  }

  function GoalCost(g: Goal, p: Task, comps: Components, names: set<string>): nat
    requires SmallerGoal(g, p)
    decreases p.value, comps.Keys - names, p.schema, 1, 0
  {
    match g
    case All(t) => Cost(t, comps, NamesFor(t, p, names))
    case Any(_, tasks) => 1 + TasksCost(tasks, p, comps, names)
  }

  function TasksCost(tasks: seq<Task>, p: Task, comps: Components, names: set<string>): nat
    requires forall i :: 0 <= i < |tasks| ==> SmallerTask(tasks[i], p)
    decreases p.value, comps.Keys - names, p.schema, 0, |tasks|
  {
    if tasks == [] then 0
    else
      var t := tasks[|tasks| - 1];
      assert SmallerTask(t, p);
      TasksCost(tasks[..|tasks| - 1], p, comps, names) + Cost(t, comps, NamesFor(t, p, names))
  }

  /** Iterations left: every step but a check takes one. */
  function Total(pending: seq<Step>, comps: Components): nat {
    if pending == [] then 0
    else
      var rest, top := pending[..|pending| - 1], pending[|pending| - 1];
      Total(rest, comps) + if top.Check? then Cost(top.task, comps, NamesAt(rest, top.task.node)) else 1
  }

  lemma TotalPush(pending: seq<Step>, step: Step, comps: Components)
    ensures Total(pending + [step], comps) == Total(pending, comps) +
            if step.Check? then Cost(step.task, comps, NamesAt(pending, step.task.node)) else 1
  {
    assert (pending + [step])[..|pending|] == pending;
  }

  lemma {:induction false} TotalTasks(base: seq<Step>, tasks: seq<Task>, p: Task, comps: Components)
    requires ExitsWithin(base, |p.node|) && forall i :: 0 <= i < |tasks| ==> SmallerTask(tasks[i], p)
    ensures NoExits(ChecksOf(tasks))
    ensures Total(base + ChecksOf(tasks), comps) == Total(base, comps) + TasksCost(tasks, p, comps, NamesAt(base, p.node))
  {
    if tasks == [] {
      assert base + ChecksOf(tasks) == base;
    } else {
      var init, t := tasks[..|tasks| - 1], tasks[|tasks| - 1];
      TotalTasks(base, init, p, comps);
      Associative(base, ChecksOf(init), [CheckOf(t)]);
      TotalPush(base + ChecksOf(init), CheckOf(t), comps);
      NamesAbove(base, ChecksOf(init), t.node);
      NamesOfTask(base, t, p);
    }
  }

  lemma TotalGoal(base: seq<Step>, g: Goal, p: Task, comps: Components)
    requires ExitsWithin(base, |p.node|) && SmallerGoal(g, p)
    ensures NoExits(StepsOfGoal(g, p.node))
    ensures Total(base + StepsOfGoal(g, p.node), comps) == Total(base, comps) + GoalCost(g, p, comps, NamesAt(base, p.node))
  {
    match g
    case All(t) =>
      TotalPush(base, CheckOf(t), comps);
      NamesOfTask(base, t, p);
    case Any(keyword, tasks) =>
      var union := Union(|tasks|, Pointer(p.node), keyword);
      TotalPush(base, union, comps);
      NamesAbove(base, [union], p.node);
      TotalTasks(base + [union], tasks, p, comps);
      Associative(base, [union], ChecksOf(tasks));
  }

  lemma TotalLast(base: seq<Step>, goals: seq<Goal>, p: Task, comps: Components)
    requires goals != [] && ExitsWithin(base, |p.node|) && SmallerGoals(goals, p)
    requires NoExits(StepsOf(goals[..|goals| - 1], p.node))
    ensures NoExits(StepsOf(goals, p.node))
    ensures Total(base + StepsOf(goals, p.node), comps) ==
            Total(base + StepsOf(goals[..|goals| - 1], p.node), comps) +
            GoalCost(goals[|goals| - 1], p, comps, NamesAt(base, p.node))
  {
    var steps, last := StepsOf(goals[..|goals| - 1], p.node), goals[|goals| - 1];
    Associative(base, steps, StepsOfGoal(last, p.node));
    TotalGoal(base + steps, last, p, comps);
    NamesAbove(base, steps, p.node);
  }

  lemma {:induction false} TotalGoals(base: seq<Step>, goals: seq<Goal>, p: Task, comps: Components)
    requires ExitsWithin(base, |p.node|) && SmallerGoals(goals, p)
    ensures NoExits(StepsOf(goals, p.node))
    ensures Total(base + StepsOf(goals, p.node), comps) ==
            Total(base, comps) + GoalsCost(goals, p, comps, NamesAt(base, p.node))
  {
    if goals == [] {
      assert base + StepsOf(goals, p.node) == base;
    } else {
      TotalGoals(base, goals[..|goals| - 1], p, comps);
      TotalLast(base, goals, p, comps);
    }
  }

  // ---- The invariant of the loop -------------------------------------------------------

  /** The keys of the references still to be left. */
  function Keys(pending: seq<Step>): Active {
    set i | 0 <= i < |pending| && pending[i].ExitRef? :: (pending[i].node, pending[i].name)
  }

  /** Every reference is entered once, and no deeper than the checks above it. */
  ghost predicate Nested(pending: seq<Step>) {
    && (forall j :: 0 <= j < |pending| && pending[j].Check? ==> pending[j].path == Pointer(pending[j].task.node))
    && (forall i, j :: 0 <= i < j < |pending| && pending[i].ExitRef? && pending[j].Check? ==>
          |pending[i].node| <= |pending[j].task.node|)
    && (forall i, j :: 0 <= i < j < |pending| && pending[i].ExitRef? && pending[j].ExitRef? ==>
          (pending[i].node, pending[i].name) != (pending[j].node, pending[j].name))
  }

  /** The active set is what the stack has yet to leave, and the stack still computes the root's issues. */
  ghost predicate Inv(pending: seq<Step>, results: seq<seq<Issue>>, active: Active, root: Task, comps: Components) {
    && Nested(pending)
    && active == Keys(pending)
    && Final(pending, results, comps) == Some(Issues(root, comps, {}))
  }

  ghost predicate ChecksFrom(steps: seq<Step>, depth: nat) {
    forall i :: 0 <= i < |steps| && steps[i].Check? ==>
      steps[i].path == Pointer(steps[i].task.node) && depth <= |steps[i].task.node|
  }

  lemma {:induction false} TasksFrom(tasks: seq<Task>, p: Task)
    requires forall i :: 0 <= i < |tasks| ==> SmallerTask(tasks[i], p)
    ensures ChecksFrom(ChecksOf(tasks), |p.node|) && NoExits(ChecksOf(tasks))
  {
    if tasks != [] {
      TasksFrom(tasks[..|tasks| - 1], p);
      assert SmallerTask(tasks[|tasks| - 1], p);
    }
  }

  lemma {:induction false} GoalsFrom(goals: seq<Goal>, p: Task)
    requires SmallerGoals(goals, p)
    ensures ChecksFrom(StepsOf(goals, p.node), |p.node|) && NoExits(StepsOf(goals, p.node))
  {
    if goals != [] {
      var g := goals[|goals| - 1];
      GoalsFrom(goals[..|goals| - 1], p);
      if g.Any? { TasksFrom(g.tasks, p); }
      assert ChecksFrom(StepsOfGoal(g, p.node), |p.node|) && NoExits(StepsOfGoal(g, p.node));
    }
  }

  lemma NestedPop(pending: seq<Step>, step: Step)
    requires Nested(pending + [step])
    ensures Nested(pending)
    ensures step.Check? ==> step.path == Pointer(step.task.node) && ExitsWithin(pending, |step.task.node|)
    ensures Keys(pending) == Keys(pending + [step]) - if step.ExitRef? then {(step.node, step.name)} else {}
  {
    var full := pending + [step];
    assert forall i :: 0 <= i < |pending| ==> full[i] == pending[i];
    assert full[|pending|] == step;
    forall key | key in Keys(pending) ensures key in Keys(full) {
      var i :| 0 <= i < |pending| && pending[i].ExitRef? && key == (pending[i].node, pending[i].name);
      assert full[i].ExitRef?;
    }
  }

  lemma NestedPush(pending: seq<Step>, steps: seq<Step>, depth: nat)
    requires Nested(pending) && ExitsWithin(pending, depth) && ChecksFrom(steps, depth) && NoExits(steps)
    ensures Nested(pending + steps) && Keys(pending + steps) == Keys(pending)
  {
    var full := pending + steps;
    forall key | key in Keys(pending) ensures key in Keys(full) {
      var i :| 0 <= i < |pending| && pending[i].ExitRef? && key == (pending[i].node, pending[i].name);
      assert full[i].ExitRef?;
    }
  }

  /** A name is active at a node exactly if the stack has yet to leave it there. */
  lemma ActiveNames(pending: seq<Step>, node: Node, name: string)
    ensures (node, name) in Keys(pending) <==> name in NamesAt(pending, node)
  {
  }

  // ---- The transitions of a check ----------------------------------------------------------

  /** A check that ends with its issues at once. */
  lemma Settle(rest: seq<Step>, t: Task, path: string, results: seq<seq<Issue>>, active: Active, root: Task, comps: Components)
    requires Inv(rest + [Check(t, path)], results, active, root, comps)
    ensures Inv(rest, results + [Issues(t, comps, NamesAt(rest, t.node))], active, root, comps)
    ensures Total(rest, comps) < Total(rest + [Check(t, path)], comps)
  {
    NestedPop(rest, Check(t, path));
    FinalPush(rest, Check(t, path), results, comps);
    TotalPush(rest, Check(t, path), comps);
  }

  /** A check that enters a component. */
  lemma Enter(rest: seq<Step>, t: Task, path: string, results: seq<seq<Issue>>, active: Active, root: Task, comps: Components, name: string)
    requires Inv(rest + [Check(t, path)], results, active, root, comps)
    requires t.schema.Obj? && Reference(t.schema.members).Some?
    requires Resolve(Reference(t.schema.members).value, comps) == Some(name) && (t.node, name) !in active
    ensures var target := t.(schema := comps[name]);
            Inv(rest + [ExitRef(t.node, name)] + [Check(target, path)], results, active + {(t.node, name)}, root, comps) &&
            Total(rest + [ExitRef(t.node, name)] + [Check(target, path)], comps) < Total(rest + [Check(t, path)], comps)
  {
    var below := rest + [ExitRef(t.node, name)];
    NestedPop(rest, Check(t, path));
    ActiveNames(rest, t.node, name);
    NestedEnter(rest, t.node, name);
    NestedPush(below, [Check(t.(schema := comps[name]), path)], |t.node|);
    EnterFinal(rest, t, path, results, comps, name);
    EnterTotal(rest, t, path, comps, name);
  }

  lemma EnterFinal(rest: seq<Step>, t: Task, path: string, results: seq<seq<Issue>>, comps: Components, name: string)
    requires t.schema.Obj? && Reference(t.schema.members).Some? && name !in NamesAt(rest, t.node)
    requires Resolve(Reference(t.schema.members).value, comps) == Some(name)
    ensures Final(rest + [ExitRef(t.node, name)] + [Check(t.(schema := comps[name]), path)], results, comps) ==
            Final(rest + [Check(t, path)], results, comps)
  {
    var exit, target := ExitRef(t.node, name), t.(schema := comps[name]);
    NamesEntered(rest, t.node, name);
    FinalPush(rest, Check(t, path), results, comps);
    FinalPush(rest + [exit], Check(target, path), results, comps);
    ExitDone(rest, exit, results + [Issues(t, comps, NamesAt(rest, t.node))], comps);
  }

  lemma EnterTotal(rest: seq<Step>, t: Task, path: string, comps: Components, name: string)
    requires t.schema.Obj? && Reference(t.schema.members).Some? && name !in NamesAt(rest, t.node)
    requires Resolve(Reference(t.schema.members).value, comps) == Some(name)
    ensures Total(rest + [ExitRef(t.node, name)] + [Check(t.(schema := comps[name]), path)], comps) < Total(rest + [Check(t, path)], comps)
  {
    NamesEntered(rest, t.node, name);
    TotalPush(rest, Check(t, path), comps);
    TotalPush(rest + [ExitRef(t.node, name)], Check(t.(schema := comps[name]), path), comps);
    TotalPush(rest, ExitRef(t.node, name), comps);
  }

  lemma ExitDone(rest: seq<Step>, exit: Step, results: seq<seq<Issue>>, comps: Components)
    requires exit.ExitRef?
    ensures Final(rest + [exit], results, comps) == Final(rest, results, comps)
  {
    assert (rest + [exit])[..|rest|] == rest;
  }

  lemma NestedEnter(rest: seq<Step>, node: Node, name: string)
    requires Nested(rest) && ExitsWithin(rest, |node|) && (node, name) !in Keys(rest)
    ensures Nested(rest + [ExitRef(node, name)]) && ExitsWithin(rest + [ExitRef(node, name)], |node|)
    ensures Keys(rest + [ExitRef(node, name)]) == Keys(rest) + {(node, name)}
  {
    var full := rest + [ExitRef(node, name)];
    assert full[|rest|] == ExitRef(node, name);
    forall key | key in Keys(rest) ensures key in Keys(full) {
      var i :| 0 <= i < |rest| && rest[i].ExitRef? && key == (rest[i].node, rest[i].name);
      assert full[i].ExitRef?;
    }
  }

  lemma MergePush(rest: seq<Step>, results: seq<seq<Issue>>, rs: seq<seq<Issue>>, comps: Components)
    ensures Final(rest + [Merge(|rs|)], results + rs, comps) == Final(rest, results + [Flatten(rs)], comps)
  {
    assert (rest + [Merge(|rs|)])[..|rest|] == rest;
    assert (results + rs)[..|results|] == results && (results + rs)[|results|..] == rs;
  }

  /** A check that hands on its goals: their results are merged behind its own issues. */
  lemma HandOn(
    rest: seq<Step>, t: Task, path: string, own: seq<Issue>, goals: seq<Goal>,
    results: seq<seq<Issue>>, active: Active, root: Task, comps: Components)
    requires Inv(rest + [Check(t, path)], results, active, root, comps)
    requires SmallerGoals(goals, t)
    requires var names := NamesAt(rest, t.node);
             Issues(t, comps, names) == Flatten([own] + GoalResults(goals, t, comps, names)) &&
             Cost(t, comps, names) == 2 + GoalsCost(goals, t, comps, names)
    ensures var pending := rest + [Merge(|goals| + 1)] + StepsOf(goals, t.node);
            Inv(pending, results + [own], active, root, comps) &&
            Total(pending, comps) < Total(rest + [Check(t, path)], comps)
  {
    var merge := Merge(|goals| + 1);
    var below := rest + [merge];
    NestedPop(rest, Check(t, path));
    NestedPush(rest, [merge], |t.node|);
    GoalsFrom(goals, t);
    NestedPush(below, StepsOf(goals, t.node), |t.node|);
    NamesAbove(rest, [merge], t.node);
    HandOnFinal(rest, t, path, own, goals, results, comps);
    assert Total(below + StepsOf(goals, t.node), comps) < Total(rest + [Check(t, path)], comps) by {
      TotalPush(rest, Check(t, path), comps);
      TotalGoals(below, goals, t, comps);
      TotalPush(rest, merge, comps);
    }
  }

  lemma HandOnFinal(
    rest: seq<Step>, t: Task, path: string, own: seq<Issue>, goals: seq<Goal>,
    results: seq<seq<Issue>>, comps: Components)
    requires SmallerGoals(goals, t) && ExitsWithin(rest, |t.node|)
    requires var names := NamesAt(rest, t.node);
             Issues(t, comps, names) == Flatten([own] + GoalResults(goals, t, comps, names))
    ensures Final(rest + [Merge(|goals| + 1)] + StepsOf(goals, t.node), results + [own], comps) ==
            Final(rest + [Check(t, path)], results, comps)
  {
    var names := NamesAt(rest, t.node);
    var rs := GoalResults(goals, t, comps, names);
    var merge := Merge(|goals| + 1);
    assert Final(rest + [merge] + StepsOf(goals, t.node), results + [own], comps) ==
           Final(rest + [merge], results + ([own] + rs), comps) by {
      NamesAbove(rest, [merge], t.node);
      FinalGoals(rest + [merge], goals, t, results + [own], comps);
      Associative(results, [own], rs);
    }
    MergePush(rest, results, [own] + rs, comps);
    FinalPush(rest, Check(t, path), results, comps);
  }

  lemma NodeIssues(t: Task, comps: Components, names: set<string>)
    requires t.schema.Obj? && Reference(t.schema.members).None?
    ensures var goals := Goals(t.value, t.node, t.schema.members);
            SmallerGoals(goals, t) &&
            Issues(t, comps, names) == Flatten([Own(t.value, t.node, t.schema.members)] + GoalResults(goals, t, comps, names)) &&
            Cost(t, comps, names) == 2 + GoalsCost(goals, t, comps, names)
  {
    GoalsSmaller(t);
    FlattenFirst(Own(t.value, t.node, t.schema.members), GoalResults(Goals(t.value, t.node, t.schema.members), t, comps, names));
    NodeCost(t, comps, names);
  }

  lemma FlattenFirst(own: seq<Issue>, rs: seq<seq<Issue>>)
    ensures Flatten([own] + rs) == own + Flatten(rs)
  {
    assert ([own] + rs)[1..] == rs;
  }

  lemma NodeCost(t: Task, comps: Components, names: set<string>)
    requires t.schema.Obj? && Reference(t.schema.members).None?
    ensures SmallerGoals(Goals(t.value, t.node, t.schema.members), t) &&
            Cost(t, comps, names) == 2 + GoalsCost(Goals(t.value, t.node, t.schema.members), t, comps, names)
  {
    GoalsSmaller(t);
  }

  lemma MismatchIssues(t: Task, comps: Components, names: set<string>)
    requires t.schema.Obj? && Reference(t.schema.members).None? && BadType(t.value, t.schema.members)
    ensures Issues(t, comps, names) == Own(t.value, t.node, t.schema.members)
  {
    assert Goals(t.value, t.node, t.schema.members) == [];
  }

  // ---- The transitions of the other steps ------------------------------------------------------

  lemma Leave(rest: seq<Step>, exit: Step, results: seq<seq<Issue>>, active: Active, root: Task, comps: Components)
    requires exit.ExitRef? && Inv(rest + [exit], results, active, root, comps)
    ensures Inv(rest, results, active - {(exit.node, exit.name)}, root, comps)
    ensures Total(rest, comps) < Total(rest + [exit], comps)
  {
    NestedPop(rest, exit);
    ExitDone(rest, exit, results, comps);
    TotalPush(rest, exit, comps);
  }

  /** A merge or union finds as many results as it takes. */
  lemma Combine(rest: seq<Step>, step: Step, results: seq<seq<Issue>>, active: Active, root: Task, comps: Components)
    requires (step.Merge? || step.Union?) && Inv(rest + [step], results, active, root, comps)
    ensures step.count <= |results|
    ensures var k := |results| - step.count;
            var r := if step.Merge? then Flatten(results[k..]) else UnionIssues(step.path, step.keyword, results[k..]);
            Inv(rest, results[..k] + [r], active, root, comps)
    ensures Total(rest, comps) < Total(rest + [step], comps)
  {
    NestedPop(rest, step);
    TotalPush(rest, step, comps);
    assert (rest + [step])[..|rest|] == rest;
  }

  // ---- The loops of one check -----------------------------------------------------------------

  method PushAll(v: Json, node: Node, path: string, branches: seq<Json>) returns (children: seq<Step>)
    requires path == Pointer(node)
    ensures children == StepsOf(AllGoals(v, node, branches), node)
  {
    children := [];
    ghost var goals := AllGoals(v, node, branches);
    for i := 0 to |branches|
      invariant children == StepsOf(goals[..i], node)
    {
      children := children + [Check(Task(v, node, branches[i]), path)];
      StepsNext(goals, i, node);
    }
    assert goals[..|goals|] == goals;
  }

  method PushUnion(v: Json, node: Node, path: string, keyword: string, branches: seq<Json>) returns (children: seq<Step>)
    requires path == Pointer(node)
    ensures children == StepsOfGoal(Any(keyword, Tasks(v, node, branches)), node)
  {
    ghost var tasks := Tasks(v, node, branches);
    ghost var union := [Union(|branches|, path, keyword)];
    children := [Union(|branches|, path, keyword)];
    for i := 0 to |branches|
      invariant children == union + ChecksOf(tasks[..i])
    {
      children := children + [Check(Task(v, node, branches[i]), path)];
      assert tasks[..i + 1][..i] == tasks[..i];
      Associative(union, ChecksOf(tasks[..i]), [CheckOf(tasks[i])]);
    }
    assert tasks[..|tasks|] == tasks;
  }

  method PushKeyword(v: Json, node: Node, path: string, keyword: string, o: seq<Member>)
    returns (children: seq<Step>, count: nat)
    requires path == Pointer(node)
    ensures children == StepsOf(AnyGoals(v, node, o, keyword), node) && count == |AnyGoals(v, node, o, keyword)|
  {
    children, count := [], 0;
    var branches := AsArray(Get(o, keyword));
    if branches.Some? {
      children := PushUnion(v, node, path, keyword, branches.value);
      count := 1;
      StepsPush([], Any(keyword, Tasks(v, node, branches.value)), node);
    }
  }

  method PushBranches(v: Json, node: Node, path: string, o: seq<Member>) returns (children: seq<Step>, count: nat)
    requires path == Pointer(node)
    ensures children == StepsOf(BranchGoals(v, node, o), node) && count == |BranchGoals(v, node, o)|
  {
    children, count := [], 0;
    var allOf := AsArray(Get(o, "allOf"));
    if allOf.Some? {
      children := PushAll(v, node, path, allOf.value);
      count := |allOf.value|;
    }
    ghost var goals := AllGoals(v, node, Branches(o, "allOf"));
    var anyOf, any := PushKeyword(v, node, path, "anyOf", o);
    var oneOf, one := PushKeyword(v, node, path, "oneOf", o);
    children, count := children + anyOf + oneOf, count + any + one;
    StepsAppend(goals, AnyGoals(v, node, o, "anyOf"), node);
    StepsAppend(goals + AnyGoals(v, node, o, "anyOf"), AnyGoals(v, node, o, "oneOf"), node);
  }

  method ItemStep(item: Json, node: Node, path: string, i: nat, schema: Json) returns (child: Step)
    requires path == Pointer(node)
    ensures child == CheckOf(Task(item, node + [Index(i)], schema))
  {
    PointerPush(node, Index(i));
    child := Check(Task(item, node + [Index(i)], schema), PointerChild(path, Decimal(i)));
  }

  method PushPrefix(items: seq<Json>, node: Node, path: string, prefix: seq<Json>)
    returns (issues: seq<Issue>, children: seq<Step>, count: nat)
    requires path == Pointer(node)
    ensures issues == if |items| < |prefix| then [Issue(path, TooFewItems(|prefix|))] else []
    ensures children == StepsOf(PrefixGoals(items, node, prefix), node) && count == |PrefixGoals(items, node, prefix)|
  {
    issues, children, count := [], [], 0;
    if |items| < |prefix| {
      issues := [Issue(path, TooFewItems(|prefix|))];
    }
    ghost var goals := PrefixGoals(items, node, prefix);
    for i := 0 to if |prefix| <= |items| then |prefix| else |items|
      invariant children == StepsOf(goals[..i], node) && count == i
    {
      var child := ItemStep(items[i], node, path, i, prefix[i]);
      children, count := children + [child], count + 1;
      StepsNext(goals, i, node);
    }
    assert goals[..|goals|] == goals;
  }

  /** `goals` are those of the items from `from` on. */
  ghost predicate ItemsFrom(goals: seq<Goal>, items: seq<Json>, node: Node, from: nat, schema: Json) {
    && |goals| == (if |items| <= from then 0 else |items| - from)
    && forall k :: 0 <= k < |goals| ==> goals[k] == All(Task(items[from + k], node + [Index(from + k)], schema))
  }

  method PushFrom(items: seq<Json>, node: Node, path: string, from: nat, schema: Json, ghost goals: seq<Goal>)
    returns (children: seq<Step>, count: nat)
    requires path == Pointer(node) && ItemsFrom(goals, items, node, from, schema)
    ensures children == StepsOf(goals, node) && count == |goals|
  {
    children, count := [], 0;
    while from + count < |items|
      invariant count <= |goals| && children == StepsOf(goals[..count], node)
    {
      var child := ItemStep(items[from + count], node, path, from + count, schema);
      StepsNext(goals, count, node);
      children, count := children + [child], count + 1;
    }
    assert goals[..|goals|] == goals;
  }

  method PushRest(items: seq<Json>, node: Node, path: string, from: nat, schema: Json) returns (children: seq<Step>, count: nat)
    requires path == Pointer(node)
    ensures var goals := RestGoals(items, node, from, Some(schema));
            children == StepsOf(goals, node) && count == |goals|
  {
    ghost var goals := RestGoals(items, node, from, Some(schema));
    assert forall k :: 0 <= k < |goals| ==> goals[k] == ItemGoal(items, node, from + k, schema);
    children, count := PushFrom(items, node, path, from, schema, goals);
  }

  method PushItems(v: Json, node: Node, path: string, o: seq<Member>)
    returns (issues: seq<Issue>, children: seq<Step>, count: nat)
    requires path == Pointer(node) && v.Arr?
    ensures issues == LengthIssues(v, node, o)
    ensures children == StepsOf(ArrayGoals(v, node, o), node) && count == |ArrayGoals(v, node, o)|
  {
    issues, children, count := PushPrefix(v.items, node, path, Prefix(o));
    var schema := Get(o, "items");
    if schema.Some? {
      var more, added := PushRest(v.items, node, path, |Prefix(o)|, schema.value);
      children, count := children + more, count + added;
    }
    StepsAppend(PrefixGoals(v.items, node, Prefix(o)), RestGoals(v.items, node, |Prefix(o)|, schema), node);
    if schema.None? {
      assert children + [] == children;
    }
  }

  method FindMissing(ms: seq<Member>, node: Node, path: string, required: seq<Json>) returns (issues: seq<Issue>)
    requires path == Pointer(node)
    ensures issues == MissingIssues(ms, node, required)
  {
    issues := [];
    for i := 0 to |required|
      invariant issues == MissingIssues(ms, node, required[..i])
    {
      assert required[..i + 1][..i] == required[..i];
      if required[i].Str? && !Has(ms, required[i].s) {
        PointerPush(node, Key(required[i].s));
        issues := issues + [Issue(PointerChild(path, required[i].s), MissingProperty)];
      }
    }
    assert required[..|required|] == required;
  }

  method PushMembers(ms: seq<Member>, node: Node, path: string, properties: seq<Member>, additional: Option<Json>)
    returns (issues: seq<Issue>, children: seq<Step>, count: nat)
    requires path == Pointer(node)
    ensures issues == UnexpectedIssues(ms, node, properties, additional)
    ensures var goals := MemberGoals(ms, node, properties, additional);
            children == StepsOf(goals, node) && count == |goals|
  {
    issues, children, count := [], [], 0;
    for i := 0 to |ms|
      invariant issues == UnexpectedIssues(ms[..i], node, properties, additional)
      invariant children == StepsOf(MemberGoals(ms[..i], node, properties, additional), node)
      invariant count == |MemberGoals(ms[..i], node, properties, additional)|
    {
      ghost var goals := MemberGoals(ms[..i], node, properties, additional);
      assert ms[..i + 1][..i] == ms[..i];
      var found, child := PushMember(ms[i], node, path, properties, additional);
      issues, children, count := issues + found, children + child, count + |child|;
      StepsAppend(goals, MemberGoal(ms[i], node, properties, additional), node);
    }
    assert ms[..|ms|] == ms;
  }

  method PushMember(m: Member, node: Node, path: string, properties: seq<Member>, additional: Option<Json>)
    returns (issues: seq<Issue>, child: seq<Step>)
    requires path == Pointer(node)
    ensures issues == if Closed(properties, additional, m.key)
                      then [Issue(Pointer(node + [Key(m.key)]), UnexpectedProperty)] else []
    ensures child == StepsOf(MemberGoal(m, node, properties, additional), node)
    ensures |child| == |MemberGoal(m, node, properties, additional)|
  {
    issues, child := [], [];
    PointerPush(node, Key(m.key));
    var own := Get(properties, m.key);
    if own.Some? {
      child := [Check(Task(m.val, node + [Key(m.key)], own.value), PointerChild(path, m.key))];
    } else if additional == Some(Bool(false)) {
      issues := [Issue(PointerChild(path, m.key), UnexpectedProperty)];
    } else if additional.Some? {
      child := [Check(Task(m.val, node + [Key(m.key)], additional.value), PointerChild(path, m.key))];
    }
  }

  method CheckValue(v: Json, node: Node, path: string, o: seq<Member>) returns (issues: seq<Issue>)
    requires path == Pointer(node)
    ensures issues == ValueIssues(v, node, o)
  {
    issues := [];
    var constant := Get(o, "const");
    if constant.Some? && !Equal(v, constant.value) {
      issues := issues + [Issue(path, ExpectedConst(constant.value))];
    }
    var values := AsArray(Get(o, "enum"));
    if values.Some? && !InEnum(v, values.value) {
      issues := issues + [Issue(path, NoEnumMember(values.value))];
    }
  }

  /** The part of a check that depends on the value's own structure. */
  method PushStructure(v: Json, node: Node, path: string, o: seq<Member>)
    returns (issues: seq<Issue>, children: seq<Step>, count: nat)
    requires path == Pointer(node)
    ensures issues == StructureIssues(v, node, o)
    ensures var goals := ArrayGoals(v, node, o) + ObjectGoals(v, node, o);
            children == StepsOf(goals, node) && count == |goals|
  {
    issues, children, count := [], [], 0;
    if v.Arr? {
      issues, children, count := PushItems(v, node, path, o);
      assert ArrayGoals(v, node, o) + ObjectGoals(v, node, o) == ArrayGoals(v, node, o);
    } else if v.Obj? {
      var missing := FindMissing(v.members, node, path, Required(o));
      issues, children, count := PushMembers(v.members, node, path, Properties(o), Additional(o));
      issues := missing + issues;
      assert ArrayGoals(v, node, o) + ObjectGoals(v, node, o) == ObjectGoals(v, node, o);
    }
  }

  method PushGoals(v: Json, node: Node, path: string, o: seq<Member>)
    returns (issues: seq<Issue>, children: seq<Step>, count: nat)
    requires path == Pointer(node) && !BadType(v, o)
    ensures issues == StructureIssues(v, node, o)
    ensures children == StepsOf(Goals(v, node, o), node) && count == |Goals(v, node, o)|
  {
    ghost var branches, structure := BranchGoals(v, node, o), ArrayGoals(v, node, o) + ObjectGoals(v, node, o);
    children, count := PushBranches(v, node, path, o);
    var found, more, added := PushStructure(v, node, path, o);
    StepsAppend(branches, structure, node);
    return found, children + more, count + added;
  }

  predicate KeywordResult(issues: seq<Issue>, handedOn: Option<(seq<Step>, nat)>, v: Json, node: Node, o: seq<Member>) {
    && issues == Own(v, node, o)
    && (handedOn.None? <==> BadType(v, o))
    && (handedOn.Some? ==> handedOn.value == (StepsOf(Goals(v, node, o), node), |Goals(v, node, o)|))
  }

  /** The keywords of an object schema without `$ref`: `None` for the early exit on a type mismatch. */
  method CheckKeywords(v: Json, node: Node, path: string, o: seq<Member>)
    returns (issues: seq<Issue>, handedOn: Option<(seq<Step>, nat)>)
    requires path == Pointer(node)
    ensures KeywordResult(issues, handedOn, v, node, o)
  {
    issues := CheckValue(v, node, path, o);
    var kind := Get(o, "type");
    if kind.Some? && !TypeOk(kind.value, v) {
      return issues + [Issue(path, ExpectedType(kind.value))], None;
    }
    var found, children, count := PushGoals(v, node, path, o);
    return issues + found, Some((children, count));
  }

  /** A check of an object schema without `$ref`. */
  method RunKeywords(rest: seq<Step>, t: Task, path: string, results: seq<seq<Issue>>, active: Active, comps: Components, ghost root: Task)
    returns (pending': seq<Step>, results': seq<seq<Issue>>)
    requires Inv(rest + [Check(t, path)], results, active, root, comps)
    requires t.schema.Obj? && Reference(t.schema.members).None?
    ensures Inv(pending', results', active, root, comps)
    ensures Total(pending', comps) < Total(rest + [Check(t, path)], comps)
  {
    NestedPop(rest, Check(t, path));
    var issues, handedOn := CheckKeywords(t.value, t.node, path, t.schema.members);
    results' := results + [issues];
    if handedOn.None? {
      MismatchIssues(t, comps, NamesAt(rest, t.node));
      Settle(rest, t, path, results, active, root, comps);
      pending' := rest;
    } else {
      ghost var goals := Goals(t.value, t.node, t.schema.members);
      NodeIssues(t, comps, NamesAt(rest, t.node));
      HandOn(rest, t, path, issues, goals, results, active, root, comps);
      pending' := rest + [Merge(handedOn.value.1 + 1)] + handedOn.value.0;
    }
  }

  /** A check of a reference. */
  method RunReference(rest: seq<Step>, t: Task, path: string, results: seq<seq<Issue>>, active: Active, comps: Components, ghost root: Task)
    returns (pending': seq<Step>, results': seq<seq<Issue>>, active': Active)
    requires Inv(rest + [Check(t, path)], results, active, root, comps)
    requires t.schema.Obj? && Reference(t.schema.members).Some?
    ensures Inv(pending', results', active', root, comps)
    ensures Total(pending', comps) < Total(rest + [Check(t, path)], comps)
  {
    NestedPop(rest, Check(t, path));
    var reference := Reference(t.schema.members).value;
    var name := Resolve(reference, comps);
    if name.Some? {
      ActiveNames(rest, t.node, name.value);
      if (t.node, name.value) !in active {
        Enter(rest, t, path, results, active, root, comps, name.value);
        var target := t.(schema := comps[name.value]);
        return rest + [ExitRef(t.node, name.value)] + [Check(target, path)], results, active + {(t.node, name.value)};
      }
    }
    Settle(rest, t, path, results, active, root, comps);
    var kind := if name.Some? then UnguardedRef(reference) else UnresolvedRef(reference);
    return rest, results + [[Issue(path, kind)]], active;
  }

  /** One `Check` step of the loop. */
  method RunCheck(rest: seq<Step>, t: Task, path: string, results: seq<seq<Issue>>, active: Active, comps: Components, ghost root: Task)
    returns (pending': seq<Step>, results': seq<seq<Issue>>, active': Active)
    requires Inv(rest + [Check(t, path)], results, active, root, comps)
    ensures Inv(pending', results', active', root, comps)
    ensures Total(pending', comps) < Total(rest + [Check(t, path)], comps)
  {
    if t.schema.Obj? {
      if Reference(t.schema.members).Some? {
        pending', results', active' := RunReference(rest, t, path, results, active, comps, root);
      } else {
        pending', results' := RunKeywords(rest, t, path, results, active, comps, root);
        active' := active;
      }
    } else {
      NestedPop(rest, Check(t, path));
      Settle(rest, t, path, results, active, root, comps);
      var issues := if t.schema == Bool(true) then []
                    else if t.schema == Bool(false) then [Issue(path, Forbidden)]
                    else [Issue(path, InvalidSchema)];
      return rest, results + [issues], active;
    }
  }

  lemma Start(root: Task, comps: Components)
    requires root.node == []
    ensures Inv([Check(root, "")], [], {}, root, comps)
  {
    var pending := [Check(root, "")];
    FinalPush([], Check(root, ""), [], comps);
    assert [] + pending == pending;
    assert NamesAt([], root.node) == {} && Keys(pending) == {};
  }

  /** The validator: for every value, schema and component graph it ends, never takes
      a missing result, and returns the recursive validator's issues in their order. */
  method Validate(value: Json, schema: Json, comps: Components) returns (issues: seq<Issue>)
    ensures issues == Issues(Task(value, [], schema), comps, {})
  {
    ghost var root := Task(value, [], schema);
    var pending: seq<Step> := [Check(Task(value, [], schema), "")];
    var results: seq<seq<Issue>> := [];
    var active: Active := {};
    Start(root, comps);
    while pending != []
      invariant Inv(pending, results, active, root, comps)
      decreases Total(pending, comps)
    {
      var rest, step := pending[..|pending| - 1], pending[|pending| - 1];
      assert pending == rest + [step];
      match step {
        case Check(t, path) =>
          pending, results, active := RunCheck(rest, t, path, results, active, comps, root);
        case ExitRef(node, name) =>
          Leave(rest, step, results, active, root, comps);
          active, pending := active - {(node, name)}, rest;
        case Merge(count) =>
          Combine(rest, step, results, active, root, comps);
          var k := |results| - count;
          results, pending := results[..k] + [Flatten(results[k..])], rest;
        case Union(count, path, keyword) =>
          Combine(rest, step, results, active, root, comps);
          var k := |results| - count;
          results, pending := results[..k] + [UnionIssues(path, keyword, results[k..])], rest;
      }
    }
    issues := results[0];
  }
}
