/** What a call on the registry brings about, and how it is answered. */
module EndpointOutcomes {
  import opened Options
  import opened Endpoints
  import opened EndpointSafety

  // ---- Answers ----------------------------------------------------------------------------------

  /** How the operation that begins is answered before its first await, if at all. */
  function FirstAnswer(s: State, op: Op, effects: Effects, aborted: bool): Option<Reply> {
    match op
    case Create(d, _, replace) =>
      if aborted then Some(Aborted)
      else if Find(s, d.address).Some? then (if replace then None else Some(Exists))
      else if !effects.adds then Some(AddFailed) else None
    case CleanUp(_) => None
    case Configure(a, persistent, _) =>
      if Find(s, a).None? then Some(NotFound)
      else if persistent == Some(true) && Find(s, a).value < |s.objects| && s.objects[Find(s, a).value].owned then Some(OwnedPersistent)
      else if !effects.saves then Some(SaveFailed) else None
    case _ => if Find(s, op.address).None? then Some(NotFound) else if !effects.saves then Some(SaveFailed) else None
  }

  /** How the running operation is answered after its await. */
  function LaterAnswer(at: Await, effects: Effects): Option<Reply> {
    match at
    case Replacing(_, _, _) => if effects.adds then None else Some(AddFailed)
    case Undoing(_, reply) => Some(reply)
    case StartUpdating(_) => None
    case _ => Some(Done)
  }

  function Answer(s: State, e: Event): Option<Reply>
    requires Possible(s, e)
  {
    match e
    case Begins(effects, aborted) => FirstAnswer(s, s.queue[0], effects, aborted)
    case Resumes(effects, _) => LaterAnswer(s.running.value, effects)
    case Rejects => if s.running.value.CreateSyncing? then None else Some(SupervisorFailed)
    case _ => None
  }

  /** `t` is `s` with the answer, if there is one; if not, something runs. */
  predicate Answered(s: State, t: State, answer: Option<Reply>) {
    && t.replies == (if answer.Some? then s.replies + [answer.value] else s.replies)
    && t.queue == s.queue && (t.running.None? <==> answer.Some?)
  }

  lemma CreateAnswered(s: State, op: Op, effects: Effects)
    requires op.Create?
    ensures Answered(s, BeginCreate(s, op, effects), FirstAnswer(s, op, effects, false))
  {
  }

  lemma AtAnswered(s: State, op: Op, i: nat, effects: Effects)
    requires !op.Create? && !op.CleanUp? && i < |s.objects| && Find(s, op.address) == Some(i)
    ensures Answered(s, BeginAt(s, op, i, effects.saves), FirstAnswer(s, op, effects, false))
  {
  }

  lemma BeginAnswered(s: State, op: Op, effects: Effects, aborted: bool)
    requires Filed(s) && (op.CleanUp? ==> op.instance < |s.objects|)
    ensures Answered(s, Begin(s, op, effects, aborted), FirstAnswer(s, op, effects, aborted))
  {
    if op.Create? {
      if !aborted { CreateAnswered(s, op, effects); }
    } else if !op.CleanUp? && Find(s, op.address).Some? {
      AtAnswered(s, op, Find(s, op.address).value, effects);
    }
  }

  lemma ResumeAnswered(s: State, at: Await, effects: Effects, finished: bool)
    requires at.instance < |s.objects|
    ensures Answered(s, Resume(s, at, effects, finished), LaterAnswer(at, effects))
  {
  }

  /** Every step answers the running call with the reply that is due, or suspends it; and calls are taken in
      the order in which they were made. */
  lemma AnswersExactly(s: State, e: Event)
    requires Inv(s) && Possible(s, e)
    ensures var t, answer := Step(s, e), Answer(s, e);
            && t.replies == (if answer.Some? then s.replies + [answer.value] else s.replies)
            && (e.Begins? || e.Resumes? || e.Rejects? ==> (t.running.None? <==> answer.Some?))
            && (e.Calls? || e.Reports? || e.Restores? || e.Closes? ==> t.running == s.running)
            && t.queue == if e.Begins? then s.queue[1..] else if e.Calls? && t != s then s.queue + [e.op] else s.queue
  {
    match e {
      case Begins(effects, aborted) => TakenAnswered(s, effects, aborted);
      case Resumes(effects, finished) => ResumeAnswered(s, s.running.value, effects, finished);
      case Rejects => RejectAnswered(s, s.running.value);
      case Calls(_) => OthersUnanswered(s, e);
      case Reports(_, _) => OthersUnanswered(s, e);
      case Restores(_) => OthersUnanswered(s, e);
      case Closes => OthersUnanswered(s, e);
    }
  }

  lemma TakenAnswered(s: State, effects: Effects, aborted: bool)
    requires Inv(s) && Possible(s, Begins(effects, aborted))
    ensures Answered(s.(queue := s.queue[1..]), Step(s, Begins(effects, aborted)), FirstAnswer(s, s.queue[0], effects, aborted))
  {
    var d := s.(queue := s.queue[1..]);
    BeginAnswered(d, s.queue[0], effects, aborted);
    SameAnswer(s, d, s.queue[0], effects, aborted);
  }

  lemma SameAnswer(s: State, d: State, op: Op, effects: Effects, aborted: bool)
    requires d.objects == s.objects && d.entries == s.entries
    ensures FirstAnswer(d, op, effects, aborted) == FirstAnswer(s, op, effects, aborted)
  {
  }

  lemma RejectAnswered(s: State, at: Await)
    requires at.instance < |s.objects|
    ensures Answered(s, Reject(s, at), if at.CreateSyncing? then None else Some(SupervisorFailed))
  {
  }

  lemma OthersUnanswered(s: State, e: Event)
    requires Inv(s) && Possible(s, e) && !e.Begins? && !e.Resumes? && !e.Rejects?
    ensures var t := Step(s, e);
            t.replies == s.replies && t.running == s.running &&
            t.queue == if e.Calls? && t != s then s.queue + [e.op] else s.queue
  {
  }

  /** A call is refused exactly while closing, and for an owned endpoint that is to be persistent. */
  lemma RefusedExactly(s: State, op: Op)
    requires Inv(s) && Possible(s, Calls(op))
    ensures Step(s, Calls(op)) == s <==>
            s.closing || match op case Create(d, owned, _) => owned && d.persistent case _ => false
  {
    assert |s.queue + [op]| == |s.queue| + 1;
  }

  // ---- Creating ----------------------------------------------------------------------------------

  /** `i` is a live, listed endpoint of that definition that is to run. */
  ghost predicate Made(s: State, i: nat, d: Definition, owned: bool) {
    i < |s.objects| && s.objects[i] == Entry(d, true, owned, false) && Listed(s, i) && Find(s, d.address) == Some(i)
  }

  /** The file that a create writes: all persistent endpoints, the new one too. */
  ghost predicate Recorded(s: State, d: Definition) {
    s.file.Some? && (d.persistent ==> Stored(d, true) in s.file.value)
  }

  /** Adding lists the new endpoint and keeps every other address as it was. */
  lemma AddMakes(s: State, d: Definition, owned: bool, effects: Effects)
    requires Filed(s) && effects.adds
    ensures var t, i := AddAndSave(s, d, owned, effects), |s.objects|;
            && Made(t, i, d, owned) && t.objects[..i] == s.objects
            && (forall a :: a != d.address ==> Find(t, a) == Find(s, a))
            && if effects.saves then Recorded(t, d) && t.running == Some(CreateSyncing(i))
               else t.file == s.file && t.running == Some(Undoing(i, SaveFailed))
  {
    var t, i := AddAndSave(s, d, owned, effects), |s.objects|;
    forall a | a != d.address ensures Find(t, a) == Find(s, a) { KeyInjective(a, d.address); }
    if effects.saves {
      assert Record(t.objects[i]) == Stored(d, true) && Listed(t, i);
    }
  }

  /** A create at a free address makes the endpoint, saves it if it is persistent, and is answered when its
      supervisor has started. */
  lemma CreateCompletes(s: State, d: Definition, owned: bool, replace: bool)
    requires Inv(s) && s.running.None? && Find(s, d.address).None? && (owned ==> !d.persistent)
    ensures var t := Begin(s, Create(d, owned, replace), Effects(true, true), false);
            && t.running == Some(CreateSyncing(|s.objects|)) && Recorded(t, d)
            && var u := Resume(t, t.running.value, Effects(true, true), false);
               Made(u, |s.objects|, d, owned) && u.running.None? && u.replies == s.replies + [Done] && u.file == t.file
  {
    AddMakes(s, d, owned, Effects(true, true));
  }

  /** A create that replaces disposes the endpoint that is there; once it has stopped, a new instance is listed
      in its place, and the old one is removed. */
  lemma ReplaceCompletes(s: State, d: Definition, owned: bool, i: nat)
    requires Inv(s) && s.running.None? && Find(s, d.address) == Some(i) && (owned ==> !d.persistent)
    ensures var t := Begin(s, Create(d, owned, true), Effects(true, true), false);
            && t == s.(running := Some(Replacing(i, d, owned)))
            && var u := Resume(t, t.running.value, Effects(true, true), false);
               && u.running == Some(CreateSyncing(|s.objects|)) && Recorded(u, d) && Made(u, |s.objects|, d, owned)
               && i < |s.objects| && u.objects[i] == s.objects[i].(removed := true)
               && (forall a :: a != d.address ==> Find(u, a) == Find(s, a))
  {
    var t := s.(running := Some(Replacing(i, d, owned)));
    var r := RemoveEntry(t, i);
    KeyInjective(d.address, s.objects[i].definition.address);
    RemovedAlone(t, i, d.address);
    AddMakes(r, d, owned, Effects(true, true));
    assert AddAndSave(r, d, owned, Effects(true, true)).objects[..|s.objects|][i] == r.objects[i];
  }

  lemma RemovedAlone(s: State, i: nat, address: Address)
    requires Filed(s) && Listed(s, i) && s.objects[i].definition.address == address
    ensures var r := RemoveEntry(s, i);
            Filed(r) && |r.objects| == |s.objects| && r.objects[i] == s.objects[i].(removed := true) &&
            forall a :: a != address ==> Find(r, a) == Find(s, a)
  {
    var r := RemoveEntry(s, i);
    forall a | a != address ensures Find(r, a) == Find(s, a) { KeyInjective(a, address); }
    forall k | k in r.entries ensures s.entries[k] != i && r.objects[r.entries[k]] == s.objects[s.entries[k]] {}
  }

  /** A create that was written but whose supervisor does not start, or that could not be written, is undone. */
  lemma CreateUndone(s: State, i: nat, reply: Reply, effects: Effects)
    requires Inv(s) && s.running == Some(Undoing(i, reply)) && Listed(s, i)
    ensures var t := Resume(s, s.running.value, effects, false);
            t.objects[i] == s.objects[i].(removed := true) && Find(t, s.objects[i].definition.address) == None &&
            t.running.None? && t.replies == s.replies + [reply]
  {
  }

  lemma StartFailureUndoes(s: State, i: nat)
    requires Inv(s) && s.running == Some(CreateSyncing(i))
    ensures Step(s, Rejects) == s.(running := Some(Undoing(i, SupervisorFailed)))
  {
  }

  // ---- Calls that name an endpoint -------------------------------------------------------------

  /** `t` differs from `s` in what runs and was answered, and in the entry `i`. */
  predicate OnlyAt(s: State, t: State, i: nat, e: Entry) {
    i < |s.objects| && t.objects == s.objects[i := e]
  }

  /** Start: the endpoint is to run, be it persistent or not; first it is enabled, then started. */
  lemma StartCompletes(s: State, a: Address, i: nat)
    requires Filed(s) && s.running.None? && Find(s, a) == Some(i)
    ensures var t := Begin(s, Start(a), Effects(true, true), false);
            && OnlyAt(s, t, i, s.objects[i].(desired := true)) && t.entries == s.entries && t.running == Some(StartUpdating(i))
            && var u := Resume(t, t.running.value, Effects(true, true), false);
               && u == t.(running := Some(StartSyncing(i)))
               && Resume(u, u.running.value, Effects(true, true), false) == u.(running := None, replies := s.replies + [Done])
  {
  }

  /** Stop: the endpoint is not to run; once it has stopped it stays listed if it is persistent, and is gone if it is not. */
  lemma StopCompletes(s: State, a: Address, i: nat)
    requires Filed(s) && s.running.None? && Find(s, a) == Some(i)
    ensures var t := Begin(s, Stop(a), Effects(true, true), false);
            && OnlyAt(s, t, i, s.objects[i].(desired := false)) && t.entries == s.entries && t.running == Some(StopUpdating(i))
            && var u := Resume(t, t.running.value, Effects(true, true), false);
               && u.running.None? && u.replies == s.replies + [Done]
               && (if s.objects[i].definition.persistent then u.objects == t.objects && Find(u, a) == Some(i)
                   else OnlyAt(s, u, i, s.objects[i].(desired := false, removed := true)) && Find(u, a) == None)
  {
    KeyInjective(a, s.objects[i].definition.address);
  }

  /** Remove: the endpoint is off the map at once, and marked removed when it has stopped. */
  lemma RemoveCompletes(s: State, a: Address, i: nat)
    requires Filed(s) && s.running.None? && Find(s, a) == Some(i)
    ensures var t := Begin(s, Remove(a), Effects(true, true), false);
            && t.objects == s.objects && Find(t, a) == None && t.running == Some(Removing(i))
            && var u := Resume(t, t.running.value, Effects(true, true), false);
               u.running.None? && u.replies == s.replies + [Done] && Find(u, a) == None &&
               OnlyAt(s, u, i, s.objects[i].(removed := true))
  {
    KeyInjective(a, s.objects[i].definition.address);
  }

  /** Configure: just what is given changes; an endpoint that is finished and not persistent any more is then gone. */
  lemma ConfigureCompletes(s: State, a: Address, i: nat, persistent: Option<bool>, restart: Option<Restart>, finished: bool)
    requires Filed(s) && s.running.None? && Find(s, a) == Some(i) && !(s.objects[i].owned && persistent == Some(true))
    ensures var d := s.objects[i].definition;
            var p := if persistent.Some? then persistent.value else d.persistent;
            var c := Definition(d.address, d.source, p, if restart.Some? then restart.value else d.restart);
            var t := Begin(s, Configure(a, persistent, restart), Effects(true, true), false);
            && OnlyAt(s, t, i, s.objects[i].(definition := c)) && t.entries == s.entries && t.running == Some(Configuring(i))
            && var u := Resume(t, t.running.value, Effects(true, true), finished);
               && u.running.None? && u.replies == s.replies + [Done]
               && (Find(u, a) == if finished && !s.closing && !p then None else Some(i))
  {
    KeyInjective(a, s.objects[i].definition.address);
  }

  /** An endpoint that finishes is gone, unless it is persistent or the registry is closing. */
  lemma FinishedIsGone(s: State, i: nat, finished: bool)
    requires Inv(s) && Listed(s, i)
    ensures Find(Step(s, Reports(i, finished)), s.objects[i].definition.address) ==
            if finished && !s.closing && !s.objects[i].definition.persistent then None else Some(i)
  {
  }
}
