/** Applying configurations to a running daemon: which supervisors survive, and when exactly the last
    applied configuration shows. Definitions are of any type `S`: the daemon looks at them only through
    `classify` (`ServiceConfig.Classify`) and through `makes`, whether a supervisor can be made for one. */
module Reconcile {
  import opened Options
  import opened StableKeys
  import opened ServiceConfig

  /** `hubKey` is the stable key of the hub-wide settings and the local endpoint. */
  datatype Config<S> = Config(hubKey: string, services: map<string, S>)

  /** A config file as read: its revision, and its configuration if it is valid. */
  datatype Document<S> = Document(revision: string, parsed: Option<Config<S>>)

  /** How the daemon judges definitions: what a change needs, and whether a supervisor can be made
      (the constructor throws for an endpoint that cannot be connected to). */
  datatype Judge<!S> = Judge(classify: (S, S) -> ServiceChange, makes: S -> bool)

  ghost predicate Reflexive<S(!new)>(j: Judge<S>) {
    forall s :: j.classify(s, s) == NoChange
  }

  // ---- What shows -------------------------------------------------------------------------

  /** What the daemon holds under a name: a definition, and whether its supervisor is still live. */
  datatype Slot<S> = Slot(service: S, live: bool)

  datatype View<S> = View(slots: map<string, Slot<S>>, hubKey: Option<string>, hubRunning: bool)

  function SlotAt<S>(slots: map<string, Slot<S>>, n: string): Option<Slot<S>> {
    if n in slots then Some(slots[n]) else None
  }

  predicate Keeps<S>(slot: Option<Slot<S>>, service: S, j: Judge<S>) {
    slot.Some? && j.classify(slot.value.service, service) != Restart
  }

  /** One service: kept as it is, updated in place, or replaced. If its supervisor cannot be made, a new
      one is not there, and a changed one leaves its old definition with the supervisor disposed. */
  function SettleService<S>(slot: Option<Slot<S>>, service: S, j: Judge<S>): Option<Slot<S>> {
    if Keeps(slot, service, j) then
      Some(if j.classify(slot.value.service, service) == NoChange then slot.value else slot.value.(service := service))
    else if j.makes(service) then Some(Slot(service, true))
    else if slot.Some? then Some(slot.value.(live := false))
    else None
  }

  predicate SameHub<S>(v: View<S>, config: Config<S>) {
    v.hubKey == Some(config.hubKey) && v.hubRunning
  }

  /** With changed hub settings, or without a hub, every service starts anew. */
  function Base<S>(v: View<S>, config: Config<S>): map<string, Slot<S>> {
    if SameHub(v, config) then v.slots else map[]
  }

  function Settled<S>(slots: map<string, Slot<S>>, services: map<string, S>, j: Judge<S>): map<string, Slot<S>> {
    map n | n in services && SettleService(SlotAt(slots, n), services[n], j).Some? ::
      SettleService(SlotAt(slots, n), services[n], j).value
  }

  /** `_apply`, once everything it started has settled. */
  function Settle<S>(v: View<S>, config: Config<S>, hubStarts: bool, j: Judge<S>): View<S> {
    View(Settled(Base(v, config), config.services, j), Some(config.hubKey), SameHub(v, config) || hubStarts)
  }

  /** `_apply` rejects: a supervisor that has to be made cannot be. */
  predicate Fails<S>(v: View<S>, config: Config<S>, j: Judge<S>) {
    exists n :: n in config.services && !Keeps(SlotAt(Base(v, config), n), config.services[n], j) && !j.makes(config.services[n])
  }

  /** Exactly the configured names, each with a definition equal to the configured one. */
  ghost predicate Shows<S>(slots: map<string, Slot<S>>, configured: map<string, S>, j: Judge<S>) {
    slots.Keys == configured.Keys && forall n :: n in slots ==> j.classify(slots[n].service, configured[n]) == NoChange
  }

  ghost predicate AllLive<S>(slots: map<string, Slot<S>>) {
    forall n :: n in slots ==> slots[n].live
  }

  /** Each configured service that is new, needs a restart or follows a hub restart can be made, and each
      other one is live. */
  ghost predicate Ready<S>(v: View<S>, config: Config<S>, j: Judge<S>) {
    forall n :: n in config.services ==>
      var slot := SlotAt(Base(v, config), n);
      if Keeps(slot, config.services[n], j) then slot.value.live else j.makes(config.services[n])
  }

  lemma SettledAt<S>(slots: map<string, Slot<S>>, services: map<string, S>, n: string, j: Judge<S>)
    ensures SlotAt(Settled(slots, services, j), n) ==
            if n in services then SettleService(SlotAt(slots, n), services[n], j) else None
  {
  }

  /** The configuration shows, whether its supervisors are live or not, exactly if the apply does not reject. */
  lemma ShowsExactly<S(!new)>(v: View<S>, config: Config<S>, hubStarts: bool, j: Judge<S>)
    requires Reflexive(j)
    ensures Shows(Settle(v, config, hubStarts, j).slots, config.services, j) <==> !Fails(v, config, j)
  {
    var base, after := Base(v, config), Settle(v, config, hubStarts, j).slots;
    if n :| n in config.services && !Keeps(SlotAt(base, n), config.services[n], j) && !j.makes(config.services[n]) {
      SettledAt(base, config.services, n, j);
      if n in after {
        assert after[n].service == base[n].service;
        assert j.classify(after[n].service, config.services[n]) == Restart;
      }
    } else {
      forall n | n in config.services ensures n in after && j.classify(after[n].service, config.services[n]) == NoChange {
        SettledAt(base, config.services, n, j);
      }
      assert after.Keys == config.services.Keys;
    }
  }

  /** After an apply the daemon shows exactly the configuration, with live supervisors only, if and only
      if it was ready for it. */
  lemma AppliesExactly<S(!new)>(v: View<S>, config: Config<S>, hubStarts: bool, j: Judge<S>)
    requires Reflexive(j)
    ensures var after := Settle(v, config, hubStarts, j).slots;
            Shows(after, config.services, j) && AllLive(after) <==> Ready(v, config, j)
  {
    var base, after := Base(v, config), Settle(v, config, hubStarts, j).slots;
    ShowsExactly(v, config, hubStarts, j);
    if Ready(v, config, j) {
      forall n | n in after ensures after[n].live { SettledAt(base, config.services, n, j); }
    }
    if Shows(after, config.services, j) && AllLive(after) {
      forall n | n in config.services && Keeps(SlotAt(base, n), config.services[n], j) ensures base[n].live {
        SettledAt(base, config.services, n, j);
        assert after[n].live == base[n].live;
      }
    }
  }

  /** A disposed supervisor is left in the map exactly where a change could not be made, or where one
      that was disposed before is kept. */
  lemma DeadExactly<S>(v: View<S>, config: Config<S>, hubStarts: bool, n: string, j: Judge<S>)
    ensures var after := Settle(v, config, hubStarts, j).slots;
            n in after && !after[n].live <==>
            SameHub(v, config) && n in v.slots && n in config.services &&
            if Keeps(Some(v.slots[n]), config.services[n], j) then !v.slots[n].live else !j.makes(config.services[n])
  {
    SettledAt(Base(v, config), config.services, n, j);
  }

  /** Whether the hub runs after an apply, and with which settings. */
  lemma HubAfter<S>(v: View<S>, config: Config<S>, hubStarts: bool, j: Judge<S>)
    ensures var end := Settle(v, config, hubStarts, j);
            end.hubKey == Some(config.hubKey) && (end.hubRunning <==> (v.hubKey == Some(config.hubKey) && v.hubRunning) || hubStarts)
  {
  }

  /** The next apply starts every service anew exactly if its hub settings differ or the hub did not run: then it
      holds what can be made and nothing else, and otherwise it treats what it finds. */
  lemma StartsAnew<S>(v: View<S>, next: Config<S>, hubStarts: bool, n: string, j: Judge<S>)
    requires n in next.services
    ensures var slot := SlotAt(Settle(v, next, hubStarts, j).slots, n);
            if v.hubKey != Some(next.hubKey) || !v.hubRunning then
              slot == if j.makes(next.services[n]) then Some(Slot(next.services[n], true)) else None
            else
              n in v.slots && j.classify(v.slots[n].service, next.services[n]) == NoChange ==> slot == Some(v.slots[n])
  {
    SettledAt(Base(v, next), next.services, n, j);
  }

  // ---- Histories -----------------------------------------------------------------------------

  /** The view after a sequence of configurations, each with whether its hub starts. */
  function After<S>(v: View<S>, configs: seq<(Config<S>, bool)>, j: Judge<S>): View<S> {
    if configs == [] then v
    else
      var last := configs[|configs| - 1];
      Settle(After(v, configs[..|configs| - 1], j), last.0, last.1, j)
  }

  /** Whatever was applied before, the last configuration shows with live supervisors if and only if the
      daemon was ready for it; then nothing else of the history matters. */
  lemma LastShows<S(!new)>(v: View<S>, configs: seq<(Config<S>, bool)>, j: Judge<S>)
    requires Reflexive(j) && configs != []
    ensures var last, end := configs[|configs| - 1].0, After(v, configs, j);
            Shows(end.slots, last.services, j) && AllLive(end.slots) <==> Ready(After(v, configs[..|configs| - 1], j), last, j)
  {
    var last := configs[|configs| - 1];
    AppliesExactly(After(v, configs[..|configs| - 1], j), last.0, last.1, j);
  }

  ghost predicate AllMade<S>(configs: seq<(Config<S>, bool)>, j: Judge<S>) {
    forall i, n :: 0 <= i < |configs| && n in configs[i].0.services ==> j.makes(configs[i].0.services[n])
  }

  /** If all supervisors can be made the daemon is always ready: only the last configuration shows. */
  lemma {:induction false} MadeHistoryShows<S(!new)>(v: View<S>, configs: seq<(Config<S>, bool)>, j: Judge<S>)
    requires Reflexive(j) && AllLive(v.slots) && AllMade(configs, j)
    ensures AllLive(After(v, configs, j).slots)
    ensures configs != [] ==> Shows(After(v, configs, j).slots, configs[|configs| - 1].0.services, j)
  {
    if configs != [] {
      var most, last := configs[..|configs| - 1], configs[|configs| - 1];
      forall i, n | 0 <= i < |most| && n in most[i].0.services ensures j.makes(most[i].0.services[n]) {
        assert most[i] == configs[i];
      }
      MadeHistoryShows(v, most, j);
      AppliesExactly(After(v, most, j), last.0, last.1, j);
    }
  }

  /** A change that cannot be made is not undone by going back: with the hub as it was, applying the old
      definition, or any other that needs no restart, keeps the disposed supervisor. */
  lemma GoingBackStaysDead<S>(
    v: View<S>, bad: Config<S>, back: Config<S>, badStarts: bool, backStarts: bool, n: string, j: Judge<S>)
    requires SameHub(v, bad) && back.hubKey == bad.hubKey && n in v.slots && n in bad.services && n in back.services
    requires !Keeps(Some(v.slots[n]), bad.services[n], j) && !j.makes(bad.services[n])
    requires Keeps(Some(v.slots[n]), back.services[n], j)
    ensures var failed := Settle(v, bad, badStarts, j);
            failed.slots[n] == v.slots[n].(live := false) && Fails(v, bad, j) &&
            var end := Settle(failed, back, backStarts, j);
            n in end.slots && !end.slots[n].live && !Ready(failed, back, j)
  {
    var failed := Settle(v, bad, badStarts, j);
    SettledAt(v.slots, bad.services, n, j);
    assert !Keeps(SlotAt(Base(v, bad), n), bad.services[n], j);
    SettledAt(failed.slots, back.services, n, j);
    assert Keeps(SlotAt(Base(failed, back), n), back.services[n], j);
  }

  /** The end of a run depends on its history: from a daemon without services, one service is applied,
      changed to a definition that cannot be made, and changed back. The map shows the configuration as it
      did at first, but the supervisor is disposed. */
  lemma HistoryMatters<S(!new)>(hubKey: string, n: string, good: S, bad: S, j: Judge<S>)
    requires Reflexive(j) && j.makes(good) && !j.makes(bad) && j.classify(good, bad) == Restart
    ensures var one, two := Config(hubKey, map[n := good]), Config(hubKey, map[n := bad]);
            var start := View(map[], None, false);
            && After(start, [(one, true)], j).slots == map[n := Slot(good, true)]
            && After(start, [(one, true), (two, true)], j).slots == map[n := Slot(good, false)]
            && After(start, [(one, true), (two, true), (one, true)], j).slots == map[n := Slot(good, false)]
            && Shows(map[n := Slot(good, false)], one.services, j)
  {
    var one, two := Config(hubKey, map[n := good]), Config(hubKey, map[n := bad]);
    var start := View(map[], None, false);
    SettleOne(start, one, n, good, j);
    SettleOne(View(map[n := Slot(good, true)], Some(hubKey), true), two, n, bad, j);
    SettleOne(View(map[n := Slot(good, false)], Some(hubKey), true), one, n, good, j);
    AfterOne(start, [], (one, true), j);
    AfterOne(start, [(one, true)], (two, true), j);
    AfterOne(start, [(one, true), (two, true)], (one, true), j);
    assert [] + [(one, true)] == [(one, true)] && [(one, true)] + [(two, true)] == [(one, true), (two, true)];
    assert [(one, true), (two, true)] + [(one, true)] == [(one, true), (two, true), (one, true)];
  }

  lemma SettleOne<S>(v: View<S>, config: Config<S>, n: string, service: S, j: Judge<S>)
    requires config.services == map[n := service] && SettleService(SlotAt(Base(v, config), n), service, j).Some?
    ensures Settle(v, config, true, j) ==
            View(map[n := SettleService(SlotAt(Base(v, config), n), service, j).value], Some(config.hubKey), true)
  {
    SettledAt(Base(v, config), config.services, n, j);
    assert Settled(Base(v, config), config.services, j).Keys == {n};
  }

  lemma AfterOne<S>(v: View<S>, configs: seq<(Config<S>, bool)>, last: (Config<S>, bool), j: Judge<S>)
    ensures After(v, configs + [last], j) == Settle(After(v, configs, j), last.0, last.1, j)
  {
    assert (configs + [last])[..|configs|] == configs;
  }

  // ---- Supervisors -----------------------------------------------------------------------------

  /** A supervisor: its identity, and the definition it now has. */
  datatype Supervisor<S> = Supervisor(id: nat, service: S)

  /** The daemon's state. Supervisors are numbered as they are made. */
  datatype State<S> = State(
    services: map<string, Supervisor<S>>,
    made: nat,
    disposed: set<nat>)

  /** No two names have the same supervisor. One in the map may be disposed. */
  ghost predicate Valid<S>(s: State<S>) {
    && (forall n :: n in s.services ==> s.services[n].id < s.made)
    && (forall m, n :: m in s.services && n in s.services && m != n ==> s.services[m].id != s.services[n].id)
    && (forall id :: id in s.disposed ==> id < s.made)
  }

  /** Every supervisor ever made is in the map or disposed. */
  ghost predicate NoneLost<S>(s: State<S>) {
    forall id: nat :: id < s.made ==> id in s.disposed || exists n :: n in s.services && s.services[n].id == id
  }

  function SlotOf<S>(s: State<S>, n: string): Option<Slot<S>> {
    if n in s.services then Some(Slot(s.services[n].service, s.services[n].id !in s.disposed)) else None
  }

  function SlotsOf<S>(s: State<S>): map<string, Slot<S>> {
    map n | n in s.services :: Slot(s.services[n].service, s.services[n].id !in s.disposed)
  }

  /** The service under `n` was left alone. */
  ghost predicate Untouched<S>(before: State<S>, after: State<S>, n: string) {
    SlotOf(after, n) == SlotOf(before, n) && (n in before.services ==> n in after.services && after.services[n] == before.services[n])
  }

  /** The supervisor under `n` after its service was treated: the same one if it is kept, else a new one if
      one can be made, and then or otherwise the old one is disposed. */
  ghost predicate Identified<S>(before: State<S>, after: State<S>, n: string, service: S, j: Judge<S>) {
    if Keeps(SlotOf(before, n), service, j) then n in after.services && after.services[n].id == before.services[n].id
    else
      && (n in before.services ==> before.services[n].id in after.disposed)
      && (n in after.services ==>
           if j.makes(service) then after.services[n].id >= before.made
           else n in before.services && after.services[n] == before.services[n])
  }

  ghost predicate Treated<S>(before: State<S>, after: State<S>, n: string, service: S, j: Judge<S>) {
    SlotOf(after, n) == SettleService(SlotOf(before, n), service, j) && Identified(before, after, n, service, j)
  }

  ghost predicate Grows<S>(before: State<S>, after: State<S>) {
    before.made <= after.made && before.disposed <= after.disposed
  }

  /** What the loop over the configured services has done once `todo` is left. */
  ghost predicate Applied<S>(before: State<S>, after: State<S>, configured: map<string, S>, todo: set<string>, j: Judge<S>) {
    && Grows(before, after)
    && (forall n :: n in configured && n !in todo ==> Treated(before, after, n, configured[n], j))
    && (forall n :: n !in configured || n in todo ==> Untouched(before, after, n))
  }

  /** The services that are no longer configured are gone and disposed, but for those in `todo`. */
  ghost predicate Removed<S>(before: State<S>, after: State<S>, configured: map<string, S>, todo: set<string>) {
    && after.made == before.made && before.disposed <= after.disposed
    && (forall n :: n in configured || n in todo ==> Untouched(before, after, n))
    && (forall n :: n !in configured && n !in todo ==>
         n !in after.services && (n in before.services ==> before.services[n].id in after.disposed))
  }

  lemma AppliedStep<S>(before: State<S>, s: State<S>, after: State<S>, configured: map<string, S>, todo: set<string>, name: string, j: Judge<S>)
    requires Valid(before) && name in todo && name in configured && Applied(before, s, configured, todo, j)
    requires Grows(s, after) && Treated(s, after, name, configured[name], j)
    requires forall n :: n != name ==> Untouched(s, after, n)
    ensures Applied(before, after, configured, todo - {name}, j)
  {
    forall n | n in configured && n !in todo - {name} ensures Treated(before, after, n, configured[n], j) {
      if n == name {
        assert Untouched(before, s, n);
      } else {
        assert Treated(before, s, n, configured[n], j) && Untouched(s, after, n);
      }
    }
    forall n | n !in configured || n in todo - {name} ensures Untouched(before, after, n) {
      assert Untouched(before, s, n) && Untouched(s, after, n);
    }
  }

  lemma RemovedStep<S>(before: State<S>, s: State<S>, after: State<S>, configured: map<string, S>, todo: set<string>, name: string)
    requires Valid(before) && Removed(before, s, configured, todo) && name in todo && name in before.services && name !in configured
    requires after.services == s.services - {name} && after.made == s.made
    requires after.disposed == s.disposed + {before.services[name].id}
    ensures Removed(before, after, configured, todo - {name})
  {
    assert Untouched(before, s, name);
    forall n | n in configured || n in todo - {name} ensures Untouched(before, after, n) {
      OthersUntouched(before, s, after, n, name);
    }
  }

  lemma OthersUntouched<S>(before: State<S>, s: State<S>, after: State<S>, n: string, name: string)
    requires Valid(before) && Untouched(before, s, n) && n != name && name in before.services
    requires after.services == s.services - {name} && after.disposed == s.disposed + {before.services[name].id}
    ensures Untouched(before, after, n)
  {
  }

  /** A live supervisor survives exactly if its service is kept; a name that is not kept holds a new
      supervisor, or the disposed one of a change that could not be made. */
  ghost predicate Survives<S>(before: State<S>, after: State<S>, n: string, kept: bool)
    requires n in before.services
  {
    && (before.services[n].id !in after.disposed <==> kept && before.services[n].id !in before.disposed)
    && (kept ==> n in after.services && after.services[n].id == before.services[n].id)
    && (!kept && n in after.services ==> after.services[n].id >= before.made || after.services[n] == before.services[n])
  }

  /** Whether the service under `n` is kept by an apply to `v`. */
  predicate KeptBy<S>(v: View<S>, config: Config<S>, n: string, j: Judge<S>) {
    n in config.services && Keeps(SlotAt(Base(v, config), n), config.services[n], j)
  }

  class Daemon<S(!new)> {
    const judge: Judge<S>
    var services: map<string, Supervisor<S>>
    var hubKey: Option<string>
    var hubRunning: bool
    var made: nat
    var disposed: set<nat>
    var seenRevision: Option<string>
    var appliedRevision: Option<string>
    var configFailed: bool

    ghost function Now(): State<S>
      reads this
    {
      State(services, made, disposed)
    }

    ghost function Shown(): View<S>
      reads this
    {
      View(SlotsOf(Now()), hubKey, hubRunning)
    }

    ghost predicate Sound()
      reads this
    {
      Reflexive(judge) && Valid(Now()) && NoneLost(Now())
    }

    constructor (judge: Judge<S>)
      requires Reflexive(judge)
      ensures Sound() && this.judge == judge
      ensures Shown() == View(map[], None, false)
    {
      this.judge := judge;
      services, hubKey, hubRunning, made, disposed := map[], None, false, 0, {};
      seenRevision, appliedRevision, configFailed := None, None, false;
    }

    method DisposeAllServices()
      requires Sound()
      modifies this`services, this`disposed
      ensures Sound() && services == map[]
      ensures disposed == old(disposed) + set n | n in old(services) :: old(services)[n].id
    {
      disposed := disposed + set n | n in services :: services[n].id;
      services := map[];
    }

    method RemoveService(name: string)
      requires Sound() && name in services
      modifies this`services, this`disposed
      ensures Sound() && services == old(services) - {name}
      ensures disposed == old(disposed) + {old(services)[name].id}
    {
      var supervisor := services[name];
      services := services - {name};
      disposed := disposed + {supervisor.id};
      forall id: nat | id < made && id !in disposed ensures exists n :: n in services && services[n].id == id {
        var n :| n in old(services) && old(services)[n].id == id;
        assert n in services && services[n].id == id;
      }
    }

    /** The supervisor is disposed and stays in the map for now. */
    method DisposeService(name: string)
      requires Sound() && name in services
      modifies this`disposed
      ensures Sound() && disposed == old(disposed) + {services[name].id}
    {
      disposed := disposed + {services[name].id};
    }

    /** The supervisor takes the new definition and stays. */
    method UpdateService(name: string, service: S)
      requires Sound() && name in services
      modifies this`services
      ensures Sound() && services == old(services)[name := old(services)[name].(service := service)]
    {
      services := services[name := services[name].(service := service)];
      SameIds(old(Now()), Now());
    }

    /** A new supervisor, in place of a disposed one if there is one. */
    method AddService(name: string, service: S)
      requires Sound() && (name in services ==> services[name].id in disposed)
      modifies this`services, this`made
      ensures Sound() && made == old(made) + 1
      ensures services == old(services)[name := Supervisor(old(made), service)]
    {
      services := services[name := Supervisor(made, service)];
      made := made + 1;
      forall id: nat | id < made && id !in disposed ensures exists n :: n in services && services[n].id == id {
        if id == old(made) {
          assert name in services && services[name].id == id;
        } else {
          var n :| n in old(services) && old(services)[n].id == id;
          assert n in services && services[n].id == id;
        }
      }
    }

    /** `_applyService`: a service whose supervisor cannot be made fails after the old one was disposed. */
    method ApplyService(name: string, service: S) returns (ok: bool)
      requires Sound()
      modifies this`services, this`disposed, this`made
      ensures Sound() && Grows(old(Now()), Now())
      ensures Treated(old(Now()), Now(), name, service, judge)
      ensures forall n :: n != name ==> Untouched(old(Now()), Now(), n)
      ensures ok <==> Keeps(SlotOf(old(Now()), name), service, judge) || judge.makes(service)
    {
      if name in services {
        var change := judge.classify(services[name].service, service);
        if change == NoChange {
          return true;
        }
        if change == InPlace {
          UpdateService(name, service);
          return true;
        }
        DisposeService(name);
      }
      if !judge.makes(service) {
        return false;
      }
      AddService(name, service);
      ok := true;
    }

    /** Services that the configuration does not have any more. */
    method RemoveServices(configured: map<string, S>)
      requires Sound()
      modifies this`services, this`disposed
      ensures Sound() && Removed(old(Now()), Now(), configured, {})
    {
      ghost var before := Now();
      var todo := services.Keys - configured.Keys;
      while todo != {}
        invariant todo <= before.services.Keys - configured.Keys && Sound()
        invariant Removed(before, Now(), configured, todo)
        decreases todo
      {
        ghost var s := Now();
        var n :| n in todo;
        assert Untouched(before, s, n);
        RemoveService(n);
        RemovedStep(before, s, Now(), configured, todo, n);
        todo := todo - {n};
      }
    }

    /** The configured services, in any order; all are applied even if some fail. */
    method ApplyServices(configured: map<string, S>) returns (ok: bool)
      requires Sound()
      modifies this`services, this`disposed, this`made
      ensures Sound() && Applied(old(Now()), Now(), configured, {}, judge)
      ensures ok <==> forall n :: n in configured ==>
                Keeps(SlotOf(old(Now()), n), configured[n], judge) || judge.makes(configured[n])
    {
      ghost var before := Now();
      var todo := configured.Keys;
      ok := true;
      while todo != {}
        invariant todo <= configured.Keys && Sound()
        invariant Applied(before, Now(), configured, todo, judge)
        invariant ok <==> forall n :: n in configured && n !in todo ==>
                    Keeps(SlotOf(before, n), configured[n], judge) || judge.makes(configured[n])
        decreases todo
      {
        ghost var s := Now();
        var n :| n in todo;
        assert Untouched(before, s, n);
        var applied := ApplyService(n, configured[n]);
        AppliedStep(before, s, Now(), configured, todo, n, judge);
        ok := ok && applied;
        todo := todo - {n};
      }
    }

    /** `_apply`, once everything it started has settled. `hubStarts` says whether a hub that has to be
        started does start. It rejects if a supervisor that has to be made cannot be. */
    method Apply(config: Config<S>, hubStarts: bool) returns (ok: bool)
      requires Sound()
      modifies this`services, this`hubKey, this`hubRunning, this`made, this`disposed
      ensures Sound() && Shown() == Settle(old(Shown()), config, hubStarts, judge)
      ensures ok <==> !Fails(old(Shown()), config, judge)
      ensures Shows(Shown().slots, config.services, judge) <==> ok
      ensures Shows(Shown().slots, config.services, judge) && AllLive(Shown().slots) <==> Ready(old(Shown()), config, judge)
      ensures forall n :: n in old(services) ==> Survives(old(Now()), Now(), n, KeptBy(old(Shown()), config, n, judge))
    {
      ghost var before, view := Now(), Shown();
      if Some(config.hubKey) != hubKey || !hubRunning {
        DisposeAllServices();
        hubKey := Some(config.hubKey);
        hubRunning := hubStarts;
      }
      ghost var start := Now();
      assert SlotsOf(start) == Base(view, config);
      RemoveServices(config.services);
      ghost var left := Now();
      ok := ApplyServices(config.services);
      SettledSlots(start, left, Now(), config.services, judge);
      FailsIn(start, left, config.services, judge);
      AppliesExactly(view, config, hubStarts, judge);
      ShowsExactly(view, config, hubStarts, judge);
      forall n | n in before.services ensures Survives(before, Now(), n, KeptBy(view, config, n, judge)) {
        Survival(before, start, left, Now(), view, config, n, judge);
      }
    }

    /** `_reload`: an unchanged file is a no-op unless forced, an invalid one keeps the running
        configuration, and one that is applied but rejected counts as seen and not as applied. */
    method Reload(document: Document<S>, force: bool, hubStarts: bool) returns (ok: bool)
      requires Sound()
      modifies this
      ensures Sound() && seenRevision == Some(document.revision)
      ensures var skipped := !force && old(seenRevision) == Some(document.revision);
              && (skipped || document.parsed.None? ==>
                   ok && Now() == old(Now()) && Shown() == old(Shown()) && appliedRevision == old(appliedRevision))
              && (skipped ==> configFailed == old(configFailed))
              && (!skipped ==> configFailed == document.parsed.None?)
              && (!skipped && document.parsed.Some? ==>
                   && Shown() == Settle(old(Shown()), document.parsed.value, hubStarts, judge)
                   && (ok <==> !Fails(old(Shown()), document.parsed.value, judge))
                   && appliedRevision == (if ok then Some(document.revision) else old(appliedRevision)))
    {
      if !force && Some(document.revision) == seenRevision {
        return true;
      }
      seenRevision := Some(document.revision);
      if document.parsed.None? {
        configFailed := true;
        return true;
      }
      configFailed := false;
      ok := ApplyRevision(document.parsed.value, document.revision, hubStarts);
    }

    /** The revision counts as applied unless the apply rejects. */
    method ApplyRevision(config: Config<S>, revision: string, hubStarts: bool) returns (ok: bool)
      requires Sound()
      modifies this`services, this`hubKey, this`hubRunning, this`made, this`disposed, this`appliedRevision
      ensures Sound() && Shown() == Settle(old(Shown()), config, hubStarts, judge)
      ensures ok <==> !Fails(old(Shown()), config, judge)
      ensures appliedRevision == if ok then Some(revision) else old(appliedRevision)
    {
      ok := Apply(config, hubStarts);
      if ok { appliedRevision := Some(revision); }
    }

    /** After any sequence of configurations the daemon shows what that history leaves: the last one, with
        live supervisors only, if and only if it was ready for that. */
    method ApplyEach(configs: seq<(Config<S>, bool)>)
      requires Sound() && configs != []
      modifies this`services, this`hubKey, this`hubRunning, this`made, this`disposed
      ensures Sound() && Shown() == After(old(Shown()), configs, judge)
      ensures var last := configs[|configs| - 1].0;
              Shows(Shown().slots, last.services, judge) && AllLive(Shown().slots) <==>
              Ready(After(old(Shown()), configs[..|configs| - 1], judge), last, judge)
    {
      ghost var view := Shown();
      for i := 0 to |configs|
        invariant Sound() && Shown() == After(view, configs[..i], judge)
      {
        var ok := Apply(configs[i].0, configs[i].1);
        AfterOne(view, configs[..i], configs[i], judge);
        assert configs[..i + 1] == configs[..i] + [configs[i]];
      }
      assert configs[..|configs|] == configs;
      LastShows(view, configs, judge);
    }
  }

  lemma SlotsAt<S>(s: State<S>, n: string)
    ensures SlotAt(SlotsOf(s), n) == SlotOf(s, n)
  {
  }

  /** What the two loops leave is what the view predicts. */
  lemma SettledSlots<S>(start: State<S>, left: State<S>, after: State<S>, configured: map<string, S>, j: Judge<S>)
    requires Removed(start, left, configured, {}) && Applied(left, after, configured, {}, j)
    ensures SlotsOf(after) == Settled(SlotsOf(start), configured, j)
  {
    var slots, settled := SlotsOf(after), Settled(SlotsOf(start), configured, j);
    forall n ensures SlotAt(slots, n) == SlotAt(settled, n) {
      SlotsAt(after, n);
      SlotsAt(start, n);
      SettledAt(SlotsOf(start), configured, n, j);
      if n in configured {
        assert Untouched(start, left, n) && Treated(left, after, n, configured[n], j);
      } else {
        assert Untouched(left, after, n);
      }
    }
    forall n ensures n in slots <==> n in settled { assert SlotAt(slots, n) == SlotAt(settled, n); }
    forall n | n in slots ensures slots[n] == settled[n] { assert SlotAt(slots, n) == SlotAt(settled, n); }
  }

  /** Removing other services does not change whether a service is kept. */
  lemma FailsIn<S>(start: State<S>, left: State<S>, configured: map<string, S>, j: Judge<S>)
    requires Removed(start, left, configured, {})
    ensures forall n :: n in configured ==>
              (Keeps(SlotOf(left, n), configured[n], j) <==> Keeps(SlotAt(SlotsOf(start), n), configured[n], j))
  {
    forall n | n in configured
      ensures Keeps(SlotOf(left, n), configured[n], j) <==> Keeps(SlotAt(SlotsOf(start), n), configured[n], j)
    {
      assert Untouched(start, left, n);
      SlotsAt(start, n);
    }
  }

  lemma Survival<S>(before: State<S>, start: State<S>, left: State<S>, after: State<S>, view: View<S>, config: Config<S>, n: string, j: Judge<S>)
    requires n in before.services && view.slots == SlotsOf(before) && Valid(after)
    requires SlotsOf(start) == Base(view, config)
    requires if SameHub(view, config) then start == before
             else start.services == map[] && start.made == before.made && before.services[n].id in start.disposed
    requires Removed(start, left, config.services, {}) && Applied(left, after, config.services, {}, j)
    ensures Survives(before, after, n, KeptBy(view, config, n, j))
  {
    SlotsAt(start, n);
    if n in config.services {
      assert Untouched(start, left, n) && Treated(left, after, n, config.services[n], j);
    } else {
      assert Untouched(left, after, n);
    }
  }

  lemma SameIds<S>(before: State<S>, after: State<S>)
    requires Valid(before) && NoneLost(before)
    requires after.services.Keys == before.services.Keys && after.made == before.made && after.disposed == before.disposed
    requires forall n :: n in before.services ==> after.services[n].id == before.services[n].id
    ensures Valid(after) && NoneLost(after)
  {
    forall id: nat | id < after.made && id !in after.disposed
      ensures exists n :: n in after.services && after.services[n].id == id
    {
      var n :| n in before.services && before.services[n].id == id;
      assert n in after.services && after.services[n].id == id;
    }
  }

  ghost predicate OnlyInPlaceDiffers(before: Js, after: Js) {
    before.Obj? && after.Obj? && forall key :: NeedsRestart(key) ==> SameMember(before.entries, after.entries, key)
  }

  function EndpointService(endpoint: string): Js {
    Js.Obj([Entry("endpoint", Js.Str(endpoint))])
  }

  /** The history that matters is a real one: a changed endpoint, one that can be connected to and one
      that cannot. */
  lemma EndpointHistoryMatters(hubKey: string, n: string, good: string, bad: string, makes: Js -> bool)
    requires makes(EndpointService(good)) && !makes(EndpointService(bad))
    ensures var j := Judge(Classify, makes);
            var one, two := Config(hubKey, map[n := EndpointService(good)]), Config(hubKey, map[n := EndpointService(bad)]);
            After(View(map[], None, false), [(one, true), (two, true), (one, true)], j).slots ==
            map[n := Slot(EndpointService(good), false)]
  {
    var g, b := EndpointService(good), EndpointService(bad);
    ClassifyMeaning(g, b);
    assert Lookup(g.entries, "endpoint") == Some(Js.Str(good)) && Lookup(b.entries, "endpoint") == Some(Js.Str(bad));
    assert NeedsRestart("endpoint") && !SameMember(g.entries, b.entries, "endpoint");
    HistoryMatters(hubKey, n, g, b, Judge(Classify, makes));
  }

  /** Service definitions instantiate the daemon: what shows is equal up to member order, and a service is
      kept exactly if only fields applied in place differ. */
  lemma ServicesInstance(slots: map<string, Slot<Js>>, configured: map<string, Js>, makes: Js -> bool)
    requires forall n :: n in slots ==> IsService(slots[n].service)
    requires forall n :: n in configured ==> IsService(configured[n])
    ensures var j := Judge(Classify, makes);
            && Reflexive(j)
            && (Shows(slots, configured, j) <==>
                 slots.Keys == configured.Keys && forall n :: n in slots ==> SemanticallyEqual(slots[n].service, configured[n]))
            && (forall n :: n in slots && n in configured ==>
                 (Keeps(Some(slots[n]), configured[n], j) <==> OnlyInPlaceDiffers(slots[n].service, configured[n])))
  {
    forall n | n in slots && n in configured
      ensures Classify(slots[n].service, configured[n]) == NoChange <==> SemanticallyEqual(slots[n].service, configured[n])
      ensures Classify(slots[n].service, configured[n]) != Restart <==> OnlyInPlaceDiffers(slots[n].service, configured[n])
    {
      ClassifyMeaning(slots[n].service, configured[n]);
    }
  }
}
