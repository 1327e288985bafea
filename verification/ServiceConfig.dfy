/** Managed services of the configuration: how a change must be applied, and who owns a service ID. */
module ServiceConfig {
  import opened Options
  import opened StableKeys

  datatype ServiceChange = NoChange | InPlace | Restart

  const IN_PLACE_FIELDS: set<string> := {"description", "enabled", "restart", "startTimeoutMs", "stopTimeoutMs"}

  function Without(es: seq<Entry>, keys: set<string>): seq<Entry> {
    if es == [] then []
    else (if es[0].key in keys then [] else [es[0]]) + Without(es[1..], keys)
  }

  function WithoutInPlaceFields(service: Js): Js {
    if service.Obj? then Js.Obj(Without(service.entries, IN_PLACE_FIELDS)) else service
  }

  function Classify(previous: Js, next: Js): ServiceChange {
    if StableKey(WithoutInPlaceFields(previous)) != StableKey(WithoutInPlaceFields(next)) then Restart
    else if StableKey(previous) == StableKey(next) then NoChange else InPlace
  }

  lemma {:induction false} WithoutLookup(es: seq<Entry>, keys: set<string>, key: string)
    ensures Lookup(Without(es, keys), key) == if key in keys then None else Lookup(es, key)
  {
    if es != [] {
      WithoutLookup(es[1..], keys, key);
      var rest := Without(es[1..], keys);
      if es[0].key !in keys {
        assert Without(es, keys)[0] == es[0] && Without(es, keys)[1..] == rest;
      } else {
        assert Without(es, keys) == rest;
      }
    }
  }

  lemma {:induction false} WithoutMembers(es: seq<Entry>, keys: set<string>)
    ensures forall e :: e in Without(es, keys) ==> e in es
  {
    if es != [] {
      WithoutMembers(es[1..], keys);
      assert forall e :: e in es[1..] ==> e in es;
    }
  }

  lemma {:induction false} WithoutValue(es: seq<Entry>, keys: set<string>)
    requires Values(es)
    ensures Values(Without(es, keys))
  {
    if es != [] {
      WithoutValue(es[1..], keys);
      WithoutMembers(es[1..], keys);
      var r := Without(es[1..], keys);
      forall i | 0 <= i < |r| ensures r[i].key != es[0].key {
        assert r[i] in es[1..];
      }
    }
  }

  /** Services are objects. */
  predicate IsService(v: Js) {
    v.Obj? && Value(v)
  }

  lemma ClassifyByField(previous: Js, next: Js)
    requires IsService(previous) && IsService(next)
    ensures Classify(previous, next) == NoChange <==> SemanticallyEqual(previous, next)
    ensures Classify(previous, next) == Restart <==>
            exists key :: key !in IN_PLACE_FIELDS && !SameMember(previous.entries, next.entries, key)
  {
    var p, n := WithoutInPlaceFields(previous), WithoutInPlaceFields(next);
    WithoutValue(previous.entries, IN_PLACE_FIELDS);
    WithoutValue(next.entries, IN_PLACE_FIELDS);
    assert Value(p) && Value(n);
    StableKeyIsCanonical(p, n);
    StableKeyIsCanonical(previous, next);
    forall key ensures SameMember(p.entries, n.entries, key) <==>
                       key in IN_PLACE_FIELDS || SameMember(previous.entries, next.entries, key)
    {
      WithoutLookup(previous.entries, IN_PLACE_FIELDS, key);
      WithoutLookup(next.entries, IN_PLACE_FIELDS, key);
    }
  }

  /** A member that a running service cannot take over. */
  predicate NeedsRestart(key: string) {
    key != "description" && key != "enabled" && key != "restart" && key != "startTimeoutMs" && key != "stopTimeoutMs"
  }

  lemma InPlaceField(key: string)
    ensures key !in IN_PLACE_FIELDS <==> NeedsRestart(key)
  {
  }

  /** Nothing changes exactly between equal definitions; a restart is due exactly if they
      differ in a member other than the five that are applied in place. */
  lemma ClassifyMeaning(previous: Js, next: Js)
    requires IsService(previous) && IsService(next)
    ensures Classify(previous, next) == NoChange <==> SemanticallyEqual(previous, next)
    ensures Classify(previous, next) == Restart <==>
            exists key :: NeedsRestart(key) && !SameMember(previous.entries, next.entries, key)
  {
    ClassifyByField(previous, next);
    forall key ensures key !in IN_PLACE_FIELDS <==> NeedsRestart(key) { InPlaceField(key); }
  }

  // ---- Distinct service IDs ----------------------------------------------------------

  datatype Loaded = Services(services: map<string, Js>) | Clash(owner: string, name: string, serviceId: string)

  function ServiceId(service: Js, name: string, hubServiceId: string): string {
    var given := if service.Obj? then Lookup(service.entries, "serviceId") else None;
    if given.Some? && given.value.Str? then given.value.s else hubServiceId + "/" + name
  }

  /** A service claims the ID it declares, or else the hub's, a slash and its name. */
  lemma ServiceIdMeans(es: seq<Entry>, name: string, hub: string)
    ensures (exists id :: Lookup(es, "serviceId") == Some(Js.Str(id))) ==> Lookup(es, "serviceId") == Some(Js.Str(ServiceId(Js.Obj(es), name, hub)))
    ensures Lookup(es, "serviceId") == None ==> ServiceId(Js.Obj(es), name, hub) == hub + "/" + name
  {
  }

  /** `{ ...object, key: val }`. */
  function SetEntry(es: seq<Entry>, key: string, val: Js): seq<Entry> {
    if es == [] then [Entry(key, val)]
    else if es[0].key == key then [Entry(key, val)] + es[1..]
    else [es[0]] + SetEntry(es[1..], key, val)
  }

  function WithServiceId(service: Js, serviceId: string): Js {
    if service.Obj? then Js.Obj(SetEntry(service.entries, "serviceId", Js.Str(serviceId))) else service
  }

  lemma {:induction false} SetEntryLookup(es: seq<Entry>, key: string, val: Js, other: string)
    requires Values(es) && !val.Undefined?
    ensures Lookup(SetEntry(es, key, val), other) == if other == key then Some(val) else Lookup(es, other)
  {
    if es != [] && es[0].key != key { SetEntryLookup(es[1..], key, val, other); }
  }

  /** A loaded service is what was configured, with the ID that it claims. */
  lemma LoadedMembers(service: Js, serviceId: string, key: string)
    requires IsService(service)
    ensures var loaded := WithServiceId(service, serviceId);
            loaded.Obj? && Lookup(loaded.entries, key) == if key == "serviceId" then Some(Js.Str(serviceId)) else Lookup(service.entries, key)
  {
    SetEntryLookup(service.entries, "serviceId", Js.Str(serviceId), key);
  }

  /** Parsed services, by name. */
  type Parsed = seq<(string, Js)>

  function IdAt(parsed: Parsed, hub: string, i: nat): string
    requires i < |parsed|
  {
    ServiceId(parsed[i].1, parsed[i].0, hub)
  }

  /** The first `k` services claim different IDs. */
  ghost predicate DistinctIds(parsed: Parsed, hub: string, k: nat)
    requires k <= |parsed|
  {
    forall i, j :: 0 <= i < j < k ==> IdAt(parsed, hub, i) != IdAt(parsed, hub, j)
  }

  ghost predicate OwnersOf(owners: map<string, string>, parsed: Parsed, hub: string, k: nat)
    requires k <= |parsed|
  {
    && (forall id :: id in owners ==> exists i :: 0 <= i < k && parsed[i].0 == owners[id] && IdAt(parsed, hub, i) == id)
    && (forall i :: 0 <= i < k ==> IdAt(parsed, hub, i) in owners)
  }

  ghost predicate ServicesOf(services: map<string, Js>, parsed: Parsed, hub: string, k: nat)
    requires k <= |parsed|
  {
    && services.Keys == (set i | 0 <= i < k :: parsed[i].0)
    && (forall i :: 0 <= i < k ==>
         parsed[i].0 in services && services[parsed[i].0] == WithServiceId(parsed[i].1, IdAt(parsed, hub, i)))
  }

  /** Service `j` is the first to claim a taken ID, and `i` has it. */
  ghost predicate FirstClash(parsed: Parsed, hub: string, i: nat, j: nat, clash: Loaded) {
    && clash.Clash? && i < j < |parsed|
    && parsed[i].0 == clash.owner && parsed[j].0 == clash.name
    && IdAt(parsed, hub, i) == clash.serviceId && IdAt(parsed, hub, j) == clash.serviceId
    && DistinctIds(parsed, hub, j)
  }

  lemma NextOwner(owners: map<string, string>, parsed: Parsed, hub: string, k: nat)
    requires k < |parsed| && OwnersOf(owners, parsed, hub, k)
    ensures OwnersOf(owners[IdAt(parsed, hub, k) := parsed[k].0], parsed, hub, k + 1)
  {
    var more := owners[IdAt(parsed, hub, k) := parsed[k].0];
    forall id | id in more.Keys ensures exists i :: 0 <= i < k + 1 && parsed[i].0 == more[id] && IdAt(parsed, hub, i) == id {
      if id == IdAt(parsed, hub, k) {
        assert parsed[k].0 == more[id];
      } else {
        var i :| 0 <= i < k && parsed[i].0 == owners[id] && IdAt(parsed, hub, i) == id;
        assert parsed[i].0 == more[id];
      }
    }
  }

  lemma NextService(services: map<string, Js>, parsed: Parsed, hub: string, k: nat)
    requires k < |parsed| && ServicesOf(services, parsed, hub, k)
    requires forall i :: 0 <= i < k ==> parsed[i].0 != parsed[k].0
    ensures ServicesOf(services[parsed[k].0 := WithServiceId(parsed[k].1, IdAt(parsed, hub, k))], parsed, hub, k + 1)
  {
  }

  lemma NewId(owners: map<string, string>, parsed: Parsed, hub: string, k: nat)
    requires k < |parsed| && OwnersOf(owners, parsed, hub, k) && DistinctIds(parsed, hub, k)
    requires IdAt(parsed, hub, k) !in owners
    ensures DistinctIds(parsed, hub, k + 1)
  {
  }

  lemma TakenId(owners: map<string, string>, parsed: Parsed, hub: string, k: nat)
    requires k < |parsed| && OwnersOf(owners, parsed, hub, k) && DistinctIds(parsed, hub, k)
    requires IdAt(parsed, hub, k) in owners
    ensures !DistinctIds(parsed, hub, |parsed|)
    ensures exists i :: FirstClash(parsed, hub, i, k, Clash(owners[IdAt(parsed, hub, k)], parsed[k].0, IdAt(parsed, hub, k)))
  {
    var id := IdAt(parsed, hub, k);
    var i: nat :| i < k && parsed[i].0 == owners[id] && IdAt(parsed, hub, i) == id;
    assert FirstClash(parsed, hub, i, k, Clash(owners[id], parsed[k].0, id));
  }

  /** The loop of `parseDaemonConfig` over parsed services, whose names are distinct. It fails
      exactly if two services claim one ID, and then names the first that claims a taken one. */
  method DistinctServices(parsed: Parsed, hub: string) returns (loaded: Loaded)
    requires forall i, j :: 0 <= i < j < |parsed| ==> parsed[i].0 != parsed[j].0
    ensures loaded.Services? <==> DistinctIds(parsed, hub, |parsed|)
    ensures loaded.Services? ==> ServicesOf(loaded.services, parsed, hub, |parsed|)
    ensures loaded.Clash? ==> exists i, j :: FirstClash(parsed, hub, i, j, loaded)
  {
    var services: map<string, Js> := map[];
    var owners: map<string, string> := map[];
    for k := 0 to |parsed|
      invariant DistinctIds(parsed, hub, k)
      invariant OwnersOf(owners, parsed, hub, k)
      invariant ServicesOf(services, parsed, hub, k)
    {
      var (name, service) := parsed[k];
      var serviceId := ServiceId(service, name, hub);
      assert serviceId == IdAt(parsed, hub, k);
      if serviceId in owners {
        TakenId(owners, parsed, hub, k);
        return Clash(owners[serviceId], name, serviceId);
      }
      NewId(owners, parsed, hub, k);
      NextOwner(owners, parsed, hub, k);
      NextService(services, parsed, hub, k);
      owners := owners[serviceId := name];
      services := services[name := WithServiceId(service, serviceId)];
    }
    loaded := Services(services);
  }
}
