/** When scoping keeps what a contract means: exactly if none of its references is captured. */
module ScopingExact {
  import opened Options
  import opened JsonValues
  import opened Pointers
  import opened Validator
  import opened SchemaParts
  import opened Scoping
  import IssuePaths

  // ---- Captured references ------------------------------------------------------------------

  predicate CapturedRef(p: Json, scope: Scope) {
    p.Obj? && Reference(p.members).Some? && Captured(Reference(p.members).value, scope)
  }

  /** What is not safe has a captured reference at one of its schema positions. */
  lemma {:induction false} UnsafePart(s: Json, scope: Scope) returns (p: Json)
    requires !Safe(s, scope)
    ensures Part(p, s) && CapturedRef(p, scope)
    decreases s, 0
  {
    if Reference(s.members).Some? {
      p := s;
    } else {
      var i :| 0 <= i < |s.members| && !SafeValue(s.members[i].key, s.members[i].val, scope);
      p := UnsafeValuePart(s.members[i].key, s.members[i].val, scope);
    }
  }

  lemma {:induction false} UnsafeValuePart(key: string, v: Json, scope: Scope) returns (p: Json)
    requires !SafeValue(key, v, scope)
    ensures ValuePart(p, key, v) && CapturedRef(p, scope)
    decreases v, 1
  {
    if key == "properties" && v.Obj? {
      var i :| 0 <= i < |v.members| && !Safe(v.members[i].val, scope);
      p := UnsafePart(v.members[i].val, scope);
    } else if key in ["items", "additionalProperties"] {
      p := UnsafePart(v, scope);
    } else {
      var i :| 0 <= i < |v.items| && !Safe(v.items[i], scope);
      p := UnsafePart(v.items[i], scope);
    }
  }

  // ---- Contracts that keep their meaning ---------------------------------------------------------

  /** A value gets the same issues at the same paths from `p` before and after scoping. */
  ghost predicate KeepsMeaning(v: Json, p: Json, comps: Components, prefix: string) {
    var scope := Scope(prefix, comps.Keys);
    Issues(Task(v, [], Rewrite(p, scope)), ScopedComponents(comps, prefix), {}) == RenameIssues(Issues(Task(v, [], p), comps, {}), scope)
  }

  /** A reference that resolves is never reported as unresolved. */
  lemma ResolvedUnreported(v: Json, s: Json, comps: Components, reference: string)
    requires WellFormed(v) && Resolve(reference, comps).Some?
    ensures Issues(Task(v, [], s), comps, {}) != [Issue(Pointer([]), UnresolvedRef(reference))]
  {
    var run, t := IssuePaths.Validation(v, s, comps), Task(v, [], s);
    assert Part(s, [s][0]);
    IssuePaths.IssuesTruthful(run, t, {});
    var issues := Issues(t, comps, {});
    if issues != [] && issues[0].kind.UnresolvedRef? { UnresolvedTrue(run, issues[0]); }
  }

  lemma UnresolvedTrue(run: IssuePaths.Validation, issue: Issue)
    requires IssuePaths.Truthful(run, issue) && issue.kind.UnresolvedRef?
    ensures Resolve(issue.kind.reference, run.comps).None?
  {
  }

  /** A captured reference does not keep its meaning: unresolved before, it is resolved afterwards. */
  lemma CapturedLoses(p: Json, comps: Components, prefix: string)
    requires CapturedRef(p, Scope(prefix, comps.Keys))
    ensures !KeepsMeaning(Null, p, comps, prefix)
  {
    var scope, scoped, reference := Scope(prefix, comps.Keys), ScopedComponents(comps, prefix), Reference(p.members).value;
    assert RenameIssues(Issues(Task(Null, [], p), comps, {}), scope) == [Issue(Pointer([]), UnresolvedRef(reference))];
    ResolveScoped(reference, comps, prefix);
    ResolvedUnreported(Null, Rewrite(p, scope), scoped, reference);
  }

  ghost predicate SafeContract(schemas: seq<Json>, comps: Components, prefix: string) {
    SafeComponents(comps, prefix) && forall i :: 0 <= i < |schemas| ==> Safe(schemas[i], Scope(prefix, comps.Keys))
  }

  /** All parts of the contract keep their meaning, for all values. */
  ghost predicate AllKeepMeaning(schemas: seq<Json>, comps: Components, prefix: string) {
    forall p, v :: InContract(p, schemas, comps) ==> KeepsMeaning(v, p, comps, prefix)
  }

  lemma SafeInContract(p: Json, schemas: seq<Json>, comps: Components, prefix: string)
    requires SafeContract(schemas, comps, prefix) && InContract(p, schemas, comps)
    ensures Safe(p, Scope(prefix, comps.Keys))
  {
    if i :| 0 <= i < |schemas| && Part(p, schemas[i]) {
      PartSafe(p, schemas[i], Scope(prefix, comps.Keys));
    } else {
      var n :| n in comps && Part(p, comps[n]);
      PartSafe(p, comps[n], Scope(prefix, comps.Keys));
    }
  }

  lemma UnsafeInContract(schemas: seq<Json>, comps: Components, prefix: string) returns (p: Json)
    requires !SafeContract(schemas, comps, prefix)
    ensures InContract(p, schemas, comps) && CapturedRef(p, Scope(prefix, comps.Keys))
  {
    var scope := Scope(prefix, comps.Keys);
    if i :| 0 <= i < |schemas| && !Safe(schemas[i], scope) {
      p := UnsafePart(schemas[i], scope);
    } else {
      var n :| n in comps && !Safe(comps[n], scope);
      p := UnsafePart(comps[n], scope);
    }
  }

  /** The condition is exact for whole contracts: every part of every schema and component keeps its
      meaning on all values if and only if no reference in the contract is captured. */
  lemma ContractKeepsMeaning(schemas: seq<Json>, comps: Components, prefix: string)
    ensures AllKeepMeaning(schemas, comps, prefix) <==> SafeContract(schemas, comps, prefix)
  {
    if SafeContract(schemas, comps, prefix) {
      forall p, v | InContract(p, schemas, comps) ensures KeepsMeaning(v, p, comps, prefix) {
        SafeInContract(p, schemas, comps, prefix);
        ScopingPreservesValidation(v, p, comps, prefix);
      }
    } else {
      var p := UnsafeInContract(schemas, comps, prefix);
      CapturedLoses(p, comps, prefix);
    }
  }

  function CapturedExample(): (Components, Json) {
    (map["A" := Bool(true)], Obj([Member("$ref", Str(ComponentRef("m.A")))]))
  }

  lemma CapturedReference(comps: Components, scope: Scope, reference: string)
    requires comps == map["A" := Bool(true)] && scope == Scope("m", comps.Keys) && reference == ComponentRef("m.A")
    ensures Resolve(reference, comps).None? && Captured(reference, scope)
  {
    ComponentRefRoundTrip("m.A");
    assert ScopedName("m", "A") == "m.A" && "m.A" != "A" && "A" in scope.names;
  }

  /** A captured reference does change what validates: unresolved before, it finds `A` afterwards. */
  lemma CaptureChangesMeaning()
    ensures var (comps, s) := CapturedExample();
            Issues(Task(Null, [], s), comps, {}) != [] &&
            Issues(Task(Null, [], Rewrite(s, Scope("m", comps.Keys))), ScopedComponents(comps, "m"), {}) == []
  {
    var (comps, s) := CapturedExample();
    var scope, reference := Scope("m", comps.Keys), ComponentRef("m.A");
    assert ScopedName("m", "A") == "m.A";
    CapturedReference(comps, scope, reference);
    assert Reference(s.members) == Some(reference);
    CapturedResolves(s, comps, reference);
  }

  lemma CapturedResolves(s: Json, comps: Components, reference: string)
    requires s.Obj? && Reference(s.members) == Some(reference) && reference == ComponentRef("m.A")
    requires comps == map["A" := Bool(true)] && Resolve(reference, comps).None?
    ensures Issues(Task(Null, [], Rewrite(s, Scope("m", comps.Keys))), ScopedComponents(comps, "m"), {}) == []
  {
    RewriteReference(s, Scope("m", comps.Keys));
    ResolveScoped(reference, comps, "m");
    ComponentRefRoundTrip("m.A");
    assert "A" in comps && ScopedName("m", "A") == "m.A";
    ReferenceToTrue(Task(Null, [], Rewrite(s, Scope("m", comps.Keys))), ScopedComponents(comps, "m"), reference, "m.A");
  }

  lemma ReferenceToTrue(t: Task, comps: Components, reference: string, name: string)
    requires t.schema.Obj? && Reference(t.schema.members) == Some(reference)
    requires name in comps && comps[name] == Bool(true) && Resolve(reference, comps) == Some(name)
    ensures Issues(t, comps, {}) == []
  {
  }
}
