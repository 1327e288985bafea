/** The codec under a scoped contract does what it does under the contract itself. */
module ScopedErrors {
  import opened Options
  import opened JsonValues
  import opened Pointers
  import opened Validator
  import opened Contracts
  import opened Scoping
  import opened ErrorCodec

  /** The declarations as scoping leaves them. */
  function ScopedSchemas(schemas: seq<ErrorSchema>, scope: Scope): seq<ErrorSchema> {
    seq(|schemas|, i requires 0 <= i < |schemas| => ScopedError(schemas[i], scope))
  }

  function ScopedOption(d: Option<ErrorSchema>, scope: Scope): Option<ErrorSchema> {
    if d.None? then None else Some(ScopedError(d.value, scope))
  }

  /** No reference of a declaration is captured. */
  predicate SafeError(d: ErrorSchema, scope: Scope) {
    && (d.data.Some? ==> Safe(d.data.value, scope))
    && (d.schema.Some? ==> Safe(d.schema.value, scope))
  }

  ghost predicate SafeErrors(schemas: seq<ErrorSchema>, comps: Components, prefix: string) {
    SafeComponents(comps, prefix) && forall i :: 0 <= i < |schemas| ==> SafeError(schemas[i], Scope(prefix, comps.Keys))
  }

  /** Scoping leaves code, tag and message alone, and adds or drops no schema. */
  lemma ScopedParts(d: ErrorSchema, scope: Scope)
    ensures var e := ScopedError(d, scope);
            e.code == d.code && e.tag == d.tag && e.message == d.message &&
            (e.data.Some? <==> d.data.Some?) && (e.schema.Some? <==> d.schema.Some?)
  {
  }

  lemma ScopedTail(schemas: seq<ErrorSchema>, scope: Scope)
    requires schemas != []
    ensures ScopedSchemas(schemas, scope)[0] == ScopedError(schemas[0], scope)
    ensures ScopedSchemas(schemas, scope)[1..] == ScopedSchemas(schemas[1..], scope)
  {
  }

  lemma {:induction false} FindRawScoped(schemas: seq<ErrorSchema>, scope: Scope, code: int)
    ensures FindRaw(ScopedSchemas(schemas, scope), code) == ScopedOption(FindRaw(schemas, code), scope)
  {
    if schemas != [] {
      ScopedTail(schemas, scope);
      FindRawScoped(schemas[1..], scope, code);
    }
  }

  lemma {:induction false} FindTagScoped(schemas: seq<ErrorSchema>, scope: Scope, name: Option<string>)
    ensures FindTag(ScopedSchemas(schemas, scope), name) == ScopedOption(FindTag(schemas, name), scope)
  {
    if schemas != [] {
      ScopedTail(schemas, scope);
      FindTagScoped(schemas[1..], scope, name);
    }
  }

  lemma {:induction false} FindLegacyScoped(schemas: seq<ErrorSchema>, scope: Scope, code: int, message: string)
    ensures FindLegacy(ScopedSchemas(schemas, scope), code, message) == ScopedOption(FindLegacy(schemas, code, message), scope)
  {
    if schemas != [] {
      ScopedTail(schemas, scope);
      FindLegacyScoped(schemas[1..], scope, code, message);
    }
  }

  lemma {:induction false} FindBindingScoped(bindings: seq<Binding>, d: ErrorSchema, schemas: seq<ErrorSchema>, scope: Scope)
    ensures FindBinding(bindings, ScopedError(d, scope), ScopedSchemas(schemas, scope)) == FindBinding(bindings, d, schemas)
  {
    if bindings != [] {
      ScopedParts(d, scope);
      FindTagScoped(schemas, scope, Some(bindings[0].name));
      FindBindingScoped(bindings[1..], d, schemas, scope);
    }
  }

  // ---- Encoding ---------------------------------------------------------------------------------

  lemma ValidScoped(v: Json, s: Json, comps: Components, prefix: string)
    requires SafeComponents(comps, prefix) && Safe(s, Scope(prefix, comps.Keys))
    ensures Valid(v, Rewrite(s, Scope(prefix, comps.Keys)), ScopedComponents(comps, prefix)) <==> Valid(v, s, comps)
  {
    ScopingPreservesValidation(v, s, comps, prefix);
  }

  lemma PayloadScoped(payload: Option<Json>, d: ErrorSchema, comps: Components, prefix: string)
    requires SafeComponents(comps, prefix) && SafeError(d, Scope(prefix, comps.Keys))
    ensures ValidPayload(payload, ScopedError(d, Scope(prefix, comps.Keys)), ScopedComponents(comps, prefix)) <==>
            ValidPayload(payload, d, comps)
  {
    if payload.Some? && d.data.Some? { ValidScoped(payload.value, d.data.value, comps, prefix); }
  }

  lemma {:induction false} FoundSafe(schemas: seq<ErrorSchema>, scope: Scope, code: int, message: string, name: Option<string>)
    requires forall i :: 0 <= i < |schemas| ==> SafeError(schemas[i], scope)
    ensures FindRaw(schemas, code).Some? ==> SafeError(FindRaw(schemas, code).value, scope) && FindRaw(schemas, code).value.schema.Some?
    ensures FindTag(schemas, name).Some? ==> SafeError(FindTag(schemas, name).value, scope)
    ensures FindLegacy(schemas, code, message).Some? ==> SafeError(FindLegacy(schemas, code, message).value, scope)
  {
    if schemas != [] { FoundSafe(schemas[1..], scope, code, message, name); }
  }

  lemma RawScoped(body: Json, code: int, s: Json, comps: Components, prefix: string)
    requires SafeComponents(comps, prefix) && Safe(s, Scope(prefix, comps.Keys))
    ensures EncodeRaw(body, code, Rewrite(s, Scope(prefix, comps.Keys)), ScopedComponents(comps, prefix)) == EncodeRaw(body, code, s, comps)
  {
    ValidScoped(body, s, comps, prefix);
  }

  lemma DeclarationScoped(tagged: Json, code: int, message: string, schemas: seq<ErrorSchema>, scope: Scope)
    ensures Declaration(tagged, code, message, ScopedSchemas(schemas, scope)) == ScopedOption(Declaration(tagged, code, message, schemas), scope)
  {
    FindTagScoped(schemas, scope, AsStr(Field(tagged, "type")));
    FindLegacyScoped(schemas, scope, code, message);
  }

  lemma EncodeAsScoped(tagged: Json, code: int, message: string, d: Option<ErrorSchema>, comps: Components, prefix: string)
    requires SafeComponents(comps, prefix) && (d.Some? ==> SafeError(d.value, Scope(prefix, comps.Keys)))
    ensures EncodeAs(tagged, code, message, ScopedOption(d, Scope(prefix, comps.Keys)), ScopedComponents(comps, prefix)) ==
            EncodeAs(tagged, code, message, d, comps)
  {
    if d.Some? {
      PayloadScoped(Field(tagged, "data"), d.value, comps, prefix);
      ScopedParts(d.value, Scope(prefix, comps.Keys));
    }
  }

  lemma DeclaredScoped(tagged: Json, code: int, message: string, schemas: seq<ErrorSchema>, comps: Components, prefix: string)
    requires SafeErrors(schemas, comps, prefix)
    ensures EncodeDeclared(tagged, code, message, ScopedSchemas(schemas, Scope(prefix, comps.Keys)), ScopedComponents(comps, prefix)) ==
            EncodeDeclared(tagged, code, message, schemas, comps)
  {
    var scope := Scope(prefix, comps.Keys);
    FoundSafe(schemas, scope, code, message, AsStr(Field(tagged, "type")));
    DeclarationScoped(tagged, code, message, schemas, scope);
    EncodeAsScoped(tagged, code, message, Declaration(tagged, code, message, schemas), comps, prefix);
  }

  /** Without captured references, a scoped contract sends what the contract sends, and rejects what it rejects. */
  lemma EncodeScoped(tagged: Json, code: int, message: string, schemas: seq<ErrorSchema>, comps: Components, prefix: string)
    requires SafeErrors(schemas, comps, prefix)
    ensures Encode(tagged, code, message, ScopedSchemas(schemas, Scope(prefix, comps.Keys)), ScopedComponents(comps, prefix)) ==
            Encode(tagged, code, message, schemas, comps)
  {
    var scope := Scope(prefix, comps.Keys);
    FindRawScoped(schemas, scope, code);
    if FindRaw(schemas, code).Some? {
      FoundSafe(schemas, scope, code, message, None);
      RawScoped(Field(tagged, "data").GetOr(Null), code, FindRaw(schemas, code).value.schema.value, comps, prefix);
    } else {
      DeclaredScoped(tagged, code, message, schemas, comps, prefix);
    }
  }

  // ---- Decoding ---------------------------------------------------------------------------------

  lemma DecodeAsScoped(error: RpcError, d: ErrorSchema, bindings: seq<Binding>, schemas: seq<ErrorSchema>, scope: Scope)
    ensures DecodeAs(error, ScopedError(d, scope), bindings, ScopedSchemas(schemas, scope)) == DecodeAs(error, d, bindings, schemas)
  {
    FindBindingScoped(bindings, d, schemas, scope);
  }

  lemma ScopedInit(some: seq<ErrorSchema>, scope: Scope)
    requires some != []
    ensures ScopedSchemas(some, scope)[|some| - 1] == ScopedError(some[|some| - 1], scope)
    ensures ScopedSchemas(some, scope)[..|some| - 1] == ScopedSchemas(some[..|some| - 1], scope)
  {
  }

  lemma {:induction false} GatherScoped(
    error: RpcError, some: seq<ErrorSchema>, tagged: bool, bindings: seq<Binding>, schemas: seq<ErrorSchema>, scope: Scope)
    ensures Gather(error, ScopedSchemas(some, scope), tagged, bindings, ScopedSchemas(schemas, scope)) ==
            Gather(error, some, tagged, bindings, schemas)
    ensures GatherIssues(error, ScopedSchemas(some, scope), tagged, bindings, ScopedSchemas(schemas, scope)) ==
            GatherIssues(error, some, tagged, bindings, schemas)
  {
    if some != [] {
      ScopedInit(some, scope);
      DecodeAsScoped(error, some[|some| - 1], bindings, schemas, scope);
      GatherScoped(error, some[..|some| - 1], tagged, bindings, schemas, scope);
    }
  }

  /** Whatever its references, a scoped contract decodes what the contract decodes, with the same issues. */
  lemma DecodeScoped(error: RpcError, bindings: seq<Binding>, schemas: seq<ErrorSchema>, scope: Scope)
    ensures Decode(error, bindings, ScopedSchemas(schemas, scope)) == Decode(error, bindings, schemas)
  {
    GatherScoped(error, schemas, true, bindings, schemas, scope);
    GatherScoped(error, schemas, false, bindings, schemas, scope);
  }
}
