/** When the codec sends and when it rejects, when it decodes and with which issues it fails. */
module ErrorExactness {
  import opened Options
  import opened JsonValues
  import opened Pointers
  import opened Validator
  import opened SchemaMeaning
  import opened Contracts
  import opened ErrorCodec
  import opened ErrorRoundTrip

  // ---- Encoding --------------------------------------------------------------------------------

  /** A payload is there just where one is declared, and fits. */
  ghost predicate PayloadAsDeclared(payload: Option<Json>, declared: Option<Json>, comps: Components) {
    || (payload.None? && declared.None?)
    || (payload.Some? && declared.Some? && Fits(payload.value, declared.value, comps))
  }

  /** The body of a raw error: an object of a string `message` and perhaps `data`, that fits the body schema. */
  ghost predicate RawBody(body: Option<Json>, message: string, schema: Json, comps: Components) {
    && body.Some? && body.value.Obj?
    && Get(body.value.members, "message") == Some(Str(message))
    && (forall i :: 0 <= i < |body.value.members| ==> body.value.members[i].key == "message" || body.value.members[i].key == "data")
    && Fits(body.value, schema, comps)
  }

  ghost predicate Encodable(v: Variant, tagged: Json, code: int, comps: Components) {
    v.code == code &&
    if v.raw then v.payload.Some? && exists text :: RawBody(Field(tagged, "data"), text, v.payload.value, comps)
    else Field(tagged, "type") == Some(Str(v.name)) && PayloadAsDeclared(Field(tagged, "data"), v.payload, comps)
  }

  /** A named error carries the tagged value as it is, a raw one the parts of its body. */
  ghost predicate Wire(v: Variant, tagged: Json, message: string, error: RpcError) {
    if v.raw then
      var body := Field(tagged, "data");
      body.Some? && body.value.Obj? && Get(body.value.members, "message") == Some(Str(error.message)) &&
      error.code == v.code && error.data == Get(body.value.members, "data")
    else error == RpcError(v.code, message, Some(tagged))
  }

  lemma ValidIsFits(v: Json, schema: Json, comps: Components)
    ensures Valid(v, schema, comps) <==> Fits(v, schema, comps)
  {
    ValidationIsExact(v, schema, comps);
  }

  lemma PayloadExact(payload: Option<Json>, declaration: ErrorSchema, comps: Components)
    ensures ValidPayload(payload, declaration, comps) <==> PayloadAsDeclared(payload, declaration.data, comps)
  {
    if payload.Some? && declaration.data.Some? { ValidIsFits(payload.value, declaration.data.value, comps); }
  }

  lemma RawSent(body: Option<Json>, code: int, schema: Json, comps: Components)
    requires EncodeRaw(body.GetOr(Null), code, schema, comps).Sent?
    ensures var error := EncodeRaw(body.GetOr(Null), code, schema, comps).error;
            error.code == code && RawBody(body, error.message, schema, comps) && error.data == Get(body.value.members, "data")
  {
    ValidIsFits(body.GetOr(Null), schema, comps);
  }

  lemma RawSends(body: Option<Json>, text: string, code: int, schema: Json, comps: Components)
    requires RawBody(body, text, schema, comps)
    ensures EncodeRaw(body.GetOr(Null), code, schema, comps) == Sent(RpcError(code, text, Get(body.value.members, "data")))
  {
    var v := body.value;
    ValidIsFits(v, schema, comps);
    assert Field(v, "message") == Some(Str(text)) && KeysAmong(v.members, "message", "data");
  }

  lemma NamedExact(vs: seq<Variant>, i: nat, tagged: Json, message: string, comps: Components)
    requires Built(vs) && i < |vs| && !vs[i].raw && Field(tagged, "type") == Some(Str(vs[i].name))
    ensures Encode(tagged, vs[i].code, message, SchemasOf(vs), comps).Sent? <==> PayloadAsDeclared(Field(tagged, "data"), vs[i].payload, comps)
    ensures PayloadAsDeclared(Field(tagged, "data"), vs[i].payload, comps) ==>
              Encode(tagged, vs[i].code, message, SchemasOf(vs), comps) == Sent(RpcError(vs[i].code, message, Some(tagged)))
  {
    FindRawOf(vs, i);
    FindTagOf(vs, i);
    PayloadExact(Field(tagged, "data"), SchemaOf(vs[i]), comps);
    assert AsStr(Field(tagged, "type")) == Some(vs[i].name);
  }

  lemma {:induction false} NoLegacy(vs: seq<Variant>, code: int, message: string)
    requires forall i :: 0 <= i < |vs| && vs[i].raw ==> vs[i].payload.Some?
    ensures FindLegacy(SchemasOf(vs), code, message) == None
  {
    if vs != [] {
      assert SchemasOf(vs)[1..] == SchemasOf(vs[1..]) && SchemasOf(vs)[0] == SchemaOf(vs[0]);
      NoLegacy(vs[1..], code, message);
    }
  }

  /** The lookups find a declaration of the contract, or there is none to find. */
  lemma {:induction false} FoundRaw(vs: seq<Variant>, code: int) returns (i: nat)
    requires Built(vs) && FindRaw(SchemasOf(vs), code).Some?
    ensures i < |vs| && vs[i].raw && vs[i].code == code && FindRaw(SchemasOf(vs), code) == Some(SchemaOf(vs[i]))
  {
    BuiltTail(vs);
    if vs[0].raw && vs[0].code == code {
      i := 0;
    } else {
      i := FoundRaw(vs[1..], code);
      i := i + 1;
    }
  }

  lemma {:induction false} FoundTag(vs: seq<Variant>, name: Option<string>) returns (i: nat)
    requires Built(vs) && FindTag(SchemasOf(vs), name).Some?
    ensures i < |vs| && !vs[i].raw && name == Some(vs[i].name) && FindTag(SchemasOf(vs), name) == Some(SchemaOf(vs[i]))
  {
    BuiltTail(vs);
    if !vs[0].raw && name == Some(vs[0].name) {
      i := 0;
    } else {
      i := FoundTag(vs[1..], name);
      i := i + 1;
    }
  }

  lemma EncodableIsSent(vs: seq<Variant>, i: nat, tagged: Json, code: int, message: string, comps: Components)
    requires Built(vs) && i < |vs| && Encodable(vs[i], tagged, code, comps)
    ensures var sent := Encode(tagged, code, message, SchemasOf(vs), comps);
            sent.Sent? && Wire(vs[i], tagged, message, sent.error)
  {
    FindRawOf(vs, i);
    if vs[i].raw {
      var text :| RawBody(Field(tagged, "data"), text, vs[i].payload.value, comps);
      RawSends(Field(tagged, "data"), text, code, vs[i].payload.value, comps);
    } else {
      NamedExact(vs, i, tagged, message, comps);
    }
  }

  lemma SentIsEncodable(vs: seq<Variant>, tagged: Json, code: int, message: string, comps: Components) returns (i: nat)
    requires Built(vs) && Encode(tagged, code, message, SchemasOf(vs), comps).Sent?
    ensures i < |vs| && Encodable(vs[i], tagged, code, comps)
  {
    if FindRaw(SchemasOf(vs), code).Some? {
      i := FoundRaw(vs, code);
      RawSent(Field(tagged, "data"), code, vs[i].payload.value, comps);
    } else {
      NoLegacy(vs, code, message);
      i := FoundTag(vs, AsStr(Field(tagged, "type")));
      PayloadExact(Field(tagged, "data"), SchemaOf(vs[i]), comps);
    }
  }

  ghost predicate SomeEncodable(vs: seq<Variant>, tagged: Json, code: int, comps: Components) {
    exists i :: 0 <= i < |vs| && Encodable(vs[i], tagged, code, comps)
  }

  lemma RawRejected(body: Json, code: int, schema: Json, comps: Components)
    requires EncodeRaw(body, code, schema, comps).Rejected?
    ensures EncodeRaw(body, code, schema, comps).error.code == -32603 && EncodeRaw(body, code, schema, comps).error.data == None
  {
  }

  lemma DeclaredRejected(tagged: Json, code: int, message: string, d: Option<ErrorSchema>, comps: Components)
    requires EncodeAs(tagged, code, message, d, comps).Rejected?
    ensures EncodeAs(tagged, code, message, d, comps).error.code == -32603 && EncodeAs(tagged, code, message, d, comps).error.data == None
  {
  }

  lemma RejectedIsInternal(vs: seq<Variant>, tagged: Json, code: int, message: string, comps: Components)
    requires Encode(tagged, code, message, SchemasOf(vs), comps).Rejected?
    ensures var error := Encode(tagged, code, message, SchemasOf(vs), comps).error;
            error.code == -32603 && error.data == None
  {
    var schemas := SchemasOf(vs);
    if FindRaw(schemas, code).Some? {
      RawRejected(Field(tagged, "data").GetOr(Null), code, FindRaw(schemas, code).value.schema.GetOr(Null), comps);
    } else {
      DeclaredRejected(tagged, code, message, Declaration(tagged, code, message, schemas), comps);
    }
  }

  /** Encoding succeeds for exactly the tagged values of the contract's variants whose payloads fit; everything
      else becomes an internal error without data. */
  lemma EncodesExactly(vs: seq<Variant>, tagged: Json, code: int, message: string, comps: Components)
    requires Built(vs)
    ensures var sent := Encode(tagged, code, message, SchemasOf(vs), comps);
            (sent.Sent? <==> SomeEncodable(vs, tagged, code, comps)) &&
            (forall i :: 0 <= i < |vs| && Encodable(vs[i], tagged, code, comps) ==> Wire(vs[i], tagged, message, sent.error)) &&
            (sent.Rejected? ==> sent.error.code == -32603 && sent.error.data == None)
  {
    if Encode(tagged, code, message, SchemasOf(vs), comps).Sent? {
      var i := SentIsEncodable(vs, tagged, code, message, comps);
    } else {
      RejectedIsInternal(vs, tagged, code, message, comps);
    }
    forall i | 0 <= i < |vs| && Encodable(vs[i], tagged, code, comps)
      ensures Encode(tagged, code, message, SchemasOf(vs), comps).Sent? &&
              Wire(vs[i], tagged, message, Encode(tagged, code, message, SchemasOf(vs), comps).error) {
      EncodableIsSent(vs, i, tagged, code, message, comps);
    }
  }

  // ---- Decoding --------------------------------------------------------------------------------

  /** The wire error of a variant: of its code, and for a named one carrying just `type` and the declared `data`. */
  predicate Decodable(v: Variant, error: RpcError) {
    v.code == error.code &&
    (v.raw ||
     (error.data.Some? && error.data.value.Obj? &&
      var ms := error.data.value.members;
      && Get(ms, "type") == Some(Str(v.name))
      && (forall k :: 0 <= k < |ms| ==> ms[k].key == "type" || ms[k].key == "data")
      && (Has(ms, "data") <==> v.payload.Some?)))
  }

  /** What the decoder says of a wire error of the variant's code that does not decode. */
  ghost predicate Fault(v: Variant, error: RpcError, issue: DecodeIssue) {
    v.code == error.code && !v.raw &&
    if error.data.None? || !error.data.value.Obj? then issue == DecodeIssue("/data", ExpectedEnvelope)
    else
      var ms := error.data.value.members;
      || (issue == DecodeIssue("/data/type", ExpectedTag(v.name)) && Get(ms, "type") != Some(Str(v.name)))
      || (issue.kind == Unexpected && exists key :: issue.path == "/data/" + Escape(key) && ExtraKey(ms, key))
      || (issue == DecodeIssue("/data/data", Missing) && v.payload.Some? && !Has(ms, "data"))
      || (issue == DecodeIssue("/data/data", Unexpected) && v.payload.None? && Has(ms, "data"))
  }

  ghost predicate ExtraKey(ms: seq<Member>, key: string) {
    key != "type" && key != "data" && exists k :: 0 <= k < |ms| && ms[k].key == key
  }

  lemma ExtraKeyLast(ms: seq<Member>, key: string)
    requires ms != []
    ensures ExtraKey(ms, key) <==> ExtraKey(ms[..|ms| - 1], key) || (key != "type" && key != "data" && key == ms[|ms| - 1].key)
  {
    var init := ms[..|ms| - 1];
    if k :| 0 <= k < |ms| && ms[k].key == key {
      if k < |init| { assert init[k].key == key; }
    }
  }

  lemma {:induction false} ExtraKeysExact(ms: seq<Member>, issue: DecodeIssue)
    ensures issue in ExtraKeys(ms) <==>
            issue.kind == Unexpected && exists key :: issue.path == "/data/" + Escape(key) && ExtraKey(ms, key)
  {
    if ms != [] {
      ExtraKeysExact(ms[..|ms| - 1], issue);
      forall key ensures ExtraKey(ms, key) <==> ExtraKey(ms[..|ms| - 1], key) || (key != "type" && key != "data" && key == ms[|ms| - 1].key) {
        ExtraKeyLast(ms, key);
      }
      assert "/data" + "/" == "/data/";
    }
  }

  /** The issues of a named variant's envelope are exactly its faults. */
  lemma EnvelopeExact(v: Variant, error: RpcError, issue: DecodeIssue)
    requires !v.raw && v.code == error.code
    ensures issue in EnvelopeIssues(error, SchemaOf(v)) <==> Fault(v, error, issue)
  {
    if error.data.Some? && error.data.value.Obj? { ExtraKeysExact(error.data.value.members, issue); }
  }

  lemma DecodableIsClaimed(v: Variant, error: RpcError)
    requires v.code == error.code && (v.raw ==> v.payload.Some?)
    ensures Decodable(v, error) <==> Claims(v, error) && EnvelopeIssues(error, SchemaOf(v)) == []
  {
    if !v.raw { NamedEnvelope(v, error); }
  }

  lemma {:induction false} IssueIn(
    error: RpcError, some: seq<ErrorSchema>, tagged: bool, bindings: seq<Binding>, schemas: seq<ErrorSchema>, i: nat, issue: DecodeIssue)
    requires i < |some| && some[i].tag.Some? == tagged && issue in IssuesOf(error, some[i], bindings, schemas)
    ensures issue in GatherIssues(error, some, tagged, bindings, schemas)
  {
    if i < |some| - 1 { IssueIn(error, some[..|some| - 1], tagged, bindings, schemas, i, issue); }
  }

  lemma {:induction false} IssueFrom(
    error: RpcError, some: seq<ErrorSchema>, tagged: bool, bindings: seq<Binding>, schemas: seq<ErrorSchema>, issue: DecodeIssue) returns (i: nat)
    requires issue in GatherIssues(error, some, tagged, bindings, schemas)
    ensures i < |some| && some[i].tag.Some? == tagged && issue in IssuesOf(error, some[i], bindings, schemas)
  {
    i := |some| - 1;
    if some[i].tag.Some? != tagged || issue !in IssuesOf(error, some[i], bindings, schemas) {
      i := IssueFrom(error, some[..i], tagged, bindings, schemas, issue);
    }
  }

  /** With a binding for every variant, a declaration fails only by its envelope. */
  lemma IssuesOfExact(vs: seq<Variant>, i: nat, error: RpcError, issue: DecodeIssue)
    requires Built(vs) && i < |vs|
    ensures issue in IssuesOf(error, SchemaOf(vs[i]), BindingsOf(vs), SchemasOf(vs)) <==> Fault(vs[i], error, issue)
  {
    FindBindingOf(vs, i, SchemasOf(vs));
    if vs[i].code == error.code {
      if !vs[i].raw {
        EnvelopeExact(vs[i], error, issue);
        NamedEnvelope(vs[i], error);
      }
    }
  }

  /** Decoding succeeds for exactly the wire errors of the contract's variants. */
  lemma DecodesExactly(vs: seq<Variant>, error: RpcError)
    requires Built(vs)
    ensures Decode(error, BindingsOf(vs), SchemasOf(vs)).Candidates? <==> exists i :: 0 <= i < |vs| && Decodable(vs[i], error)
  {
    if Decode(error, BindingsOf(vs), SchemasOf(vs)).Candidates? {
      var i := DecodedIsClaimed(vs, error);
      DecodableIsClaimed(vs[i], error);
    }
    if i :| 0 <= i < |vs| && Decodable(vs[i], error) {
      DecodableIsClaimed(vs[i], error);
      ClaimedCandidate(vs, i, error);
      DecodeClaimed(vs, i, error);
    }
  }

  /** A failed decoding tells every fault of every variant of the code, and nothing else. */
  lemma FailsExactly(vs: seq<Variant>, error: RpcError, issue: DecodeIssue)
    requires Built(vs) && Decode(error, BindingsOf(vs), SchemasOf(vs)).Failed?
    ensures issue in Decode(error, BindingsOf(vs), SchemasOf(vs)).issues <==> exists i :: 0 <= i < |vs| && Fault(vs[i], error, issue)
  {
    var schemas, bindings := SchemasOf(vs), BindingsOf(vs);
    if issue in Decode(error, bindings, schemas).issues {
      var tagged := issue in GatherIssues(error, schemas, true, bindings, schemas);
      var i := IssueFrom(error, schemas, tagged, bindings, schemas, issue);
      IssuesOfExact(vs, i, error, issue);
    }
    if i :| 0 <= i < |vs| && Fault(vs[i], error, issue) {
      IssuesOfExact(vs, i, error, issue);
      IssueIn(error, schemas, schemas[i].tag.Some?, bindings, schemas, i, issue);
    }
  }

  // ---- Contracts written by hand -----------------------------------------------------------------

  /** Of several declarations that would do, the first counts. */
  lemma {:induction false} FirstRaw(schemas: seq<ErrorSchema>, k: nat, code: int)
    requires k < |schemas| && schemas[k].code == code && schemas[k].schema.Some?
    requires forall j :: 0 <= j < k ==> schemas[j].code != code || schemas[j].schema.None?
    ensures FindRaw(schemas, code) == Some(schemas[k])
  {
    if k > 0 { FirstRaw(schemas[1..], k - 1, code); }
  }

  lemma {:induction false} FirstTag(schemas: seq<ErrorSchema>, k: nat, name: string)
    requires k < |schemas| && schemas[k].tag == Some(name) && forall j :: 0 <= j < k ==> schemas[j].tag != Some(name)
    ensures FindTag(schemas, Some(name)) == Some(schemas[k])
  {
    if k > 0 { FirstTag(schemas[1..], k - 1, name); }
  }

  lemma {:induction false} FirstLegacy(schemas: seq<ErrorSchema>, k: nat, code: int, message: string)
    requires k < |schemas| && Legacy(schemas[k]) && schemas[k].code == code && schemas[k].message == message
    requires forall j :: 0 <= j < k ==> !Legacy(schemas[j]) || schemas[j].code != code || schemas[j].message != message
    ensures FindLegacy(schemas, code, message) == Some(schemas[k])
  {
    if k > 0 { FirstLegacy(schemas[1..], k - 1, code, message); }
  }

  /** The binding of a declaration: of the code for a raw one, of the name for a tagged one, else of the
      message, unless its name is that of a tagged declaration. */
  predicate Binds(b: Binding, d: ErrorSchema, schemas: seq<ErrorSchema>) {
    && b.code == d.code
    && (d.schema.None? && d.tag.Some? ==> d.tag == Some(b.name))
    && (Legacy(d) ==> b.message == d.message && forall j :: 0 <= j < |schemas| ==> schemas[j].tag != Some(b.name))
  }

  lemma {:induction false} TagFound(schemas: seq<ErrorSchema>, name: string)
    ensures FindTag(schemas, Some(name)).Some? <==> exists j :: 0 <= j < |schemas| && schemas[j].tag == Some(name)
  {
    if schemas != [] {
      assert schemas == [schemas[0]] + schemas[1..];
      TagFound(schemas[1..], name);
    }
  }

  lemma {:induction false} FirstBinding(bindings: seq<Binding>, k: nat, d: ErrorSchema, schemas: seq<ErrorSchema>)
    requires k < |bindings| && Binds(bindings[k], d, schemas) && forall j :: 0 <= j < k ==> !Binds(bindings[j], d, schemas)
    ensures FindBinding(bindings, d, schemas) == Some(bindings[k])
  {
    TagFound(schemas, bindings[0].name);
    if k > 0 { FirstBinding(bindings[1..], k - 1, d, schemas); }
  }

  /** A declaration without tag or body schema: payload and data are the same. */
  predicate Legacy(d: ErrorSchema) {
    d.tag.None? && d.schema.None?
  }

  /** A tagged value of a legacy declaration sends its payload, under the declared message. */
  lemma LegacyEncodes(d: ErrorSchema, tagged: Json, comps: Components)
    requires Legacy(d)
    ensures var sent := Encode(tagged, d.code, d.message, [d], comps);
            if PayloadAsDeclared(Field(tagged, "data"), d.data, comps)
            then sent == Sent(RpcError(d.code, d.message, Field(tagged, "data"))) else sent.Rejected?
  {
    PayloadExact(Field(tagged, "data"), d, comps);
    LegacyFound(d, AsStr(Field(tagged, "type")), d.message);
  }

  /** A name that is declared under another code is no reason to try a legacy declaration. */
  lemma OtherCodeRejected(schemas: seq<ErrorSchema>, name: string, k: nat, tagged: Json, code: int, message: string, comps: Components)
    requires k < |schemas| && schemas[k].tag == Some(name) && forall j :: 0 <= j < k ==> schemas[j].tag != Some(name)
    requires Field(tagged, "type") == Some(Str(name)) && schemas[k].code != code && FindRaw(schemas, code).None?
    ensures Encode(tagged, code, message, schemas, comps).Rejected?
  {
    FirstTag(schemas, k, name);
  }

  lemma LegacyFound(d: ErrorSchema, name: Option<string>, message: string)
    requires Legacy(d)
    ensures FindRaw([d], d.code) == None && FindTag([d], name) == None
    ensures FindLegacy([d], d.code, message) == if message == d.message then Some(d) else None
  {
    assert [d][1..] == [];
    assert [d][0] == d;
  }

  lemma OtherMessageRejected(d: ErrorSchema, tagged: Json, message: string, comps: Components)
    requires Legacy(d) && message != d.message
    ensures Encode(tagged, d.code, message, [d], comps).Rejected?
  {
    LegacyFound(d, AsStr(Field(tagged, "type")), message);
  }

  /** A wire error of a legacy declaration decodes exactly under the declared message and with the declared presence of data. */
  lemma LegacyDecodes(d: ErrorSchema, name: string, error: RpcError)
    requires Legacy(d)
    ensures var decoded := Decode(error, [Binding(name, d.code, d.message, d.data.Some?)], [d]);
            if error.code == d.code && error.message == d.message && (error.data.Some? <==> d.data.Some?)
            then decoded == Candidates([TaggedValue(name, error.data)]) else decoded.Failed?
  {
    var bindings := [Binding(name, d.code, d.message, d.data.Some?)];
    assert FindTag([d], Some(name)) == None by { assert [d][1..] == []; }
    assert FindBinding(bindings, d, [d]) == Some(bindings[0]);
    GatherSingle(error, d, true, bindings, [d]);
    GatherSingle(error, d, false, bindings, [d]);
  }

  lemma OneDecoded(d: ErrorSchema, error: RpcError, bindings: seq<Binding>)
    requires error.code == d.code
    ensures Decode(error, bindings, [d]) == DecodeAs(error, d, bindings, [d])
  {
    forall tagged: bool | true
      ensures GatherIssues(error, [d], tagged, bindings, [d]) == if d.tag.Some? == tagged then IssuesOf(error, d, bindings, [d]) else [] {
      assert [d][..0] == [];
    }
    GatherSingle(error, d, true, bindings, [d]);
    GatherSingle(error, d, false, bindings, [d]);
  }

  /** What a legacy declaration says of an error of its code. */
  lemma LegacyFaults(d: ErrorSchema, error: RpcError, bindings: seq<Binding>, issue: DecodeIssue)
    requires Legacy(d) && error.code == d.code && (error.message != d.message || (error.data.Some? <==> d.data.None?))
    ensures var decoded := Decode(error, bindings, [d]);
            decoded.Failed? &&
            (issue in decoded.issues <==>
              || (issue == DecodeIssue("/message", ExpectedMessage(d.message)) && error.message != d.message)
              || (issue == DecodeIssue("/data", Missing) && error.data.None? && d.data.Some?)
              || (issue == DecodeIssue("/data", Unexpected) && error.data.Some? && d.data.None?))
  {
    OneDecoded(d, error, bindings);
  }

  /** A clean error without a binding of the declaration, or with one that differs in having a payload, is not decoded. */
  lemma UnboundFails(d: ErrorSchema, error: RpcError, bindings: seq<Binding>)
    requires error.code == d.code && EnvelopeIssues(error, d) == []
    requires var binding := FindBinding(bindings, d, [d]);
             binding.None? || binding.value.hasPayload != PayloadFor(error, d).Some?
    ensures Decode(error, bindings, [d]) == Failed([DecodeIssue("", NoBinding)])
  {
    OneDecoded(d, error, bindings);
  }

  lemma GatherSingle(error: RpcError, d: ErrorSchema, tagged: bool, bindings: seq<Binding>, schemas: seq<ErrorSchema>)
    ensures Gather(error, [d], tagged, bindings, schemas) ==
            if d.tag.Some? == tagged then CandidatesOf(error, d, bindings, schemas) else []
  {
    assert [d][..0] == [];
  }

  lemma GatherPair(error: RpcError, a: ErrorSchema, b: ErrorSchema, tagged: bool, bindings: seq<Binding>, schemas: seq<ErrorSchema>)
    ensures Gather(error, [a, b], tagged, bindings, schemas) ==
            Gather(error, [a], tagged, bindings, schemas) + Gather(error, [b], tagged, bindings, schemas)
  {
    assert [a, b][..1] == [a];
    GatherSingle(error, b, tagged, bindings, schemas);
  }

  lemma PairPass(error: RpcError, a: ErrorSchema, b: ErrorSchema, tagged: bool, bindings: seq<Binding>)
    ensures Gather(error, [a, b], tagged, bindings, [a, b]) ==
            (if a.tag.Some? == tagged then CandidatesOf(error, a, bindings, [a, b]) else []) +
            (if b.tag.Some? == tagged then CandidatesOf(error, b, bindings, [a, b]) else [])
  {
    GatherPair(error, a, b, tagged, bindings, [a, b]);
    GatherSingle(error, a, tagged, bindings, [a, b]);
    GatherSingle(error, b, tagged, bindings, [a, b]);
  }

  /** The passes with their results in order. */
  lemma PassesJoin(first: seq<Json>, second: seq<Json>, a: bool, b: bool)
    ensures ((if a then first else []) + (if b then second else [])) + ((if !a then first else []) + (if !b then second else [])) ==
            if !a && b then second + first else first + second
  {
  }

  lemma DecodedBy(error: RpcError, bindings: seq<Binding>, schemas: seq<ErrorSchema>, values: seq<Json>)
    requires values == Gather(error, schemas, true, bindings, schemas) + Gather(error, schemas, false, bindings, schemas)
    ensures values != [] ==> Decode(error, bindings, schemas) == Candidates(values)
  {
  }

  /** Tagged declarations are asked first, wherever they stand, and others in the order of the contract. */
  lemma TaggedComesFirst(error: RpcError, a: ErrorSchema, b: ErrorSchema, bindings: seq<Binding>)
    ensures var first, second := CandidatesOf(error, a, bindings, [a, b]), CandidatesOf(error, b, bindings, [a, b]);
            var values := if a.tag.None? && b.tag.Some? then second + first else first + second;
            values != [] ==> Decode(error, bindings, [a, b]) == Candidates(values)
  {
    var first, second := CandidatesOf(error, a, bindings, [a, b]), CandidatesOf(error, b, bindings, [a, b]);
    PairPass(error, a, b, true, bindings);
    PairPass(error, a, b, false, bindings);
    PassesJoin(first, second, a.tag.Some?, b.tag.Some?);
    DecodedBy(error, bindings, [a, b], if a.tag.None? && b.tag.Some? then second + first else first + second);
  }
}
