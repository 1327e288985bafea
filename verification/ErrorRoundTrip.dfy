/** On contracts as the derive builds them, decoding inverts encoding and re-encoding
    inverts decoding, for named and raw errors. */
module ErrorRoundTrip {
  import opened Options
  import opened JsonValues
  import opened Validator
  import opened Contracts
  import opened ErrorCodec

  // ---- Every lookup finds the variant's own declaration ------------------------------

  lemma BuiltTail(vs: seq<Variant>)
    requires Built(vs) && vs != []
    ensures Built(vs[1..]) && SchemasOf(vs)[1..] == SchemasOf(vs[1..]) && BindingsOf(vs)[1..] == BindingsOf(vs[1..])
    ensures SchemasOf(vs)[0] == SchemaOf(vs[0]) && BindingsOf(vs)[0] == BindingOf(vs[0])
  {
  }

  lemma {:induction false} FindRawOf(vs: seq<Variant>, i: nat)
    requires Built(vs) && i < |vs|
    ensures FindRaw(SchemasOf(vs), vs[i].code) == if vs[i].raw then Some(SchemaOf(vs[i])) else None
  {
    BuiltTail(vs);
    if i > 0 {
      FindRawOf(vs[1..], i - 1);
    } else if !vs[0].raw {
      NoRaw(vs[1..], vs[0].code);
    }
  }

  lemma {:induction false} NoRaw(vs: seq<Variant>, code: int)
    requires forall j :: 0 <= j < |vs| && vs[j].raw ==> vs[j].code != code
    ensures FindRaw(SchemasOf(vs), code) == None
  {
    if vs != [] {
      assert SchemasOf(vs)[1..] == SchemasOf(vs[1..]);
      NoRaw(vs[1..], code);
    }
  }

  lemma {:induction false} FindTagOf(vs: seq<Variant>, i: nat)
    requires Built(vs) && i < |vs| && !vs[i].raw
    ensures FindTag(SchemasOf(vs), Some(vs[i].name)) == Some(SchemaOf(vs[i]))
  {
    BuiltTail(vs);
    if i > 0 { FindTagOf(vs[1..], i - 1); }
  }

  lemma {:induction false} FindBindingOf(vs: seq<Variant>, i: nat, schemas: seq<ErrorSchema>)
    requires Built(vs) && i < |vs|
    ensures FindBinding(BindingsOf(vs), SchemaOf(vs[i]), schemas) == Some(BindingOf(vs[i]))
  {
    BuiltTail(vs);
    if i > 0 { FindBindingOf(vs[1..], i - 1, schemas); }
  }

  // ---- Only one declaration can make a candidate ----------------------------------------

  lemma {:induction false} GatherNone(error: RpcError, some: seq<ErrorSchema>, tagged: bool, bindings: seq<Binding>, schemas: seq<ErrorSchema>)
    requires forall j :: 0 <= j < |some| ==> CandidatesOf(error, some[j], bindings, schemas) == []
    ensures Gather(error, some, tagged, bindings, schemas) == []
  {
    if some != [] { GatherNone(error, some[..|some| - 1], tagged, bindings, schemas); }
  }

  lemma {:induction false} GatherOne(error: RpcError, some: seq<ErrorSchema>, i: nat, tagged: bool, bindings: seq<Binding>, schemas: seq<ErrorSchema>)
    requires i < |some|
    requires forall j :: 0 <= j < |some| && j != i ==> CandidatesOf(error, some[j], bindings, schemas) == []
    ensures Gather(error, some, tagged, bindings, schemas) ==
            if some[i].tag.Some? == tagged then CandidatesOf(error, some[i], bindings, schemas) else []
  {
    var init := some[..|some| - 1];
    if i == |some| - 1 {
      GatherNone(error, init, tagged, bindings, schemas);
    } else {
      GatherOne(error, init, i, tagged, bindings, schemas);
    }
  }

  /** What a wire error must look like for variant `v` to claim it. */
  predicate Claims(v: Variant, error: RpcError) {
    v.code == error.code && (v.raw || (error.data.Some? && AsStr(Field(error.data.value, "type")) == Some(v.name)))
  }

  lemma OthersSilent(vs: seq<Variant>, i: nat, j: nat, error: RpcError)
    requires Built(vs) && i < |vs| && j < |vs| && i != j && Claims(vs[i], error)
    ensures CandidatesOf(error, SchemaOf(vs[j]), BindingsOf(vs), SchemasOf(vs)) == []
  {
    if vs[j].code == error.code {
      assert !vs[i].raw && !vs[j].raw && vs[i].name != vs[j].name;
      assert EnvelopeIssues(error, SchemaOf(vs[j])) != [];
    }
  }

  /** The claiming variant alone decides what is decoded. */
  lemma DecodeClaimed(vs: seq<Variant>, i: nat, error: RpcError)
    requires Built(vs) && i < |vs| && Claims(vs[i], error)
    ensures var values := CandidatesOf(error, SchemaOf(vs[i]), BindingsOf(vs), SchemasOf(vs));
            var decoded := Decode(error, BindingsOf(vs), SchemasOf(vs));
            if values != [] then decoded == Candidates(values) else decoded.Failed?
  {
    var schemas, bindings := SchemasOf(vs), BindingsOf(vs);
    forall j | 0 <= j < |schemas| && j != i ensures CandidatesOf(error, schemas[j], bindings, schemas) == [] {
      OthersSilent(vs, i, j, error);
    }
    GatherOne(error, schemas, i, true, bindings, schemas);
    GatherOne(error, schemas, i, false, bindings, schemas);
  }

  // ---- Objects with two possible keys -------------------------------------------------------

  lemma {:induction false} NoMoreThanKeys(ms: seq<Member>, keys: set<string>)
    requires DistinctKeys(ms) && forall i :: 0 <= i < |ms| ==> ms[i].key in keys
    ensures |ms| <= |keys|
  {
    if ms != [] { NoMoreThanKeys(ms[1..], keys - {ms[0].key}); }
  }

  lemma TwoKeys(ms: seq<Member>, a: string, b: string)
    requires DistinctKeys(ms) && KeysAmong(ms, a, b) && Has(ms, a) && a != b
    ensures |ms| == if Has(ms, b) then 2 else 1
  {
    NoMoreThanKeys(ms, {a, b});
    if !Has(ms, b) { NoMoreThanKeys(ms, {a}); }
    if |ms| == 2 {
      assert Has(ms, b) by {
        assert ms[0].key == b || ms[1].key == b;
      }
    }
  }

  /** A two-key object is determined by its members, whatever their order. */
  lemma EqualTwoKeys(ms: seq<Member>, a: string, b: string)
    requires WellFormed(Obj(ms)) && KeysAmong(ms, a, b) && Has(ms, a) && a != b
    ensures var ns := [Member(a, Get(ms, a).value)] + if Has(ms, b) then [Member(b, Get(ms, b).value)] else [];
            Equal(Obj(ns), Obj(ms)) && Equal(Obj(ms), Obj(ns))
  {
    TwoKeys(ms, a, b);
    var ns := [Member(a, Get(ms, a).value)] + if Has(ms, b) then [Member(b, Get(ms, b).value)] else [];
    MemberReflexive(ms, a);
    if Has(ms, b) { MemberReflexive(ms, b); }
    GetTwo(ns, a, b);
    forall i | 0 <= i < |ms| ensures Has(ns, ms[i].key) && Equal(ms[i].val, Get(ns, ms[i].key).value) {
      GetAt(ms, i);
      EqualReflexive(ms[i].val);
    }
  }

  lemma GetTwo(ns: seq<Member>, a: string, b: string)
    requires a != b && 1 <= |ns| <= 2 && ns[0].key == a && (|ns| == 2 ==> ns[1].key == b)
    ensures Get(ns, a) == Some(ns[0].val)
    ensures Get(ns, b) == if |ns| == 2 then Some(ns[1].val) else None
  {
    if |ns| == 2 {
      assert ns[1..][0] == ns[1];
    } else {
      assert ns[1..] == [];
    }
  }

  lemma MemberReflexive(ms: seq<Member>, key: string)
    requires WellFormed(Obj(ms)) && Has(ms, key)
    ensures Equal(Get(ms, key).value, Get(ms, key).value)
  {
    var i :| 0 <= i < |ms| && ms[i].key == key && ms[i].val == Get(ms, key).value;
    EqualReflexive(ms[i].val);
  }

  // ---- Decoding what was encoded --------------------------------------------------------------

  /** A tagged value: an object with member `type` and perhaps `data`, in any order. */
  predicate IsTagged(t: Json, name: string, payload: Option<Json>) {
    && t.Obj? && WellFormed(t) && KeysAmong(t.members, "type", "data")
    && Get(t.members, "type") == Some(Str(name))
    && Get(t.members, "data") == payload
  }

  lemma TaggedEqual(t: Json, name: string, payload: Option<Json>)
    requires IsTagged(t, name, payload)
    ensures Equal(TaggedValue(name, payload), t) && Equal(t, TaggedValue(name, payload))
  {
    EqualTwoKeys(t.members, "type", "data");
  }

  lemma {:induction false} NoExtraKeys(ms: seq<Member>)
    ensures ExtraKeys(ms) == [] <==> KeysAmong(ms, "type", "data")
  {
    if ms != [] { NoExtraKeys(ms[..|ms| - 1]); }
  }

  /** A named envelope is accepted exactly if it is a tagged value of the variant, with a payload where one is declared. */
  lemma NamedEnvelope(v: Variant, error: RpcError)
    requires !v.raw
    ensures EnvelopeIssues(error, SchemaOf(v)) == [] <==>
            error.data.Some? && error.data.value.Obj? &&
            AsStr(Field(error.data.value, "type")) == Some(v.name) &&
            KeysAmong(error.data.value.members, "type", "data") &&
            (Has(error.data.value.members, "data") <==> v.payload.Some?)
  {
    if error.data.Some? && error.data.value.Obj? { NoExtraKeys(error.data.value.members); }
  }

  /** The one candidate a claiming variant makes. */
  lemma ClaimedCandidate(vs: seq<Variant>, i: nat, error: RpcError)
    requires Built(vs) && i < |vs| && Claims(vs[i], error)
    ensures var values := CandidatesOf(error, SchemaOf(vs[i]), BindingsOf(vs), SchemasOf(vs));
            var payload := PayloadFor(error, SchemaOf(vs[i]));
            if EnvelopeIssues(error, SchemaOf(vs[i])) == []
            then values == [TaggedValue(vs[i].name, payload)] && payload.Some? == vs[i].payload.Some?
            else values == []
  {
    FindBindingOf(vs, i, SchemasOf(vs));
    if !vs[i].raw { NamedEnvelope(vs[i], error); }
  }

  lemma RawRoundTrip(vs: seq<Variant>, i: nat, tagged: Json, payload: Option<Json>, message: string, comps: Components)
    requires Built(vs) && i < |vs| && vs[i].raw && IsTagged(tagged, vs[i].name, payload)
    requires Encode(tagged, vs[i].code, message, SchemasOf(vs), comps).Sent?
    ensures var error := Encode(tagged, vs[i].code, message, SchemasOf(vs), comps).error;
            Claims(vs[i], error) && EnvelopeIssues(error, SchemaOf(vs[i])) == [] &&
            payload.Some? && Equal(ErrorBody(error), payload.value)
  {
    FindRawOf(vs, i);
    var body := payload.GetOr(Null);
    assert Field(tagged, "data") == payload;
    EqualTwoKeys(body.members, "message", "data");
  }

  lemma NamedRoundTrip(vs: seq<Variant>, i: nat, tagged: Json, payload: Option<Json>, message: string, comps: Components)
    requires Built(vs) && i < |vs| && !vs[i].raw && IsTagged(tagged, vs[i].name, payload)
    requires Encode(tagged, vs[i].code, message, SchemasOf(vs), comps).Sent?
    ensures var error := Encode(tagged, vs[i].code, message, SchemasOf(vs), comps).error;
            error == RpcError(vs[i].code, message, Some(tagged)) &&
            Claims(vs[i], error) && EnvelopeIssues(error, SchemaOf(vs[i])) == [] &&
            PayloadFor(error, SchemaOf(vs[i])) == payload
  {
    FindRawOf(vs, i);
    FindTagOf(vs, i);
    assert AsStr(Field(tagged, "type")) == Some(vs[i].name);
    NamedEnvelope(vs[i], RpcError(vs[i].code, message, Some(tagged)));
  }

  /** Whenever encoding a variant's tagged value succeeds, decoding the wire error yields exactly that value. */
  lemma DecodeInvertsEncode(vs: seq<Variant>, i: nat, tagged: Json, payload: Option<Json>, message: string, comps: Components)
    requires Built(vs) && i < |vs| && IsTagged(tagged, vs[i].name, payload)
    requires Encode(tagged, vs[i].code, message, SchemasOf(vs), comps).Sent?
    ensures var decoded := Decode(Encode(tagged, vs[i].code, message, SchemasOf(vs), comps).error, BindingsOf(vs), SchemasOf(vs));
            decoded.Candidates? && |decoded.values| == 1 && Equal(decoded.values[0], tagged)
  {
    var error := Encode(tagged, vs[i].code, message, SchemasOf(vs), comps).error;
    if vs[i].raw {
      RawRoundTrip(vs, i, tagged, payload, message, comps);
      TaggedPayload(tagged, vs[i].name, payload.value, ErrorBody(error));
    } else {
      NamedRoundTrip(vs, i, tagged, payload, message, comps);
      TaggedEqual(tagged, vs[i].name, payload);
    }
    ClaimedCandidate(vs, i, error);
    DecodeClaimed(vs, i, error);
  }

  lemma TaggedPayload(tagged: Json, name: string, payload: Json, equal: Json)
    requires IsTagged(tagged, name, Some(payload)) && Equal(equal, payload)
    ensures Equal(TaggedValue(name, Some(equal)), tagged)
  {
    TwoKeys(tagged.members, "type", "data");
  }

  // ---- Encoding what was decoded ----------------------------------------------------------------

  /** What the schema of the claiming variant demands of a decoded payload. */
  predicate PayloadFits(v: Variant, error: RpcError, comps: Components) {
    var payload := PayloadFor(error, SchemaOf(v));
    payload.Some? && v.payload.Some? ==> Valid(payload.value, v.payload.value, comps)
  }

  lemma {:induction false} SomeCandidate(error: RpcError, some: seq<ErrorSchema>, tagged: bool, bindings: seq<Binding>, schemas: seq<ErrorSchema>) returns (i: nat)
    requires Gather(error, some, tagged, bindings, schemas) != []
    ensures i < |some| && CandidatesOf(error, some[i], bindings, schemas) != []
  {
    if CandidatesOf(error, some[|some| - 1], bindings, schemas) != [] {
      i := |some| - 1;
    } else {
      i := SomeCandidate(error, some[..|some| - 1], tagged, bindings, schemas);
    }
  }

  /** Decoding succeeds only for an error that some variant claims, and then yields one candidate of it. */
  lemma DecodedIsClaimed(vs: seq<Variant>, error: RpcError) returns (i: nat)
    requires Built(vs) && Decode(error, BindingsOf(vs), SchemasOf(vs)).Candidates?
    ensures i < |vs| && Claims(vs[i], error) && EnvelopeIssues(error, SchemaOf(vs[i])) == []
    ensures Decode(error, BindingsOf(vs), SchemasOf(vs)) ==
            Candidates([TaggedValue(vs[i].name, PayloadFor(error, SchemaOf(vs[i])))])
    ensures PayloadFor(error, SchemaOf(vs[i])).Some? == vs[i].payload.Some?
  {
    var schemas, bindings := SchemasOf(vs), BindingsOf(vs);
    if Gather(error, schemas, true, bindings, schemas) != [] {
      i := SomeCandidate(error, schemas, true, bindings, schemas);
    } else {
      i := SomeCandidate(error, schemas, false, bindings, schemas);
    }
    if !vs[i].raw { NamedEnvelope(vs[i], error); }
    ClaimedCandidate(vs, i, error);
    DecodeClaimed(vs, i, error);
  }

  predicate SameData(a: Option<Json>, b: Option<Json>) {
    (a.None? && b.None?) || (a.Some? && b.Some? && Equal(a.value, b.value))
  }

  lemma ReencodeRaw(vs: seq<Variant>, i: nat, error: RpcError, message: string, comps: Components)
    requires Built(vs) && i < |vs| && vs[i].raw && Claims(vs[i], error) && PayloadFits(vs[i], error, comps)
    ensures Encode(TaggedValue(vs[i].name, Some(ErrorBody(error))), vs[i].code, message, SchemasOf(vs), comps) == Sent(error)
  {
    FindRawOf(vs, i);
    TaggedData(vs[i].name, ErrorBody(error));
    BodyEncodes(error, vs[i].payload.GetOr(Null), comps);
  }

  lemma TaggedData(name: string, payload: Json)
    ensures Field(TaggedValue(name, Some(payload)), "data") == Some(payload)
  {
    GetTwo(TaggedValue(name, Some(payload)).members, "type", "data");
  }

  lemma BodyFields(error: RpcError)
    ensures Field(ErrorBody(error), "message") == Some(Str(error.message)) && Field(ErrorBody(error), "data") == error.data
    ensures ErrorBody(error).Obj? && KeysAmong(ErrorBody(error).members, "message", "data")
  {
    GetTwo(ErrorBody(error).members, "message", "data");
  }

  lemma RawEncodes(body: Json, error: RpcError, schema: Json, comps: Components)
    requires Field(body, "message") == Some(Str(error.message)) && Field(body, "data") == error.data
    requires body.Obj? && KeysAmong(body.members, "message", "data") && Valid(body, schema, comps)
    ensures EncodeRaw(body, error.code, schema, comps) == Sent(error)
  {
  }

  lemma BodyEncodes(error: RpcError, schema: Json, comps: Components)
    requires Valid(ErrorBody(error), schema, comps)
    ensures EncodeRaw(ErrorBody(error), error.code, schema, comps) == Sent(error)
  {
    BodyFields(error);
    RawEncodes(ErrorBody(error), error, schema, comps);
  }

  lemma ReencodeNamed(vs: seq<Variant>, i: nat, error: RpcError, message: string, comps: Components)
    requires Built(vs) && i < |vs| && !vs[i].raw && Claims(vs[i], error) && PayloadFits(vs[i], error, comps)
    requires EnvelopeIssues(error, SchemaOf(vs[i])) == [] && WellFormed(error.data.GetOr(Null))
    ensures var tagged := TaggedValue(vs[i].name, PayloadFor(error, SchemaOf(vs[i])));
            Encode(tagged, vs[i].code, message, SchemasOf(vs), comps) == Sent(RpcError(error.code, message, Some(tagged))) &&
            Equal(tagged, error.data.value)
  {
    var payload := PayloadFor(error, SchemaOf(vs[i]));
    NamedEnvelope(vs[i], error);
    EncodeNamed(vs, i, payload, message, comps);
    TaggedEqual(error.data.value, vs[i].name, payload);
  }

  lemma EncodeNamed(vs: seq<Variant>, i: nat, payload: Option<Json>, message: string, comps: Components)
    requires Built(vs) && i < |vs| && !vs[i].raw && ValidPayload(payload, SchemaOf(vs[i]), comps)
    ensures var tagged := TaggedValue(vs[i].name, payload);
            Encode(tagged, vs[i].code, message, SchemasOf(vs), comps) == Sent(RpcError(vs[i].code, message, Some(tagged)))
  {
    FindRawOf(vs, i);
    FindTagOf(vs, i);
    TaggedFields(vs[i].name, payload);
    DeclaredEncodes(TaggedValue(vs[i].name, payload), SchemaOf(vs[i]), payload, message, SchemasOf(vs), comps);
  }

  lemma TaggedFields(name: string, payload: Option<Json>)
    ensures Field(TaggedValue(name, payload), "type") == Some(Str(name)) && Field(TaggedValue(name, payload), "data") == payload
  {
    GetTwo(TaggedValue(name, payload).members, "type", "data");
  }

  lemma DeclaredEncodes(tagged: Json, declaration: ErrorSchema, payload: Option<Json>, message: string, schemas: seq<ErrorSchema>, comps: Components)
    requires Field(tagged, "data") == payload && ValidPayload(payload, declaration, comps)
    requires declaration.tag.Some? && FindTag(schemas, AsStr(Field(tagged, "type"))) == Some(declaration)
    ensures EncodeDeclared(tagged, declaration.code, message, schemas, comps) == Sent(RpcError(declaration.code, message, Some(tagged)))
  {
  }

  /** A decoded candidate is the only one; if its payload fits its schema, encoding it again gives
      back code and data, and for a raw error the message too. */
  lemma EncodeInvertsDecode(vs: seq<Variant>, error: RpcError, message: string, comps: Components) returns (i: nat)
    requires Built(vs) && WellFormed(error.data.GetOr(Null))
    requires Decode(error, BindingsOf(vs), SchemasOf(vs)).Candidates?
    ensures i < |vs| && Claims(vs[i], error)
    ensures var values := Decode(error, BindingsOf(vs), SchemasOf(vs)).values;
            |values| == 1 &&
            (PayloadFits(vs[i], error, comps) ==>
               var again := Encode(values[0], vs[i].code, message, SchemasOf(vs), comps);
               again.Sent? && again.error.code == error.code && SameData(again.error.data, error.data) &&
               (vs[i].raw ==> again.error == error))
  {
    i := DecodedIsClaimed(vs, error);
    if PayloadFits(vs[i], error, comps) {
      if vs[i].raw {
        ReencodeRaw(vs, i, error, message, comps);
        if error.data.Some? { EqualReflexive(error.data.value); }
      } else {
        ReencodeNamed(vs, i, error, message, comps);
      }
    }
  }
}
