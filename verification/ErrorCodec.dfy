/** The application-error codec: encoding a tagged value into a wire error and
    decoding wire errors into candidate tagged values. */
module ErrorCodec {
  import opened Options
  import opened JsonValues
  import opened Pointers
  import opened Validator
  import opened Contracts

  const INTERNAL_ERROR := -32603

  /** The outcome of encoding; both cases are put on the wire. */
  datatype Encoded = Sent(error: RpcError) | Rejected(error: RpcError)

  datatype Binding = Binding(name: string, code: int, message: string, hasPayload: bool)

  datatype DecodeIssue = DecodeIssue(path: string, kind: DecodeKind)
  datatype DecodeKind =
    | ExpectedEnvelope
    | ExpectedTag(name: string)
    | ExpectedMessage(message: string)
    | Unexpected
    | Missing
    | NoBinding

  datatype Decoded = Candidates(values: seq<Json>) | Failed(issues: seq<DecodeIssue>)

  predicate Valid(v: Json, schema: Json, comps: Components) {
    Issues(Task(v, [], schema), comps, {}) == []
  }

  predicate ValidPayload(payload: Option<Json>, declaration: ErrorSchema, comps: Components) {
    match (payload, declaration.data)
    case (None, None) => true
    case (Some(p), Some(s)) => Valid(p, s, comps)
    case _ => false
  }

  function FindRaw(schemas: seq<ErrorSchema>, code: int): Option<ErrorSchema> {
    if schemas == [] then None
    else if schemas[0].code == code && schemas[0].schema.Some? then Some(schemas[0])
    else FindRaw(schemas[1..], code)
  }

  function FindTag(schemas: seq<ErrorSchema>, name: Option<string>): Option<ErrorSchema> {
    if schemas == [] then None
    else if schemas[0].tag.Some? && schemas[0].tag == name then Some(schemas[0])
    else FindTag(schemas[1..], name)
  }

  function FindLegacy(schemas: seq<ErrorSchema>, code: int, message: string): Option<ErrorSchema> {
    if schemas == [] then None
    else
      var s := schemas[0];
      if s.schema.None? && s.tag.None? && s.code == code && s.message == message then Some(s)
      else FindLegacy(schemas[1..], code, message)
  }

  predicate KeysAmong(ms: seq<Member>, a: string, b: string) {
    forall i :: 0 <= i < |ms| ==> ms[i].key == a || ms[i].key == b
  }

  /** A raw error's body is the payload of the tagged value; message and data come from it. */
  function EncodeRaw(body: Json, code: int, schema: Json, comps: Components): Encoded {
    var message := AsStr(Field(body, "message"));
    if message.None? then Rejected(RpcError(INTERNAL_ERROR, "raw error body requires a string message", None))
    else if body.Obj? && KeysAmong(body.members, "message", "data") && Valid(body, schema, comps) then
      Sent(RpcError(code, message.value, Field(body, "data")))
    else Rejected(RpcError(INTERNAL_ERROR, "raw error body does not match its declared schema", None))
  }

  /** The declaration of the tagged value's name, if it has this code; without one, a legacy declaration. */
  function Declaration(tagged: Json, code: int, message: string, schemas: seq<ErrorSchema>): Option<ErrorSchema> {
    var named := FindTag(schemas, AsStr(Field(tagged, "type")));
    if named.None? then FindLegacy(schemas, code, message)
    else if named.value.code == code then named else None
  }

  function EncodeDeclared(tagged: Json, code: int, message: string, schemas: seq<ErrorSchema>, comps: Components): Encoded {
    EncodeAs(tagged, code, message, Declaration(tagged, code, message, schemas), comps)
  }

  function EncodeAs(tagged: Json, code: int, message: string, declaration: Option<ErrorSchema>, comps: Components): Encoded {
    var payload := Field(tagged, "data");
    if declaration.None? || !ValidPayload(payload, declaration.value, comps) then
      Rejected(RpcError(INTERNAL_ERROR, "application error payload or variant does not match its declared schema", None))
    else Sent(RpcError(code, message, if declaration.value.tag.Some? then Some(tagged) else payload))
  }

  function Encode(tagged: Json, code: int, message: string, schemas: seq<ErrorSchema>, comps: Components): Encoded {
    var raw := FindRaw(schemas, code);
    if raw.Some? then EncodeRaw(Field(tagged, "data").GetOr(Null), code, raw.value.schema.GetOr(Null), comps)
    else EncodeDeclared(tagged, code, message, schemas, comps)
  }

  // ---- Decoding --------------------------------------------------------------------

  function ErrorBody(error: RpcError): Json {
    Obj([Member("message", Str(error.message))] +
        if error.data.Some? then [Member("data", error.data.value)] else [])
  }

  function PresenceIssues(payload: Option<Json>, schema: Option<Json>, path: string): seq<DecodeIssue> {
    if payload.None? && schema.Some? then [DecodeIssue(path, Missing)]
    else if payload.Some? && schema.None? then [DecodeIssue(path, Unexpected)]
    else []
  }

  function ExtraKeys(ms: seq<Member>): seq<DecodeIssue> {
    if ms == [] then []
    else
      var key := ms[|ms| - 1].key;
      ExtraKeys(ms[..|ms| - 1]) +
      if key != "type" && key != "data" then [DecodeIssue(PointerChild("/data", key), Unexpected)] else []
  }

  function EnvelopeIssues(error: RpcError, declaration: ErrorSchema): seq<DecodeIssue> {
    if declaration.schema.Some? then []
    else if declaration.tag.Some? then
      if error.data.None? || !error.data.value.Obj? then [DecodeIssue("/data", ExpectedEnvelope)]
      else
        var envelope := error.data.value.members;
        (if AsStr(Get(envelope, "type")) != declaration.tag
         then [DecodeIssue("/data/type", ExpectedTag(declaration.tag.value))] else []) +
        ExtraKeys(envelope) +
        PresenceIssues(Get(envelope, "data"), declaration.data, "/data/data")
    else
      (if error.message != declaration.message
       then [DecodeIssue("/message", ExpectedMessage(declaration.message))] else []) +
      PresenceIssues(error.data, declaration.data, "/data")
  }

  /** The first binding that `declaration` is for. */
  function FindBinding(bindings: seq<Binding>, declaration: ErrorSchema, schemas: seq<ErrorSchema>): Option<Binding> {
    if bindings == [] then None
    else
      var b := bindings[0];
      var fits :=
        if declaration.schema.Some? then b.code == declaration.code
        else if declaration.tag.Some? then b.name == declaration.tag.value && b.code == declaration.code
        else b.code == declaration.code && b.message == declaration.message && FindTag(schemas, Some(b.name)).None?;
      if fits then Some(b) else FindBinding(bindings[1..], declaration, schemas)
  }

  function PayloadFor(error: RpcError, declaration: ErrorSchema): Option<Json> {
    if declaration.schema.Some? then Some(ErrorBody(error))
    else if declaration.tag.Some? then (if error.data.Some? then Field(error.data.value, "data") else None)
    else error.data
  }

  function TaggedValue(name: string, payload: Option<Json>): Json {
    Obj([Member("type", Str(name))] + if payload.Some? then [Member("data", payload.value)] else [])
  }

  /** What one declaration makes of a wire error of its code: a candidate, or issues. */
  function DecodeAs(error: RpcError, declaration: ErrorSchema, bindings: seq<Binding>, schemas: seq<ErrorSchema>): Decoded {
    var issues := EnvelopeIssues(error, declaration);
    if issues != [] then Failed(issues)
    else
      var payload := PayloadFor(error, declaration);
      var binding := FindBinding(bindings, declaration, schemas);
      if binding.None? || binding.value.hasPayload != payload.Some? then Failed([DecodeIssue("", NoBinding)])
      else Candidates([TaggedValue(binding.value.name, payload)])
  }

  function CandidatesOf(error: RpcError, declaration: ErrorSchema, bindings: seq<Binding>, schemas: seq<ErrorSchema>): seq<Json> {
    if declaration.code != error.code then []
    else
      var decoded := DecodeAs(error, declaration, bindings, schemas);
      if decoded.Candidates? then decoded.values else []
  }

  function IssuesOf(error: RpcError, declaration: ErrorSchema, bindings: seq<Binding>, schemas: seq<ErrorSchema>): seq<DecodeIssue> {
    if declaration.code != error.code then []
    else
      var decoded := DecodeAs(error, declaration, bindings, schemas);
      if decoded.Failed? then decoded.issues else []
  }

  /** The candidates of the tagged declarations among `some`, or of the others. */
  function Gather(error: RpcError, some: seq<ErrorSchema>, tagged: bool, bindings: seq<Binding>, schemas: seq<ErrorSchema>): seq<Json> {
    if some == [] then []
    else
      var last := some[|some| - 1];
      Gather(error, some[..|some| - 1], tagged, bindings, schemas) +
      if last.tag.Some? == tagged then CandidatesOf(error, last, bindings, schemas) else []
  }

  function GatherIssues(error: RpcError, some: seq<ErrorSchema>, tagged: bool, bindings: seq<Binding>, schemas: seq<ErrorSchema>): seq<DecodeIssue> {
    if some == [] then []
    else
      var last := some[|some| - 1];
      GatherIssues(error, some[..|some| - 1], tagged, bindings, schemas) +
      if last.tag.Some? == tagged then IssuesOf(error, last, bindings, schemas) else []
  }

  /** Tagged declarations come first; issues count only when there is no candidate. */
  function Decode(error: RpcError, bindings: seq<Binding>, schemas: seq<ErrorSchema>): Decoded {
    var values := Gather(error, schemas, true, bindings, schemas) + Gather(error, schemas, false, bindings, schemas);
    if values != [] then Candidates(values)
    else Failed(GatherIssues(error, schemas, true, bindings, schemas) + GatherIssues(error, schemas, false, bindings, schemas))
  }

  method DecodePass(error: RpcError, tagged: bool, bindings: seq<Binding>, schemas: seq<ErrorSchema>)
    returns (values: seq<Json>, issues: seq<DecodeIssue>)
    ensures values == Gather(error, schemas, tagged, bindings, schemas)
    ensures issues == GatherIssues(error, schemas, tagged, bindings, schemas)
  {
    values, issues := [], [];
    for i := 0 to |schemas|
      invariant values == Gather(error, schemas[..i], tagged, bindings, schemas)
      invariant issues == GatherIssues(error, schemas[..i], tagged, bindings, schemas)
    {
      assert schemas[..i + 1][..i] == schemas[..i];
      if schemas[i].tag.Some? == tagged && schemas[i].code == error.code {
        var decoded := DecodeAs(error, schemas[i], bindings, schemas);
        match decoded {
          case Candidates(more) => values := values + more;
          case Failed(more) => issues := issues + more;
        }
      }
    }
    assert schemas[..|schemas|] == schemas;
  }

  /** `decode_application_error_candidates`. */
  method DecodeCandidates(error: RpcError, bindings: seq<Binding>, schemas: seq<ErrorSchema>) returns (decoded: Decoded)
    ensures decoded == Decode(error, bindings, schemas)
  {
    var values, issues := DecodePass(error, true, bindings, schemas);
    var moreValues, moreIssues := DecodePass(error, false, bindings, schemas);
    values, issues := values + moreValues, issues + moreIssues;
    decoded := if values == [] then Failed(issues) else Candidates(values);
  }

  // ---- Contracts as the derive builds them ----------------------------------------------

  datatype Variant = Variant(name: string, code: int, message: string, payload: Option<Json>, raw: bool)

  function SchemaOf(v: Variant): ErrorSchema {
    if v.raw then ErrorSchema(v.code, None, v.message, None, v.payload)
    else ErrorSchema(v.code, Some(v.name), v.message, v.payload, None)
  }

  function SchemasOf(vs: seq<Variant>): seq<ErrorSchema> {
    seq(|vs|, i requires 0 <= i < |vs| => SchemaOf(vs[i]))
  }

  function BindingOf(v: Variant): Binding {
    Binding(v.name, v.code, v.message, v.payload.Some?)
  }

  function BindingsOf(vs: seq<Variant>): seq<Binding> {
    seq(|vs|, i requires 0 <= i < |vs| => BindingOf(vs[i]))
  }

  /** Tags are distinct, a raw code has one owner, and a raw variant has a body. */
  predicate Built(vs: seq<Variant>) {
    && (forall i, j :: 0 <= i < j < |vs| ==> vs[i].name != vs[j].name)
    && (forall i, j :: 0 <= i < |vs| && 0 <= j < |vs| && i != j && vs[i].raw ==> vs[i].code != vs[j].code)
    && (forall i :: 0 <= i < |vs| && vs[i].raw ==> vs[i].payload.Some?)
  }
}
