/** Contracts that the tests of the codec use, with what holds of them for all values. */
module ContractExamples {
  import opened Options
  import opened JsonValues
  import opened Pointers
  import opened Validator
  import opened SchemaMeaning
  import opened SchemaKeywords
  import opened Scoping

  // ---- Escaped names and references -----------------------------------------------------------------

  function RefTo(name: string): Json {
    Obj([Member("$ref", Str(ComponentRef(name)))])
  }

  lemma {:induction false} PlainName(name: string)
    requires '~' !in name && '/' !in name
    ensures Escape(name) == name
  {
    if name != "" {
      EscapeCons(name);
      PlainName(name[1..]);
    }
  }

  lemma {:induction false} ReplaceJoins(x: string, y: string, from: char, to: string)
    ensures Replace(x + y, from, to) == Replace(x, from, to) + Replace(y, from, to)
  {
    if x == "" {
      assert x + y == y;
    } else {
      assert x + y == [x[0]] + (x[1..] + y);
      ReplaceHead(x[0], x[1..] + y, from, to);
      ReplaceJoins(x[1..], y, from, to);
    }
  }

  lemma EscapeJoins(x: string, y: string)
    ensures Escape(x + y) == Escape(x) + Escape(y)
  {
    ReplaceJoins(x, y, '~', "~0");
    ReplaceJoins(Replace(x, '~', "~0"), Replace(y, '~', "~0"), '/', "~1");
  }

  lemma Separators()
    ensures Escape("/") == "~1" && Escape("~") == "~0"
  {
  }

  /** A slash is written `~1` and a tilde `~0`, and everything else as it is. */
  lemma EscapedName(a: string, b: string, c: string)
    requires forall s :: s in [a, b, c] ==> '~' !in s && '/' !in s
    ensures ComponentRef(a + "/" + b + "~" + c) == "#/components/schemas/" + (a + "~1" + b + "~0" + c)
  {
    assert a in [a, b, c] && b in [a, b, c] && c in [a, b, c];
    PlainName(a);
    PlainName(b);
    PlainName(c);
    Separators();
    EscapeJoins(a, "/");
    EscapeJoins(a + "/", b);
    EscapeJoins(a + "/" + b, "~");
    EscapeJoins(a + "/" + b + "~", c);
  }

  lemma OneKeyword(key: string, val: Json)
    ensures forall k :: Get([Member(key, val)], k) == if k == key then Some(val) else None
  {
    assert [Member(key, val)][1..] == [];
  }

  /** Only `type` and the unions may be there. */
  ghost predicate Plain(o: seq<Member>) {
    && Get(o, "$ref") == None && Get(o, "const") == None && Get(o, "enum") == None && Get(o, "allOf") == None
    && Get(o, "prefixItems") == None && Get(o, "items") == None
    && Get(o, "required") == None && Get(o, "properties") == None && Get(o, "additionalProperties") == None
  }

  lemma PlainHolds(v: Json, o: seq<Member>, comps: Components)
    requires Plain(o)
    ensures KeywordsHold(v, o, comps) <==> TypeHolds(v, o) && AnyOfHolds(v, o, comps) && OneOfHolds(v, o, comps)
  {
  }

  lemma OnlyReference(v: Json, o: seq<Member>, name: string, comps: Components)
    requires name in comps && Get(o, "$ref") == Some(Str(ComponentRef(name)))
    ensures Fits(v, Obj(o), comps) <==> Fits(v, comps[name], comps)
  {
    ComponentRefRoundTrip(name);
    FitsReference(v, o, ComponentRef(name), comps);
  }

  lemma JustReference(v: Json, name: string, comps: Components)
    requires name in comps
    ensures Fits(v, RefTo(name), comps) <==> Fits(v, comps[name], comps)
  {
    OneKeyword("$ref", Str(ComponentRef(name)));
    OnlyReference(v, [Member("$ref", Str(ComponentRef(name)))], name, comps);
  }

  ghost predicate OneFits(v: Json, kinds: seq<Json>, comps: Components) {
    exists i :: 0 <= i < |kinds| && Fits(v, kinds[i], comps)
  }

  lemma OneOfTwo(v: Json, a: Json, b: Json, comps: Components)
    ensures OneFits(v, [a, b], comps) <==> Fits(v, a, comps) || Fits(v, b, comps)
  {
    assert [a, b][0] == a && [a, b][1] == b;
  }

  lemma OnlyAnyOf(v: Json, o: seq<Member>, kinds: seq<Json>, comps: Components)
    requires Plain(o) && Get(o, "anyOf") == Some(Arr(kinds)) && Get(o, "oneOf") == None && Get(o, "type") == None
    ensures Fits(v, Obj(o), comps) <==> OneFits(v, kinds, comps)
  {
    FitsKeywords(v, o, comps);
    PlainHolds(v, o, comps);
  }

  lemma OnlyOneOf(v: Json, o: seq<Member>, kinds: seq<Json>, comps: Components)
    requires Plain(o) && Get(o, "oneOf") == Some(Arr(kinds)) && Get(o, "anyOf") == None && Get(o, "type") == None
    ensures Fits(v, Obj(o), comps) <==> OneFits(v, kinds, comps)
  {
    FitsKeywords(v, o, comps);
    PlainHolds(v, o, comps);
  }

  lemma JustAnyOf(v: Json, a: Json, b: Json, comps: Components)
    ensures Fits(v, Obj([Member("anyOf", Arr([a, b]))]), comps) <==> Fits(v, a, comps) || Fits(v, b, comps)
  {
    OneKeyword("anyOf", Arr([a, b]));
    OnlyAnyOf(v, [Member("anyOf", Arr([a, b]))], [a, b], comps);
    OneOfTwo(v, a, b, comps);
  }

  lemma JustOneOf(v: Json, a: Json, b: Json, comps: Components)
    ensures Fits(v, Obj([Member("oneOf", Arr([a, b]))]), comps) <==> Fits(v, a, comps) || Fits(v, b, comps)
  {
    OneKeyword("oneOf", Arr([a, b]));
    OnlyOneOf(v, [Member("oneOf", Arr([a, b]))], [a, b], comps);
    OneOfTwo(v, a, b, comps);
  }

  lemma OnlyType(v: Json, o: seq<Member>, name: string, comps: Components)
    requires Plain(o) && Get(o, "type") == Some(Str(name)) && Get(o, "anyOf") == None && Get(o, "oneOf") == None
    ensures Fits(v, Obj(o), comps) <==> name in TypeNames(v)
  {
    FitsKeywords(v, o, comps);
    PlainHolds(v, o, comps);
  }

  lemma JustType(v: Json, name: string, comps: Components)
    ensures Fits(v, Obj([Member("type", Str(name))]), comps) <==> name in TypeNames(v)
  {
    OneKeyword("type", Str(name));
    OnlyType(v, [Member("type", Str(name))], name, comps);
  }

  /** A union of number and integer behind an escaped name takes every number, also where both branches fit. */
  lemma NumberOrInteger(comps: Components, v: Json)
    requires "a/b~c" in comps
    requires comps["a/b~c"] == Obj([Member("oneOf", Arr([Obj([Member("type", Str("number"))]), Obj([Member("type", Str("integer"))])]))])
    ensures Fits(v, RefTo("a/b~c"), comps) <==> v.Num?
  {
    var number, integer := Obj([Member("type", Str("number"))]), Obj([Member("type", Str("integer"))]);
    JustReference(v, "a/b~c", comps);
    JustOneOf(v, number, integer, comps);
    JustType(v, "number", comps);
    JustType(v, "integer", comps);
  }

  // ---- References that lead nowhere -------------------------------------------------------------------

  /** Two components that are references to each other accept no value. */
  lemma ReferenceCycle(v: Json, comps: Components)
    requires "A" in comps && "B" in comps && comps["A"] == RefTo("B") && comps["B"] == RefTo("A")
    ensures !Fits(v, RefTo("A"), comps)
  {
    forall n: nat ensures !Accepts(v, RefTo("A"), comps, n) { LoopFitsNothing(v, "A", "B", comps, n); }
  }

  // ---- Guarded recursion ------------------------------------------------------------------------------

  /** `{ "next": { "next": … null } }`, `n` deep. */
  function Chain(n: nat): Json {
    if n == 0 then Null else Obj([Member("next", Chain(n - 1))])
  }

  function Next(): Json {
    Obj([Member("anyOf", Arr([Obj([Member("type", Str("null"))]), RefTo("Node")]))])
  }

  function NodeSchema(): seq<Member> {
    [Member("type", Str("object")),
     Member("properties", Obj([Member("next", Next())])),
     Member("required", Arr([Str("next")])),
     Member("additionalProperties", Bool(false))]
  }

  ghost predicate IsNode(o: seq<Member>) {
    && Get(o, "$ref") == None && Get(o, "const") == None && Get(o, "enum") == None
    && Get(o, "allOf") == None && Get(o, "anyOf") == None && Get(o, "oneOf") == None
    && Get(o, "type") == Some(Str("object")) && Get(o, "required") == Some(Arr([Str("next")]))
    && Get(o, "properties") == Some(Obj([Member("next", Next())]))
  }

  lemma NodeKeywords()
    ensures IsNode(NodeSchema())
  {
  }

  /** What `next` may be: nothing more, or another node. */
  lemma NextFits(v: Json, comps: Components)
    requires "Node" in comps && comps["Node"] == Obj(NodeSchema())
    ensures Fits(v, Next(), comps) <==> v == Null || Fits(v, Obj(NodeSchema()), comps)
  {
    var nothing := Obj([Member("type", Str("null"))]);
    JustAnyOf(v, nothing, RefTo("Node"), comps);
    JustType(v, "null", comps);
    JustReference(v, "Node", comps);
  }

  lemma NodePlain(v: Json, o: seq<Member>, comps: Components)
    requires v.Obj? && IsNode(o)
    ensures ConstHolds(v, o) && EnumHolds(v, o) && TypeHolds(v, o) && ItemsHold(v, o, comps)
    ensures AllOfHolds(v, o, comps) && AnyOfHolds(v, o, comps) && OneOfHolds(v, o, comps)
  {
  }

  lemma NodeMembers(next: Json, o: seq<Member>, comps: Components)
    requires Fits(next, Next(), comps) && IsNode(o)
    ensures MembersHold(Obj([Member("next", next)]), o, comps)
  {
    OneKeyword("next", Next());
    assert PropertySchema(o, "next") == Some(Next());
  }

  lemma NodeRequired(v: Json, o: seq<Member>)
    requires v.Obj? && |v.members| == 1 && v.members[0].key == "next" && IsNode(o)
    ensures RequiredHolds(v, o)
  {
  }

  lemma NodeFits(next: Json, o: seq<Member>, comps: Components)
    requires Fits(next, Next(), comps) && IsNode(o)
    ensures Fits(Obj([Member("next", next)]), Obj(o), comps)
  {
    var v := Obj([Member("next", next)]);
    NodePlain(v, o, comps);
    NodeMembers(next, o, comps);
    NodeRequired(v, o);
    FitsKeywords(v, o, comps);
  }

  /** A chain fits however deep it is: there is no bound on guarded recursion. */
  lemma {:induction false} ChainFits(n: nat, comps: Components)
    requires n > 0 && "Node" in comps && comps["Node"] == Obj(NodeSchema())
    ensures Fits(Chain(n), RefTo("Node"), comps)
  {
    if n > 1 { ChainFits(n - 1, comps); }
    var next := Chain(n - 1);
    JustReference(next, "Node", comps);
    NextFits(next, comps);
    NodeKeywords();
    NodeFits(next, NodeSchema(), comps);
    JustReference(Chain(n), "Node", comps);
  }

  // ---- Scoping ----------------------------------------------------------------------------------------

  lemma ScopedExample(scope: Scope)
    requires scope == Scope("method.Code1", {"a/b"})
    ensures Rewrite(RefTo("a/b"), scope) == RefTo("method.Code1" + "." + "a/b")
  {
    ComponentRefRoundTrip("a/b");
    OneKeyword("$ref", Str(ComponentRef("a/b")));
    assert Rewrite(RefTo("a/b"), scope).members == RefTo("method.Code1" + "." + "a/b").members;
  }

  /** A reference at a schema position is renamed, and data that looks like one is not. */
  lemma OnlySchemaPositions(s: Json, scope: Scope)
    ensures Rewrite(Obj([Member("const", s)]), scope) == Obj([Member("const", s)])
    ensures Rewrite(Obj([Member("properties", Obj([Member("child", s)]))]), scope) ==
            Obj([Member("properties", Obj([Member("child", Rewrite(s, scope))]))])
  {
    var o, p := [Member("const", s)], [Member("child", s)];
    OneKeyword("const", s);
    OneKeyword("properties", Obj(p));
    assert Rewrite(Obj(o), scope).members == o;
    assert RewriteValue("properties", Obj(p), scope).members == [Member("child", Rewrite(s, scope))];
    assert Rewrite(Obj([Member("properties", Obj(p))]), scope).members == [Member("properties", RewriteValue("properties", Obj(p), scope))];
  }
}
