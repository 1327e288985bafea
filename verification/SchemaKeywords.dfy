/** The schema subset keyword by keyword: what a value must be to fit, with every keyword spelled out. */
module SchemaKeywords {
  import opened Options
  import opened JsonValues
  import opened Pointers
  import opened Validator
  import opened SchemaMeaning

  // ---- Types -----------------------------------------------------------------------------------

  ghost predicate Whole(n: int, r: real) {
    n as real == r
  }

  /** The type names of a value; a float without a fraction is an integer too. */
  ghost function TypeNames(v: Json): set<string> {
    match v
    case Null => {"null"}
    case Bool(_) => {"boolean"}
    case Num(Int(_)) => {"number", "integer"}
    case Num(Float(r)) => if exists n :: Whole(n, r) then {"number", "integer"} else {"number"}
    case Str(_) => {"string"}
    case Arr(_) => {"array"}
    case Obj(_) => {"object"}
  }

  ghost predicate HasType(v: Json, kind: Json) {
    match kind
    case Str(name) => name in TypeNames(v)
    case Arr(kinds) => exists i :: 0 <= i < |kinds| && kinds[i].Str? && kinds[i].s in TypeNames(v)
    case _ => false
  }

  lemma TypeTable(v: Json, name: string)
    ensures TypeMatches(name, v) <==> name in TypeNames(v)
  {
    if v.Num? && v.n.Float? { FloorIsWhole(v.n.r); }
  }

  lemma FloorIsWhole(r: real)
    ensures r == r.Floor as real <==> exists n :: Whole(n, r)
  {
    if r == r.Floor as real { assert Whole(r.Floor, r); }
    if n :| Whole(n, r) { assert r.Floor == n; }
  }

  lemma TypesExact(v: Json, kind: Json)
    ensures TypeOk(kind, v) <==> HasType(v, kind)
  {
    if kind.Str? { TypeTable(v, kind.s); }
    if kind.Arr? {
      forall i | 0 <= i < |kind.items| && kind.items[i].Str?
        ensures TypeMatches(kind.items[i].s, v) <==> kind.items[i].s in TypeNames(v) {
        TypeTable(v, kind.items[i].s);
      }
    }
  }

  // ---- Keywords --------------------------------------------------------------------------------

  ghost predicate ConstHolds(v: Json, o: seq<Member>) {
    match Get(o, "const")
    case Some(constant) => Equal(v, constant)
    case None => true
  }

  ghost predicate EnumHolds(v: Json, o: seq<Member>) {
    match Get(o, "enum")
    case Some(Arr(xs)) => exists i :: 0 <= i < |xs| && Equal(xs[i], v)
    case _ => true
  }

  ghost predicate TypeHolds(v: Json, o: seq<Member>) {
    match Get(o, "type")
    case Some(kind) => HasType(v, kind)
    case None => true
  }

  ghost predicate AllOfHolds(v: Json, o: seq<Member>, comps: Components) {
    match Get(o, "allOf")
    case Some(Arr(xs)) => forall i :: 0 <= i < |xs| ==> Fits(v, xs[i], comps)
    case _ => true
  }

  ghost predicate AnyOfHolds(v: Json, o: seq<Member>, comps: Components) {
    match Get(o, "anyOf")
    case Some(Arr(xs)) => exists i :: 0 <= i < |xs| && Fits(v, xs[i], comps)
    case _ => true
  }

  /** One branch suffices, and more may fit. */
  ghost predicate OneOfHolds(v: Json, o: seq<Member>, comps: Components) {
    match Get(o, "oneOf")
    case Some(Arr(xs)) => exists i :: 0 <= i < |xs| && Fits(v, xs[i], comps)
    case _ => true
  }

  function PrefixSchemas(o: seq<Member>): seq<Json> {
    match Get(o, "prefixItems")
    case Some(Arr(xs)) => xs
    case _ => []
  }

  /** An array has an item for each schema of the prefix; items after those fit `items`. */
  ghost predicate ItemsHold(v: Json, o: seq<Member>, comps: Components) {
    v.Arr? ==>
      && |PrefixSchemas(o)| <= |v.items|
      && forall i :: 0 <= i < |v.items| ==> ItemHolds(v.items[i], i, o, comps)
  }

  ghost predicate ItemHolds(item: Json, i: nat, o: seq<Member>, comps: Components) {
    if i < |PrefixSchemas(o)| then Fits(item, PrefixSchemas(o)[i], comps)
    else
      match Get(o, "items")
      case Some(s) => Fits(item, s, comps)
      case None => true
  }

  ghost predicate RequiredHolds(v: Json, o: seq<Member>) {
    match Get(o, "required")
    case Some(Arr(names)) =>
      v.Obj? ==> forall i :: 0 <= i < |names| && names[i].Str? ==> exists k :: 0 <= k < |v.members| && v.members[k].key == names[i].s
    case _ => true
  }

  /** A member fits the schema of its own property, else `additionalProperties`. */
  ghost predicate MemberHolds(m: Member, o: seq<Member>, comps: Components) {
    match PropertySchema(o, m.key)
    case Some(s) => Fits(m.val, s, comps)
    case None =>
      match Get(o, "additionalProperties")
      case Some(s) => Fits(m.val, s, comps)
      case None => true
  }

  function PropertySchema(o: seq<Member>, key: string): Option<Json> {
    match Get(o, "properties")
    case Some(Obj(ps)) => Get(ps, key)
    case _ => None
  }

  ghost predicate MembersHold(v: Json, o: seq<Member>, comps: Components) {
    v.Obj? ==> forall i :: 0 <= i < |v.members| ==> MemberHolds(v.members[i], o, comps)
  }

  ghost predicate KeywordsHold(v: Json, o: seq<Member>, comps: Components) {
    && ConstHolds(v, o) && EnumHolds(v, o) && TypeHolds(v, o)
    && AllOfHolds(v, o, comps) && AnyOfHolds(v, o, comps) && OneOfHolds(v, o, comps)
    && ItemsHold(v, o, comps) && RequiredHolds(v, o) && MembersHold(v, o, comps)
  }

  // ---- Derivations of one height suffice ---------------------------------------------------------

  /** The height of derivations that suffices for a value and its children. */
  ghost function Height(v: Json, comps: Components): nat {
    Bound(Depth(v), comps, {})
  }

  lemma FitsAtHeight(c: Json, v: Json, s: Json, comps: Components)
    requires c == v || IsChild(c, v)
    ensures Accepts(c, s, comps, Height(v, comps)) <==> Fits(c, s, comps)
  {
    if Fits(c, s, comps) {
      ValidationIsExact(c, s, comps);
      if c != v {
        ChildDepth(c, v);
        OneLevelLess(Depth(c), Depth(v), |comps|);
        assert Bound(Depth(c), comps, {}) <= Height(v, comps);
        AcceptsMore(Task(c, [], s), comps, Bound(Depth(c), comps, {}), Height(v, comps));
      }
    }
  }

  lemma AllOfExact(v: Json, s: Json, comps: Components)
    requires s.Obj?
    ensures EveryBranch(v, s, comps, Height(v, comps)) <==> AllOfHolds(v, s.members, comps)
  {
    var branches := Branches(s.members, "allOf");
    forall i | 0 <= i < |branches| ensures Accepts(v, branches[i], comps, Height(v, comps)) <==> Fits(v, branches[i], comps) {
      FitsAtHeight(v, v, branches[i], comps);
    }
  }

  lemma UnionExact(v: Json, s: Json, keyword: string, comps: Components)
    requires s.Obj?
    ensures SomeBranch(v, s, keyword, comps, Height(v, comps)) <==>
            match Get(s.members, keyword)
            case Some(Arr(xs)) => exists i :: 0 <= i < |xs| && Fits(v, xs[i], comps)
            case _ => true
  {
    var branches := Branches(s.members, keyword);
    forall i | 0 <= i < |branches| ensures Accepts(v, branches[i], comps, Height(v, comps)) <==> Fits(v, branches[i], comps) {
      FitsAtHeight(v, v, branches[i], comps);
    }
  }

  lemma ItemExact(v: Json, i: nat, s: Json, comps: Components)
    requires v.Arr? && i < |v.items|
    ensures Accepts(v.items[i], s, comps, Height(v, comps)) <==> Fits(v.items[i], s, comps)
  {
    FitsAtHeight(v.items[i], v, s, comps);
  }

  lemma ItemsExact(v: Json, s: Json, comps: Components)
    requires s.Obj? && v.Arr?
    ensures ItemsFit(v, s, comps, Height(v, comps)) <==> ItemsHold(v, s.members, comps)
  {
    var prefix, n := PrefixSchemas(s.members), Height(v, comps);
    assert Prefix(s.members) == prefix;
    forall i | 0 <= i < |v.items| && i < |prefix| ensures Accepts(v.items[i], prefix[i], comps, n) <==> ItemHolds(v.items[i], i, s.members, comps) {
      ItemExact(v, i, prefix[i], comps);
    }
    if Get(s.members, "items").Some? {
      var rest := Get(s.members, "items").value;
      forall i | |prefix| <= i < |v.items| ensures Accepts(v.items[i], rest, comps, n) <==> ItemHolds(v.items[i], i, s.members, comps) {
        ItemExact(v, i, rest, comps);
      }
    }
  }

  lemma MemberExact(v: Json, i: nat, s: Json, comps: Components)
    requires s.Obj? && v.Obj? && i < |v.members|
    ensures MemberFits(v, i, s, comps, Height(v, comps)) <==> MemberHolds(v.members[i], s.members, comps)
  {
    var o, m := s.members, v.members[i];
    assert Get(Properties(o), m.key) == PropertySchema(o, m.key);
    var schema := MemberSchema(Properties(o), Additional(o), m.key);
    if schema.Some? { FitsAtHeight(m.val, v, schema.value, comps); }
  }

  lemma MembersExact(v: Json, s: Json, comps: Components)
    requires s.Obj? && v.Obj?
    ensures MembersFit(v, s, comps, Height(v, comps)) <==> MembersHold(v, s.members, comps)
  {
    forall i | 0 <= i < |v.members|
      ensures MemberFits(v, i, s, comps, Height(v, comps)) <==> MemberHolds(v.members[i], s.members, comps) {
      MemberExact(v, i, s, comps);
    }
  }

  lemma RequiredExact(v: Json, o: seq<Member>)
    requires v.Obj?
    ensures NothingRequired(v.members, Required(o)) <==> RequiredHolds(v, o)
  {
    forall key ensures Has(v.members, key) <==> exists k :: 0 <= k < |v.members| && v.members[k].key == key {}
  }

  lemma PlainExact(v: Json, o: seq<Member>)
    ensures (Has(o, "const") ==> Equal(v, Get(o, "const").value)) <==> ConstHolds(v, o)
    ensures (AsArray(Get(o, "enum")).Some? ==> InEnum(v, AsArray(Get(o, "enum")).value)) <==> EnumHolds(v, o)
    ensures (Has(o, "type") ==> TypeOk(Get(o, "type").value, v)) <==> TypeHolds(v, o)
  {
    if Has(o, "type") { TypesExact(v, Get(o, "type").value); }
  }

  lemma BranchesExact(v: Json, s: Json, comps: Components)
    requires s.Obj?
    ensures var n := Height(v, comps);
            EveryBranch(v, s, comps, n) && SomeBranch(v, s, "anyOf", comps, n) && SomeBranch(v, s, "oneOf", comps, n) <==>
            AllOfHolds(v, s.members, comps) && AnyOfHolds(v, s.members, comps) && OneOfHolds(v, s.members, comps)
  {
    AllOfExact(v, s, comps);
    UnionExact(v, s, "anyOf", comps);
    UnionExact(v, s, "oneOf", comps);
  }

  lemma ChildrenExact(v: Json, s: Json, comps: Components)
    requires s.Obj?
    ensures var n := Height(v, comps);
            (v.Arr? ==> ItemsFit(v, s, comps, n)) && (v.Obj? ==> NothingRequired(v.members, Required(s.members)) && MembersFit(v, s, comps, n)) <==>
            ItemsHold(v, s.members, comps) && RequiredHolds(v, s.members) && MembersHold(v, s.members, comps)
  {
    if v.Arr? { ItemsExact(v, s, comps); }
    if v.Obj? {
      MembersExact(v, s, comps);
      RequiredExact(v, s.members);
    }
  }

  lemma KeywordsExact(v: Json, s: Json, comps: Components)
    requires s.Obj?
    ensures KeywordsFit(v, s, comps, Height(v, comps)) <==> KeywordsHold(v, s.members, comps)
  {
    PlainExact(v, s.members);
    BranchesExact(v, s, comps);
    ChildrenExact(v, s, comps);
  }

  // ---- The keywords of a schema, and its reference ---------------------------------------------------

  /** A value fits a schema without a reference exactly if it meets each keyword of it. */
  lemma FitsKeywords(v: Json, o: seq<Member>, comps: Components)
    requires match Get(o, "$ref") case Some(Str(_)) => false case _ => true
    ensures Fits(v, Obj(o), comps) <==> KeywordsHold(v, o, comps)
  {
    var s := Obj(o);
    FitsAtHeight(v, v, s, comps);
    KeywordsExact(v, s, comps);
    assert Accepts(v, s, comps, Height(v, comps)) <==> KeywordsFit(v, s, comps, Height(v, comps));
  }

  /** A value fits a reference exactly if it names a component and the value fits that; nothing beside it counts. */
  lemma FitsReference(v: Json, o: seq<Member>, reference: string, comps: Components)
    requires Get(o, "$ref") == Some(Str(reference))
    ensures Fits(v, Obj(o), comps) <==>
            exists name :: name in comps && ComponentRefName(reference) == Some(name) && Fits(v, comps[name], comps)
  {
    if Fits(v, Obj(o), comps) {
      var n: nat :| Accepts(v, Obj(o), comps, n);
      var name := Resolve(reference, comps).value;
      assert Accepts(v, comps[name], comps, n - 1);
    }
    if name :| name in comps && ComponentRefName(reference) == Some(name) && Fits(v, comps[name], comps) {
      var n: nat :| Accepts(v, comps[name], comps, n);
      assert Accepts(v, Obj(o), comps, n + 1);
    }
  }

  /** The boolean schemas accept everything and nothing; what is no schema accepts nothing. */
  lemma FitsNoObject(v: Json, s: Json, comps: Components)
    requires !s.Obj?
    ensures Fits(v, s, comps) <==> s == Bool(true)
  {
    if s == Bool(true) { assert Accepts(v, s, comps, 0); }
  }

  /** Components that refer to each other alone accept nothing. */
  lemma {:induction false} LoopFitsNothing(v: Json, a: string, b: string, comps: Components, n: nat)
    requires a in comps && b in comps
    requires comps[a] == Obj([Member("$ref", Str(ComponentRef(b)))]) && comps[b] == Obj([Member("$ref", Str(ComponentRef(a)))])
    ensures !Accepts(v, comps[a], comps, n) && !Accepts(v, comps[b], comps, n)
  {
    ComponentRefRoundTrip(a);
    ComponentRefRoundTrip(b);
    if n > 0 { LoopFitsNothing(v, a, b, comps, n - 1); }
  }
}
