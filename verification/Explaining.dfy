/** The walker that explains why a value does not match a schema. */
module Explaining {
  import opened Options
  import opened Pointers
  import opened StableKeys

  datatype Primitive = NullType | BooleanType | NumberType | IntegerType | StringType

  datatype Property = Property(name: string, schema: Schema)

  /** `Union` is `anyOf` or `oneOf`, `Other` any shape that the walker does not know. */
  datatype Schema =
    | True
    | False
    | Ref(ref: string)
    | Const(value: Js)
    | Enum(values: seq<Js>)
    | Union(branches: seq<Schema>)
    | Typed(typ: Primitive)
    | ArrayOf(prefix: seq<Schema>, items: Option<Schema>)
    | ObjectOf(properties: seq<Property>, required: seq<string>, additional: Schema)
    | Other

  /** Why a value does not match, with the part of the schema that says so. */
  datatype Reason =
    | NoValueValid | UnresolvedRef(ref: string) | ExpectedConst(expected: Js) | ExpectedEnum(options: seq<Js>)
    | NoBranch | ExpectedType(typ: Primitive) | ExpectedObject | Missing | UnknownProperty(known: seq<Property>)
    | ExpectedArray | ExtraElement(length: nat) | ExpectedLength(length: nat) | Vague

  datatype Issue = Issue(path: string, reason: Reason)

  type Components = map<string, Schema>

  const REF_PREFIX := "#/components/schemas/"

  /** A component that is the schema `false` counts as unresolved. */
  function Resolve(ref: string, cs: Components): Option<Schema> {
    if |ref| < |REF_PREFIX| || ref[..|REF_PREFIX|] != REF_PREFIX || ref[|REF_PREFIX|..] !in cs || cs[ref[|REF_PREFIX|..]] == False
    then None
    else Some(cs[ref[|REF_PREFIX|..]])
  }

  function FindProperty(properties: seq<Property>, name: string): (r: Option<nat>)
    ensures r.Some? ==> r.value < |properties| && properties[r.value].name == name
    ensures r.None? ==> forall i :: 0 <= i < |properties| ==> properties[i].name != name
  {
    if properties == [] then None
    else if properties[0].name == name then Some(0)
    else
      var rest := FindProperty(properties[1..], name);
      if rest.Some? then Some(rest.value + 1) else None
  }

  predicate HasOwn(es: seq<Entry>, key: string) {
    exists i :: 0 <= i < |es| && es[i].key == key
  }

  /** `Number.isInteger`, by the canonical numeral: exponents are positive from 1e21 on only. */
  predicate IsIntegral(text: string) {
    '+' in text || ('.' !in text && 'e' !in text)
  }

  predicate HasType(v: Js, typ: Primitive) {
    match typ
    case NullType => v.Null?
    case BooleanType => v.Bool?
    case NumberType => v.Num?
    case IntegerType => v.Num? && IsIntegral(v.text)
    case StringType => v.Str?
  }

  // ---- Paths --------------------------------------------------------------------------

  predicate IsWordChar(c: char) {
    IsDigit(c) || 'a' <= c <= 'z' || 'A' <= c <= 'Z' || c == '_'
  }

  predicate IsIdentifier(key: string) {
    key != "" && !IsDigit(key[0]) && forall i :: 0 <= i < |key| ==> IsWordChar(key[i]) || key[i] == '$'
  }

  function JoinKey(parent: string, key: string): string {
    if IsIdentifier(key) then parent + "." + key else parent + "[" + Quote(key) + "]"
  }

  function JoinIndex(parent: string, i: nat): string {
    parent + "[" + Decimal(i) + "]"
  }

  function OrRoot(path: string): string {
    if path == "" then "(root)" else path
  }

  // ---- The issues of a value -------------------------------------------------------------

  function One(path: string, reason: Reason): Option<seq<Issue>> {
    Some([Issue(path, reason)])
  }

  function If(bad: bool, path: string, reason: Reason): Option<seq<Issue>> {
    if bad then One(path, reason) else Some([])
  }

  /** A walk that does not come to an end yields nothing. */
  function Then(first: Option<seq<Issue>>, second: Option<seq<Issue>>): Option<seq<Issue>> {
    if first.None? || second.None? then None else Some(first.value + second.value)
  }

  /** The issues in the order they are found; none if more than `fuel` references would have to be followed
      on one branch. */
  function Walk(v: Js, s: Schema, path: string, cs: Components, fuel: nat): Option<seq<Issue>>
    decreases fuel, s, 2, 0
  {
    match s
    case True => Some([])
    case False => One(path, NoValueValid)
    case Ref(ref) =>
      var target := Resolve(ref, cs);
      if target.None? then One(path, UnresolvedRef(ref))
      else if fuel == 0 then None
      else Walk(v, target.value, path, cs, fuel - 1)
    case Const(c) => If(Print(v) != Print(c), path, ExpectedConst(c))
    case Enum(values) => If(forall i :: 0 <= i < |values| ==> Print(v) != Print(values[i]), path, ExpectedEnum(values))
    case Union(branches) => WalkBranches(v, branches, path, cs, fuel, None)
    case Typed(typ) => If(!HasType(v, typ), path, ExpectedType(typ))
    case ArrayOf(prefix, items) =>
      if !v.Arr? then One(OrRoot(path), ExpectedArray)
      else Then(WalkItems(v.items, 0, s, path, cs, fuel),
                If(|v.items| < |prefix| && items == Some(False), OrRoot(path), ExpectedLength(|prefix|)))
    case ObjectOf(properties, required, additional) =>
      if !v.Obj? then One(OrRoot(path), ExpectedObject)
      else Then(Some(MissingIssues(v.entries, required, path)), WalkMembers(v.entries, s, path, cs, fuel))
    case Other => One(path, Vague)
  }

  /** The first branch that matches ends the walk; otherwise the first of those with the fewest issues is kept. */
  function WalkBranches(v: Js, branches: seq<Schema>, path: string, cs: Components, fuel: nat, best: Option<seq<Issue>>): Option<seq<Issue>>
    decreases fuel, branches, 2, 0
  {
    if branches == [] then if best.Some? then best else One(path, NoBranch)
    else
      var sub := Walk(v, branches[0], path, cs, fuel);
      if sub.None? || sub.value == [] then sub
      else WalkBranches(v, branches[1..], path, cs, fuel, if best.None? || |sub.value| < |best.value| then sub else best)
  }

  function WalkItems(items: seq<Js>, i: nat, s: Schema, path: string, cs: Components, fuel: nat): Option<seq<Issue>>
    requires s.ArrayOf? && i <= |items|
    decreases fuel, s, 1, |items| - i
  {
    if i == |items| then Some([])
    else Then(WalkItem(items[i], i, s, path, cs, fuel), WalkItems(items, i + 1, s, path, cs, fuel))
  }

  function WalkItem(v: Js, i: nat, s: Schema, path: string, cs: Components, fuel: nat): Option<seq<Issue>>
    requires s.ArrayOf?
    decreases fuel, s, 0, 0
  {
    if i < |s.prefix| then Walk(v, s.prefix[i], JoinIndex(path, i), cs, fuel)
    else if s.items == Some(False) then One(JoinIndex(path, i), ExtraElement(|s.prefix|))
    else if s.items.Some? then Walk(v, s.items.value, JoinIndex(path, i), cs, fuel)
    else Some([])
  }

  function MissingIssues(es: seq<Entry>, required: seq<string>, path: string): seq<Issue> {
    if required == [] then []
    else (if HasOwn(es, required[0]) then [] else [Issue(JoinKey(path, required[0]), Missing)]) + MissingIssues(es, required[1..], path)
  }

  function WalkMembers(es: seq<Entry>, s: Schema, path: string, cs: Components, fuel: nat): Option<seq<Issue>>
    requires s.ObjectOf?
    decreases fuel, s, 1, |es|
  {
    if es == [] then Some([])
    else Then(WalkMember(es[0], s, path, cs, fuel), WalkMembers(es[1..], s, path, cs, fuel))
  }

  function WalkMember(e: Entry, s: Schema, path: string, cs: Components, fuel: nat): Option<seq<Issue>>
    requires s.ObjectOf?
    decreases fuel, s, 0, 0
  {
    var p := JoinKey(path, e.key);
    var property := FindProperty(s.properties, e.key);
    if property.Some? then Walk(e.val, s.properties[property.value].schema, p, cs, fuel)
    else if s.additional == False then One(p, UnknownProperty(s.properties))
    else Walk(e.val, s.additional, p, cs, fuel)
  }

  // ---- What matching means ------------------------------------------------------------------

  /** The value matches the schema, following at most `fuel` references on a branch. */
  ghost predicate Matches(v: Js, s: Schema, cs: Components, fuel: nat)
    decreases fuel, s
  {
    match s
    case True => true
    case False => false
    case Ref(ref) => Resolve(ref, cs).Some? && fuel > 0 && Matches(v, Resolve(ref, cs).value, cs, fuel - 1)
    case Const(c) => Print(v) == Print(c)
    case Enum(values) => exists i :: 0 <= i < |values| && Print(v) == Print(values[i])
    case Union(branches) => exists i :: 0 <= i < |branches| && Matches(v, branches[i], cs, fuel)
    case Typed(typ) => HasType(v, typ)
    case ArrayOf(prefix, items) =>
      && v.Arr? && (items == Some(False) ==> |v.items| == |prefix|)
      && (forall i :: 0 <= i < |v.items| && i < |prefix| ==> Matches(v.items[i], prefix[i], cs, fuel))
      && (items.Some? ==> forall i :: |prefix| <= i < |v.items| ==> Matches(v.items[i], items.value, cs, fuel))
    case ObjectOf(properties, required, additional) =>
      && v.Obj?
      && (forall i :: 0 <= i < |required| ==> HasOwn(v.entries, required[i]))
      && (forall i :: 0 <= i < |v.entries| ==>
            var at := FindProperty(properties, v.entries[i].key);
            if at.Some? then Matches(v.entries[i].val, properties[at.value].schema, cs, fuel)
            else Matches(v.entries[i].val, additional, cs, fuel))
    case Other => false
  }
}
