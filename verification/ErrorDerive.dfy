/** The declaration checks of the error derive: what it accepts, and that an accepted
    enum yields a contract on which the codec's round trips hold. */
module ErrorDerive {
  import opened Options
  import opened JsonValues
  import opened Pointers
  import opened ErrorCodec

  /** The fields of a variant; `RawBody` says whether named fields are `message: String` and at most `data`. */
  datatype Shape = Unit | Payload(schema: Json) | RawBody(allowed: bool, fields: Json) | Tuple

  datatype Declaration = Declaration(
    ident: string,
    code: Option<int>,
    message: Option<string>,
    name: Option<string>,
    raw: bool,
    shape: Shape)

  datatype Failure =
    | RawNeedsCode
    | RawCodeTaken
    | MissingMessage
    | ReservedCode
    | EmptyName
    | DuplicateName
    | BadShape

  datatype Expanded = Accepted(variants: seq<Variant>) | Refused(failure: Failure)

  predicate Reserved(code: int) {
    -32768 <= code <= -32000 || code == -32800
  }

  function CodeOf(d: Declaration): int {
    d.code.GetOr(1)
  }

  function NameOf(d: Declaration): string {
    d.name.GetOr(d.ident)
  }

  predicate ShapeAllowed(d: Declaration) {
    match d.shape
    case Unit => !d.raw
    case Payload(_) => true
    case RawBody(allowed, _) => d.raw ==> allowed
    case Tuple => false
  }

  function PayloadOf(d: Declaration): Option<Json> {
    match d.shape
    case Payload(schema) => Some(schema)
    case RawBody(_, fields) => Some(fields)
    case _ => None
  }

  /** What the derive demands of one declaration. */
  predicate Proper(d: Declaration, imported: bool) {
    && (d.raw ==> d.code.Some? && d.message.None? && d.name.None?)
    && (!d.raw ==> d.message.Some? && (imported || !Reserved(CodeOf(d))))
    && NameOf(d) != ""
    && ShapeAllowed(d)
  }

  /** What it demands of two declarations: a raw code is not shared, given names differ. */
  predicate Compatible(d: Declaration, e: Declaration) {
    && (d.raw || e.raw ==> CodeOf(d) != CodeOf(e))
    && (!d.raw && !e.raw ==> NameOf(d) != NameOf(e))
  }

  predicate Declarable(ds: seq<Declaration>, imported: bool) {
    && (forall i :: 0 <= i < |ds| ==> Proper(ds[i], imported))
    && (forall i, j :: 0 <= i < j < |ds| ==> Compatible(ds[i], ds[j]))
  }

  function NamedTags(ds: seq<Declaration>): set<string> {
    set i | 0 <= i < |ds| && !ds[i].raw :: NameOf(ds[i])
  }

  /** `v` is what a declaration becomes: the code is 1 if none is given, and the name that of the variant. Only
      raw tags, which never leave the process, may be renamed. */
  ghost predicate Becomes(d: Declaration, v: Variant) {
    && v.code == (if d.code.Some? then d.code.value else 1)
    && v.raw == d.raw
    && v.payload == (match d.shape case Unit => None case Payload(schema) => Some(schema) case RawBody(_, fields) => Some(fields) case Tuple => None)
    && (if d.raw then v.message == "" && Renamed(d.ident, v.name)
        else d.message == Some(v.message) && v.name == if d.name.Some? then d.name.value else d.ident)
  }

  ghost predicate Renamed(base: string, name: string) {
    name == base || exists k: nat :: 2 <= k && name == base + Decimal(k)
  }

  // ---- What is refused, and why --------------------------------------------------------

  predicate CodeShared(ds: seq<Declaration>, i: nat)
    requires i < |ds|
  {
    exists j :: 0 <= j < i && CodeOf(ds[j]) == CodeOf(ds[i]) && (ds[j].raw || ds[i].raw)
  }

  predicate NameShared(ds: seq<Declaration>, i: nat)
    requires i < |ds|
  {
    !ds[i].raw && exists j :: 0 <= j < i && !ds[j].raw && NameOf(ds[j]) == NameOf(ds[i])
  }

  /** The first fault of a declaration whose code is its own; `duplicate` says whether its name is taken. */
  function LaterFault(d: Declaration, imported: bool, duplicate: bool): Option<Failure> {
    var code := if d.code.Some? then d.code.value else 1;
    if !d.raw && d.message == None then Some(MissingMessage)
    else if !d.raw && !imported && (-32768 <= code <= -32000 || code == -32800) then Some(ReservedCode)
    else if !d.raw && (d.name == Some("") || (d.name == None && d.ident == "")) then Some(EmptyName)
    else if duplicate then Some(DuplicateName)
    else if d.shape.Tuple? || (d.raw && (d.shape.Unit? || (d.shape.RawBody? && !d.shape.allowed))) then Some(BadShape)
    else None
  }

  /** The first fault of declaration `i` after the ones before it. */
  function FaultAt(ds: seq<Declaration>, i: nat, imported: bool): Option<Failure>
    requires i < |ds|
  {
    var d := ds[i];
    if d.raw && (d.code == None || d.message != None || d.name != None) then Some(RawNeedsCode)
    else if CodeShared(ds, i) then Some(RawCodeTaken)
    else LaterFault(d, imported, NameShared(ds, i))
  }

  ghost predicate Faultless(ds: seq<Declaration>, k: nat, imported: bool)
    requires k <= |ds|
  {
    forall i :: 0 <= i < k ==> FaultAt(ds, i, imported) == None
  }

  /** The failure is the first fault of the first faulty declaration. */
  ghost predicate FirstFault(ds: seq<Declaration>, imported: bool, failure: Failure) {
    exists i :: 0 <= i < |ds| && FaultAt(ds, i, imported) == Some(failure) && Faultless(ds, i, imported)
  }

  // ---- Renaming a raw tag ends ---------------------------------------------------------

  function Suffixed(base: string, k: nat): string {
    base + Decimal(k)
  }

  function Tried(base: string, k: nat): set<string> {
    {base} + set i | 2 <= i < k :: Suffixed(base, i)
  }

  lemma TriedGrows(base: string, k: nat)
    requires k >= 2
    ensures Suffixed(base, k) !in Tried(base, k)
    ensures Tried(base, k + 1) == Tried(base, k) + {Suffixed(base, k)}
  {
    assert |Suffixed(base, k)| > |base|;
    forall i: nat | 2 <= i < k ensures Suffixed(base, i) != Suffixed(base, k) {
      if Suffixed(base, i) == Suffixed(base, k) {
        assert Suffixed(base, i)[|base|..] == Decimal(i) && Suffixed(base, k)[|base|..] == Decimal(k);
        DecimalInjective(i, k);
      }
    }
  }

  /** The first free name: the base, or the base with a suffix from 2 on. */
  method FreshTag(base: string, taken: set<string>) returns (name: string)
    ensures name !in taken
    ensures name == base || exists k: nat :: 2 <= k && name == Suffixed(base, k) && Tried(base, k) <= taken
    ensures base !in taken ==> name == base
    ensures Renamed(base, name)
  {
    name := base;
    var suffix: nat := 2;
    assert Tried(base, 2) == {base};
    ghost var tried: set<string> := {};
    while name in taken
      invariant suffix >= 2
      invariant tried <= taken
      invariant suffix == 2 ==> name == base && tried == {}
      invariant suffix > 2 ==> name == Suffixed(base, suffix - 1) && tried == Tried(base, suffix - 1)
      decreases taken - tried
    {
      ghost var before := tried;
      if suffix == 2 {
        tried := {base};
      } else {
        TriedGrows(base, suffix - 1);
        tried := Tried(base, suffix);
      }
      assert name in tried && name !in before;
      name := Suffixed(base, suffix);
      suffix := suffix + 1;
    }
  }

  // ---- The loop over the declarations ------------------------------------------------------

  ghost predicate CodesKnown(ds: seq<Declaration>, k: nat, codes: map<int, bool>)
    requires k <= |ds|
  {
    && (forall c :: c in codes ==> exists i :: 0 <= i < k && CodeOf(ds[i]) == c)
    && (forall i :: 0 <= i < k ==> CodeOf(ds[i]) in codes && codes[CodeOf(ds[i])] == ds[i].raw)
  }

  ghost predicate NamesKnown(ds: seq<Declaration>, vs: seq<Variant>, tags: set<string>, seen: set<string>)
    requires |vs| <= |ds|
  {
    && NamedTags(ds) <= tags && seen <= tags
    && (forall n :: n in seen ==> exists i :: 0 <= i < |vs| && vs[i].name == n)
    && (forall i :: 0 <= i < |vs| ==> vs[i].name in seen)
    && (forall i :: 0 <= i < |vs| && ds[i].raw ==> vs[i].name !in NamedTags(ds))
  }

  /** The first declarations were accepted as `vs`. */
  ghost predicate AcceptedSoFar(ds: seq<Declaration>, vs: seq<Variant>, imported: bool)
    requires |vs| <= |ds|
  {
    && (forall i :: 0 <= i < |vs| ==> Becomes(ds[i], vs[i]) && Proper(ds[i], imported))
    && (forall i, j :: 0 <= i < j < |vs| ==> Compatible(ds[i], ds[j]) && vs[i].name != vs[j].name)
  }

  ghost predicate Progress(
    ds: seq<Declaration>, imported: bool, vs: seq<Variant>, tags: set<string>, codes: map<int, bool>, seen: set<string>)
    requires |vs| <= |ds|
  {
    AcceptedSoFar(ds, vs, imported) && CodesKnown(ds, |vs|, codes) && NamesKnown(ds, vs, tags, seen)
  }

  predicate CodeConflict(d: Declaration, codes: map<int, bool>) {
    CodeOf(d) in codes && (d.raw || codes[CodeOf(d)])
  }

  lemma ExtendAccepted(ds: seq<Declaration>, imported: bool, vs: seq<Variant>, codes: map<int, bool>, seen: set<string>, v: Variant)
    requires |vs| < |ds| && AcceptedSoFar(ds, vs, imported) && CodesKnown(ds, |vs|, codes)
    requires forall i :: 0 <= i < |vs| ==> vs[i].name in seen
    requires Proper(ds[|vs|], imported) && Becomes(ds[|vs|], v) && !CodeConflict(ds[|vs|], codes) && v.name !in seen
    ensures AcceptedSoFar(ds, vs + [v], imported)
  {
    forall i | 0 <= i < |vs| ensures Compatible(ds[i], ds[|vs|]) && vs[i].name != v.name {
      assert Becomes(ds[i], vs[i]);
      NextCompatible(ds[i], vs[i], ds[|vs|], v, codes);
    }
    ExtendWith(ds, imported, vs, v);
  }

  lemma NextCompatible(d: Declaration, w: Variant, e: Declaration, v: Variant, codes: map<int, bool>)
    requires Becomes(d, w) && Becomes(e, v) && w.name != v.name
    requires CodeOf(d) in codes && codes[CodeOf(d)] == d.raw && !CodeConflict(e, codes)
    ensures Compatible(d, e)
  {
  }

  lemma ExtendWith(ds: seq<Declaration>, imported: bool, vs: seq<Variant>, v: Variant)
    requires |vs| < |ds| && AcceptedSoFar(ds, vs, imported) && Proper(ds[|vs|], imported) && Becomes(ds[|vs|], v)
    requires forall i :: 0 <= i < |vs| ==> Compatible(ds[i], ds[|vs|]) && vs[i].name != v.name
    ensures AcceptedSoFar(ds, vs + [v], imported)
  {
    var more := vs + [v];
    forall i | 0 <= i < |more| ensures Becomes(ds[i], more[i]) && Proper(ds[i], imported) {
      if i < |vs| { assert more[i] == vs[i]; }
    }
    forall i, j | 0 <= i < j < |more| ensures Compatible(ds[i], ds[j]) && more[i].name != more[j].name {
      assert more[i] == vs[i];
      if j < |vs| { assert more[j] == vs[j]; }
    }
  }

  lemma ExtendCodes(ds: seq<Declaration>, k: nat, codes: map<int, bool>)
    requires k < |ds| && CodesKnown(ds, k, codes) && !CodeConflict(ds[k], codes)
    ensures CodesKnown(ds, k + 1, codes[CodeOf(ds[k]) := ds[k].raw])
  {
    var more := codes[CodeOf(ds[k]) := ds[k].raw];
    forall c: int | c in more.Keys ensures exists i :: 0 <= i < k + 1 && CodeOf(ds[i]) == c {
      if c == CodeOf(ds[k]) {
        assert k < k + 1;
      } else {
        var i :| 0 <= i < k && CodeOf(ds[i]) == c;
        assert i < k + 1;
      }
    }
  }

  lemma ExtendNames(ds: seq<Declaration>, vs: seq<Variant>, tags: set<string>, seen: set<string>, v: Variant)
    requires |vs| < |ds| && NamesKnown(ds, vs, tags, seen) && (ds[|vs|].raw ==> v.name !in tags)
    ensures NamesKnown(ds, vs + [v], tags + {v.name}, seen + {v.name})
  {
    forall n | n in seen + {v.name} ensures exists i :: 0 <= i < |vs + [v]| && (vs + [v])[i].name == n {
      if n == v.name {
        assert (vs + [v])[|vs|].name == n;
      } else {
        var i :| 0 <= i < |vs| && vs[i].name == n;
        assert (vs + [v])[i].name == n;
      }
    }
  }

  lemma SharedExactly(ds: seq<Declaration>, k: nat, codes: map<int, bool>)
    requires k < |ds| && CodesKnown(ds, k, codes)
    ensures CodeConflict(ds[k], codes) <==> CodeShared(ds, k)
  {
    if CodeConflict(ds[k], codes) {
      var j :| 0 <= j < k && CodeOf(ds[j]) == CodeOf(ds[k]);
      assert ds[j].raw || ds[k].raw;
    }
  }

  lemma SeenExactly(ds: seq<Declaration>, imported: bool, vs: seq<Variant>, tags: set<string>, seen: set<string>)
    requires |vs| < |ds| && NamesKnown(ds, vs, tags, seen) && AcceptedSoFar(ds, vs, imported)
    ensures !ds[|vs|].raw ==> (NameOf(ds[|vs|]) in seen <==> NameShared(ds, |vs|))
  {
    var d := ds[|vs|];
    if !d.raw && NameOf(d) in seen {
      var j :| 0 <= j < |vs| && vs[j].name == NameOf(d);
      assert NameOf(d) in NamedTags(ds);
      assert Becomes(ds[j], vs[j]) && !ds[j].raw;
      assert NameOf(ds[j]) == NameOf(d);
    }
    if NameShared(ds, |vs|) {
      var j :| 0 <= j < |vs| && !ds[j].raw && NameOf(ds[j]) == NameOf(d);
      assert Becomes(ds[j], vs[j]);
    }
  }

  /** A declaration has no fault exactly if it is proper and goes with all before it. */
  lemma FaultlessExactly(ds: seq<Declaration>, i: nat, imported: bool)
    requires i < |ds| && ds[i].ident != ""
    ensures FaultAt(ds, i, imported) == None <==> Proper(ds[i], imported) && forall j :: 0 <= j < i ==> Compatible(ds[j], ds[i])
  {
  }

  /** What is declarable is exactly what has no fault. */
  lemma DeclarableExactly(ds: seq<Declaration>, imported: bool)
    requires forall i :: 0 <= i < |ds| ==> ds[i].ident != ""
    ensures Declarable(ds, imported) <==> Faultless(ds, |ds|, imported)
  {
    forall i | 0 <= i < |ds|
      ensures FaultAt(ds, i, imported) == None <==> Proper(ds[i], imported) && forall j :: 0 <= j < i ==> Compatible(ds[j], ds[i]) {
      FaultlessExactly(ds, i, imported);
    }
  }

  /** The checks of one declaration after its code and tag are known. */
  method CheckOne(d: Declaration, imported: bool, name: string, seen: set<string>) returns (failure: Option<Failure>)
    requires d.raw ==> name != "" && d.code.Some? && d.message.None? && d.name.None? && d.ident != ""
    requires !d.raw ==> name == NameOf(d)
    ensures failure.None? <==> Proper(d, imported) && name !in seen
    ensures failure == LaterFault(d, imported, name in seen)
  {
    if !d.raw && d.message.None? { return Some(MissingMessage); }
    if !d.raw && !imported && Reserved(CodeOf(d)) { return Some(ReservedCode); }
    if name == "" { return Some(EmptyName); }
    if name in seen { return Some(DuplicateName); }
    if !ShapeAllowed(d) { return Some(BadShape); }
    return None;
  }

  predicate Admitted(d: Declaration, imported: bool, tags: set<string>, codes: map<int, bool>, seen: set<string>, v: Variant) {
    !CodeConflict(d, codes) && Proper(d, imported) && v.name !in seen && (d.raw ==> v.name !in tags)
  }

  lemma Extend(
    ds: seq<Declaration>, imported: bool, vs: seq<Variant>, tags: set<string>, codes: map<int, bool>, seen: set<string>, v: Variant)
    requires |vs| < |ds| && Progress(ds, imported, vs, tags, codes, seen)
    requires Admitted(ds[|vs|], imported, tags, codes, seen, v) && Becomes(ds[|vs|], v)
    ensures Progress(ds, imported, vs + [v], tags + {v.name}, codes[CodeOf(ds[|vs|]) := ds[|vs|].raw], seen + {v.name})
  {
    ExtendAccepted(ds, imported, vs, codes, seen, v);
    ExtendCodes(ds, |vs|, codes);
    ExtendNames(ds, vs, tags, seen, v);
  }

  /** All checks of the next declaration, and what it becomes; a raw tag may be renamed. */
  method Admit(ds: seq<Declaration>, imported: bool, vs: seq<Variant>, tags: set<string>, codes: map<int, bool>, seen: set<string>)
    returns (failure: Option<Failure>, v: Variant)
    requires |vs| < |ds| && Progress(ds, imported, vs, tags, codes, seen) && ds[|vs|].ident != ""
    ensures failure == FaultAt(ds, |vs|, imported)
    ensures failure.None? ==> Admitted(ds[|vs|], imported, tags, codes, seen, v) && Becomes(ds[|vs|], v)
  {
    var d := ds[|vs|];
    var name := NameOf(d);
    v := Variant(name, CodeOf(d), "", PayloadOf(d), d.raw);
    if d.raw && (d.code.None? || d.message.Some? || d.name.Some?) {
      return Some(RawNeedsCode), v;
    }
    SharedExactly(ds, |vs|, codes);
    if CodeConflict(d, codes) {
      return Some(RawCodeTaken), v;
    }
    if d.raw {
      name := FreshTag(name, tags);
    }
    SeenExactly(ds, imported, vs, tags, seen);
    failure := CheckOne(d, imported, name, seen);
    v := Variant(name, CodeOf(d), d.message.GetOr(""), PayloadOf(d), d.raw);
  }

  /** Identifiers are never empty; everything else is checked here. */
  method Expand(ds: seq<Declaration>, imported: bool) returns (expanded: Expanded)
    requires forall i :: 0 <= i < |ds| ==> ds[i].ident != ""
    ensures expanded.Accepted? <==> Declarable(ds, imported)
    ensures expanded.Refused? ==> FirstFault(ds, imported, expanded.failure)
    ensures expanded.Accepted? ==>
              |expanded.variants| == |ds| && Built(expanded.variants) &&
              forall i :: 0 <= i < |ds| ==> Becomes(ds[i], expanded.variants[i])
  {
    DeclarableExactly(ds, imported);
    var tags := NamedTags(ds);
    var codes: map<int, bool> := map[];
    var seen: set<string> := {};
    var vs: seq<Variant> := [];
    while |vs| < |ds|
      invariant |vs| <= |ds| && Progress(ds, imported, vs, tags, codes, seen) && Faultless(ds, |vs|, imported)
      decreases |ds| - |vs|
    {
      var d := ds[|vs|];
      var failure, v := Admit(ds, imported, vs, tags, codes, seen);
      if failure.Some? {
        return Refused(failure.value);
      }
      Extend(ds, imported, vs, tags, codes, seen, v);
      vs, tags, codes, seen := vs + [v], tags + {v.name}, codes[CodeOf(d) := d.raw], seen + {v.name};
    }
    RawHasBody(ds, vs, imported);
    expanded := Accepted(vs);
  }

  lemma RawHasBody(ds: seq<Declaration>, vs: seq<Variant>, imported: bool)
    requires |vs| == |ds| && AcceptedSoFar(ds, vs, imported)
    ensures Built(vs) && Declarable(ds, imported)
  {
    forall i | 0 <= i < |vs| && vs[i].raw ensures vs[i].payload.Some? {
      assert Becomes(ds[i], vs[i]) && Proper(ds[i], imported);
    }
    forall i, j | 0 <= i < |vs| && 0 <= j < |vs| && i != j && vs[i].raw ensures vs[i].code != vs[j].code {
      assert Becomes(ds[i], vs[i]) && Becomes(ds[j], vs[j]);
      assert if i < j then Compatible(ds[i], ds[j]) else Compatible(ds[j], ds[i]);
    }
  }
}
