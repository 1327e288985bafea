/** JSON values as serde_json holds them with `preserve_order`: an object is an
    ordered list of members whose keys are distinct, and equality ignores the order. */
module JsonValues {
  import opened Options

  /** serde_json keeps integers and finite floats apart, so `1` and `1.0` differ. */
  datatype Number = Int(i: int) | Float(r: real)

  datatype Json =
    | Null
    | Bool(b: bool)
    | Num(n: Number)
    | Str(s: string)
    | Arr(items: seq<Json>)
    | Obj(members: seq<Member>)

  datatype Member = Member(key: string, val: Json)

  function Get(ms: seq<Member>, key: string): (r: Option<Json>)
    ensures r.Some? ==> exists i :: 0 <= i < |ms| && ms[i].key == key && ms[i].val == r.value
    ensures r.None? ==> forall i :: 0 <= i < |ms| ==> ms[i].key != key
  {
    if ms == [] then None
    else if ms[0].key == key then Some(ms[0].val)
    else Get(ms[1..], key)
  }

  predicate Has(ms: seq<Member>, key: string) {
    Get(ms, key).Some?
  }

  /** `Value::get` on a value that may not be an object. */
  function Field(v: Json, key: string): Option<Json> {
    if v.Obj? then Get(v.members, key) else None
  }

  function AsArray(v: Option<Json>): Option<seq<Json>> {
    if v.Some? && v.value.Arr? then Some(v.value.items) else None
  }

  function AsStr(v: Option<Json>): Option<string> {
    if v.Some? && v.value.Str? then Some(v.value.s) else None
  }

  predicate DistinctKeys(ms: seq<Member>) {
    forall i, j :: 0 <= i < j < |ms| ==> ms[i].key != ms[j].key
  }

  /** Keys are distinct at every depth, which serde_json's maps guarantee. */
  predicate WellFormed(v: Json) {
    match v
    case Arr(items) => forall i :: 0 <= i < |items| ==> WellFormed(items[i])
    case Obj(ms) => DistinctKeys(ms) && forall i :: 0 <= i < |ms| ==> WellFormed(ms[i].val)
    case _ => true
  }

  /** serde_json equality: member order does not count, number representation does. */
  predicate Equal(a: Json, b: Json)
    decreases a
  {
    match (a, b)
    case (Arr(xs), Arr(ys)) => |xs| == |ys| && forall i :: 0 <= i < |xs| ==> Equal(xs[i], ys[i])
    case (Obj(ms), Obj(ns)) =>
      |ms| == |ns| &&
      forall i :: 0 <= i < |ms| ==> Has(ns, ms[i].key) && Equal(ms[i].val, Get(ns, ms[i].key).value)
    case _ => a == b
  }

  lemma GetAt(ms: seq<Member>, i: nat)
    requires i < |ms| && DistinctKeys(ms)
    ensures Get(ms, ms[i].key) == Some(ms[i].val)
  {
  }

  lemma {:induction false} EqualReflexive(v: Json)
    requires WellFormed(v)
    ensures Equal(v, v)
    decreases v
  {
    match v
    case Arr(items) =>
      forall i | 0 <= i < |items| ensures Equal(items[i], items[i]) { EqualReflexive(items[i]); }
    case Obj(ms) =>
      forall i | 0 <= i < |ms| ensures Has(ms, ms[i].key) && Equal(ms[i].val, Get(ms, ms[i].key).value) {
        GetAt(ms, i);
        EqualReflexive(ms[i].val);
      }
    case _ =>
  }
}
