/** The nodes of a value and their JSON Pointers (evaluation as in sections 3 and 4 of RFC 6901). */
module NodePointers {
  import opened Options
  import opened JsonValues
  import opened Pointers

  // ---- Nodes -------------------------------------------------------------------

  function Child(v: Json, seg: Seg): Option<Json> {
    match seg
    case Index(i) => if v.Arr? && i < |v.items| then Some(v.items[i]) else None
    case Key(k) => Field(v, k)
  }

  function Reach(v: Json, node: Node): Option<Json> {
    if node == [] then Some(v)
    else
      var c := Child(v, node[0]);
      if c.None? then None else Reach(c.value, node[1..])
  }

  lemma {:induction false} ReachPush(v: Json, node: Node, seg: Seg)
    ensures Reach(v, node + [seg]) ==
            if Reach(v, node).None? then None else Child(Reach(v, node).value, seg)
  {
    if node == [] {
      assert (node + [seg])[1..] == [];
    } else {
      assert (node + [seg])[1..] == node[1..] + [seg];
      var c := Child(v, node[0]);
      if c.Some? { ReachPush(c.value, node[1..], seg); }
    }
  }

  // ---- JSON Pointer evaluation ---------------------------------------------------

  /** The part of a pointer before its next separator. */
  function FirstToken(s: string): string {
    if s == "" || s[0] == '/' then "" else [s[0]] + FirstToken(s[1..])
  }

  predicate IsArrayIndex(token: string) {
    token != "" && (forall i :: 0 <= i < |token| ==> IsDigit(token[i])) && (|token| > 1 ==> token[0] != '0')
  }

  function Lookup(v: Json, token: string): Option<Json> {
    match v
    case Obj(ms) => Get(ms, token)
    case Arr(items) =>
      if IsArrayIndex(token) && ParseDecimal(token) < |items| then Some(items[ParseDecimal(token)]) else None
    case _ => None
  }

  function EvalPointer(v: Json, path: string): (r: Option<Json>)
    decreases |path|
  {
    if path == "" then Some(v)
    else if path[0] != '/' then None
    else
      TokenFits(path[1..]);
      var token := FirstToken(path[1..]);
      var key := Unescape(token);
      var c := if key.None? then None else Lookup(v, key.value);
      if c.None? then None else EvalPointer(c.value, path[1 + |token|..])
  }

  lemma TokenFits(s: string)
    ensures |FirstToken(s)| <= |s|
  {
  }

  lemma {:induction false} FirstTokenOf(token: string, rest: string)
    requires '/' !in token && (rest == "" || rest[0] == '/')
    ensures FirstToken(token + rest) == token
  {
    if token == "" {
      assert token + rest == rest;
    } else {
      assert (token + rest)[1..] == token[1..] + rest;
      FirstTokenOf(token[1..], rest);
    }
  }

  lemma Associate<T>(a: seq<T>, b: seq<T>, c: seq<T>)
    ensures (a + b) + c == a + (b + c)
  {
  }

  lemma ConsPush(seg: Seg, node: Node, last: Seg)
    requires Pointer([seg] + node) == "/" + Escape(Token(seg)) + Pointer(node)
    ensures Pointer(([seg] + node) + [last]) == "/" + Escape(Token(seg)) + Pointer(node + [last])
  {
    PointerPush([seg] + node, last);
    PointerPush(node, last);
    Regroup("/" + Escape(Token(seg)), Pointer(node), "/", Escape(Token(last)));
  }

  lemma {:induction false} PointerCons(seg: Seg, node: Node)
    ensures Pointer([seg] + node) == "/" + Escape(Token(seg)) + Pointer(node)
    ensures Pointer(node) == "" || Pointer(node)[0] == '/'
  {
    PointerStarts(node);
    if node == [] {
      PointerOne(seg, node);
    } else {
      var init, last := node[..|node| - 1], node[|node| - 1];
      PointerCons(seg, init);
      ConsPush(seg, init, last);
      LastSeg(seg, node, init, last);
    }
  }

  lemma LastSeg(seg: Seg, node: Node, init: Node, last: Seg)
    requires node != [] && init == node[..|node| - 1] && last == node[|node| - 1]
    ensures init + [last] == node && ([seg] + init) + [last] == [seg] + node
  {
  }

  lemma PointerOne(seg: Seg, node: Node)
    requires node == []
    ensures Pointer([seg] + node) == "/" + Escape(Token(seg)) + Pointer(node)
  {
    assert [seg] + node == [] + [seg];
    PointerPush([], seg);
  }

  lemma {:induction false} PointerStarts(node: Node)
    ensures Pointer(node) == "" || Pointer(node)[0] == '/'
  {
    if node != [] { PointerStarts(node[..|node| - 1]); }
  }

  lemma Regroup(a: string, b: string, c: string, d: string)
    ensures a + b + c + d == a + (b + c + d)
  {
  }

  lemma DecimalIsIndex(i: nat)
    ensures IsArrayIndex(Decimal(i)) && ParseDecimal(Decimal(i)) == i
  {
    DecimalRoundTrip(i);
  }

  /** A segment that leads somewhere is looked up by its token. */
  lemma TokenLeads(v: Json, seg: Seg)
    requires Child(v, seg).Some?
    ensures Lookup(v, Token(seg)) == Child(v, seg)
  {
    if seg.Index? { DecimalIsIndex(seg.i); }
  }

  /** The pointer of a node evaluates to the node. */
  lemma {:induction false} PointerReaches(v: Json, node: Node)
    requires Reach(v, node).Some?
    ensures EvalPointer(v, Pointer(node)) == Reach(v, node)
  {
    if node != [] {
      var seg, rest := node[0], node[1..];
      assert node == [seg] + rest;
      TokenLeads(v, seg);
      PointerReaches(Child(v, seg).value, rest);
      PointerAdvances(v, seg, rest);
    }
  }

  lemma EvalToken(v: Json, token: string, rest: string)
    requires '/' !in token && (rest == "" || rest[0] == '/')
    ensures var key := Unescape(token);
            EvalPointer(v, "/" + token + rest) ==
            if key.None? || Lookup(v, key.value).None? then None else EvalPointer(Lookup(v, key.value).value, rest)
  {
    var path := "/" + token + rest;
    FirstTokenOf(token, rest);
    assert path[1..] == token + rest;
    assert path[1 + |token|..] == rest;
  }

  lemma PointerAdvances(v: Json, seg: Seg, rest: Node)
    ensures var c := Lookup(v, Token(seg));
            EvalPointer(v, Pointer([seg] + rest)) == if c.None? then None else EvalPointer(c.value, Pointer(rest))
  {
    PointerCons(seg, rest);
    EscapeRoundTrip(Token(seg));
    EvalToken(v, Escape(Token(seg)), Pointer(rest));
  }

  /** The pointer of an absent member evaluates to nothing. */
  lemma {:induction false} PointerMisses(v: Json, node: Node, key: string)
    requires Reach(v, node).Some? && Reach(v, node).value.Obj? && !Has(Reach(v, node).value.members, key)
    ensures EvalPointer(v, Pointer(node + [Key(key)])) == None
  {
    if node == [] {
      assert node + [Key(key)] == [Key(key)] + [];
      PointerAdvances(v, Key(key), []);
    } else {
      var seg, rest := node[0], node[1..];
      assert node + [Key(key)] == [seg] + (rest + [Key(key)]);
      TokenLeads(v, seg);
      PointerMisses(Child(v, seg).value, rest, key);
      PointerAdvances(v, seg, rest + [Key(key)]);
    }
  }

  lemma EscapeInjective(a: string, b: string)
    requires Escape(a) == Escape(b)
    ensures a == b
  {
    EscapeRoundTrip(a);
    EscapeRoundTrip(b);
  }

  /** A first token without separators is determined by the whole pointer. */
  lemma SplitToken(a: string, r: string, b: string, q: string)
    requires '/' !in a && '/' !in b && (r == "" || r[0] == '/') && (q == "" || q[0] == '/')
    requires "/" + a + r == "/" + b + q
    ensures a == b && r == q
  {
    assert ("/" + a + r)[1..] == a + r && ("/" + b + q)[1..] == b + q;
    FirstTokenOf(a, r);
    FirstTokenOf(b, q);
    assert (a + r)[|a|..] == r && (b + q)[|b|..] == q;
  }

  /** Different nodes of one value have different pointers. */
  lemma {:induction false} DistinctPointers(v: Json, m: Node, n: Node)
    requires Reach(v, m).Some? && Reach(v, n).Some? && Pointer(m) == Pointer(n)
    ensures m == n
  {
    if m != [] && n != [] {
      FirstSegs(v, m, n);
      DistinctPointers(Child(v, m[0]).value, m[1..], n[1..]);
      assert m == [m[0]] + m[1..] && n == [n[0]] + n[1..];
    }
  }

  lemma FirstSegs(v: Json, m: Node, n: Node)
    requires m != [] && n != [] && Pointer(m) == Pointer(n)
    requires Child(v, m[0]).Some? && Child(v, n[0]).Some?
    ensures m[0] == n[0] && Pointer(m[1..]) == Pointer(n[1..])
  {
    var a, b := Token(m[0]), Token(n[0]);
    assert m == [m[0]] + m[1..] && n == [n[0]] + n[1..];
    PointerCons(m[0], m[1..]);
    PointerCons(n[0], n[1..]);
    SplitPointer(a, Pointer(m[1..]), b, Pointer(n[1..]));
    SegsByToken(v, m[0], n[0]);
  }

  lemma SplitPointer(a: string, r: string, b: string, q: string)
    requires (r == "" || r[0] == '/') && (q == "" || q[0] == '/')
    requires "/" + Escape(a) + r == "/" + Escape(b) + q
    ensures a == b && r == q
  {
    EscapeRoundTrip(a);
    EscapeRoundTrip(b);
    SplitToken(Escape(a), r, Escape(b), q);
    EscapeInjective(a, b);
  }

  /** Children of one value with the same token are the same child. */
  lemma SegsByToken(v: Json, s: Seg, t: Seg)
    requires Child(v, s).Some? && Child(v, t).Some? && Token(s) == Token(t)
    ensures s == t
  {
    if s.Index? { DecimalInjective(s.i, t.i); }
  }
}
