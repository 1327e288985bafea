/** The paths of explained issues: they lead to the place that is wrong, and tell places apart. */
module ExplainingPaths {
  import opened Options
  import opened Pointers
  import opened StableKeys
  import opened Explaining
  import opened Lowering

  datatype Place = Member(key: string) | Element(i: nat)

  type Way = seq<Place>

  function Extend(path: string, p: Place): string {
    match p
    case Member(key) => JoinKey(path, key)
    case Element(i) => JoinIndex(path, i)
  }

  /** The path of a place. */
  function Render(way: Way): string {
    if way == [] then "" else Extend(Render(way[..|way| - 1]), way[|way| - 1])
  }

  lemma RenderPush(way: Way, p: Place)
    ensures Render(way + [p]) == Extend(Render(way), p)
  {
    assert (way + [p])[..|way|] == way;
  }

  // ---- Distinct places have distinct paths ------------------------------------------------------

  /** What a place adds to a path. */
  function Piece(p: Place): string {
    match p
    case Member(key) => if IsIdentifier(key) then "." + key else "[" + Quote(key) + "]"
    case Element(i) => "[" + Decimal(i) + "]"
  }

  function Pieces(way: Way): string {
    if way == [] then "" else Piece(way[0]) + Pieces(way[1..])
  }

  lemma Joined(a: string, b: string, c: string)
    ensures a + b + c == a + (b + c)
  {
  }

  lemma ExtendPiece(path: string, p: Place)
    ensures Extend(path, p) == path + Piece(p)
  {
    match p
    case Member(key) =>
      if !IsIdentifier(key) { assert path + "[" + Quote(key) + "]" == path + ("[" + Quote(key) + "]"); }
    case Element(i) => assert path + "[" + Decimal(i) + "]" == path + ("[" + Decimal(i) + "]");
  }

  lemma {:induction false} PiecesPush(way: Way, p: Place)
    ensures Pieces(way + [p]) == Pieces(way) + Piece(p)
  {
    if way != [] {
      assert (way + [p])[1..] == way[1..] + [p];
      PiecesPush(way[1..], p);
    } else {
      assert (way + [p])[1..] == [];
    }
  }

  lemma PushedPieces(way: Way, p: Place)
    requires Render(way) == Pieces(way)
    ensures Render(way + [p]) == Pieces(way + [p])
  {
    RenderPush(way, p);
    ExtendPiece(Render(way), p);
    PiecesPush(way, p);
  }

  lemma LastApart(way: Way)
    requires way != []
    ensures way[..|way| - 1] + [way[|way| - 1]] == way
  {
  }

  lemma {:induction false} RenderIsPieces(way: Way)
    ensures Render(way) == Pieces(way)
  {
    if way != [] {
      var init, last := way[..|way| - 1], way[|way| - 1];
      RenderIsPieces(init);
      PushedPieces(init, last);
      LastApart(way);
    }
  }

  /** Where the next piece starts, or the path ends. */
  predicate Starts(x: string) {
    x == "" || x[0] == '.' || x[0] == '['
  }

  lemma PiecesStart(way: Way)
    ensures Starts(Pieces(way)) && (Pieces(way) == "" <==> way == [])
  {
  }

  /** The part of a text before the first character outside `W`. */
  function Span(W: char -> bool, x: string): string {
    if x == "" || !W(x[0]) then "" else [x[0]] + Span(W, x[1..])
  }

  lemma {:induction false} SpanOf(W: char -> bool, s: string, x: string)
    requires (forall i :: 0 <= i < |s| ==> W(s[i])) && (x == "" || !W(x[0]))
    ensures Span(W, s + x) == s
  {
    if s == "" {
      assert s + x == x;
    } else {
      assert (s + x)[1..] == s[1..] + x;
      SpanOf(W, s[1..], x);
    }
  }

  lemma SpanPrefix(W: char -> bool, s: string, t: string, x: string, y: string)
    requires (forall i :: 0 <= i < |s| ==> W(s[i])) && (x == "" || !W(x[0]))
    requires (forall i :: 0 <= i < |t| ==> W(t[i])) && (y == "" || !W(y[0]))
    requires s + x == t + y
    ensures s == t && x == y
  {
    SpanOf(W, s, x);
    SpanOf(W, t, y);
    CutPrefix(s, x, y);
  }

  /** Named members, quoted members and elements look different. */
  predicate Named(p: Place) {
    p.Member? && IsIdentifier(p.key)
  }

  lemma PieceHead(p: Place, x: string)
    ensures |Piece(p) + x| >= 2
    ensures (Piece(p) + x)[0] == if Named(p) then '.' else '['
    ensures !Named(p) ==> ((Piece(p) + x)[1] == '"' <==> p.Member?)
  {
  }

  lemma NamedPrefix(k: string, l: string, x: string, y: string)
    requires IsIdentifier(k) && IsIdentifier(l) && Starts(x) && Starts(y) && "." + k + x == "." + l + y
    ensures k == l && x == y
  {
    Joined(".", k, x);
    Joined(".", l, y);
    CutPrefix(".", k + x, l + y);
    SpanPrefix(c => c != '.' && c != '[', k, l, x, y);
  }

  lemma QuotedKeyPrefix(k: string, l: string, x: string, y: string)
    requires "[" + Quote(k) + "]" + x == "[" + Quote(l) + "]" + y
    ensures k == l && x == y
  {
    Bracketed(Quote(k), x);
    Bracketed(Quote(l), y);
    CutPrefix("[", Quote(k) + ("]" + x), Quote(l) + ("]" + y));
    QuotedPrefix(k, l, "]" + x, "]" + y);
    CutPrefix("]", x, y);
  }

  lemma Bracketed(a: string, x: string)
    ensures "[" + a + "]" + x == "[" + (a + ("]" + x))
  {
  }

  lemma ElementPrefix(i: nat, j: nat, x: string, y: string)
    requires "[" + Decimal(i) + "]" + x == "[" + Decimal(j) + "]" + y
    ensures i == j && x == y
  {
    Bracketed(Decimal(i), x);
    Bracketed(Decimal(j), y);
    CutPrefix("[", Decimal(i) + ("]" + x), Decimal(j) + ("]" + y));
    SpanPrefix(c => IsDigit(c), Decimal(i), Decimal(j), "]" + x, "]" + y);
    DecimalInjective(i, j);
    CutPrefix("]", x, y);
  }

  lemma PiecePrefix(p: Place, q: Place, x: string, y: string)
    requires Starts(x) && Starts(y) && Piece(p) + x == Piece(q) + y
    ensures p == q && x == y
  {
    PieceHead(p, x);
    PieceHead(q, y);
    if Named(p) {
      NamedPrefix(p.key, q.key, x, y);
    } else if p.Member? {
      QuotedKeyPrefix(p.key, q.key, x, y);
    } else {
      ElementPrefix(p.i, q.i, x, y);
    }
  }

  lemma {:induction false} PiecesInjective(a: Way, b: Way)
    requires Pieces(a) == Pieces(b)
    ensures a == b
  {
    PiecesStart(a);
    PiecesStart(b);
    if a != [] && b != [] {
      PiecesStart(a[1..]);
      PiecesStart(b[1..]);
      PiecePrefix(a[0], b[0], Pieces(a[1..]), Pieces(b[1..]));
      PiecesInjective(a[1..], b[1..]);
      assert a == [a[0]] + a[1..] && b == [b[0]] + b[1..];
    }
  }

  /** Different places have different paths, and none is called `(root)`. */
  lemma PathsAreDistinct(a: Way, b: Way)
    ensures Render(a) == Render(b) <==> a == b
    ensures Render(a) != "(root)"
  {
    RenderIsPieces(a);
    RenderIsPieces(b);
    if Render(a) == Render(b) { PiecesInjective(a, b); }
    PiecesStart(a);
  }

  // ---- Paths lead to what is wrong ----------------------------------------------------------------

  function At(v: Js, p: Place): Option<Js> {
    match p
    case Member(key) => if v.Obj? then Lookup(v.entries, key) else None
    case Element(i) => if v.Arr? && i < |v.items| then Some(v.items[i]) else None
  }

  function Reach(v: Js, way: Way): Option<Js> {
    if way == [] then Some(v)
    else
      var parent := Reach(v, way[..|way| - 1]);
      if parent.None? then None else At(parent.value, way[|way| - 1])
  }

  lemma ReachPush(v: Js, way: Way, p: Place)
    requires Reach(v, way).Some?
    ensures Reach(v, way + [p]) == At(Reach(v, way).value, p)
  {
    assert (way + [p])[..|way|] == way;
  }

  /** What a reason says about the value at its place. */
  predicate Wrong(v: Js, reason: Reason, cs: Components) {
    match reason
    case UnresolvedRef(ref) => Resolve(ref, cs).None?
    case ExpectedConst(c) => Print(v) != Print(c)
    case ExpectedEnum(options) => forall i :: 0 <= i < |options| ==> Print(v) != Print(options[i])
    case ExpectedType(typ) => !HasType(v, typ)
    case ExpectedObject => !v.Obj?
    case ExpectedArray => !v.Arr?
    case ExpectedLength(length) => v.Arr? && |v.items| < length
    case _ => true
  }

  /** What a reason says about the place itself: a member with an unknown name, an element past the end. */
  predicate Misplaced(way: Way, reason: Reason) {
    match reason
    case UnknownProperty(known) =>
      way != [] && way[|way| - 1].Member? && forall i :: 0 <= i < |known| ==> known[i].name != way[|way| - 1].key
    case ExtraElement(length) => way != [] && way[|way| - 1].Element? && length <= way[|way| - 1].i
    case _ => true
  }

  /** The issue's path is that of a place in `root`, by its name for the root itself, where the reason
      applies; or that of a required member which an object that is there does not have. */
  ghost predicate Pinpoints(root: Js, issue: Issue, cs: Components) {
    exists way: Way :: PinpointsAt(root, issue, way, cs)
  }

  ghost predicate PinpointsAt(root: Js, issue: Issue, way: Way, cs: Components) {
    if issue.reason.Missing? then
      && issue.path == Render(way) && way != [] && way[|way| - 1].Member?
      && (var parent := Reach(root, way[..|way| - 1]);
          parent.Some? && parent.value.Obj? && !HasOwn(parent.value.entries, way[|way| - 1].key))
    else
      && (issue.path == Render(way) || issue.path == OrRoot(Render(way)))
      && Reach(root, way).Some? && Wrong(Reach(root, way).value, issue.reason, cs) && Misplaced(way, issue.reason)
  }

  ghost predicate AllPinpoint(root: Js, walk: Option<seq<Issue>>, cs: Components) {
    walk.Some? ==> forall i :: 0 <= i < |walk.value| ==> Pinpoints(root, walk.value[i], cs)
  }

  lemma ThenPinpoint(root: Js, a: Option<seq<Issue>>, b: Option<seq<Issue>>, cs: Components)
    requires AllPinpoint(root, a, cs) && AllPinpoint(root, b, cs)
    ensures AllPinpoint(root, Then(a, b), cs)
  {
  }

  lemma OnePinpoints(root: Js, path: string, reason: Reason, way: Way, cs: Components)
    requires PinpointsAt(root, Issue(path, reason), way, cs)
    ensures AllPinpoint(root, One(path, reason), cs)
  {
    assert Pinpoints(root, Issue(path, reason), cs);
  }

  /** The walk is at `way`. */
  ghost predicate Here(root: Js, v: Js, path: string, way: Way) {
    IsJson(v) && path == Render(way) && Reach(root, way) == Some(v)
  }

  lemma {:induction false} WalkPinpoints(root: Js, v: Js, s: Schema, path: string, way: Way, cs: Components, fuel: nat)
    requires Here(root, v, path, way)
    ensures AllPinpoint(root, Walk(v, s, path, cs, fuel), cs)
    decreases fuel, s, 2, 0
  {
    match s
    case True =>
    case False => OnePinpoints(root, path, NoValueValid, way, cs);
    case Ref(ref) =>
      if Resolve(ref, cs).None? {
        OnePinpoints(root, path, UnresolvedRef(ref), way, cs);
      } else if fuel > 0 {
        WalkPinpoints(root, v, Resolve(ref, cs).value, path, way, cs, fuel - 1);
      }
    case Const(c) => if Print(v) != Print(c) { OnePinpoints(root, path, ExpectedConst(c), way, cs); }
    case Enum(values) =>
      if forall i :: 0 <= i < |values| ==> Print(v) != Print(values[i]) { OnePinpoints(root, path, ExpectedEnum(values), way, cs); }
    case Union(branches) => BranchesPinpoint(root, v, branches, path, way, cs, fuel, None);
    case Typed(typ) => if !HasType(v, typ) { OnePinpoints(root, path, ExpectedType(typ), way, cs); }
    case ArrayOf(_, _) => ArrayPinpoints(root, v, s, path, way, cs, fuel);
    case ObjectOf(_, _, _) => ObjectPinpoints(root, v, s, path, way, cs, fuel);
    case Other => OnePinpoints(root, path, Vague, way, cs);
  }

  lemma {:induction false} BranchesPinpoint(
    root: Js, v: Js, branches: seq<Schema>, path: string, way: Way, cs: Components, fuel: nat, best: Option<seq<Issue>>)
    requires Here(root, v, path, way) && AllPinpoint(root, best, cs)
    ensures AllPinpoint(root, WalkBranches(v, branches, path, cs, fuel, best), cs)
    decreases fuel, branches, 2, 0
  {
    if branches == [] {
      OnePinpoints(root, path, NoBranch, way, cs);
    } else {
      WalkPinpoints(root, v, branches[0], path, way, cs, fuel);
      var sub := Walk(v, branches[0], path, cs, fuel);
      if sub.Some? && sub.value != [] {
        BranchesPinpoint(root, v, branches[1..], path, way, cs, fuel, if best.None? || |sub.value| < |best.value| then sub else best);
      }
    }
  }

  lemma {:induction false} ArrayPinpoints(root: Js, v: Js, s: Schema, path: string, way: Way, cs: Components, fuel: nat)
    requires s.ArrayOf? && Here(root, v, path, way)
    ensures AllPinpoint(root, Walk(v, s, path, cs, fuel), cs)
    decreases fuel, s, 1, if v.Arr? then |v.items| + 1 else 0
  {
    if v.Arr? {
      ItemsPinpoint(root, v, 0, s, path, way, cs, fuel);
      if |v.items| < |s.prefix| { OnePinpoints(root, OrRoot(path), ExpectedLength(|s.prefix|), way, cs); }
      ThenPinpoint(root, WalkItems(v.items, 0, s, path, cs, fuel),
                   If(|v.items| < |s.prefix| && s.items == Some(False), OrRoot(path), ExpectedLength(|s.prefix|)), cs);
    } else {
      OnePinpoints(root, OrRoot(path), ExpectedArray, way, cs);
    }
  }

  lemma {:induction false} ItemsPinpoint(root: Js, v: Js, i: nat, s: Schema, path: string, way: Way, cs: Components, fuel: nat)
    requires s.ArrayOf? && v.Arr? && i <= |v.items| && Here(root, v, path, way)
    ensures AllPinpoint(root, WalkItems(v.items, i, s, path, cs, fuel), cs)
    decreases fuel, s, 1, |v.items| - i
  {
    if i < |v.items| {
      ItemPinpoints(root, v, i, s, path, way, cs, fuel);
      ItemsPinpoint(root, v, i + 1, s, path, way, cs, fuel);
      ThenPinpoint(root, WalkItem(v.items[i], i, s, path, cs, fuel), WalkItems(v.items, i + 1, s, path, cs, fuel), cs);
    }
  }

  lemma {:induction false} ItemPinpoints(root: Js, v: Js, i: nat, s: Schema, path: string, way: Way, cs: Components, fuel: nat)
    requires s.ArrayOf? && v.Arr? && i < |v.items| && Here(root, v, path, way)
    ensures AllPinpoint(root, WalkItem(v.items[i], i, s, path, cs, fuel), cs)
    decreases fuel, s, 0, 0
  {
    var there := way + [Element(i)];
    RenderPush(way, Element(i));
    ReachPush(root, way, Element(i));
    if i < |s.prefix| {
      WalkPinpoints(root, v.items[i], s.prefix[i], JoinIndex(path, i), there, cs, fuel);
    } else if s.items == Some(False) {
      OnePinpoints(root, JoinIndex(path, i), ExtraElement(|s.prefix|), there, cs);
    } else if s.items.Some? {
      WalkPinpoints(root, v.items[i], s.items.value, JoinIndex(path, i), there, cs, fuel);
    }
  }

  lemma {:induction false} MissingPinpoint(root: Js, v: Js, required: seq<string>, path: string, way: Way, cs: Components)
    requires v.Obj? && Here(root, v, path, way)
    ensures AllPinpoint(root, Some(MissingIssues(v.entries, required, path)), cs)
  {
    if required != [] {
      MissingPinpoint(root, v, required[1..], path, way, cs);
      MissingAt(root, v, required[0], path, way, cs);
      ThenPinpoint(root, Some(if HasOwn(v.entries, required[0]) then [] else [Issue(JoinKey(path, required[0]), Missing)]),
                   Some(MissingIssues(v.entries, required[1..], path)), cs);
    }
  }

  lemma MissingAt(root: Js, v: Js, key: string, path: string, way: Way, cs: Components)
    requires v.Obj? && Here(root, v, path, way)
    ensures !HasOwn(v.entries, key) ==> AllPinpoint(root, One(JoinKey(path, key), Missing), cs)
  {
    RenderPush(way, Member(key));
    var there := way + [Member(key)];
    assert there[..|there| - 1] == way;
    if !HasOwn(v.entries, key) { OnePinpoints(root, JoinKey(path, key), Missing, there, cs); }
  }

  lemma {:induction false} ObjectPinpoints(root: Js, v: Js, s: Schema, path: string, way: Way, cs: Components, fuel: nat)
    requires s.ObjectOf? && Here(root, v, path, way)
    ensures AllPinpoint(root, Walk(v, s, path, cs, fuel), cs)
    decreases fuel, s, 1, if v.Obj? then |v.entries| + 1 else 0
  {
    if v.Obj? {
      assert v.entries[0..] == v.entries;
      MissingPinpoint(root, v, s.required, path, way, cs);
      MembersPinpoint(root, v, 0, s, path, way, cs, fuel);
      ThenPinpoint(root, Some(MissingIssues(v.entries, s.required, path)), WalkMembers(v.entries, s, path, cs, fuel), cs);
    } else {
      OnePinpoints(root, OrRoot(path), ExpectedObject, way, cs);
    }
  }

  lemma {:induction false} MembersPinpoint(root: Js, v: Js, i: nat, s: Schema, path: string, way: Way, cs: Components, fuel: nat)
    requires s.ObjectOf? && v.Obj? && i <= |v.entries| && Here(root, v, path, way)
    ensures AllPinpoint(root, WalkMembers(v.entries[i..], s, path, cs, fuel), cs)
    decreases fuel, s, 1, |v.entries| - i
  {
    if i < |v.entries| {
      assert v.entries[i..][0] == v.entries[i] && v.entries[i..][1..] == v.entries[i + 1..];
      MemberPinpoints(root, v, i, s, path, way, cs, fuel);
      MembersPinpoint(root, v, i + 1, s, path, way, cs, fuel);
      ThenPinpoint(root, WalkMember(v.entries[i], s, path, cs, fuel), WalkMembers(v.entries[i + 1..], s, path, cs, fuel), cs);
    }
  }

  lemma {:induction false} MemberPinpoints(root: Js, v: Js, i: nat, s: Schema, path: string, way: Way, cs: Components, fuel: nat)
    requires s.ObjectOf? && v.Obj? && i < |v.entries| && Here(root, v, path, way)
    ensures AllPinpoint(root, WalkMember(v.entries[i], s, path, cs, fuel), cs)
    decreases fuel, s, 0, 0
  {
    var e := v.entries[i];
    var p := JoinKey(path, e.key);
    var there := way + [Member(e.key)];
    LookupAt(v.entries, i);
    RenderPush(way, Member(e.key));
    ReachPush(root, way, Member(e.key));
    var property := FindProperty(s.properties, e.key);
    if property.Some? {
      WalkPinpoints(root, e.val, s.properties[property.value].schema, p, there, cs, fuel);
    } else if s.additional == False {
      OnePinpoints(root, p, UnknownProperty(s.properties), there, cs);
    } else {
      WalkPinpoints(root, e.val, s.additional, p, there, cs, fuel);
    }
  }

  /** Every explained issue pinpoints something in the value. */
  lemma IssuesPinpoint(v: Js, s: Schema, cs: Components, fuel: nat)
    requires IsJson(v)
    ensures AllPinpoint(v, Walk(v, s, "", cs, fuel), cs)
  {
    WalkPinpoints(v, v, s, "", [], cs, fuel);
  }
}
