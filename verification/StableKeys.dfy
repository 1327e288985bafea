/** The canonical serialization of configuration values: canonical and injective. */
module StableKeys {
  import opened Options
  import opened Pointers

  /** JavaScript values as configs hold them. A number is its canonical numeral,
      which `JSON.stringify` prints; `undefined` only occurs as an object member. */
  datatype Js =
    | Undefined
    | Null
    | Bool(b: bool)
    | Num(text: string)
    | Str(s: string)
    | Arr(items: seq<Js>)
    | Obj(entries: seq<Entry>)

  datatype Entry = Entry(key: string, val: Js)

  // ---- The order of own keys --------------------------------------------------------

  predicate IsNumeral(s: string) {
    s != "" && (forall i :: 0 <= i < |s| ==> IsDigit(s[i])) && (|s| > 1 ==> s[0] != '0')
  }

  /** Keys that are array indices come first when an object is enumerated. */
  predicate IsIndex(key: string) {
    IsNumeral(key) && ParseDecimal(key) < 0xFFFF_FFFF
  }

  predicate LexLess(a: string, b: string) {
    b != "" && (a == "" || a[0] < b[0] || (a[0] == b[0] && LexLess(a[1..], b[1..])))
  }

  /** Indices by value, which for numerals is by length and then by digits; then the sorted other keys. */
  predicate KeyLess(a: string, b: string) {
    if IsIndex(a) then !IsIndex(b) || |a| < |b| || (|a| == |b| && LexLess(a, b))
    else !IsIndex(b) && LexLess(a, b)
  }

  lemma {:induction false} LexTotal(a: string, b: string)
    ensures !(LexLess(a, b) && LexLess(b, a)) && !LexLess(a, a)
    ensures a != b ==> LexLess(a, b) || LexLess(b, a)
  {
    if a != "" && b != "" {
      LexTotal(a[1..], b[1..]);
      assert a == [a[0]] + a[1..] && b == [b[0]] + b[1..];
    }
    if a != "" { LexTotal(a[1..], a[1..]); }
  }

  lemma {:induction false} LexTransitive(a: string, b: string, c: string)
    requires LexLess(a, b) && LexLess(b, c)
    ensures LexLess(a, c)
  {
    if a != "" && a[0] == b[0] && b[0] == c[0] { LexTransitive(a[1..], b[1..], c[1..]); }
  }

  lemma KeyTotal(a: string, b: string)
    ensures !(KeyLess(a, b) && KeyLess(b, a)) && !KeyLess(a, a)
    ensures a != b ==> KeyLess(a, b) || KeyLess(b, a)
  {
    LexTotal(a, b);
    LexTotal(a, a);
  }

  lemma KeyTransitive(a: string, b: string, c: string)
    requires KeyLess(a, b) && KeyLess(b, c)
    ensures KeyLess(a, c)
  {
    if LexLess(a, b) && LexLess(b, c) { LexTransitive(a, b, c); }
  }

  // ---- Canonical form ------------------------------------------------------------------

  function InsertEntry(es: seq<Entry>, e: Entry): seq<Entry> {
    if es == [] || KeyLess(e.key, es[0].key) then [e] + es else [es[0]] + InsertEntry(es[1..], e)
  }

  /** Members sorted, `undefined` ones dropped, at every depth. */
  function Canon(v: Js): Js
    decreases v, 1
  {
    match v
    case Arr(items) => Arr(seq(|items|, i requires 0 <= i < |items| => Canon(items[i])))
    case Obj(es) => Obj(CanonEntries(es))
    case _ => v
  }

  function CanonEntries(es: seq<Entry>): seq<Entry>
    decreases es, 0
  {
    if es == [] then []
    else if es[0].val.Undefined? then CanonEntries(es[1..])
    else InsertEntry(CanonEntries(es[1..]), Entry(es[0].key, Canon(es[0].val)))
  }

  // ---- Printing --------------------------------------------------------------------------

  function HexDigit(n: nat): char
    requires n < 16
  {
    "0123456789abcdef"[n]
  }

  /** `JSON.stringify`'s escapes. */
  function QuoteChar(c: char): string {
    if c == '"' then "\\\""
    else if c == '\\' then "\\\\"
    else if c == '\U{08}' then "\\b"
    else if c == '\U{0C}' then "\\f"
    else if c == '\n' then "\\n"
    else if c == '\r' then "\\r"
    else if c == '\t' then "\\t"
    else if c < ' ' then "\\u00" + [HexDigit(c as int / 16), HexDigit(c as int % 16)]
    else [c]
  }

  function QuoteChars(s: string): string {
    if s == "" then "" else QuoteChar(s[0]) + QuoteChars(s[1..])
  }

  function Quote(s: string): string {
    "\"" + (QuoteChars(s) + "\"")
  }

  function Print(v: Js): string
    decreases v, 1
  {
    match v
    case Undefined => ""
    case Null => "null"
    case Bool(b) => if b then "true" else "false"
    case Num(text) => text
    case Str(s) => Quote(s)
    case Arr(items) => "[" + PrintItems(items, true)
    case Obj(es) => "{" + PrintEntries(es, true)
  }

  function PrintItems(items: seq<Js>, first: bool): string
    decreases items, 0
  {
    if items == [] then "]"
    else (if first then "" else ",") + (Print(items[0]) + PrintItems(items[1..], false))
  }

  function PrintEntries(es: seq<Entry>, first: bool): string
    decreases es, 0
  {
    if es == [] then "}"
    else (if first then "" else ",") + (Quote(es[0].key) + (":" + (Print(es[0].val) + PrintEntries(es[1..], false))))
  }

  function StableKey(v: Js): string {
    Print(Canon(v))
  }

  // ---- Values without `undefined` ------------------------------------------------------------

  predicate IsNumberChar(c: char) {
    IsDigit(c) || c == '-' || c == '+' || c == '.' || c == 'e'
  }

  predicate IsNumber(s: string) {
    s != "" && (forall i :: 0 <= i < |s| ==> IsNumberChar(s[i])) && (IsDigit(s[0]) || s[0] == '-')
  }

  /** A value that can be printed. */
  predicate Printable(v: Js) {
    match v
    case Undefined => false
    case Num(text) => IsNumber(text)
    case Arr(items) => forall i :: 0 <= i < |items| ==> Printable(items[i])
    case Obj(es) => forall i :: 0 <= i < |es| ==> Printable(es[i].val)
    case _ => true
  }

  // ---- The printer is injective ------------------------------------------------------------------

  function HexValue(c: char): nat {
    if IsDigit(c) then c as int - '0' as int else if 'a' <= c <= 'f' then c as int - 'a' as int + 10 else 0
  }

  lemma HexRoundTrip(n: nat)
    requires n < 16
    ensures HexValue(HexDigit(n)) == n
  {
  }

  /** The character that an escape, or a plain character, stands for. */
  function Unquote(s: string): char {
    if |s| < 2 || s[0] != '\\' then (if s == "" then ' ' else s[0])
    else
      match s[1]
      case 'b' => '\U{08}'
      case 'f' => '\U{0C}'
      case 'n' => '\n'
      case 'r' => '\r'
      case 't' => '\t'
      case 'u' => if |s| < 6 then ' ' else (HexValue(s[4]) * 16 + HexValue(s[5])) as char
      case c => c
  }

  lemma UnquoteOf(c: char, x: string)
    ensures QuoteChar(c) != "" && Unquote(QuoteChar(c) + x) == c
    ensures QuoteChar(c)[0] != '"'
  {
    var s := QuoteChar(c) + x;
    assert s[0] == QuoteChar(c)[0];
    if |QuoteChar(c)| > 1 { assert s[1] == QuoteChar(c)[1]; }
    if |QuoteChar(c)| > 2 {
      HexRoundTrip(c as int / 16);
      HexRoundTrip(c as int % 16);
      assert s[4] == QuoteChar(c)[4] && s[5] == QuoteChar(c)[5];
    }
  }

  lemma QuoteCharPrefix(c: char, d: char, x: string, y: string)
    requires QuoteChar(c) + x == QuoteChar(d) + y
    ensures c == d && x == y
  {
    UnquoteOf(c, x);
    UnquoteOf(d, y);
    CutPrefix(QuoteChar(c), x, y);
  }

  lemma CutPrefix(p: string, x: string, y: string)
    requires p + x == p + y
    ensures x == y
  {
    assert (p + x)[|p|..] == x && (p + y)[|p|..] == y;
  }

  lemma QuoteStep(s: string, x: string)
    requires s != ""
    ensures QuoteChars(s) + ("\"" + x) == QuoteChar(s[0]) + (QuoteChars(s[1..]) + ("\"" + x))
  {
  }

  /** The end of a quoted string is found whatever follows. */
  lemma {:induction false} QuotePrefix(s: string, t: string, x: string, y: string)
    requires QuoteChars(s) + ("\"" + x) == QuoteChars(t) + ("\"" + y)
    ensures s == t && x == y
  {
    if s != "" { QuoteStep(s, x); UnquoteOf(s[0], QuoteChars(s[1..]) + ("\"" + x)); }
    if t != "" { QuoteStep(t, y); UnquoteOf(t[0], QuoteChars(t[1..]) + ("\"" + y)); }
    assert (QuoteChars(s) + ("\"" + x))[0] == if s == "" then '"' else QuoteChar(s[0])[0];
    assert (QuoteChars(t) + ("\"" + y))[0] == if t == "" then '"' else QuoteChar(t[0])[0];
    if s == "" && t == "" {
      assert QuoteChars(s) + ("\"" + x) == "\"" + x && QuoteChars(t) + ("\"" + y) == "\"" + y;
      CutPrefix("\"", x, y);
    } else if s != "" && t != "" {
      QuoteCharPrefix(s[0], t[0], QuoteChars(s[1..]) + ("\"" + x), QuoteChars(t[1..]) + ("\"" + y));
      QuotePrefix(s[1..], t[1..], x, y);
      assert s == [s[0]] + s[1..] && t == [t[0]] + t[1..];
    }
  }

  lemma QuotedPrefix(s: string, t: string, x: string, y: string)
    requires Quote(s) + x == Quote(t) + y
    ensures s == t && x == y
  {
    Regroup("\"", QuoteChars(s), "\"", x);
    Regroup("\"", QuoteChars(t), "\"", y);
    CutPrefix("\"", QuoteChars(s) + ("\"" + x), QuoteChars(t) + ("\"" + y));
    QuotePrefix(s, t, x, y);
  }

  lemma Regroup(a: string, b: string, c: string, d: string)
    ensures a + (b + c) + d == a + (b + (c + d))
  {
  }

  lemma Regroup3(a: string, b: string, c: string)
    ensures a + b + c == a + (b + c)
  {
  }

  /** What can follow a value: nothing that continues a number. */
  predicate Follow(x: string) {
    x == "" || !IsNumberChar(x[0])
  }

  lemma {:induction false} NumberPrefix(s: string, t: string, x: string, y: string)
    requires (forall i :: 0 <= i < |s| ==> IsNumberChar(s[i])) && (forall i :: 0 <= i < |t| ==> IsNumberChar(t[i]))
    requires Follow(x) && Follow(y) && s + x == t + y
    ensures s == t && x == y
  {
    assert s == "" ==> s + x == x;
    assert t == "" ==> t + y == y;
    if s != "" && t != "" {
      assert (s + x)[0] == s[0] && (t + y)[0] == t[0];
      assert (s + x)[1..] == s[1..] + x && (t + y)[1..] == t[1..] + y;
      NumberPrefix(s[1..], t[1..], x, y);
      assert s == [s[0]] + s[1..] && t == [t[0]] + t[1..];
    }
  }

  /** The kind of a value shows in its first character. */
  lemma FirstCharacter(v: Js)
    requires Printable(v)
    ensures Print(v) != ""
    ensures var c := Print(v)[0];
            && c != ']' && c != '}' && c != ','
            && (v.Null? <==> c == 'n') && (v.Bool? <==> c == 't' || c == 'f')
            && (v.Num? <==> IsDigit(c) || c == '-') && (v.Str? <==> c == '"')
            && (v.Arr? <==> c == '[') && (v.Obj? <==> c == '{')
  {
  }

  /** The printer leaves nothing out: what is printed, and where it ends, determine the value. */
  lemma {:induction false} PrintPrefix(a: Js, b: Js, x: string, y: string)
    requires Printable(a) && Printable(b) && Follow(x) && Follow(y) && Print(a) + x == Print(b) + y
    ensures a == b && x == y
    decreases a, 1
  {
    FirstCharacter(a);
    FirstCharacter(b);
    assert (Print(a) + x)[0] == Print(a)[0] && (Print(b) + y)[0] == Print(b)[0];
    match a {
      case Null => CutPrefix("null", x, y);
      case Bool(p) => CutPrefix(Print(a), x, y);
      case Num(s) => NumberPrefix(s, b.text, x, y);
      case Str(s) => QuotedPrefix(s, b.s, x, y);
      case Arr(items) =>
        Regroup3("[", PrintItems(items, true), x);
        Regroup3("[", PrintItems(b.items, true), y);
        CutPrefix("[", PrintItems(items, true) + x, PrintItems(b.items, true) + y);
        ItemsPrefix(items, b.items, true, x, y);
      case Obj(es) =>
        Regroup3("{", PrintEntries(es, true), x);
        Regroup3("{", PrintEntries(b.entries, true), y);
        CutPrefix("{", PrintEntries(es, true) + x, PrintEntries(b.entries, true) + y);
        EntriesPrefix(es, b.entries, true, x, y);
    }
  }

  lemma NextItem(items: seq<Js>, first: bool, x: string)
    requires items != []
    ensures var comma := if first then "" else ",";
            PrintItems(items, first) + x == comma + (Print(items[0]) + (PrintItems(items[1..], false) + x))
    ensures Follow(PrintItems(items[1..], false) + x)
  {
    var comma := if first then "" else ",";
    Regroup(comma, Print(items[0]), PrintItems(items[1..], false), x);
    var rest := PrintItems(items[1..], false);
    assert rest[0] == ']' || rest[0] == ',';
    assert (rest + x)[0] == rest[0];
  }

  lemma {:induction false} ItemsPrefix(xs: seq<Js>, ys: seq<Js>, first: bool, x: string, y: string)
    requires forall i :: 0 <= i < |xs| ==> Printable(xs[i])
    requires forall i :: 0 <= i < |ys| ==> Printable(ys[i])
    requires PrintItems(xs, first) + x == PrintItems(ys, first) + y
    ensures xs == ys && x == y
    decreases xs, 0
  {
    var comma := if first then "" else ",";
    if xs != [] { NextItem(xs, first, x); FirstCharacter(xs[0]); }
    if ys != [] { NextItem(ys, first, y); FirstCharacter(ys[0]); }
    assert xs != [] ==> (PrintItems(xs, first) + x)[0] == if first then Print(xs[0])[0] else ',';
    assert ys != [] ==> (PrintItems(ys, first) + y)[0] == if first then Print(ys[0])[0] else ',';
    if xs == [] && ys == [] {
      CutPrefix("]", x, y);
    } else if xs != [] && ys != [] {
      var s, t := PrintItems(xs[1..], false) + x, PrintItems(ys[1..], false) + y;
      CutPrefix(comma, Print(xs[0]) + s, Print(ys[0]) + t);
      PrintPrefix(xs[0], ys[0], s, t);
      ItemsPrefix(xs[1..], ys[1..], false, x, y);
      assert xs == [xs[0]] + xs[1..] && ys == [ys[0]] + ys[1..];
    }
  }

  lemma NextEntry(es: seq<Entry>, first: bool, x: string)
    requires es != []
    ensures var comma := if first then "" else ",";
            PrintEntries(es, first) + x ==
            comma + (Quote(es[0].key) + (":" + (Print(es[0].val) + (PrintEntries(es[1..], false) + x))))
    ensures Follow(PrintEntries(es[1..], false) + x)
  {
    var comma, rest := if first then "" else ",", PrintEntries(es[1..], false);
    Regroup(comma, Quote(es[0].key), ":" + (Print(es[0].val) + rest), x);
    Regroup(":", Print(es[0].val), rest, x);
    assert rest[0] == '}' || rest[0] == ',';
    assert (rest + x)[0] == rest[0];
  }

  lemma EntryPrefix(e: Entry, f: Entry, comma: string, s: string, t: string)
    requires comma + (Quote(e.key) + (":" + (Print(e.val) + s))) == comma + (Quote(f.key) + (":" + (Print(f.val) + t)))
    ensures e.key == f.key && Print(e.val) + s == Print(f.val) + t
  {
    var u, w := ":" + (Print(e.val) + s), ":" + (Print(f.val) + t);
    CutPrefix(comma, Quote(e.key) + u, Quote(f.key) + w);
    QuotedPrefix(e.key, f.key, u, w);
    CutPrefix(":", Print(e.val) + s, Print(f.val) + t);
  }

  lemma {:induction false} EntriesPrefix(es: seq<Entry>, fs: seq<Entry>, first: bool, x: string, y: string)
    requires forall i :: 0 <= i < |es| ==> Printable(es[i].val)
    requires forall i :: 0 <= i < |fs| ==> Printable(fs[i].val)
    requires PrintEntries(es, first) + x == PrintEntries(fs, first) + y
    ensures es == fs && x == y
    decreases es, 0
  {
    var comma := if first then "" else ",";
    if es != [] { NextEntry(es, first, x); }
    if fs != [] { NextEntry(fs, first, y); }
    assert es != [] ==> (PrintEntries(es, first) + x)[0] == if first then '"' else ',';
    assert fs != [] ==> (PrintEntries(fs, first) + y)[0] == if first then '"' else ',';
    if es == [] && fs == [] {
      CutPrefix("}", x, y);
    } else if es != [] && fs != [] {
      var s, t := PrintEntries(es[1..], false) + x, PrintEntries(fs[1..], false) + y;
      EntryPrefix(es[0], fs[0], comma, s, t);
      PrintPrefix(es[0].val, fs[0].val, s, t);
      EntriesPrefix(es[1..], fs[1..], false, x, y);
      assert es == [es[0]] + es[1..] && fs == [fs[0]] + fs[1..];
    }
  }

  // ---- The key is canonical ------------------------------------------------------------------------

  /** A configuration value: `undefined` only as a member, keys distinct. */
  predicate Value(v: Js) {
    match v
    case Undefined => false
    case Num(text) => IsNumber(text)
    case Arr(items) => forall i :: 0 <= i < |items| ==> Value(items[i])
    case Obj(es) =>
      && (forall i :: 0 <= i < |es| ==> es[i].val.Undefined? || Value(es[i].val))
      && (forall i, j :: 0 <= i < j < |es| ==> es[i].key != es[j].key)
    case _ => true
  }

  /** The value of a defined member. */
  function Lookup(es: seq<Entry>, key: string): (r: Option<Js>)
    ensures r.Some? ==> exists i :: 0 <= i < |es| && es[i].key == key && es[i].val == r.value && !r.value.Undefined?
  {
    if es == [] then None
    else if es[0].key == key && !es[0].val.Undefined? then Some(es[0].val)
    else Lookup(es[1..], key)
  }

  /** Equal up to member order and undefined members, at every depth. */
  ghost predicate SemanticallyEqual(v: Js, w: Js)
    decreases v
  {
    match (v, w)
    case (Arr(xs), Arr(ys)) => |xs| == |ys| && forall i :: 0 <= i < |xs| ==> SemanticallyEqual(xs[i], ys[i])
    case (Obj(es), Obj(fs)) => forall key :: SameMember(es, fs, key)
    case _ => v == w
  }

  ghost predicate SameMember(es: seq<Entry>, fs: seq<Entry>, key: string)
    decreases es
  {
    var a, b := Lookup(es, key), Lookup(fs, key);
    if a.None? then b.None? else b.Some? && SemanticallyEqual(a.value, b.value)
  }

  /** Strictly ascending keys. */
  ghost predicate SortedEntries(es: seq<Entry>) {
    forall i, j :: 0 <= i < j < |es| ==> KeyLess(es[i].key, es[j].key)
  }

  lemma {:induction false} InsertSorted(es: seq<Entry>, e: Entry, key: string)
    requires SortedEntries(es) && !e.val.Undefined?
    requires forall i :: 0 <= i < |es| ==> es[i].key != e.key && !es[i].val.Undefined?
    ensures var r := InsertEntry(es, e);
            && SortedEntries(r) && (forall i :: 0 <= i < |r| ==> r[i] in es || r[i] == e)
            && Lookup(r, key) == if key == e.key then Some(e.val) else Lookup(es, key)
  {
    if es != [] {
      KeyTotal(e.key, es[0].key);
      if KeyLess(e.key, es[0].key) {
        forall j | 1 <= j < |es| ensures KeyLess(e.key, es[j].key) { KeyTransitive(e.key, es[0].key, es[j].key); }
        if key == e.key { NotFound(es, key); }
      } else {
        InsertSorted(es[1..], e, key);
        var r := InsertEntry(es[1..], e);
        forall i | 0 <= i < |r| ensures KeyLess(es[0].key, r[i].key) {
          if r[i] in es[1..] {
            var j :| 0 <= j < |es[1..]| && es[1..][j] == r[i];
            assert KeyLess(es[0].key, es[j + 1].key);
          }
        }
      }
    }
  }

  lemma {:induction false} NotFound(es: seq<Entry>, key: string)
    requires forall i :: 0 <= i < |es| ==> es[i].key != key
    ensures Lookup(es, key) == None
  {
    if es != [] { NotFound(es[1..], key); }
  }

  function CanonOption(v: Option<Js>): Option<Js> {
    if v.None? then None else Some(Canon(v.value))
  }

  lemma CanonDefined(v: Js)
    requires !v.Undefined?
    ensures !Canon(v).Undefined?
  {
  }

  ghost predicate Values(es: seq<Entry>) {
    && (forall i :: 0 <= i < |es| ==> es[i].val.Undefined? || Value(es[i].val))
    && (forall i, j :: 0 <= i < j < |es| ==> es[i].key != es[j].key)
  }

  ghost predicate HasKey(es: seq<Entry>, key: string) {
    exists j :: 0 <= j < |es| && es[j].key == key
  }

  ghost predicate DefinedFrom(r: seq<Entry>, es: seq<Entry>) {
    forall i :: 0 <= i < |r| ==> !r[i].val.Undefined? && HasKey(es, r[i].key)
  }

  lemma TailKey(es: seq<Entry>, key: string)
    requires es != [] && HasKey(es[1..], key)
    ensures HasKey(es, key)
  {
    var j :| 0 <= j < |es[1..]| && es[1..][j].key == key;
    assert es[j + 1].key == key;
  }

  lemma {:induction false} InsertedFrom(r: seq<Entry>, e: Entry, es: seq<Entry>)
    requires DefinedFrom(r, es) && !e.val.Undefined? && HasKey(es, e.key)
    ensures DefinedFrom(InsertEntry(r, e), es)
  {
    if r != [] && !KeyLess(e.key, r[0].key) { InsertedFrom(r[1..], e, es); }
  }

  lemma {:induction false} CanonKeys(es: seq<Entry>)
    ensures DefinedFrom(CanonEntries(es), es)
  {
    if es != [] {
      CanonKeys(es[1..]);
      var r := CanonEntries(es[1..]);
      forall i | 0 <= i < |r| ensures HasKey(es, r[i].key) { TailKey(es, r[i].key); }
      if !es[0].val.Undefined? {
        CanonDefined(es[0].val);
        InsertedFrom(r, Entry(es[0].key, Canon(es[0].val)), es);
      }
    }
  }

  lemma TailValues(es: seq<Entry>)
    requires es != [] && Values(es)
    ensures Values(es[1..]) && !HasKey(es[1..], es[0].key)
  {
  }

  /** Canonical members are sorted, and hold the canonical values of the members. */
  lemma {:induction false} CanonMembers(es: seq<Entry>, key: string)
    requires Values(es)
    ensures SortedEntries(CanonEntries(es)) && Lookup(CanonEntries(es), key) == CanonOption(Lookup(es, key))
  {
    if es != [] {
      TailValues(es);
      CanonMembers(es[1..], key);
      CanonKeys(es[1..]);
      if key == es[0].key { NotFound(es[1..], key); }
      if !es[0].val.Undefined? {
        CanonDefined(es[0].val);
        InsertSorted(CanonEntries(es[1..]), Entry(es[0].key, Canon(es[0].val)), key);
      }
    }
  }

  lemma FoundAt(es: seq<Entry>, i: nat)
    requires i < |es| && SortedEntries(es) && forall j :: 0 <= j < |es| ==> !es[j].val.Undefined?
    ensures Lookup(es, es[i].key) == Some(es[i].val)
  {
    if i > 0 {
      KeyTotal(es[0].key, es[i].key);
      FoundAt(es[1..], i - 1);
    }
  }

  /** Sorted members are determined by what they hold. */
  lemma {:induction false} SortedSame(es: seq<Entry>, fs: seq<Entry>)
    requires SortedEntries(es) && SortedEntries(fs)
    requires forall i :: 0 <= i < |es| ==> !es[i].val.Undefined?
    requires forall i :: 0 <= i < |fs| ==> !fs[i].val.Undefined?
    requires forall key :: Lookup(es, key) == Lookup(fs, key)
    ensures es == fs
  {
    if es != [] && fs != [] {
      FoundAt(es, 0);
      FoundAt(fs, 0);
      var i :| 0 <= i < |fs| && fs[i].key == es[0].key;
      var j :| 0 <= j < |es| && es[j].key == fs[0].key;
      KeyTotal(es[0].key, fs[0].key);
      assert i == 0;
      forall key ensures Lookup(es[1..], key) == Lookup(fs[1..], key) {
        if key == es[0].key {
          forall k | 1 <= k < |es| ensures es[k].key != key { KeyTotal(es[0].key, es[k].key); }
          forall k | 1 <= k < |fs| ensures fs[k].key != key { KeyTotal(fs[0].key, fs[k].key); }
          NotFound(es[1..], key);
          NotFound(fs[1..], key);
        } else {
          assert Lookup(es, key) == Lookup(fs, key);
        }
      }
      SortedSame(es[1..], fs[1..]);
      assert es == [es[0]] + es[1..] && fs == [fs[0]] + fs[1..];
    } else if es != [] {
      FoundAt(es, 0);
    } else if fs != [] {
      FoundAt(fs, 0);
    }
  }

  lemma {:induction false} CanonPrintable(v: Js)
    requires Value(v)
    ensures Printable(Canon(v))
    decreases v
  {
    match v
    case Arr(items) =>
      forall i | 0 <= i < |items| ensures Printable(Canon(items[i])) { CanonPrintable(items[i]); }
    case Obj(es) =>
      var r := CanonEntries(es);
      forall i | 0 <= i < |r| ensures Printable(r[i].val) {
        CanonMembers(es, r[i].key);
        CanonKeys(es);
        FoundAt(r, i);
        var val := Lookup(es, r[i].key).value;
        CanonPrintable(val);
      }
    case _ =>
  }

  /** Equal values have one canonical form. */
  lemma {:induction false} EqualCanon(v: Js, w: Js)
    requires Value(v) && Value(w) && SemanticallyEqual(v, w)
    ensures Canon(v) == Canon(w)
    decreases v, 1
  {
    match (v, w)
    case (Arr(xs), Arr(ys)) =>
      forall i | 0 <= i < |xs| ensures Canon(xs[i]) == Canon(ys[i]) { EqualCanon(xs[i], ys[i]); }
    case (Obj(es), Obj(fs)) =>
      forall key ensures Lookup(CanonEntries(es), key) == Lookup(CanonEntries(fs), key) {
        assert SameMember(es, fs, key);
        EqualMember(es, fs, key);
      }
      CanonMembers(es, "");
      CanonMembers(fs, "");
      CanonKeys(es);
      CanonKeys(fs);
      SortedSame(CanonEntries(es), CanonEntries(fs));
    case _ =>
  }

  lemma {:induction false} EqualMember(es: seq<Entry>, fs: seq<Entry>, key: string)
    requires Values(es) && Values(fs) && SameMember(es, fs, key)
    ensures Lookup(CanonEntries(es), key) == Lookup(CanonEntries(fs), key)
    decreases es, 0
  {
    CanonMembers(es, key);
    CanonMembers(fs, key);
    if Lookup(es, key).Some? { EqualCanon(Lookup(es, key).value, Lookup(fs, key).value); }
  }

  /** The canonical form forgets nothing else. */
  lemma {:induction false} CanonEqual(v: Js, w: Js)
    requires Value(v) && Value(w) && Canon(v) == Canon(w)
    ensures SemanticallyEqual(v, w)
    decreases v
  {
    match (v, w)
    case (Arr(xs), Arr(ys)) =>
      assert |Canon(v).items| == |xs| && |Canon(w).items| == |ys|;
      forall i | 0 <= i < |xs| ensures SemanticallyEqual(xs[i], ys[i]) {
        assert Canon(v).items[i] == Canon(xs[i]) && Canon(w).items[i] == Canon(ys[i]);
        CanonEqual(xs[i], ys[i]);
      }
    case (Obj(es), Obj(fs)) =>
      forall key ensures SameMember(es, fs, key) {
        CanonMembers(es, key);
        CanonMembers(fs, key);
        if Lookup(es, key).Some? { CanonEqual(Lookup(es, key).value, Lookup(fs, key).value); }
      }
    case _ =>
  }

  /** Two values have the same key exactly if they are equal up to member order and undefined members. */
  lemma StableKeyIsCanonical(v: Js, w: Js)
    requires Value(v) && Value(w)
    ensures StableKey(v) == StableKey(w) <==> SemanticallyEqual(v, w)
  {
    if SemanticallyEqual(v, w) { EqualCanon(v, w); }
    if StableKey(v) == StableKey(w) {
      CanonPrintable(v);
      CanonPrintable(w);
      PrintPrefix(Canon(v), Canon(w), "", "");
      CanonEqual(v, w);
    }
  }

  // ---- How values are written ------------------------------------------------------------------

  /** Text that needs no escape is written between quotes as it is. */
  lemma {:induction false} PlainChars(s: string)
    requires forall i :: 0 <= i < |s| ==> s[i] >= ' ' && s[i] != '"' && s[i] != '\\'
    ensures QuoteChars(s) == s
  {
    if s != "" {
      PlainChars(s[1..]);
      assert s == [s[0]] + s[1..];
    }
  }

  lemma PlainQuote(s: string)
    requires forall i :: 0 <= i < |s| ==> s[i] >= ' ' && s[i] != '"' && s[i] != '\\'
    ensures Quote(s) == "\"" + s + "\""
  {
    PlainChars(s);
  }

  /** Scalars are written as their literals, arrays and objects with commas between their parts. */
  lemma WrittenAsJson(a: Js, b: Js, k: string, l: string)
    ensures Print(Js.Null) == "null" && Print(Js.Bool(true)) == "true" && Print(Js.Bool(false)) == "false" && Print(Js.Str(k)) == Quote(k)
    ensures Print(Js.Arr([])) == "[]" && Print(Js.Obj([])) == "{}"
    ensures Print(Js.Arr([a, b])) == "[" + (Print(a) + ("," + (Print(b) + "]")))
    ensures Print(Js.Obj([Entry(k, a), Entry(l, b)])) ==
            "{" + (Quote(k) + (":" + (Print(a) + ("," + (Quote(l) + (":" + (Print(b) + "}")))))))
  {
    PairItems(a, b);
    PairEntries(a, b, k, l);
  }

  lemma PairItems(a: Js, b: Js)
    ensures PrintItems([a, b], true) == Print(a) + ("," + (Print(b) + "]"))
  {
    assert [a, b][1..] == [b] && [b][1..] == [];
    assert PrintItems([b], false) == "," + (Print(b) + PrintItems([], false));
    assert "" + (Print(a) + PrintItems([b], false)) == Print(a) + PrintItems([b], false);
  }

  lemma PairEntries(a: Js, b: Js, k: string, l: string)
    ensures PrintEntries([Entry(k, a), Entry(l, b)], true) ==
            Quote(k) + (":" + (Print(a) + ("," + (Quote(l) + (":" + (Print(b) + "}"))))))
  {
    var rest := [Entry(l, b)];
    assert [Entry(k, a), Entry(l, b)][1..] == rest && rest[1..] == [];
    assert PrintEntries(rest, false) == "," + (Quote(l) + (":" + (Print(b) + PrintEntries([], false))));
    var text := Quote(k) + (":" + (Print(a) + PrintEntries(rest, false)));
    assert "" + text == text;
  }
}
