/** Decimal numerals, RFC 6901 escaping, component references and JSON Pointers. */
module Pointers {
  import opened Options
  import opened JsonValues

  // ---- Decimal numerals -------------------------------------------------

  function Digit(d: nat): char
    requires d < 10
  {
    "0123456789"[d]
  }

  predicate IsDigit(c: char) {
    '0' <= c <= '9'
  }

  function Decimal(n: nat): (s: string)
    ensures |s| > 0 && forall i :: 0 <= i < |s| ==> IsDigit(s[i])
  {
    if n < 10 then [Digit(n)] else Decimal(n / 10) + [Digit(n % 10)]
  }

  function DigitValue(c: char): nat
    requires IsDigit(c)
  {
    c as int - '0' as int
  }

  function ParseDecimal(s: string): nat
    requires forall i :: 0 <= i < |s| ==> IsDigit(s[i])
  {
    if s == "" then 0 else ParseDecimal(s[..|s| - 1]) * 10 + DigitValue(s[|s| - 1])
  }

  lemma {:induction false} DecimalRoundTrip(n: nat)
    ensures ParseDecimal(Decimal(n)) == n
    ensures n != 0 ==> Decimal(n)[0] != '0'
    ensures n == 0 ==> Decimal(n) == "0"
  {
    if n >= 10 {
      DecimalRoundTrip(n / 10);
      assert Decimal(n)[..|Decimal(n)| - 1] == Decimal(n / 10);
    } else {
      assert Decimal(n)[..0] == "";
    }
  }

  lemma DecimalInjective(m: nat, n: nat)
    requires Decimal(m) == Decimal(n)
    ensures m == n
  {
    DecimalRoundTrip(m);
    DecimalRoundTrip(n);
  }

  // ---- RFC 6901 escaping ------------------------------------------------

  /** `str::replace` of one character. */
  function Replace(s: string, from: char, to: string): string {
    if s == "" then "" else (if s[0] == from then to else [s[0]]) + Replace(s[1..], from, to)
  }

  function Escape(key: string): string {
    Replace(Replace(key, '~', "~0"), '/', "~1")
  }

  /** The decoding loop of `component_ref_name`: `None` for a bad `~` sequence. */
  function Unescape(s: string): Option<string> {
    if s == "" then Some("")
    else if s[0] != '~' then
      var rest := Unescape(s[1..]);
      if rest.None? then None else Some([s[0]] + rest.value)
    else if |s| == 1 || (s[1] != '0' && s[1] != '1') then None
    else
      var rest := Unescape(s[2..]);
      if rest.None? then None else Some([if s[1] == '0' then '~' else '/'] + rest.value)
  }

  lemma ReplaceHead(c: char, s: string, from: char, to: string)
    ensures Replace([c] + s, from, to) == (if c == from then to else [c]) + Replace(s, from, to)
  {
    assert ([c] + s)[1..] == s;
  }

  lemma {:induction false} EscapeCons(key: string)
    requires key != ""
    ensures Escape(key) ==
            (if key[0] == '~' then "~0" else if key[0] == '/' then "~1" else [key[0]]) + Escape(key[1..])
  {
    var rest := Replace(key[1..], '~', "~0");
    if key[0] == '~' {
      ReplaceHead('~', "0" + rest, '/', "~1");
      ReplaceHead('0', rest, '/', "~1");
      assert "~0" + rest == "~" + ("0" + rest);
    } else {
      ReplaceHead(key[0], rest, '/', "~1");
    }
  }

  /** Escaping is undone by the decoder, and leaves no separator behind. */
  lemma {:induction false} EscapeRoundTrip(key: string)
    ensures Unescape(Escape(key)) == Some(key)
    ensures '/' !in Escape(key)
  {
    if key != "" {
      EscapeRoundTrip(key[1..]);
      EscapeCons(key);
      var head := if key[0] == '~' then "~0" else if key[0] == '/' then "~1" else [key[0]];
      assert (head + Escape(key[1..]))[|head|..] == Escape(key[1..]);
      assert key == [key[0]] + key[1..];
    }
  }

  /** The encodings of a key: `~` is written `~0`, and `/` as it is or `~1`. */
  predicate Spells(s: string, key: string) {
    if key == "" then s == ""
    else if key[0] == '~' then "~0" <= s && Spells(s[2..], key[1..])
    else ([key[0]] <= s && Spells(s[1..], key[1..])) || (key[0] == '/' && "~1" <= s && Spells(s[2..], key[1..]))
  }

  /** The decoder accepts exactly the encodings of a key. */
  lemma {:induction false} UnescapeExactly(s: string, key: string)
    ensures Unescape(s) == Some(key) <==> Spells(s, key)
    decreases |s|
  {
    if s != "" {
      if s[0] != '~' {
        if key != "" { UnescapeExactly(s[1..], key[1..]); }
        Follows(s[0], s[1..], key);
      } else if |s| > 1 && (s[1] == '0' || s[1] == '1') {
        if key != "" { UnescapeExactly(s[2..], key[1..]); }
        Follows(if s[1] == '0' then '~' else '/', s[2..], key);
      }
    }
  }

  lemma Follows(c: char, rest: string, key: string)
    ensures Unescape(rest).Some? ==> ([c] + Unescape(rest).value == key <==> key != "" && key[0] == c && key[1..] == Unescape(rest).value)
  {
    if key != "" { assert key == [key[0]] + key[1..]; }
    if Unescape(rest).Some? { assert ([c] + Unescape(rest).value)[1..] == Unescape(rest).value; }
  }

  // ---- Component references ---------------------------------------------

  const REF_PREFIX := "#/components/schemas/"

  function ComponentRef(name: string): string {
    REF_PREFIX + Escape(name)
  }

  function ComponentRefName(reference: string): Option<string> {
    if REF_PREFIX <= reference then Unescape(reference[|REF_PREFIX|..]) else None
  }

  lemma ComponentRefRoundTrip(name: string)
    ensures ComponentRefName(ComponentRef(name)) == Some(name)
  {
    EscapeRoundTrip(name);
    assert ComponentRef(name)[|REF_PREFIX|..] == Escape(name);
  }

  /** A reference names a component exactly if it is the prefix and an encoding of the name. */
  lemma ComponentRefNameExactly(reference: string, name: string)
    ensures ComponentRefName(reference) == Some(name) <==>
            exists s :: reference == "#/components/schemas/" + s && Spells(s, name)
  {
    if s :| reference == "#/components/schemas/" + s && Spells(s, name) {
      assert reference[|REF_PREFIX|..] == s;
      UnescapeExactly(s, name);
    }
    if REF_PREFIX <= reference {
      var s := reference[|REF_PREFIX|..];
      assert reference == "#/components/schemas/" + s;
      UnescapeExactly(s, name);
    }
  }

  // ---- JSON Pointers ----------------------------------------------------

  datatype Seg = Index(i: nat) | Key(k: string)
  /** A node of an instance, as the way to it from the root. */
  type Node = seq<Seg>

  function Token(seg: Seg): string {
    match seg
    case Index(i) => Decimal(i)
    case Key(k) => k
  }

  function PointerChild(path: string, key: string): string {
    path + "/" + Escape(key)
  }

  function Pointer(node: Node): string {
    if node == [] then "" else PointerChild(Pointer(node[..|node| - 1]), Token(node[|node| - 1]))
  }

  lemma PointerPush(node: Node, seg: Seg)
    ensures Pointer(node + [seg]) == PointerChild(Pointer(node), Token(seg))
  {
    assert (node + [seg])[..|node|] == node;
  }
}
