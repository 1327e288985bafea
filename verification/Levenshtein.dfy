/** The single-row edit distance, and that it is the length of a shortest edit script. */
module Levenshtein {
  function Min(a: nat, b: nat): nat {
    if a <= b then a else b
  }

  function Init(s: string): string
    requires s != ""
  {
    s[..|s| - 1]
  }

  function Last(s: string): char
    requires s != ""
  {
    s[|s| - 1]
  }

  /** The recurrence of the table: equal last characters take the diagonal. */
  function Distance(a: string, b: string): nat
    decreases |a| + |b|
  {
    if a == "" then |b|
    else if b == "" then |a|
    else if Last(a) == Last(b) then Distance(Init(a), Init(b))
    else Min(Distance(Init(a), Init(b)), Min(Distance(Init(a), b), Distance(a, Init(b)))) + 1
  }

  /** The table cell of two prefixes. */
  function Cell(a: string, b: string, i: nat, j: nat): nat
    requires i <= |a| && j <= |b|
  {
    Distance(a[..i], b[..j])
  }

  lemma CellStep(a: string, b: string, i: nat, j: nat)
    requires 1 <= i <= |a| && 1 <= j <= |b|
    ensures Cell(a, b, i, j) ==
            if a[i - 1] == b[j - 1] then Cell(a, b, i - 1, j - 1)
            else Min(Cell(a, b, i - 1, j - 1), Min(Cell(a, b, i - 1, j), Cell(a, b, i, j - 1))) + 1
  {
    assert Init(a[..i]) == a[..i - 1] && Init(b[..j]) == b[..j - 1];
  }

  lemma CellEdge(a: string, b: string)
    ensures forall j :: 0 <= j <= |b| ==> Cell(a, b, 0, j) == j
    ensures forall i :: 0 <= i <= |a| ==> Cell(a, b, i, 0) == i
    ensures Cell(a, b, |a|, |b|) == Distance(a, b)
  {
    assert a[..|a|] == a && b[..|b|] == b && a[..0] == "" && b[..0] == "";
  }

  /** One row of the table over the one before, in place. */
  method NextRow(a: string, b: string, i: nat, dp: array<nat>)
    requires 1 <= i <= |a| && dp.Length == |b| + 1
    requires forall k :: 0 <= k <= |b| ==> dp[k] == Cell(a, b, i - 1, k)
    modifies dp
    ensures forall k :: 0 <= k <= |b| ==> dp[k] == Cell(a, b, i, k)
  {
    CellEdge(a, b);
    var prev := dp[0];
    dp[0] := i;
    for j := 1 to |b| + 1
      invariant forall k :: 0 <= k < j ==> dp[k] == Cell(a, b, i, k)
      invariant forall k :: j <= k <= |b| ==> dp[k] == Cell(a, b, i - 1, k)
      invariant prev == Cell(a, b, i - 1, j - 1)
    {
      CellStep(a, b, i, j);
      var tmp := dp[j];
      dp[j] := if a[i - 1] == b[j - 1] then prev else Min(prev, Min(dp[j], dp[j - 1])) + 1;
      prev := tmp;
    }
  }

  /** `_lev`: one row, overwritten for every character of `a`. */
  method Lev(a: string, b: string) returns (d: nat)
    ensures d == Distance(a, b)
  {
    var m, n := |a|, |b|;
    if m == 0 { return n; }
    if n == 0 { return m; }
    CellEdge(a, b);
    var dp := new nat[n + 1];
    for j := 0 to n + 1
      invariant forall k :: 0 <= k < j ==> dp[k] == k
    {
      dp[j] := j;
    }
    for i := 1 to m + 1
      invariant forall k :: 0 <= k <= n ==> dp[k] == Cell(a, b, i - 1, k)
    {
      NextRow(a, b, i, dp);
    }
    d := dp[n];
  }

  // ---- Edit scripts -------------------------------------------------------------

  /** `s` becomes `t` by inserting, deleting or substituting one character. */
  ghost predicate OneEdit(s: string, t: string) {
    exists p, x, y, r :: EditAt(s, t, p, x, y, r)
  }

  predicate EditAt(s: string, t: string, p: string, x: string, y: string, r: string) {
    |x| <= 1 && |y| <= 1 && |x| + |y| >= 1 && s == p + x + r && t == p + y + r
  }

  /** A script is the strings it passes through. */
  ghost predicate IsScript(path: seq<string>, a: string, b: string) {
    && path != [] && path[0] == a && path[|path| - 1] == b
    && forall i :: 0 <= i < |path| - 1 ==> OneEdit(path[i], path[i + 1])
  }

  lemma {:induction false} Symmetric(a: string, b: string)
    ensures Distance(a, b) == Distance(b, a)
    decreases |a| + |b|
  {
    if a != "" && b != "" {
      Symmetric(Init(a), Init(b));
      Symmetric(Init(a), b);
      Symmetric(a, Init(b));
    }
  }

  lemma Snoc(p: string, c: char)
    ensures p + [c] != "" && Init(p + [c]) == p && Last(p + [c]) == c
  {
  }

  /** Adding a last character moves the distance by at most one. */
  lemma {:induction false} LastCharacter(p: string, c: char, b: string)
    ensures Distance(p + [c], b) <= Distance(p, b) + 1
    ensures Distance(p, b) <= Distance(p + [c], b) + 1
    decreases |p| + |b|
  {
    Snoc(p, c);
    if b != "" {
      var q, e := Init(b), Last(b);
      assert b == q + [e];
      Symmetric(p, q);
      Symmetric(p, b);
      LastCharacter(q, e, p);
      LastCharacter(p, c, q);
    }
  }

  lemma {:induction false} LastSubstituted(p: string, c: char, d: char, b: string)
    ensures Distance(p + [c], b) <= Distance(p + [d], b) + 1
    decreases |b|
  {
    Snoc(p, c);
    Snoc(p, d);
    LastCharacter(p, c, b);
    LastCharacter(p, d, b);
    if b != "" {
      var q, e := Init(b), Last(b);
      assert b == q + [e];
      Symmetric(p, q);
      Symmetric(p, b);
      LastCharacter(q, e, p);
      LastCharacter(p, d, q);
      LastSubstituted(p, c, d, q);
    }
  }

  /** One edit anywhere moves the distance to any string by at most one. */
  lemma {:induction false} EditMovesByOne(p: string, x: string, y: string, r: string, b: string)
    requires |x| <= 1 && |y| <= 1
    ensures Distance(p + x + r, b) <= Distance(p + y + r, b) + 1
    decreases |r| + |b|
  {
    if r == "" {
      assert p + x + r == p + x && p + y + r == p + y;
      if x == "" { assert p + x == p; }
      if y == "" { assert p + y == p; }
      if x != "" && y != "" {
        assert x == [x[0]] && y == [y[0]];
        LastSubstituted(p, x[0], y[0], b);
      } else if x != "" {
        assert x == [x[0]];
        LastCharacter(p, x[0], b);
      } else if y != "" {
        assert y == [y[0]];
        LastCharacter(p, y[0], b);
      }
    } else if b != "" {
      var r0, s, t := Init(r), p + x + r, p + y + r;
      assert Init(s) == p + x + r0 && Init(t) == p + y + r0 && Last(s) == Last(r) && Last(t) == Last(r);
      EditMovesByOne(p, x, y, r0, Init(b));
      EditMovesByOne(p, x, y, r0, b);
      EditMovesByOne(p, x, y, r, Init(b));
    }
  }

  /** No script is shorter than the distance. */
  lemma {:induction false} ScriptAtLeast(path: seq<string>, a: string, b: string)
    requires IsScript(path, a, b)
    ensures Distance(a, b) <= |path| - 1
  {
    if |path| == 1 {
      SameDistance(a);
    } else {
      var p, x, y, r :| EditAt(path[0], path[1], p, x, y, r);
      EditMovesByOne(p, x, y, r, b);
      forall i | 0 <= i < |path[1..]| - 1 ensures OneEdit(path[1..][i], path[1..][i + 1]) {
        assert OneEdit(path[i + 1], path[i + 2]);
      }
      ScriptAtLeast(path[1..], path[1], b);
    }
  }

  lemma {:induction false} SameDistance(a: string)
    ensures Distance(a, a) == 0
  {
    if a != "" { SameDistance(Init(a)); }
  }

  function Extended(path: seq<string>, c: char): seq<string> {
    seq(|path|, i requires 0 <= i < |path| => path[i] + [c])
  }

  /** A script still works with one more character at the end of everything. */
  lemma ExtendScript(path: seq<string>, a: string, b: string, c: char)
    requires IsScript(path, a, b)
    ensures IsScript(Extended(path, c), a + [c], b + [c])
  {
    forall i | 0 <= i < |path| - 1 ensures OneEdit(path[i] + [c], path[i + 1] + [c]) {
      assert OneEdit(path[i], path[i + 1]);
      var p, x, y, r :| EditAt(path[i], path[i + 1], p, x, y, r);
      assert EditAt(path[i] + [c], path[i + 1] + [c], p, x, y, r + [c]);
    }
  }

  lemma AppendEdit(path: seq<string>, a: string, b: string, c: string)
    requires IsScript(path, a, b) && OneEdit(b, c)
    ensures IsScript(path + [c], a, c)
  {
  }

  lemma PrependEdit(path: seq<string>, a: string, b: string, c: string)
    requires IsScript(path, b, c) && OneEdit(a, b)
    ensures IsScript([a] + path, a, c)
  {
  }

  lemma LastEdit(p: string, x: string, y: string)
    requires |x| <= 1 && |y| <= 1 && |x| + |y| >= 1
    ensures OneEdit(p + x, p + y)
  {
    assert EditAt(p + x, p + y, p, x, y, "") by {
      assert p + x + "" == p + x && p + y + "" == p + y;
    }
  }

  lemma {:induction false} ShortestScript(a: string, b: string) returns (path: seq<string>)
    ensures IsScript(path, a, b) && |path| - 1 == Distance(a, b)
    decreases |a| + |b|
  {
    if a == "" && b == "" {
      path := [""];
    } else if a == "" {
      path := InsertLast(a, b);
    } else if b == "" {
      path := DeleteLast(a, b);
    } else if Last(a) == Last(b) {
      path := ShortestScript(Init(a), Init(b));
      ExtendScript(path, Init(a), Init(b), Last(a));
      assert Init(a) + [Last(a)] == a && Init(b) + [Last(b)] == b;
      path := Extended(path, Last(a));
    } else {
      var diagonal, up, left := Distance(Init(a), Init(b)), Distance(Init(a), b), Distance(a, Init(b));
      if diagonal <= up && diagonal <= left {
        path := ShortestScript(Init(a), Init(b));
        ExtendScript(path, Init(a), Init(b), Last(a));
        assert Init(a) + [Last(a)] == a && Init(b) + [Last(b)] == b;
        LastEdit(Init(b), [Last(a)], [Last(b)]);
        AppendEdit(Extended(path, Last(a)), a, Init(b) + [Last(a)], b);
        path := Extended(path, Last(a)) + [b];
      } else if up <= left {
        path := DeleteLast(a, b);
      } else {
        path := InsertLast(a, b);
      }
    }
  }

  lemma InsertLast(a: string, b: string) returns (path: seq<string>)
    requires b != ""
    ensures IsScript(path, a, b) && |path| - 1 == Distance(a, Init(b)) + 1
    decreases |a| + |b|, 0
  {
    path := ShortestScript(a, Init(b));
    LastEdit(Init(b), "", [Last(b)]);
    assert Init(b) + "" == Init(b) && Init(b) + [Last(b)] == b;
    AppendEdit(path, a, Init(b), b);
    path := path + [b];
  }

  lemma DeleteLast(a: string, b: string) returns (path: seq<string>)
    requires a != ""
    ensures IsScript(path, a, b) && |path| - 1 == Distance(Init(a), b) + 1
    decreases |a| + |b|, 0
  {
    path := ShortestScript(Init(a), b);
    LastEdit(Init(a), [Last(a)], "");
    assert Init(a) + "" == Init(a) && Init(a) + [Last(a)] == a;
    PrependEdit(path, a, Init(a), b);
    path := [a] + path;
  }

  /** The distance is the length of a shortest script. */
  lemma DistanceIsShortest(a: string, b: string)
    ensures exists path :: IsScript(path, a, b) && |path| - 1 == Distance(a, b)
    ensures forall path :: IsScript(path, a, b) ==> Distance(a, b) <= |path| - 1
  {
    var path := ShortestScript(a, b);
    forall other | IsScript(other, a, b) ensures Distance(a, b) <= |other| - 1 {
      ScriptAtLeast(other, a, b);
    }
  }

  /** So the distance is a metric. */
  lemma DistanceIsMetric(a: string, b: string, c: string)
    ensures Distance(a, b) == 0 <==> a == b
    ensures Distance(a, b) == Distance(b, a)
    ensures Distance(a, c) <= Distance(a, b) + Distance(b, c)
  {
    Symmetric(a, b);
    SameDistance(a);
    var first := ShortestScript(a, b);
    if Distance(a, b) == 0 { assert |first| == 1; }
    var second := ShortestScript(b, c);
    var both := first + second[1..];
    forall i | 0 <= i < |both| - 1 ensures OneEdit(both[i], both[i + 1]) {
      if i < |first| - 1 {
        assert OneEdit(first[i], first[i + 1]);
      } else {
        assert OneEdit(second[i - |first| + 1], second[i - |first| + 2]);
      }
    }
    ScriptAtLeast(both, a, c);
  }
}
