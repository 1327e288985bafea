/** Cutting a stream of output into lines, chunk by chunk. */
module LogLines {
  const MAX_LINE_LENGTH: nat := 8192

  /** The lines of a text as far as their newlines came, each still with its carriage return. */
  function Terminated(text: string): seq<string> {
    if text == "" then []
    else
      var most, c := text[..|text| - 1], text[|text| - 1];
      if c == '\n' then Terminated(most) + [Tail(most)] else Terminated(most)
  }

  /** What follows the last newline. */
  function Tail(text: string): string {
    if text == "" || text[|text| - 1] == '\n' then "" else Tail(text[..|text| - 1]) + [text[|text| - 1]]
  }

  function Strip(line: string): string {
    if line != "" && line[|line| - 1] == '\r' then line[..|line| - 1] else line
  }

  function Stripped(lines: seq<string>): (r: seq<string>)
    ensures |r| == |lines|
  {
    seq(|lines|, i requires 0 <= i < |lines| => Strip(lines[i]))
  }

  /** `split(/\r?\n/)`: the terminated lines without their line ends, then the rest. */
  function Split(text: string): (r: seq<string>)
    ensures |r| > 0
  {
    Stripped(Terminated(text)) + [Tail(text)]
  }

  /** Output without a newline is cut into full lines. */
  function Cuts(partial: string): seq<string> {
    if |partial| > MAX_LINE_LENGTH then [partial[..MAX_LINE_LENGTH]] + Cuts(partial[MAX_LINE_LENGTH..]) else []
  }

  function Remainder(partial: string): (r: string)
    ensures |r| <= MAX_LINE_LENGTH
  {
    if |partial| > MAX_LINE_LENGTH then Remainder(partial[MAX_LINE_LENGTH..]) else partial
  }

  /** The lines that a chunk completes after `partial`, and what then waits. */
  function Completed(partial: string, chunk: string): seq<string> {
    Stripped(Terminated(partial + chunk)) + Cuts(Tail(partial + chunk))
  }

  function Left(partial: string, chunk: string): string {
    Remainder(Tail(partial + chunk))
  }

  /** The lines that the chunks of one stream complete, and what waits after them. */
  function Fed(partial: string, chunks: seq<string>): seq<string>
    decreases chunks
  {
    if chunks == [] then [] else Completed(partial, chunks[0]) + Fed(Left(partial, chunks[0]), chunks[1..])
  }

  function LeftAfter(partial: string, chunks: seq<string>): string
    decreases chunks
  {
    if chunks == [] then partial else LeftAfter(Left(partial, chunks[0]), chunks[1..])
  }

  function Concat(chunks: seq<string>): string {
    if chunks == [] then "" else chunks[0] + Concat(chunks[1..])
  }

  // ---- Splitting and cutting go on where they stopped ----------------------------------------

  lemma Associate(a: seq<string>, b: seq<string>, c: seq<string>)
    ensures (a + b) + c == a + (b + c)
  {
  }

  lemma TerminatedPush(text: string, c: char)
    ensures Terminated(text + [c]) == Terminated(text) + if c == '\n' then [Tail(text)] else []
    ensures Tail(text + [c]) == if c == '\n' then "" else Tail(text) + [c]
  {
    assert (text + [c])[..|text|] == text;
  }

  lemma Shift(a: string, b: string, c: char)
    ensures a + (b + [c]) == (a + b) + [c]
  {
  }

  lemma ConcatOne(a: string, b: string, c: char)
    requires Terminated(a + b) == Terminated(a) + Terminated(Tail(a) + b) && Tail(a + b) == Tail(Tail(a) + b)
    ensures Terminated((a + b) + [c]) == Terminated(a) + Terminated((Tail(a) + b) + [c])
    ensures Tail((a + b) + [c]) == Tail((Tail(a) + b) + [c])
  {
    TerminatedPush(a + b, c);
    TerminatedPush(Tail(a) + b, c);
    Associate(Terminated(a), Terminated(Tail(a) + b), if c == '\n' then [Tail(a + b)] else []);
  }

  lemma {:induction false} TerminatedConcat(a: string, b: string)
    ensures Terminated(a + b) == Terminated(a) + Terminated(Tail(a) + b)
    ensures Tail(a + b) == Tail(Tail(a) + b)
  {
    if b == "" {
      TailAlone(a);
      assert a + b == a && Tail(a) + b == Tail(a);
    } else {
      var most, c := b[..|b| - 1], b[|b| - 1];
      TerminatedConcat(a, most);
      assert b == most + [c];
      Shift(a, most, c);
      Shift(Tail(a), most, c);
      ConcatOne(a, most, c);
    }
  }

  lemma {:induction false} TailAlone(a: string)
    ensures Terminated(Tail(a)) == [] && Tail(Tail(a)) == Tail(a)
  {
    if a != "" && a[|a| - 1] != '\n' {
      TailAlone(a[..|a| - 1]);
      var t := Tail(a);
      assert t[..|t| - 1] == Tail(a[..|a| - 1]);
    }
  }

  lemma {:induction false} CutsConcat(x: string, c: string)
    ensures Cuts(x + c) == Cuts(x) + Cuts(Remainder(x) + c)
    ensures Remainder(x + c) == Remainder(Remainder(x) + c)
    decreases |x|
  {
    if |x| > MAX_LINE_LENGTH {
      var rest := x[MAX_LINE_LENGTH..];
      CutsConcat(rest, c);
      assert (x + c)[..MAX_LINE_LENGTH] == x[..MAX_LINE_LENGTH] && (x + c)[MAX_LINE_LENGTH..] == rest + c;
    }
  }

  // ---- Chunks --------------------------------------------------------------------------------

  ghost predicate ShortLines(text: string) {
    forall l :: l in Terminated(text) ==> |l| <= MAX_LINE_LENGTH
  }

  lemma StrippedConcat(a: seq<string>, b: seq<string>)
    ensures Stripped(a + b) == Stripped(a) + Stripped(b)
  {
  }

  lemma {:induction false} NoNewline(x: string)
    ensures Terminated(x) == [] <==> '\n' !in x
    ensures '\n' !in x ==> Tail(x) == x
  {
    if x != "" {
      NoNewline(x[..|x| - 1]);
      assert x == x[..|x| - 1] + [x[|x| - 1]];
    }
  }

  lemma {:induction false} TailPlain(x: string)
    ensures '\n' !in Tail(x)
  {
    if x != "" { TailPlain(x[..|x| - 1]); }
  }

  /** Text without a newline stays in front of the first line that ends. */
  lemma {:induction false} FirstLine(t: string, c: string)
    requires '\n' !in t
    ensures Terminated(t + c) != [] ==> |Terminated(t + c)[0]| >= |t| && Terminated(t + c)[0] in Terminated(t + c)
    ensures Terminated(t + c) == [] ==> |Tail(t + c)| >= |t|
  {
    if c == "" {
      NoNewline(t);
      assert t + c == t;
    } else {
      var most := c[..|c| - 1];
      FirstLine(t, most);
      assert (t + c)[..|t + c| - 1] == t + most;
    }
  }

  lemma ExtendShort(u: string, c: string)
    requires |Tail(u)| <= MAX_LINE_LENGTH
    ensures Completed("", u + c) == Completed("", u) + Completed(Left("", u), c)
    ensures Left("", u + c) == Left(Left("", u), c)
  {
    var t := Tail(u);
    TerminatedConcat(u, c);
    StrippedConcat(Terminated(u), Terminated(t + c));
    ShortFirst(u);
    CompletedFirst(u + c);
    Associate(Stripped(Terminated(u)), Stripped(Terminated(t + c)), Cuts(Tail(t + c)));
  }

  lemma ShortFirst(u: string)
    requires |Tail(u)| <= MAX_LINE_LENGTH
    ensures Completed("", u) == Stripped(Terminated(u)) && Left("", u) == Tail(u)
  {
    CompletedFirst(u);
    assert Stripped(Terminated(u)) + [] == Stripped(Terminated(u));
  }

  /** A tail that is too long may only grow. */
  lemma LongGrows(u: string, c: string)
    requires ShortLines(u + c) && |Tail(u)| > MAX_LINE_LENGTH
    ensures '\n' !in Tail(u) + c && Terminated(u + c) == Terminated(u) && Tail(u + c) == Tail(u) + c
  {
    var t := Tail(u);
    TerminatedConcat(u, c);
    TailPlain(u);
    FirstLine(t, c);
    NoNewline(t + c);
  }

  lemma CompletedFirst(u: string)
    ensures Completed("", u) == Stripped(Terminated(u)) + Cuts(Tail(u)) && Left("", u) == Remainder(Tail(u))
  {
    assert "" + u == u;
  }

  lemma CompletedPlain(r: string, c: string)
    requires '\n' !in r + c
    ensures Completed(r, c) == Cuts(r + c) && Left(r, c) == Remainder(r + c)
  {
    NoNewline(r + c);
  }

  lemma ExtendLong(u: string, c: string)
    requires ShortLines(u + c) && |Tail(u)| > MAX_LINE_LENGTH
    ensures Completed("", u + c) == Completed("", u) + Completed(Left("", u), c)
    ensures Left("", u + c) == Left(Left("", u), c)
  {
    LongGrows(u, c);
    RemainderPlain(Tail(u));
    CompletedFirst(u);
    CompletedFirst(u + c);
    CompletedPlain(Remainder(Tail(u)), c);
    CutsConcat(Tail(u), c);
    Associate(Stripped(Terminated(u)), Cuts(Tail(u)), Cuts(Remainder(Tail(u)) + c));
  }

  lemma {:induction false} RemainderPlain(x: string)
    requires '\n' !in x
    ensures '\n' !in Remainder(x)
    decreases |x|
  {
    if |x| > MAX_LINE_LENGTH { RemainderPlain(x[MAX_LINE_LENGTH..]); }
  }

  lemma ShortPrefix(a: string, b: string)
    requires ShortLines(a + b)
    ensures ShortLines(a)
  {
    TerminatedConcat(a, b);
  }

  lemma Extend(u: string, c: string)
    requires ShortLines(u + c)
    ensures Completed("", u + c) == Completed("", u) + Completed(Left("", u), c)
    ensures Left("", u + c) == Left(Left("", u), c)
  {
    if |Tail(u)| <= MAX_LINE_LENGTH { ExtendShort(u, c); } else { ExtendLong(u, c); }
  }

  lemma {:induction false} FedJoins(u: string, chunks: seq<string>)
    requires ShortLines(u + Concat(chunks))
    ensures Completed("", u) + Fed(Left("", u), chunks) == Completed("", u + Concat(chunks))
    ensures LeftAfter(Left("", u), chunks) == Left("", u + Concat(chunks))
    decreases chunks
  {
    if chunks == [] {
      assert u + "" == u;
    } else {
      var c, rest := chunks[0], Concat(chunks[1..]);
      assert u + (c + rest) == (u + c) + rest;
      ShortPrefix(u + c, rest);
      Extend(u, c);
      FedJoins(u + c, chunks[1..]);
      Associate(Completed("", u), Completed(Left("", u), c), Fed(Left("", u + c), chunks[1..]));
    }
  }

  /** Chunks of a text whose lines are short complete the lines that splitting the text yields. */
  lemma ShortChunks(text: string, chunks: seq<string>)
    requires ShortLines(text) && Concat(chunks) == text
    ensures Fed("", chunks) == Stripped(Terminated(text)) + Cuts(Tail(text))
    ensures LeftAfter("", chunks) == Remainder(Tail(text))
  {
    CompletedFirst("");
    CompletedFirst(text);
    assert "" + text == text && [] + Fed("", chunks) == Fed("", chunks);
    FedJoins("", chunks);
  }

  // ---- A long line shows ------------------------------------------------------------------------

  lemma {:induction false} LineAt(text: string, l: string) returns (a: string, b: string)
    requires l in Terminated(text)
    ensures text == a + (['\n'] + b) && Tail(a) == l
  {
    var most, c := text[..|text| - 1], text[|text| - 1];
    if c == '\n' && l == Tail(most) {
      a, b := most, "";
    } else {
      a, b := LineAt(most, l);
      b := b + [c];
    }
  }

  lemma EndsAlone(t: string)
    requires '\n' !in t
    ensures Terminated(t + ['\n']) == [t] && Tail(t + ['\n']) == ""
  {
    NoNewline(t);
    assert (t + ['\n'])[..|t|] == t;
  }

  /** A newline ends the line before it. */
  lemma EndsLine(t: string, b: string)
    requires '\n' !in t
    ensures Terminated(t + (['\n'] + b)) == [t] + Terminated(b) && Tail(t + (['\n'] + b)) == Tail(b)
  {
    EndsAlone(t);
    assert t + (['\n'] + b) == (t + ['\n']) + b;
    TerminatedConcat(t + ['\n'], b);
    assert "" + b == b;
  }

  lemma FedOne(p: string, c: string)
    ensures Fed(p, [c]) == Completed(p, c)
  {
    assert Fed(Left(p, c), [c][1..]) == [];
  }

  lemma FedTwo(p: string, c: string, d: string)
    ensures Fed(p, [c, d]) == Completed(p, c) + Completed(Left(p, c), d)
  {
    FedOne(Left(p, c), d);
    assert [c, d][1..] == [d];
  }

  /** How many lines come out of a line that ends. */
  lemma EndedCount(t: string, b: string)
    requires '\n' !in t
    ensures |Completed(t, ['\n'] + b)| == 1 + |Terminated(b)| + |Cuts(Tail(b))|
  {
    EndsLine(t, b);
  }

  lemma WholeCount(a: string, b: string)
    ensures |Completed("", a + (['\n'] + b))| == |Terminated(a)| + 1 + |Terminated(b)| + |Cuts(Tail(b))|
  {
    TailPlain(a);
    TerminatedConcat(a, ['\n'] + b);
    EndsLine(Tail(a), b);
    CompletedFirst(a + (['\n'] + b));
  }

  /** Cut off before its newline, a long line comes out as several. */
  lemma LongLineShows(a: string, b: string)
    requires |Tail(a)| > MAX_LINE_LENGTH
    ensures |Fed("", [a, ['\n'] + b])| > |Fed("", [a + (['\n'] + b)])|
  {
    TailPlain(a);
    RemainderPlain(Tail(a));
    CompletedFirst(a);
    FedTwo("", a, ['\n'] + b);
    FedOne("", a + (['\n'] + b));
    WholeCount(a, b);
    EndedCount(Remainder(Tail(a)), b);
  }

  /** All chunkings of a text complete the same lines exactly if none of its terminated lines, with
      its carriage return, is longer than the limit. */
  lemma ChunkIndependence(text: string)
    ensures ShortLines(text) <==> forall chunks :: Concat(chunks) == text ==> Fed("", chunks) == Fed("", [text])
  {
    Whole(text);
    if ShortLines(text) {
      forall chunks | Concat(chunks) == text ensures Fed("", chunks) == Fed("", [text]) {
        ShortChunks(text, chunks);
        ShortChunks(text, [text]);
      }
    } else {
      var l :| l in Terminated(text) && |l| > MAX_LINE_LENGTH;
      var a, b := LineAt(text, l);
      LongLineShows(a, b);
      assert Concat([a, ['\n'] + b]) == a + Concat([['\n'] + b]) == text by { Whole(['\n'] + b); }
    }
  }

  lemma Whole(text: string)
    ensures Concat([text]) == text
  {
    assert Concat([text]) == text + Concat([text][1..]);
  }

  // ---- What splitting means -----------------------------------------------------------------------

  function Rejoined(lines: seq<string>): string {
    if lines == [] then "" else Rejoined(lines[..|lines| - 1]) + lines[|lines| - 1] + ['\n']
  }

  /** The lines are those between the newlines, in order, and nothing is lost. */
  lemma {:induction false} SplitRejoins(text: string)
    ensures Rejoined(Terminated(text)) + Tail(text) == text
    ensures forall l :: l in Terminated(text) + [Tail(text)] ==> '\n' !in l
  {
    if text != "" {
      var most := text[..|text| - 1];
      SplitRejoins(most);
      TailPlain(text);
      assert text == most + [text[|text| - 1]];
      if text[|text| - 1] == '\n' {
        var ls := Terminated(text);
        assert ls[..|ls| - 1] == Terminated(most);
      }
    }
  }

  /** A text without a newline is one line, whatever it ends with. */
  lemma OneLine(line: string)
    requires '\n' !in line
    ensures Split(line) == [line]
  {
    NoNewline(line);
  }

  /** A line ends with a newline, or with a carriage return and a newline. */
  lemma LineEnds(line: string, rest: string)
    requires '\n' !in line
    ensures line == "" || line[|line| - 1] != '\r' ==> Split(line + (['\n'] + rest)) == [line] + Split(rest)
    ensures Split((line + ['\r']) + (['\n'] + rest)) == [line] + Split(rest)
  {
    EndsLine(line, rest);
    EndsLine(line + ['\r'], rest);
    StrippedConcat([line], Terminated(rest));
    StrippedConcat([line + ['\r']], Terminated(rest));
    assert (line + ['\r'])[..|line|] == line;
    assert Stripped([line + ['\r']]) == [line];
    assert line == "" || line[|line| - 1] != '\r' ==> Stripped([line]) == [line];
  }

  function Joined(lines: seq<string>): string {
    if lines == [] then "" else lines[0] + Joined(lines[1..])
  }

  /** A long rest is cut into full lines, nothing of it is lost, and something is left to wait. */
  lemma {:induction false} CutsRejoin(partial: string)
    ensures Joined(Cuts(partial)) + Remainder(partial) == partial
    ensures forall l :: l in Cuts(partial) ==> |l| == 8192
    ensures |Remainder(partial)| <= 8192 && (partial != "" ==> Remainder(partial) != "")
    decreases |partial|
  {
    if |partial| > MAX_LINE_LENGTH {
      var rest := partial[MAX_LINE_LENGTH..];
      CutsRejoin(rest);
      assert Cuts(partial)[1..] == Cuts(rest);
      assert partial == partial[..MAX_LINE_LENGTH] + rest;
    }
  }
}
