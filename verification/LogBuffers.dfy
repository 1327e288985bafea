/** The bounded buffer of a service's last lines of output. */
module LogBuffers {
  import opened LogLines

  datatype Stream = Stdout | Stderr | Daemon

  datatype Line = Line(at: nat, stream: Stream, text: string)

  /** A chunk that was appended, and when. */
  datatype Chunk = Chunk(at: nat, stream: Stream, text: string)

  /** The newest `n` of the lines. */
  function Last(lines: seq<Line>, n: nat): (r: seq<Line>)
    ensures |r| == if |lines| < n then |lines| else n
  {
    if |lines| <= n then lines else lines[|lines| - n..]
  }

  /** The newest lines are the end of all lines. */
  lemma LastEnds(lines: seq<Line>, n: nat)
    ensures exists k: nat :: k <= |lines| && lines[k..] == Last(lines, n) && (k == 0 || |lines| - k == n)
  {
    if |lines| <= n {
      assert lines[0..] == Last(lines, n);
    } else {
      assert lines[|lines| - n..] == Last(lines, n);
    }
  }

  /** `slice(start)` of an array. */
  function Slice(lines: seq<Line>, start: int): seq<Line> {
    var from := if start < 0 then |lines| + start else start;
    lines[if from < 0 then 0 else if from > |lines| then |lines| else from..]
  }

  function Partial(partial: map<Stream, string>, stream: Stream): string {
    if stream in partial then partial[stream] else ""
  }

  function Lines(at: nat, stream: Stream, texts: seq<string>): (r: seq<Line>)
    ensures |r| == |texts|
  {
    seq(|texts|, i requires 0 <= i < |texts| => Line(at, stream, texts[i]))
  }

  /** The texts of one stream. */
  function TextsOf(lines: seq<Line>, stream: Stream): seq<string> {
    if lines == [] then []
    else TextsOf(lines[..|lines| - 1], stream) + (var l := lines[|lines| - 1]; if l.stream == stream then [l.text] else [])
  }

  function ChunksOf(chunks: seq<Chunk>, stream: Stream): seq<string> {
    if chunks == [] then []
    else ChunksOf(chunks[..|chunks| - 1], stream) + (var c := chunks[|chunks| - 1]; if c.stream == stream then [c.text] else [])
  }

  /** Each stream's lines are those its own chunks complete, however they interleave with others. */
  ghost predicate FromChunks(pushed: seq<Line>, partial: map<Stream, string>, chunks: seq<Chunk>) {
    forall s: Stream ::
      TextsOf(pushed, s) == Fed("", ChunksOf(chunks, s)) && Partial(partial, s) == LeftAfter("", ChunksOf(chunks, s))
  }

  lemma {:induction false} FedLast(p: string, chunks: seq<string>, c: string)
    ensures Fed(p, chunks + [c]) == Fed(p, chunks) + Completed(LeftAfter(p, chunks), c)
    decreases chunks
  {
    if chunks == [] {
      assert [] + [c] == [c];
      FedOne(p, c);
    } else {
      var q, rest := Left(p, chunks[0]), chunks[1..];
      FedLast(q, rest, c);
      assert (chunks + [c])[1..] == rest + [c];
      Associate(Completed(p, chunks[0]), Fed(q, rest), Completed(LeftAfter(q, rest), c));
    }
  }

  lemma {:induction false} LeftLast(p: string, chunks: seq<string>, c: string)
    ensures LeftAfter(p, chunks + [c]) == Left(LeftAfter(p, chunks), c)
    decreases chunks
  {
    if chunks == [] {
      assert [] + [c] == [c] && LeftAfter(Left(p, c), [c][1..]) == Left(p, c);
    } else {
      LeftLast(Left(p, chunks[0]), chunks[1..], c);
      assert (chunks + [c])[1..] == chunks[1..] + [c];
    }
  }

  lemma TextsPushed(lines: seq<Line>, l: Line, s: Stream)
    ensures TextsOf(lines + [l], s) == TextsOf(lines, s) + if l.stream == s then [l.text] else []
  {
    assert (lines + [l])[..|lines|] == lines;
  }

  lemma AppendedOne(lines: seq<Line>, more: seq<Line>, stream: Stream, texts: seq<string>, l: Line, s: Stream)
    requires TextsOf(more, s) == TextsOf(lines, s) + if s == stream then texts else []
    requires l.stream == stream
    ensures TextsOf(more + [l], s) == TextsOf(lines, s) + if s == stream then texts + [l.text] else []
  {
    TextsPushed(more, l, s);
    Associate(TextsOf(lines, s), if s == stream then texts else [], if s == stream then [l.text] else []);
  }

  lemma {:induction false} TextsAppended(lines: seq<Line>, at: nat, stream: Stream, texts: seq<string>, s: Stream)
    ensures TextsOf(lines + Lines(at, stream, texts), s) == TextsOf(lines, s) + if s == stream then texts else []
  {
    if texts == [] {
      assert lines + Lines(at, stream, texts) == lines;
    } else {
      var most, t := texts[..|texts| - 1], texts[|texts| - 1];
      TextsAppended(lines, at, stream, most, s);
      assert lines + Lines(at, stream, texts) == (lines + Lines(at, stream, most)) + [Line(at, stream, t)];
      assert texts == most + [t];
      AppendedOne(lines, lines + Lines(at, stream, most), stream, most, Line(at, stream, t), s);
    }
  }

  lemma ChunkAppended(chunks: seq<Chunk>, chunk: Chunk, s: Stream)
    ensures ChunksOf(chunks + [chunk], s) == ChunksOf(chunks, s) + if s == chunk.stream then [chunk.text] else []
  {
    assert (chunks + [chunk])[..|chunks|] == chunks;
  }

  lemma AppendedFrom(pushed: seq<Line>, partial: map<Stream, string>, chunks: seq<Chunk>, c: Chunk)
    requires FromChunks(pushed, partial, chunks)
    ensures var p := Partial(partial, c.stream);
            FromChunks(pushed + Lines(c.at, c.stream, Completed(p, c.text)), partial[c.stream := Left(p, c.text)], chunks + [c])
  {
    var p := Partial(partial, c.stream);
    forall s: Stream
      ensures TextsOf(pushed + Lines(c.at, c.stream, Completed(p, c.text)), s) == Fed("", ChunksOf(chunks + [c], s))
      ensures Partial(partial[c.stream := Left(p, c.text)], s) == LeftAfter("", ChunksOf(chunks + [c], s))
    {
      TextsAppended(pushed, c.at, c.stream, Completed(p, c.text), s);
      ChunkAppended(chunks, c, s);
      FedLast("", ChunksOf(chunks, s), c.text);
      LeftLast("", ChunksOf(chunks, s), c.text);
      assert TextsOf(pushed, s) + [] == TextsOf(pushed, s);
      assert ChunksOf(chunks, s) + [] == ChunksOf(chunks, s);
    }
  }

  class LogBuffer {
    const capacity: nat
    var lines: seq<Line>
    var partial: map<Stream, string>
    /** Everything that was ever pushed, and the chunks it came from. */
    ghost var pushed: seq<Line>
    ghost var chunks: seq<Chunk>

    /** The buffer holds the newest lines ever pushed. */
    ghost predicate Valid()
      reads this
    {
      lines == Last(pushed, capacity) && FromChunks(pushed, partial, chunks)
    }

    constructor (capacity: nat)
      ensures Valid() && this.capacity == capacity && pushed == [] && chunks == []
    {
      this.capacity := capacity;
      lines, partial, pushed, chunks := [], map[], [], [];
    }

    method Push(line: Line)
      requires lines == Last(pushed, capacity)
      modifies this`lines, this`pushed
      ensures lines == Last(pushed, capacity) && pushed == old(pushed) + [line]
    {
      lines := lines + [line];
      if |lines| > capacity { lines := lines[|lines| - capacity..]; }
      pushed := pushed + [line];
    }

    method PushAll(stream: Stream, texts: seq<string>, at: nat)
      requires lines == Last(pushed, capacity)
      modifies this`lines, this`pushed
      ensures lines == Last(pushed, capacity) && pushed == old(pushed) + Lines(at, stream, texts)
    {
      for i := 0 to |texts|
        invariant lines == Last(pushed, capacity) && pushed == old(pushed) + Lines(at, stream, texts[..i])
      {
        Push(Line(at, stream, texts[i]));
        assert Lines(at, stream, texts[..i + 1]) == Lines(at, stream, texts[..i]) + [Line(at, stream, texts[i])];
      }
      assert texts[..|texts|] == texts;
    }

    /** What a chunk completes, and what is left of it. */
    method Cut(text: string) returns (parts: seq<string>, rest: string)
      ensures parts == Stripped(Terminated(text)) + Cuts(Tail(text)) && rest == Remainder(Tail(text))
    {
      parts := Split(text);
      rest := parts[|parts| - 1];
      parts := parts[..|parts| - 1];
      while |rest| > MAX_LINE_LENGTH
        invariant parts + Cuts(rest) == Stripped(Terminated(text)) + Cuts(Tail(text))
        invariant Remainder(rest) == Remainder(Tail(text))
        decreases |rest|
      {
        var line := rest[..MAX_LINE_LENGTH];
        assert parts + ([line] + Cuts(rest[MAX_LINE_LENGTH..])) == (parts + [line]) + Cuts(rest[MAX_LINE_LENGTH..]);
        parts := parts + [line];
        rest := rest[MAX_LINE_LENGTH..];
      }
    }

    /** Append a chunk; the completed lines are pushed and returned. */
    method Append(stream: Stream, chunk: string, at: nat) returns (completed: seq<string>)
      requires Valid()
      modifies this
      ensures Valid() && chunks == old(chunks) + [Chunk(at, stream, chunk)]
      ensures completed == Completed(Partial(old(partial), stream), chunk)
      ensures partial == old(partial)[stream := Left(Partial(old(partial), stream), chunk)]
      ensures pushed == old(pushed) + Lines(at, stream, completed)
      ensures forall i :: 0 <= i < |completed| ==> pushed[|old(pushed)| + i] == Line(at, stream, completed[i])
    {
      AppendedFrom(pushed, partial, chunks, Chunk(at, stream, chunk));
      var rest;
      completed, rest := Cut(Partial(partial, stream) + chunk);
      partial := partial[stream := rest];
      PushAll(stream, completed, at);
      chunks := chunks + [Chunk(at, stream, chunk)];
    }

    /** The newest `limit` lines; a limit of zero returns all that are held, and a negative one leaves out the oldest. */
    method Newest(limit: int) returns (r: seq<Line>)
      requires Valid()
      ensures limit > 0 ==> r == Last(pushed, if limit < capacity then limit else capacity)
      ensures limit == 0 ==> r == Last(pushed, capacity)
      ensures limit < 0 ==> r == Last(Last(pushed, capacity), if |Last(pushed, capacity)| < -limit then 0 else |Last(pushed, capacity)| + limit)
    {
      r := Slice(lines, -limit);
    }
  }

  /** If a stream's terminated lines are short, the lines that were pushed for it are those of its
      whole text, however that came in chunks and whatever came between. */
  lemma PushedLines(pushed: seq<Line>, partial: map<Stream, string>, chunks: seq<Chunk>, s: Stream)
    requires FromChunks(pushed, partial, chunks) && ShortLines(Concat(ChunksOf(chunks, s)))
    ensures var text := Concat(ChunksOf(chunks, s));
            TextsOf(pushed, s) == Stripped(Terminated(text)) + Cuts(Tail(text)) && Partial(partial, s) == Remainder(Tail(text))
  {
    ShortChunks(Concat(ChunksOf(chunks, s)), ChunksOf(chunks, s));
  }
}
