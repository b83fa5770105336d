/**
 What holds of framing and pumping for every input: forwarding is verbatim, chunked
 bodies are consumed exactly, and the next hop frames a message as this one did.
 */
module BodyTheorems {
  import opened Basics
  import opened PyText
  import opened Streams
  import opened Headers
  import opened Heads
  import opened HeadReading
  import opened Bodies

  // -------------------------------------------------------- verbatim forwarding

  /** The bytes that pumping takes off the reader. */
  function Consumed(input: string, p: Pumped): string
    requires |p.rest| <= |input|
  {
    input[..|input| - |p.rest|]
  }

  /**
   On every input, however malformed, pumping consumes a prefix and writes just the
   bytes it consumed; only a short read inside a chunk terminator loses a byte.
   */
  predicate Verbatim(input: string, p: Pumped) {
    && |p.rest| <= |input| && input == Consumed(input, p) + p.rest
    && p.written <= Consumed(input, p)
    && (p.ending != ShortRead ==> p.written == Consumed(input, p))
    && (p.ending == ShortRead ==> |Consumed(input, p)| <= |p.written| + 1 && p.rest == "")
  }

  lemma VerbatimPreceded(head: string, payload: string, tail: string, p: Pumped)
    requires Verbatim(tail, p)
    ensures Verbatim(head + tail, Preceded(head, payload, p))
  {
    var input := head + tail;
    assert Consumed(input, Preceded(head, payload, p)) == head + Consumed(tail, p);
  }

  lemma {:induction false} ChunksVerbatim(input: string)
    ensures Verbatim(input, PumpChunks(input))
    decreases |input|, 1
  {
    var line := Line(input);
    var after := input[|line|..];
    assert input == line + after;
    ChunkStep(input, line, after);
    if line != "" && ChunkSize(line).Some? {
      AfterSizeVerbatim(ChunkSize(line).value, after);
      VerbatimPreceded(line, "", after, PumpAfterSize(ChunkSize(line).value, after));
    }
  }

  lemma {:induction false} AfterSizeVerbatim(size: int, input: string)
    ensures Verbatim(input, PumpAfterSize(size, input))
    decreases |input|, 2
  {
    if size != 0 {
      var data := PumpSized(size, input);
      if data.ending == Complete && |data.rest| >= 2 {
        var passed := data.written + data.rest[..2];
        assert input == passed + data.rest[2..];
        ChunksVerbatim(data.rest[2..]);
        VerbatimPreceded(passed, data.payload, data.rest[2..], PumpChunks(data.rest[2..]));
      }
    }
  }

  lemma PumpVerbatim(framing: Framing, input: string)
    ensures Verbatim(input, Pump(framing, input))
  {
    if framing.Chunked? {
      ChunksVerbatim(input);
    }
  }

  // ------------------------------------------------------------ chunked bodies

  datatype Chunk = Chunk(sizeLine: string, data: string, closing: string)

  /** A chunked body as it stands on the wire. */
  datatype ChunkedBody = ChunkedBody(chunks: seq<Chunk>, lastLine: string, trailers: seq<string>, closing: string)

  function ShowChunks(chunks: seq<Chunk>): string {
    if chunks == [] then ""
    else chunks[0].sizeLine + chunks[0].data + chunks[0].closing + ShowChunks(chunks[1..])
  }

  function PayloadOf(chunks: seq<Chunk>): string {
    if chunks == [] then "" else chunks[0].data + PayloadOf(chunks[1..])
  }

  function TrailerPart(m: ChunkedBody): string {
    Concat(m.trailers) + m.closing
  }

  function ShowBody(m: ChunkedBody): string {
    ShowChunks(m.chunks) + m.lastLine + TrailerPart(m)
  }

  /** A chunk announces the size of its data and closes with two bytes. */
  predicate GoodChunk(c: Chunk) {
    && IsLine(c.sizeLine) && ChunkSize(c.sizeLine).Some? && ChunkSize(c.sizeLine).value != 0
    && |c.data| == Max(0, ChunkSize(c.sizeLine).value) && |c.closing| == 2
  }

  predicate GoodChunks(chunks: seq<Chunk>) {
    forall c :: c in chunks ==> GoodChunk(c)
  }

  /** A line; at the end of the input it may lack its LF. */
  predicate IsLineAt(s: string, atEnd: bool) {
    IsLine(s) || (atEnd && s != "" && Unterminated(s))
  }

  /** Trailer lines and the blank line after them; an open section stops at the end of the input instead. */
  predicate GoodTrailers(trailers: seq<string>, closing: string, open: bool) {
    && (forall i :: 0 <= i < |trailers| ==>
          IsLineAt(trailers[i], open && i == |trailers| - 1) && !IsBlank(trailers[i]))
    && (if open then closing == "" else IsBlank(closing))
  }

  predicate GoodBody(m: ChunkedBody, open: bool) {
    && GoodChunks(m.chunks)
    && IsLineAt(m.lastLine, open && m.trailers == []) && ChunkSize(m.lastLine) == Some(0)
    && GoodTrailers(m.trailers, m.closing, open)
  }

  lemma LineOfLineAt(l: string, atEnd: bool, rest: string)
    requires IsLineAt(l, atEnd) && (atEnd && !IsLine(l) ==> rest == "")
    ensures Line(l + rest) == l && (l + rest)[|l|..] == rest
  {
    if IsLine(l) {
      LineOfLine(l, rest);
    } else {
      assert l + rest == l;
      LineOfUnterminated(l);
    }
  }

  lemma {:induction false} TrailersExact(trailers: seq<string>, closing: string, open: bool, suffix: string)
    requires GoodTrailers(trailers, closing, open) && (open ==> suffix == "")
    ensures Trailers(Concat(trailers) + closing + suffix) == Concat(trailers) + closing
    decreases |trailers|
  {
    var input := Concat(trailers) + closing + suffix;
    if trailers == [] {
      assert input == closing + suffix;
      if open {
        assert input == "";
      } else {
        assert closing[..|closing| - 1] == (if closing == "\n" then "" else "\r");
        LineOfLine(closing, suffix);
      }
    } else {
      var rest := Concat(trailers[1..]) + closing + suffix;
      assert input == trailers[0] + rest;
      assert GoodTrailers(trailers[1..], closing, open) by {
        assert forall i :: 0 <= i < |trailers[1..]| ==> trailers[1..][i] == trailers[i + 1];
      }
      assert open && |trailers| == 1 ==> rest == "";
      LineOfLineAt(trailers[0], open && |trailers| == 1, rest);
      TrailersExact(trailers[1..], closing, open, suffix);
      SeqAssoc(trailers[0], Concat(trailers[1..]), closing);
    }
  }

  /** After the chunks: the last size line and the trailer section are consumed exactly. */
  lemma LastChunkExact(m: ChunkedBody, open: bool, suffix: string)
    requires GoodBody(m, open) && (open ==> suffix == "")
    ensures PumpChunks(m.lastLine + TrailerPart(m) + suffix) == Pumped(Complete, m.lastLine + TrailerPart(m), "", suffix)
  {
    var after := TrailerPart(m) + suffix;
    SeqAssoc(m.lastLine, TrailerPart(m), suffix);
    LineOfLineAt(m.lastLine, open && m.trailers == [], after);
    TrailersExact(m.trailers, m.closing, open, suffix);
    SplitConcat(TrailerPart(m), suffix);
    ChunkStep(m.lastLine + after, m.lastLine, after);
  }

  lemma SizedExact(n: int, data: string, rest: string)
    requires |data| == Max(0, n)
    ensures PumpSized(n, data + rest) == Pumped(Complete, data, data, rest)
  {
    SplitConcat(data, rest);
  }

  lemma AfterSizeExact(c: Chunk, rest: string)
    requires GoodChunk(c)
    ensures PumpAfterSize(ChunkSize(c.sizeLine).value, c.data + (c.closing + rest)) ==
      Preceded(c.data + c.closing, c.data, PumpChunks(rest))
  {
    SizedExact(ChunkSize(c.sizeLine).value, c.data, c.closing + rest);
    SplitConcat(c.closing, rest);
  }

  lemma ChunkExact(c: Chunk, rest: string)
    requires GoodChunk(c)
    ensures PumpChunks(c.sizeLine + c.data + c.closing + rest) ==
      Preceded(c.sizeLine + c.data + c.closing, c.data, PumpChunks(rest))
  {
    var after := c.data + (c.closing + rest);
    var input := c.sizeLine + after;
    SeqAssoc(c.sizeLine + c.data, c.closing, rest);
    SeqAssoc(c.sizeLine, c.data, c.closing + rest);
    LineOfLine(c.sizeLine, after);
    SplitConcat(c.sizeLine, after);
    ChunkStep(input, c.sizeLine, after);
    AfterSizeExact(c, rest);
    PrecededTwice(c.sizeLine, "", c.data + c.closing, c.data, PumpChunks(rest));
    SeqAssoc(c.sizeLine, c.data, c.closing);
    assert "" + c.data == c.data;
  }

  lemma ShowBodyCons(c: Chunk, less: ChunkedBody)
    ensures ShowBody(less.(chunks := [c] + less.chunks)) == c.sizeLine + c.data + c.closing + ShowBody(less)
    ensures PayloadOf([c] + less.chunks) == c.data + PayloadOf(less.chunks)
  {
    var head := c.sizeLine + c.data + c.closing;
    assert ([c] + less.chunks)[1..] == less.chunks;
    SeqAssoc(head, ShowChunks(less.chunks), less.lastLine);
    SeqAssoc(head, ShowChunks(less.chunks) + less.lastLine, TrailerPart(less));
  }

  lemma ChunkedExactCons(m: ChunkedBody, suffix: string)
    requires m.chunks != [] && GoodChunk(m.chunks[0])
    requires var less := m.(chunks := m.chunks[1..]);
      PumpChunks(ShowBody(less) + suffix) == Pumped(Complete, ShowBody(less), PayloadOf(less.chunks), suffix)
    ensures PumpChunks(ShowBody(m) + suffix) == Pumped(Complete, ShowBody(m), PayloadOf(m.chunks), suffix)
  {
    var c, less := m.chunks[0], m.(chunks := m.chunks[1..]);
    assert less.(chunks := [c] + less.chunks) == m;
    ShowBodyCons(c, less);
    SeqAssoc(c.sizeLine + c.data + c.closing, ShowBody(less), suffix);
    ChunkExact(c, ShowBody(less) + suffix);
  }

  lemma GoodBodyTail(m: ChunkedBody, open: bool)
    requires GoodBody(m, open) && m.chunks != []
    ensures GoodChunk(m.chunks[0]) && GoodBody(m.(chunks := m.chunks[1..]), open)
  {
  }

  lemma GoodBodyCons(c: Chunk, less: ChunkedBody, open: bool)
    requires GoodChunk(c) && GoodBody(less, open)
    ensures GoodBody(less.(chunks := [c] + less.chunks), open)
  {
  }

  lemma ShowLast(m: ChunkedBody)
    requires m.chunks == []
    ensures ShowBody(m) == m.lastLine + TrailerPart(m)
  {
  }

  /**
   Chunked exactness: whatever the chunks, extensions, trailers and following bytes,
   pumping consumes exactly the body, forwards it byte for byte and decodes its payload.
   */
  lemma {:induction false} ChunkedExact(m: ChunkedBody, open: bool, suffix: string)
    requires GoodBody(m, open) && (open ==> suffix == "")
    ensures PumpChunks(ShowBody(m) + suffix) == Pumped(Complete, ShowBody(m), PayloadOf(m.chunks), suffix)
    decreases |m.chunks|
  {
    if m.chunks == [] {
      LastChunkExact(m, open, suffix);
      ShowLast(m);
    } else {
      GoodBodyTail(m, open);
      ChunkedExact(m.(chunks := m.chunks[1..]), open, suffix);
      ChunkedExactCons(m, suffix);
    }
  }

  lemma NothingLeft(trailers: seq<string>, closing: string, open: bool)
    requires GoodTrailers(trailers, closing, open)
    ensures Concat(trailers) + closing == "" ==> trailers == [] && open
  {
    if trailers != [] {
      assert IsLineAt(trailers[0], open && 0 == |trailers| - 1);
      assert |Concat(trailers)| > 0;
    }
  }

  lemma GoodTrailersCons(line: string, more: seq<string>, closing: string, open: bool)
    requires GoodTrailers(more, closing, open) && !IsBlank(line) && IsLineAt(line, open && more == [])
    ensures GoodTrailers([line] + more, closing, open)
  {
    var trailers := [line] + more;
    assert forall i :: 0 < i < |trailers| ==> trailers[i] == more[i - 1];
  }

  lemma {:induction false} TrailersDecompose(input: string) returns (trailers: seq<string>, closing: string, open: bool)
    ensures GoodTrailers(trailers, closing, open)
    ensures Trailers(input) == Concat(trailers) + closing && (open ==> Trailers(input) == input)
    decreases |input|
  {
    var line := Line(input);
    if line == "" {
      trailers, closing, open := [], "", true;
    } else if IsBlank(line) {
      trailers, closing, open := [], line, false;
    } else {
      LineShape(input);
      var rest := input[|line|..];
      assert input == line + rest;
      var more: seq<string>;
      more, closing, open := TrailersDecompose(rest);
      trailers := [line] + more;
      assert trailers[1..] == more;
      SeqAssoc(line, Concat(more), closing);
      if !IsLine(line) {
        assert rest == "";
        NothingLeft(more, closing, open);
      }
      GoodTrailersCons(line, more, closing, open);
    }
  }

  /** Conversely, whatever pumping accepts is such a body, with the payload it decoded. */
  lemma {:induction false} ChunkedDecompose(input: string) returns (m: ChunkedBody, open: bool)
    requires PumpChunks(input).ending == Complete
    ensures GoodBody(m, open)
    ensures input == ShowBody(m) + PumpChunks(input).rest && (open ==> PumpChunks(input).rest == "")
    ensures PumpChunks(input).payload == PayloadOf(m.chunks)
    decreases |input|
  {
    var line := Line(input);
    var after := input[|line|..];
    assert input == line + after;
    ChunkStep(input, line, after);
    LineShape(input);
    var size := ChunkSize(line).value;
    if size == 0 {
      m, open := LastDecompose(line, after);
      SeqAssoc(line, Trailers(after), PumpChunks(input).rest);
    } else {
      var c, rest := ChunkDecompose(line, size, after);
      var less: ChunkedBody;
      less, open := ChunkedDecompose(rest);
      m := less.(chunks := [c] + less.chunks);
      GoodBodyCons(c, less, open);
      ShowBodyCons(c, less);
      SeqAssoc(c.sizeLine + c.data + c.closing, ShowBody(less), PumpChunks(input).rest);
    }
  }

  lemma LastDecompose(line: string, after: string) returns (m: ChunkedBody, open: bool)
    requires (IsLine(line) || (after == "" && line != "" && Unterminated(line))) && ChunkSize(line) == Some(0)
    ensures GoodBody(m, open) && m.chunks == [] && ShowBody(m) == line + Trailers(after)
    ensures open ==> Trailers(after) == after
  {
    var trailers, closing;
    trailers, closing, open := TrailersDecompose(after);
    m := ChunkedBody([], line, trailers, closing);
    assert "" + line == line;
    if !IsLine(line) {
      NothingLeft(trailers, closing, open);
    }
  }

  lemma SizedSplit(n: int, input: string)
    ensures var p := PumpSized(n, input); p.payload == p.written && input == p.payload + p.rest
  {
  }

  lemma RejoinPieces<T>(a: seq<T>, b: seq<T>, k: nat)
    requires k <= |b|
    ensures a + b == a + b[..k] + b[k..]
  {
  }

  lemma ChunkDecompose(line: string, size: int, after: string) returns (c: Chunk, rest: string)
    requires line != "" && ChunkSize(line) == Some(size) && size != 0
    requires IsLine(line) || after == ""
    requires PumpAfterSize(size, after).ending == Complete
    ensures GoodChunk(c) && c.sizeLine == line && after == c.data + c.closing + rest
    ensures PumpAfterSize(size, after) == Preceded(c.data + c.closing, c.data, PumpChunks(rest))
    ensures |rest| <= |after| && line + after == c.sizeLine + c.data + c.closing + rest
  {
    var data := PumpSized(size, after);
    c, rest := Chunk(line, data.payload, data.rest[..2]), data.rest[2..];
    SizedSplit(size, after);
    RejoinPieces(data.payload, data.rest, 2);
    SeqAssoc(line, c.data, c.closing);
    SeqAssoc(line, c.data + c.closing, rest);
  }

  /** A body stands at the start of the input; an open one takes all of it. */
  predicate Begins(m: ChunkedBody, open: bool, input: string) {
    GoodBody(m, open) && ShowBody(m) <= input && (open ==> ShowBody(m) == input)
  }

  lemma BegunIsComplete(m: ChunkedBody, open: bool, input: string)
    requires Begins(m, open, input)
    ensures PumpChunks(input).ending == Complete
  {
    var suffix := input[|ShowBody(m)|..];
    assert ShowBody(m) + suffix == input;
    ChunkedExact(m, open, suffix);
  }

  /** A chunked body is completed exactly when one stands at the start of the input. */
  lemma ChunkedIff(input: string)
    ensures PumpChunks(input).ending == Complete <==> exists m, open :: Begins(m, open, input)
  {
    if PumpChunks(input).ending == Complete {
      var m, open := ChunkedDecompose(input);
      assert Begins(m, open, input);
    }
    if m, open :| Begins(m, open, input) {
      BegunIsComplete(m, open, input);
    }
  }
}
