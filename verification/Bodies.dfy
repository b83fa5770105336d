/**
 Message bodies: how a body is delimited, and forwarding it verbatim while a bounded
 copy of its payload is teed off.
 */
module Bodies {
  import opened Basics
  import opened PyText
  import opened Streams
  import opened Headers

  const CHUNK: nat := 65536

  // ------------------------------------------------------------------- framing

  /** Which side sent the message; a response is framed by its request as well. */
  datatype Role = OfRequest | OfResponse(status: int, verb: string)

  datatype Framing = NoBody | Sized(length: int) | Chunked | UntilEof

  predicate IsBodiless(role: Role) {
    role.OfResponse? && (role.status == 204 || role.status == 304 || 100 <= role.status < 200 || Lower(role.verb) == "head")
  }

  function TextOr(o: Option<string>): string {
    match o case None => "" case Some(v) => v
  }

  predicate SaysChunked(fs: seq<Field>) {
    Contains(Lower(TextOr(Get(fs, "transfer-encoding"))), "chunked")
  }

  function DeclaredLength(value: string): Option<int> {
    IntOfText(FirstPart(Strip(value), ','))
  }

  /** How the body under these fields is delimited; None is a protocol error. */
  function FramingOf(fs: seq<Field>, role: Role): Option<Framing> {
    if IsBodiless(role) then Some(NoBody)
    else if SaysChunked(fs) then Some(Chunked)
    else match Get(fs, "content-length")
      case Some(value) =>
        (match DeclaredLength(value)
         case None => None
         case Some(n) => Some(Sized(n)))
      case None => Some(if role.OfResponse? then UntilEof else NoBody)
  }

  // ----------------------------------------------------- specification of pumping

  datatype Ending = Complete | ProtocolFault | ShortRead

  /** What pumping a body does: how it ends, what it wrote, the payload, what is left unread. */
  datatype Pumped = Pumped(ending: Ending, written: string, payload: string, rest: string)

  function PumpSized(n: int, input: string): Pumped {
    if n <= 0 then Pumped(Complete, "", "", input)
    else if |input| < n then Pumped(ProtocolFault, input, input, "")
    else Pumped(Complete, input[..n], input[..n], input[n..])
  }

  /** The size that a chunk line announces; an empty size counts as zero. */
  function ChunkSize(line: string): Option<int> {
    var text := Trim(FirstPart(line, ';'), ByteSpace);
    if text == "" then Some(0) else IntOfBytes(text, 16)
  }

  /** The trailer section: lines up to a blank one, or to the end of the input. */
  function Trailers(input: string): (t: string)
    ensures t <= input
    decreases |input|
  {
    var line := Line(input);
    if line == "" || IsBlank(line) then line
    else
      var more := Trailers(input[|line|..]);
      assert input == line + input[|line|..];
      line + more
  }

  function Preceded(written: string, payload: string, p: Pumped): Pumped {
    p.(written := written + p.written, payload := payload + p.payload)
  }

  function PumpChunks(input: string): (p: Pumped)
    ensures |p.rest| <= |input|
    decreases |input|
  {
    var line := Line(input);
    var after := input[|line|..];
    if line == "" then Pumped(ProtocolFault, "", "", "")
    else match ChunkSize(line)
      case None => Pumped(ProtocolFault, line, "", after)
      case Some(size) => Preceded(line, "", PumpAfterSize(size, after))
  }

  /** What follows a size line: the trailers after the last chunk, else data and two bytes. */
  function PumpAfterSize(size: int, input: string): (p: Pumped)
    ensures |p.rest| <= |input|
    decreases |input|
  {
    if size == 0 then Pumped(Complete, Trailers(input), "", input[|Trailers(input)|..])
    else
      var data := PumpSized(size, input);
      if data.ending != Complete then data
      else if |data.rest| < 2 then Pumped(ShortRead, data.written, data.payload, "")
      else Preceded(data.written + data.rest[..2], data.payload, PumpChunks(data.rest[2..]))
  }

  function Pump(framing: Framing, input: string): (p: Pumped)
    ensures |p.rest| <= |input|
  {
    match framing
    case NoBody => Pumped(Complete, "", "", input)
    case Sized(n) => PumpSized(n, input)
    case UntilEof => Pumped(Complete, input, input, "")
    case Chunked => PumpChunks(input)
  }

  /** The part of a payload that a capture limit lets through. */
  function Captured(payload: string, limit: int): string {
    payload[..Min(Max(0, limit), |payload|)]
  }

  // ------------------------------------------------------------------- the tee

  datatype BodyResult = BodyResult(captured: string, total: nat, truncated: bool)

  /** Accumulates up to `limit` bytes of a streamed body. */
  class Tee {
    const limit: nat
    var buf: string
    var total: nat
    var truncated: bool

    constructor (limit: int)
      ensures this.limit == Max(0, limit) && Holds("")
    {
      this.limit := Max(0, limit);
      buf, total, truncated := "", 0, false;
    }

    /** The tee has seen exactly `payload`. */
    ghost predicate Holds(payload: string)
      reads this
    {
      buf == Captured(payload, limit) && total == |payload| && (truncated <==> |payload| > limit)
    }

    method Feed(data: string)
      modifies this
      ensures forall payload: string :: data != "" && old(Holds(payload)) ==> Holds(payload + data)
      ensures data == "" ==> buf == old(buf) && total == old(total)
    {
      total := total + |data|;
      if limit == 0 {
        truncated := true;
        return;
      }
      var room := limit - |buf|;
      if room <= 0 {
        truncated := true;
        return;
      }
      buf := buf + data[..Min(room, |data|)];
      if |data| > room {
        truncated := true;
      }
    }

    method Result() returns (r: BodyResult)
      ensures r == BodyResult(buf, total, truncated)
    {
      r := BodyResult(buf, total, truncated);
    }
  }

  // ------------------------------------------------------------------ pumping

  /** Forwards `n` bytes, in whatever pieces they arrive. */
  method PumpExactly(reader: Reader, writer: Writer?, tee: Tee, n: int, ghost seen: string) returns (ok: bool)
    requires tee.Holds(seen)
    modifies reader, writer, tee
    ensures var p := PumpSized(n, old(reader.unread));
      && (ok <==> p.ending == Complete)
      && reader.unread == p.rest
      && (writer != null ==> writer.log == old(writer.log) + p.written)
      && tee.Holds(seen + p.payload)
  {
    var remaining := n;
    ghost var input := reader.unread;
    ghost var passed := "";
    while remaining > 0
      invariant n > 0 ==> remaining == n - |passed| && remaining >= 0
      invariant n <= 0 ==> passed == "" && remaining == n
      invariant input == passed + reader.unread
      invariant writer != null ==> writer.log == old(writer.log) + passed
      invariant tee.Holds(seen + passed)
      decreases remaining
    {
      var data := reader.Read(Min(CHUNK, remaining));
      if data == "" {
        assert input == passed;
        return false;
      }
      remaining := remaining - |data|;
      tee.Feed(data);
      if writer != null {
        writer.Write(data);
      }
      assert seen + passed + data == seen + (passed + data);
      passed := passed + data;
    }
    assert n > 0 ==> passed == input[..n];
    ok := true;
  }

  method PumpToEnd(reader: Reader, writer: Writer?, tee: Tee)
    requires tee.Holds("")
    modifies reader, writer, tee
    ensures reader.unread == ""
    ensures writer != null ==> writer.log == old(writer.log) + old(reader.unread)
    ensures tee.Holds(old(reader.unread))
  {
    ghost var passed := "";
    while true
      invariant old(reader.unread) == passed + reader.unread
      invariant writer != null ==> writer.log == old(writer.log) + passed
      invariant tee.Holds(passed)
      decreases |reader.unread|
    {
      var data := reader.Read(CHUNK);
      if data == "" { break; }
      tee.Feed(data);
      if writer != null {
        writer.Write(data);
      }
      passed := passed + data;
    }
    assert passed == old(reader.unread);
  }

  method PumpTrailers(reader: Reader, writer: Writer?)
    modifies reader, writer
    ensures old(reader.unread) == Trailers(old(reader.unread)) + reader.unread
    ensures writer != null ==> writer.log == old(writer.log) + Trailers(old(reader.unread))
  {
    ghost var start := if writer == null then "" else writer.log;
    ghost var input := reader.unread;
    ghost var passed := "";
    while true
      invariant input == passed + reader.unread
      invariant Trailers(input) == passed + Trailers(reader.unread)
      invariant writer != null ==> writer.log == start + passed
      decreases |reader.unread|
    {
      ghost var left := reader.unread;
      var trailer := reader.ReadLine();
      assert left[|trailer|..] == reader.unread;
      SeqAssoc(passed, trailer, reader.unread);
      SeqAssoc(passed, trailer, Trailers(reader.unread));
      SeqAssoc(start, passed, trailer);
      if writer != null {
        writer.Write(trailer);
      }
      passed := passed + trailer;
      if trailer == "" || IsBlank(trailer) {
        assert Trailers(left) == trailer;
        return;
      }
    }
  }

  lemma PrecededTwice(w1: string, p1: string, w2: string, p2: string, p: Pumped)
    ensures Preceded(w1, p1, Preceded(w2, p2, p)) == Preceded(w1 + w2, p1 + p2, p)
  {
    assert w1 + (w2 + p.written) == (w1 + w2) + p.written;
    assert p1 + (p2 + p.payload) == (p1 + p2) + p.payload;
  }

  lemma ChunkStep(input: string, line: string, after: string)
    requires line == Line(input) && after == input[|line|..]
    ensures PumpChunks(input) ==
      if line == "" then Pumped(ProtocolFault, "", "", "")
      else match ChunkSize(line)
        case None => Pumped(ProtocolFault, line, "", after)
        case Some(size) => Preceded(line, "", PumpAfterSize(size, after))
  {
  }

  /** Forwards one chunk after its size line, with the two bytes that close it. */
  method PumpChunk(reader: Reader, writer: Writer?, tee: Tee, size: int, ghost seen: string) returns (ending: Ending)
    requires tee.Holds(seen)
    modifies reader, writer, tee
    ensures var data := PumpSized(size, old(reader.unread));
      && tee.Holds(seen + data.payload)
      && (if data.ending != Complete then
            ending == ProtocolFault && reader.unread == data.rest
            && (writer != null ==> writer.log == old(writer.log) + data.written)
          else if |data.rest| < 2 then
            ending == ShortRead && reader.unread == ""
            && (writer != null ==> writer.log == old(writer.log) + data.written)
          else
            ending == Complete && reader.unread == data.rest[2..]
            && (writer != null ==> writer.log == old(writer.log) + (data.written + data.rest[..2])))
  {
    var ok := PumpExactly(reader, writer, tee, size, seen);
    if !ok { return ProtocolFault; }
    var okCrlf, crlf := reader.ReadExactly(2);
    if !okCrlf { return ShortRead; }
    if writer != null {
      writer.Write(crlf);
    }
    ending := Complete;
  }

  /** Forwards the chunk framing untouched and tees the decoded payload. */
  method PumpEncoded(reader: Reader, writer: Writer?, tee: Tee) returns (ending: Ending)
    requires tee.Holds("")
    modifies reader, writer, tee
    ensures var p := PumpChunks(old(reader.unread));
      && ending == p.ending && reader.unread == p.rest
      && (writer != null ==> writer.log == old(writer.log) + p.written)
      && tee.Holds(p.payload)
  {
    ghost var start := if writer == null then "" else writer.log;
    ghost var written, payload := "", "";
    while true
      invariant PumpChunks(old(reader.unread)) == Preceded(written, payload, PumpChunks(reader.unread))
      invariant writer != null ==> writer.log == start + written
      invariant tee.Holds(payload)
      decreases |reader.unread|
    {
      ghost var input := reader.unread;
      var line := reader.ReadLine();
      ghost var after := reader.unread;
      assert input[|line|..] == after;
      ChunkStep(input, line, after);
      if line == "" {
        assert written + "" == written && payload + "" == payload;
        return ProtocolFault;
      }
      if writer != null {
        writer.Write(line);
      }
      SeqAssoc(start, written, line);
      var size := ChunkSize(line);
      if size.Some? {
        PrecededTwice(written, payload, line, "", PumpAfterSize(size.value, after));
      }
      assert payload + "" == payload;
      written := written + line;
      if size == None { return ProtocolFault; }
      if size.value == 0 {
        PumpTrailers(reader, writer);
        SeqAssoc(start, written, Trailers(after));
        assert after[|Trailers(after)|..] == reader.unread;
        return Complete;
      }
      ghost var data := PumpSized(size.value, after);
      var chunk := PumpChunk(reader, writer, tee, size.value, payload);
      SeqAssoc(start, written, data.written);
      if chunk != Complete { return chunk; }
      ghost var passed := data.written + data.rest[..2];
      SeqAssoc(start, written, passed);
      PrecededTwice(written, payload, passed, data.payload, PumpChunks(reader.unread));
      written, payload := written + passed, payload + data.payload;
    }
  }

  /**
   Forwards a body verbatim while teeing a bounded copy. Only the input decides what
   is read, written and captured; how the reads split it does not.
   */
  method PumpBody(reader: Reader, writer: Writer?, framing: Framing, limit: int)
    returns (ending: Ending, result: BodyResult)
    modifies reader, writer
    ensures var p := Pump(framing, old(reader.unread));
      && ending == p.ending && reader.unread == p.rest
      && (writer != null ==> writer.log == old(writer.log) + p.written)
      && result == BodyResult(Captured(p.payload, limit), |p.payload|, |p.payload| > Max(0, limit))
  {
    var tee := new Tee(limit);
    ending := Complete;
    match framing {
      case NoBody =>
      case Sized(n) =>
        var ok := PumpExactly(reader, writer, tee, n, "");
        if !ok { ending := ProtocolFault; }
      case UntilEof =>
        PumpToEnd(reader, writer, tee);
      case Chunked =>
        ending := PumpEncoded(reader, writer, tee);
    }
    result := tee.Result();
  }
}
