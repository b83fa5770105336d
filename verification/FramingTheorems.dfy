/**
 What holds of message framing across the proxy: the next hop frames what it receives
 as the proxy framed it, and when stripping leaves the sender's own framing intact.
 */
module FramingTheorems {
  import opened Basics
  import opened PyText
  import opened Streams
  import opened Headers
  import opened Heads
  import opened HeadReading
  import opened Bodies
  import opened BodyTheorems

  // ------------------------------------------------- framing and value margins

  lemma GetNormalised(fs: seq<Field>, name: string)
    ensures Get(Normalised(fs), name) ==
      match Get(fs, name) case None => None case Some(v) => Some(Strip(v))
  {
    if fs != [] {
      GetNormalised(fs[1..], name);
      NormalisedCons(fs);
      assert Normalised(fs)[1..] == Normalised(fs[1..]);
    }
  }

  lemma ChunkedIgnoresMargins(v: string)
    ensures Contains(Lower(Strip(v)), "chunked") <==> Contains(Lower(v), "chunked")
  {
    var a, b := TrimMargins(v, Space);
    ContainsIgnoresMargins(a, Strip(v), b, "chunked");
  }

  lemma LengthIgnoresMargins(v: string)
    ensures DeclaredLength(Strip(v)) == DeclaredLength(v)
  {
    var a, b := TrimMargins(v, Space);
    TrimIdempotent(Strip(v), Space);
  }

  /** Framing looks through the white space that folding leaves around a value. */
  lemma FramingOfNormalised(fs: seq<Field>, role: Role)
    ensures FramingOf(Normalised(fs), role) == FramingOf(fs, role)
  {
    GetNormalised(fs, "transfer-encoding");
    GetNormalised(fs, "content-length");
    ChunkedIgnoresMargins(TextOr(Get(fs, "transfer-encoding")));
    if Get(fs, "content-length").Some? {
      LengthIgnoresMargins(Get(fs, "content-length").value);
    }
  }

  // ------------------------------------------------------------- the next hop

  /** The head that goes on: hop-by-hop fields stripped, the target possibly rewritten. */
  function Outgoing(r: Request, target: string): Request {
    r.(target := if target == "" then r.target else target, fields := Forwarded(r.fields))
  }

  lemma OutgoingShown(r: Request, target: string)
    ensures ShowRequest(r.(fields := Forwarded(r.fields)), target) == ShowRequest(Outgoing(r, target), "")
  {
  }

  lemma ForwardedAccepted(fs: seq<Field>)
    requires AllAccepted(fs)
    ensures AllAccepted(Forwarded(fs)) && |Forwarded(fs)| <= |fs|
  {
    WithoutContents(fs, DropSet(fs));
    WithoutShorter(fs, DropSet(fs));
  }

  lemma WithoutShorter(fs: seq<Field>, drop: set<string>)
    ensures |Without(fs, drop)| <= |fs|
  {
  }

  /** A target that fits on a request line. */
  predicate IsTarget(target: string) {
    ' ' !in target && Unterminated(target)
  }

  /**
   Next-hop agreement for requests: a receiver that reads heads as the proxy does gets
   the same fields up to white space margins, and frames the body as the proxy pumped it.
   */
  lemma NextHopAgreesOnRequest(r: Request, target: string, body: string)
    requires Sendable(r) && IsTarget(target)
    ensures var out := ShowRequest(r.(fields := Forwarded(r.fields)), target);
      var (reading, rest) := ReadRequest(out + body);
      if |out| <= MAX_HEADER_BYTES
      then rest == body && reading.Head? && reading.head.fields == Normalised(Forwarded(r.fields))
        && FramingOf(reading.head.fields, OfRequest) == FramingOf(Forwarded(r.fields), OfRequest)
      else reading == Malformed
  {
    OutgoingShown(r, target);
    ForwardedAccepted(r.fields);
    ReadShownRequest(Outgoing(r, target), body);
    FramingOfNormalised(Forwarded(r.fields), OfRequest);
  }

  lemma NextHopAgreesOnResponse(r: Response, verb: string, body: string)
    requires SendableResponse(r)
    ensures var sent := r.(fields := Forwarded(r.fields));
      var (reading, rest) := ReadResponse(ShowResponse(sent) + body);
      if |ShowResponse(sent)| <= MAX_HEADER_BYTES
      then rest == body && reading.Head? && reading.head == NormalResponse(sent)
        && FramingOf(reading.head.fields, OfResponse(reading.head.status, verb))
          == FramingOf(sent.fields, OfResponse(r.status, verb))
      else reading == Malformed
  {
    var sent := r.(fields := Forwarded(r.fields));
    ForwardedAccepted(r.fields);
    ReadShownResponse(sent, body);
    FramingOfNormalised(sent.fields, OfResponse(r.status, verb));
  }

  /** Pumping what pumping wrote gives the same body again and leaves what follows. */
  lemma PumpReplays(framing: Framing, input: string, suffix: string)
    requires var p := Pump(framing, input);
      p.ending == Complete && (suffix == "" || !framing.UntilEof?) && (framing.Chunked? && p.rest == "" ==> suffix == "")
    ensures var p := Pump(framing, input);
      Pump(framing, p.written + suffix) == p.(rest := suffix)
  {
    var p := Pump(framing, input);
    match framing {
      case Chunked =>
        var m, open := ChunkedDecompose(input);
        PumpVerbatim(framing, input);
        assert ShowBody(m) == input[..|ShowBody(m)|];
        assert p.written == ShowBody(m);
        ChunkedExact(m, open, suffix);
      case NoBody => assert "" + suffix == suffix;
      case UntilEof => assert p.written + "" == p.written;
      case Sized(n) =>
        var again := p.written + suffix;
        if n <= 0 {
          assert again == suffix;
        } else {
          assert again[..n] == p.written && again[n..] == suffix;
        }
    }
  }

  /**
   The whole request message reaches the next hop: reading the forwarded head and then
   pumping with the framing it shows yields the same body bytes and the same payload.
   */
  lemma NextHopReceivesRequest(r: Request, target: string, framing: Framing, input: string, suffix: string)
    requires Sendable(r) && IsTarget(target)
    requires FramingOf(Forwarded(r.fields), OfRequest) == Some(framing)
    requires var p := Pump(framing, input);
      p.ending == Complete && (suffix == "" || !framing.UntilEof?) && (framing.Chunked? && p.rest == "" ==> suffix == "")
    requires |ShowRequest(r.(fields := Forwarded(r.fields)), target)| <= MAX_HEADER_BYTES
    ensures var p := Pump(framing, input);
      var out := ShowRequest(r.(fields := Forwarded(r.fields)), target);
      var (reading, rest) := ReadRequest(out + p.written + suffix);
      && reading.Head? && FramingOf(reading.head.fields, OfRequest) == Some(framing)
      && Pump(framing, rest) == p.(rest := suffix)
  {
    var p := Pump(framing, input);
    var out := ShowRequest(r.(fields := Forwarded(r.fields)), target);
    NextHopAgreesOnRequest(r, target, p.written + suffix);
    SeqAssoc(out, p.written, suffix);
    PumpReplays(framing, input, suffix);
  }

  /** The same of responses, framed by status and request method. */
  lemma NextHopReceivesResponse(r: Response, verb: string, framing: Framing, input: string, suffix: string)
    requires SendableResponse(r)
    requires FramingOf(Forwarded(r.fields), OfResponse(r.status, verb)) == Some(framing)
    requires var p := Pump(framing, input);
      p.ending == Complete && (suffix == "" || !framing.UntilEof?) && (framing.Chunked? && p.rest == "" ==> suffix == "")
    requires |ShowResponse(r.(fields := Forwarded(r.fields)))| <= MAX_HEADER_BYTES
    ensures var p := Pump(framing, input);
      var out := ShowResponse(r.(fields := Forwarded(r.fields)));
      var (reading, rest) := ReadResponse(out + p.written + suffix);
      && reading.Head? && reading.head.status == r.status
      && FramingOf(reading.head.fields, OfResponse(r.status, verb)) == Some(framing)
      && Pump(framing, rest) == p.(rest := suffix)
  {
    var p := Pump(framing, input);
    var out := ShowResponse(r.(fields := Forwarded(r.fields)));
    NextHopAgreesOnResponse(r, verb, p.written + suffix);
    SeqAssoc(out, p.written, suffix);
    PumpReplays(framing, input, suffix);
  }

  // ------------------------------------------- stripping and the sender's framing

  /** Stripping removes a field called `name` that is present. */
  predicate Loses(fs: seq<Field>, name: string) {
    Get(fs, name).Some? && name in DropSet(fs)
  }

  /** What stripping leaves of the two fields that frame a body. */
  lemma StrippedLookups(fs: seq<Field>)
    ensures var lost := Loses(fs, "transfer-encoding");
      SaysChunked(Forwarded(fs)) == (SaysChunked(fs) && !lost)
    ensures Get(Forwarded(fs), "content-length") == if Loses(fs, "content-length") then None else Get(fs, "content-length")
  {
    FramingNames();
    GetWithout(fs, DropSet(fs), "transfer-encoding");
    GetWithout(fs, DropSet(fs), "content-length");
    EmptySaysNothing();
  }

  /**
   The framing used after stripping is the one the sender announced exactly when no
   `Connection` option nominates the field that announced it.
   */
  lemma StripKeepsFramingIff(fs: seq<Field>, role: Role)
    requires FramingOf(fs, role).Some?
    ensures FramingOf(Forwarded(fs), role) == FramingOf(fs, role) <==>
      IsBodiless(role) || !Loses(fs, if SaysChunked(fs) then "transfer-encoding" else "content-length")
  {
    StrippedLookups(fs);
  }

  lemma EmptySaysNothing()
    ensures !Contains(Lower(""), "chunked")
  {
  }

  const LENGTH_FIELD := Field("Content-Length", "5")

  const NOMINATION := Field("Connection", "content-length")

  lemma FramingNames()
    ensures Lower("content-length") == "content-length" && Lower("transfer-encoding") == "transfer-encoding"
  {
  }

  lemma OptionAlone(option: string)
    requires ',' !in option && Trimmed(option, Space) && Lower(option) == option
    ensures OptionsOf(option) == [option]
  {
    TrimIdempotent(option, Space);
    assert SplitOn(option, ',') == [option];
  }

  lemma LengthIsNomination()
    ensures IsNomination("content-length")
  {
    assert |"content-length"| == 14;
    assert forall option :: option in KEPT_OPTIONS ==> |option| < 14;
  }

  lemma ConnectionIsNamed()
    ensures Named(NOMINATION, "connection")
  {
    assert Lower("Connection") == Lower("connection");
  }

  lemma NominationCounts(fs: seq<Field>, i: nat, name: string)
    requires i < |fs| && Named(fs[i], "connection") && name in OptionsOf(fs[i].value) && IsNomination(name)
    ensures name in DropSet(fs)
  {
    assert Lists(fs[i], name);
    DropSetContents(fs, name);
  }

  lemma LengthIsNominated()
    ensures "content-length" in DropSet([NOMINATION, LENGTH_FIELD])
  {
    FramingNames();
    OptionAlone("content-length");
    LengthIsNomination();
    ConnectionIsNamed();
    NominationCounts([NOMINATION, LENGTH_FIELD], 0, "content-length");
  }

  lemma FiveIsALength()
    ensures DeclaredLength("5") == Some(5)
  {
    TrimIdempotent("5", Space);
    ShowIntRoundTrip(5);
    assert ShowInt(5) == "5";
  }

  lemma LengthIsDeclared()
    ensures Get([NOMINATION, LENGTH_FIELD], "content-length") == Some("5")
    ensures Get([NOMINATION, LENGTH_FIELD], "transfer-encoding") == None
  {
    assert Lower("Content-Length") == "content-length" == Lower("content-length");
    assert Lower("transfer-encoding")[0] == 't' != Lower("Connection")[0];
    assert !Named(NOMINATION, "transfer-encoding") && !Named(LENGTH_FIELD, "transfer-encoding");
    assert |Lower("Connection")| != |Lower("content-length")|;
    assert !Named(NOMINATION, "content-length") && Named(LENGTH_FIELD, "content-length");
    assert Get([LENGTH_FIELD], "transfer-encoding") == None;
    assert [NOMINATION, LENGTH_FIELD][1..] == [LENGTH_FIELD];
  }

  /** A field list on which stripping changes the framing. */
  lemma StripCanChangeFraming()
    ensures var fs := [NOMINATION, LENGTH_FIELD];
      FramingOf(fs, OfRequest) == Some(Sized(5)) && FramingOf(Forwarded(fs), OfRequest) == Some(NoBody)
  {
    var fs := [NOMINATION, LENGTH_FIELD];
    LengthIsNominated();
    LengthIsDeclared();
    FramingNames();
    FiveIsALength();
    EmptySaysNothing();
    GetWithout(fs, DropSet(fs), "content-length");
    GetWithout(fs, DropSet(fs), "transfer-encoding");
    assert Get(Forwarded(fs), "transfer-encoding") == None;
  }

  // --------------------------------------------------------- standard chunk lines

  predicate IsHex(s: string) {
    s != "" && forall i :: 0 <= i < |s| ==> 0 <= DigitValue(s[i])
  }

  /** The number a string of hexadecimal digits stands for. */
  function HexValue(s: string): nat
    requires IsHex(s)
  {
    (if |s| == 1 then 0 else HexValue(s[..|s| - 1]) * 16) + DigitValue(s[|s| - 1])
  }

  lemma {:induction false} HexParses(s: string)
    requires IsHex(s)
    ensures ParseDigits(s, 16) == Some(HexValue(s))
  {
    if |s| > 1 {
      HexParses(s[..|s| - 1]);
      assert DigitValue('_') == -1;
    }
  }

  lemma HexIsPlain(s: string)
    requires IsHex(s)
    ensures IntOfBytes(s, 16) == Some(HexValue(s)) && ';' !in s && Unterminated(s)
    ensures forall tail :: All(tail, ByteSpace) ==> Trim(s + tail, ByteSpace) == s
  {
    HexParses(s);
    assert 0 <= DigitValue(s[0]) && 0 <= DigitValue(s[|s| - 1]);
    assert |s| > 1 ==> 0 <= DigitValue(s[1]);
    TrimIdempotent(s, ByteSpace);
    forall tail | All(tail, ByteSpace)
      ensures Trim(s + tail, ByteSpace) == s
    {
      TrimUniqueRight(s, tail, ByteSpace);
    }
  }

  /** Nothing, or a semicolon and anything up to the end of the line. */
  predicate IsExtension(ext: string) {
    Unterminated(ext) && (ext == "" || ext[0] == ';')
  }

  lemma SizeTextOf(hex: string, ext: string) returns (tail: string)
    requires IsHex(hex) && IsExtension(ext)
    ensures FirstPart(hex + ext + "\r\n", ';') == hex + tail && All(tail, ByteSpace)
  {
    HexIsPlain(hex);
    var breaks := "\r\n";
    if ext == "" {
      tail := breaks;
      assert hex + ext == hex;
    } else {
      tail := "";
      SeqAssoc(hex, ext, breaks);
      SeqAssoc([';'], ext[1..], breaks);
      assert ext == [';'] + ext[1..];
      SeqAssoc(hex, [';'], ext[1..] + breaks);
      CutFirst(hex, ';', ext[1..] + breaks);
      assert hex + "" == hex;
    }
  }

  /** A size line of section 7.1 of RFC 9112 is read as the size it spells. */
  lemma StandardSizeLine(hex: string, ext: string)
    requires IsHex(hex) && IsExtension(ext)
    ensures IsLine(hex + ext + "\r\n") && ChunkSize(hex + ext + "\r\n") == Some(HexValue(hex))
  {
    HexIsPlain(hex);
    UnterminatedConcat(hex, ext);
    PrintedLine(hex + ext);
    var tail := SizeTextOf(hex, ext);
  }

  /** White space around the digits of a size does not matter. */
  lemma SpacedSizeLine(a: string, hex: string, b: string, ext: string)
    requires IsHex(hex) && All(a, ByteSpace) && All(b, ByteSpace)
    ensures ChunkSize(a + hex + b) == Some(HexValue(hex))
    ensures ChunkSize(a + hex + b + ";" + ext) == Some(HexValue(hex))
  {
    HexIsPlain(hex);
    assert Trim(hex + "", ByteSpace) == hex && hex + "" == hex;
    TrimUnique(a, hex, b, ByteSpace);
    NotInMargin(a, ByteSpace, ';');
    NotInMargin(b, ByteSpace, ';');
    CutFirst(a + hex + b, ';', ext);
  }

  /** A chunk as section 7.1 of RFC 9112 writes it. */
  predicate StandardChunk(c: Chunk, hex: string, ext: string) {
    && IsHex(hex) && IsExtension(ext) && HexValue(hex) == |c.data| > 0
    && c.sizeLine == hex + ext + "\r\n" && c.closing == "\r\n"
  }

  lemma StandardChunkIsGood(c: Chunk, hex: string, ext: string)
    requires StandardChunk(c, hex, ext)
    ensures GoodChunk(c)
  {
    StandardSizeLine(hex, ext);
  }

  ghost predicate IsStandard(c: Chunk) {
    exists hex, ext :: StandardChunk(c, hex, ext)
  }

  /**
   Chunked transfer coding: for every payload and every split of it into non-empty
   chunks, every extension, every trailer and whatever follows, pumping consumes exactly
   the encoding, forwards it, decodes the payload and leaves the rest unread.
   */
  lemma StandardBodyExact(m: ChunkedBody, zero: string, ext: string, suffix: string)
    requires forall c :: c in m.chunks ==> IsStandard(c)
    requires IsHex(zero) && HexValue(zero) == 0 && IsExtension(ext) && m.lastLine == zero + ext + "\r\n"
    requires AreContent(m.trailers) && m.closing == "\r\n"
    ensures PumpChunks(ShowBody(m) + suffix) == Pumped(Complete, ShowBody(m), PayloadOf(m.chunks), suffix)
  {
    forall c | c in m.chunks
      ensures GoodChunk(c)
    {
      var hex, e :| StandardChunk(c, hex, e);
      StandardChunkIsGood(c, hex, e);
    }
    StandardSizeLine(zero, ext);
    assert forall i :: 0 <= i < |m.trailers| ==> IsContent(m.trailers[i]);
    ChunkedExact(m, false, suffix);
  }
}
