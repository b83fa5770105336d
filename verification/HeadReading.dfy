/**
 Reading whole request and response heads, and what a printed head reads back as.
 */
module HeadReading {
  import opened Basics
  import opened PyText
  import opened Streams
  import opened Headers
  import opened Heads

  /** A head, the end of the input before one began, or a protocol error. */
  datatype Reading<+T> = Head(head: T) | Closed | Malformed

  function ParseRequest(lines: seq<string>): Reading<Request>
    requires lines != []
  {
    match Cut(TrimRight(lines[0], LineEnd), ' ')
    case None => Malformed
    case Some((verb, more)) =>
      match Cut(more, ' ')
      case None => Malformed
      case Some((target, version)) =>
        if !StartsWith(version, "HTTP/") then Malformed
        else match ParseFields(lines[1..], [])
          case None => Malformed
          case Some(fields) => Head(Request(verb, target, version, fields))
  }

  function ParseResponse(lines: seq<string>): Reading<Response>
    requires lines != []
  {
    match Cut(TrimRight(lines[0], LineEnd), ' ')
    case None => Malformed
    case Some((version, more)) =>
      var (status, reason) := match Cut(more, ' ') case None => (more, "") case Some(parts) => parts;
      match IntOfText(status)
      case None => Malformed
      case Some(code) =>
        match ParseFields(lines[1..], [])
        case None => Malformed
        case Some(fields) => Head(Response(version, code, reason, fields))
  }

  /** The next request head of `input` and the bytes that follow it. */
  function ReadRequest(input: string): (r: (Reading<Request>, string))
    ensures |r.1| <= |input| && (r.0.Head? ==> |r.1| < |input|)
  {
    var b := ScanBlock(input, [], 0);
    match b.lines
    case None => (Malformed, b.rest)
    case Some(lines) => (if lines == [] then Closed else ParseRequest(lines), b.rest)
  }

  function ReadResponse(input: string): (r: (Reading<Response>, string))
    ensures |r.1| <= |input|
  {
    var b := ScanBlock(input, [], 0);
    match b.lines
    case None => (Malformed, b.rest)
    case Some(lines) => (if lines == [] then Closed else ParseResponse(lines), b.rest)
  }

  // ------------------------------------------------------ a line before a message

  /** A line of white space that is not an empty line. */
  predicate IsStray(line: string) {
    All(line, ByteSpace) && line != "\r\n" && line != "\n"
  }

  lemma ScanStep(input: string, line: string, rest: string, lines: seq<string>, total: nat)
    requires line == Line(input) && rest == input[|line|..]
    ensures ScanBlock(input, lines, total) ==
      if line == "" then Block(if lines == [] then Some([]) else None, rest)
      else if total + |line| > MAX_HEADER_BYTES then Block(None, rest)
      else if IsBlank(line) then Block(Some(lines), rest)
      else if lines == [] && All(line, ByteSpace) then ScanBlock(rest, lines, total + |line|)
      else if |lines| + 1 > MAX_HEADER_COUNT then Block(None, rest)
      else ScanBlock(rest, lines + [line], total + |line|)
  {
  }

  /** In front of `rest`, the line is read past and only counts towards the size limit. */
  predicate PassedOver(line: string, rest: string, total: nat) {
    ScanBlock(line + rest, [], total) == ScanBlock(rest, [], total + |line|)
  }

  /** What the first line of a block does, with `total` bytes of passed lines before it. */
  lemma FirstLineScanned(line: string, rest: string, total: nat)
    requires IsLine(line)
    ensures ScanBlock(line + rest, [], total) ==
      if total + |line| > MAX_HEADER_BYTES then Block(None, rest)
      else if IsBlank(line) then Block(Some([]), rest)
      else if All(line, ByteSpace) then ScanBlock(rest, [], total + |line|)
      else ScanBlock(rest, [line], total + |line|)
  {
    LineOfLine(line, rest);
    SplitConcat(line, rest);
    ScanStep(line + rest, line, rest, [], total);
    assert [] + [line] == [line];
  }

  /** An empty line before a message reads as the end of the input: it is consumed, and nothing after it. */
  lemma EmptyLineCloses(line: string, rest: string)
    requires line == "\r\n" || line == "\n"
    ensures ReadRequest(line + rest) == (Closed, rest) && ReadResponse(line + rest) == (Closed, rest)
  {
    FirstLineScanned(line, rest, 0);
  }

  /** A leading line is passed over, whatever follows it, if and only if it is stray and fits the size limit. */
  lemma PassedOverIff(line: string, total: nat)
    requires IsLine(line)
    ensures (forall rest :: PassedOver(line, rest, total)) <==> IsStray(line) && total + |line| <= MAX_HEADER_BYTES
  {
    forall rest | IsStray(line) && total + |line| <= MAX_HEADER_BYTES
      ensures PassedOver(line, rest, total)
    {
      FirstLineScanned(line, rest, total);
    }
    if !(IsStray(line) && total + |line| <= MAX_HEADER_BYTES) {
      NotPassedOver(line, total);
    }
  }

  lemma NotPassedOver(line: string, total: nat)
    requires IsLine(line) && !(IsStray(line) && total + |line| <= MAX_HEADER_BYTES)
    ensures !PassedOver(line, "\r\n", total) || !PassedOver(line, "", total)
  {
    FirstLineScanned(line, "", total);
    FirstLineScanned(line, "\r\n", total);
    assert IsLine("\r\n");
    FirstLineScanned("\r\n", "", total + |line|);
    assert "\r\n" + "" == "\r\n";
  }

  // -------------------------------------------------- what reading guarantees

  predicate Unended(s: string) {
    s == "" || !LineEnd.Has(s[|s| - 1])
  }

  predicate Sendable(r: Request) {
    && ' ' !in r.verb && ' ' !in r.target && StartsWith(r.version, "HTTP/") && Unended(r.version)
    && Unterminated(r.verb) && Unterminated(r.target) && Unterminated(r.version)
    && AllAccepted(r.fields) && |r.fields| < MAX_HEADER_COUNT
  }

  predicate SendableResponse(r: Response) {
    && ' ' !in r.version && Unterminated(r.version) && Unterminated(r.reason) && Unended(r.reason)
    && AllAccepted(r.fields) && |r.fields| < MAX_HEADER_COUNT
  }

  lemma FirstLineText(raw: string)
    requires IsLine(raw)
    ensures Unterminated(TrimRight(raw, LineEnd)) && Unended(TrimRight(raw, LineEnd))
  {
    LineText(raw);
    var tail := TrimRightMargin(raw, LineEnd);
  }

  lemma CutTail(s: string, c: char)
    requires Cut(s, c).Some? && Unterminated(s) && Unended(s)
    ensures var (before, after) := Cut(s, c).value;
      Unterminated(before) && Unterminated(after) && Unended(after)
  {
    CutUnterminated(s, c);
    var (before, after) := Cut(s, c).value;
    if after != "" {
      assert s[|s| - 1] == after[|after| - 1];
    }
  }

  /** Every request head that is read can be printed and read again. */
  lemma ReadRequestSendable(input: string)
    ensures ReadRequest(input).0.Head? ==> Sendable(ReadRequest(input).0.head)
  {
    if ReadRequest(input).0.Head? {
      ScanContent(input, [], 0);
      var lines := ScanBlock(input, [], 0).lines.value;
      assert IsContent(lines[0]);
      var text := TrimRight(lines[0], LineEnd);
      FirstLineText(lines[0]);
      CutTail(text, ' ');
      CutTail(Cut(text, ' ').value.1, ' ');
      assert AreContent(lines[1..]);
      ParseAccepts(lines[1..], []);
    }
  }

  lemma ReadResponseSendable(input: string)
    ensures ReadResponse(input).0.Head? ==> SendableResponse(ReadResponse(input).0.head)
  {
    if ReadResponse(input).0.Head? {
      ScanContent(input, [], 0);
      var lines := ScanBlock(input, [], 0).lines.value;
      assert IsContent(lines[0]);
      var text := TrimRight(lines[0], LineEnd);
      FirstLineText(lines[0]);
      CutTail(text, ' ');
      if Cut(Cut(text, ' ').value.1, ' ').Some? {
        CutTail(Cut(text, ' ').value.1, ' ');
      }
      assert AreContent(lines[1..]);
      ParseAccepts(lines[1..], []);
    }
  }

  // ---------------------------------------------------- reading printed heads

  /** A printed block under a printed first line is read back as one block. */
  lemma ScanPrintedHead(text: string, fs: seq<Field>, suffix: string)
    requires Unterminated(text) && !All(text, ByteSpace) && AllAccepted(fs) && |fs| < MAX_HEADER_COUNT
    ensures var shown := text + "\r\n" + ShowFields(fs) + "\r\n";
      var b := ScanBlock(shown + suffix, [], 0);
      if |shown| <= MAX_HEADER_BYTES
      then b == Block(Some([text + "\r\n"] + FieldLines(fs)), suffix)
      else b.lines == None
  {
    var first := text + "\r\n";
    var lines := [first] + FieldLines(fs);
    PrintedLine(text);
    FieldLinesContent(fs);
    var i :| 0 <= i < |text| && !ByteSpace.Has(text[i]);
    assert first[i] == text[i];
    ConcatFieldLines(fs);
    assert lines[1..] == FieldLines(fs);
    ScanPrinted(lines, suffix, [], 0);
    assert [] + lines == lines;
  }

  lemma FirstLineReadBack(text: string)
    requires Unended(text)
    ensures TrimRight(text + "\r\n", LineEnd) == text
  {
    TrimRightAll(text, "\r\n", LineEnd);
  }

  function RequestText(r: Request): string {
    r.verb + [' '] + (r.target + [' '] + r.version)
  }

  lemma RequestLineIsText(r: Request)
    ensures RequestLine(r, "") == RequestText(r) + "\r\n"
  {
    SeqAssoc(r.verb + " ", r.target, " ");
    SeqAssoc(r.verb + " ", r.target + " ", r.version);
  }

  lemma RequestTextFacts(r: Request)
    requires Sendable(r)
    ensures Unterminated(RequestText(r)) && Unended(RequestText(r)) && !All(RequestText(r), ByteSpace)
  {
    var after := r.target + [' '] + r.version;
    UnterminatedConcat(r.verb, [' ']);
    UnterminatedConcat(r.target, [' ']);
    UnterminatedConcat(r.target + [' '], r.version);
    UnterminatedConcat(r.verb + [' '], after);
    assert r.version[..5][0] == 'H';
    assert RequestText(r)[|r.verb| + 1 + |r.target| + 1] == after[|r.target| + 1] == r.version[0];
    assert RequestText(r)[|RequestText(r)| - 1] == after[|after| - 1] == r.version[|r.version| - 1];
  }

  lemma RequestTextCuts(r: Request)
    requires Sendable(r)
    ensures Cut(RequestText(r), ' ') == Some((r.verb, r.target + [' '] + r.version))
    ensures Cut(r.target + [' '] + r.version, ' ') == Some((r.target, r.version))
  {
    CutFirst(r.verb, ' ', r.target + [' '] + r.version);
    CutFirst(r.target, ' ', r.version);
  }

  function NormalRequest(r: Request): Request {
    r.(fields := Normalised(r.fields))
  }

  function NormalResponse(r: Response): Response {
    r.(fields := Normalised(r.fields))
  }

  /** A printed request head reads back, exactly when it fits the size limit, as itself with trimmed values. */
  lemma ReadShownRequest(r: Request, suffix: string)
    requires Sendable(r)
    ensures var shown := ShowRequest(r, "");
      var (reading, rest) := ReadRequest(shown + suffix);
      if |shown| <= MAX_HEADER_BYTES
      then reading == Head(NormalRequest(r)) && rest == suffix
      else reading == Malformed
  {
    var text := RequestText(r);
    RequestTextFacts(r);
    RequestTextCuts(r);
    RequestLineIsText(r);
    ScanPrintedHead(text, r.fields, suffix);
    FirstLineReadBack(text);
    ParsePrinted(r.fields, []);
    var lines := [text + "\r\n"] + FieldLines(r.fields);
    assert lines[1..] == FieldLines(r.fields);
    assert [] + Normalised(r.fields) == Normalised(r.fields);
  }

  function StatusText(r: Response): string {
    r.version + [' '] + (ShowInt(r.status) + [' '] + r.reason)
  }

  lemma StatusLineIsText(r: Response)
    ensures StatusLine(r) == StatusText(r) + "\r\n"
  {
    var code := ShowInt(r.status);
    SeqAssoc(r.version + " ", code, " ");
    SeqAssoc(r.version + " ", code + " ", r.reason);
  }

  lemma StatusTextFacts(r: Response)
    requires SendableResponse(r)
    ensures Unterminated(StatusText(r)) && Unended(StatusText(r)) && !All(StatusText(r), ByteSpace)
  {
    var code := ShowInt(r.status);
    var after := code + [' '] + r.reason;
    ShowIntShape(r.status);
    UnterminatedConcat(r.version, [' ']);
    UnterminatedConcat(code, [' ']);
    UnterminatedConcat(code + [' '], r.reason);
    UnterminatedConcat(r.version + [' '], after);
    assert StatusText(r)[|r.version| + 1] == after[0] == code[0];
    assert StatusText(r)[|StatusText(r)| - 1] == after[|after| - 1];
  }

  lemma StatusTextCuts(r: Response)
    requires SendableResponse(r)
    ensures Cut(StatusText(r), ' ') == Some((r.version, ShowInt(r.status) + [' '] + r.reason))
    ensures Cut(ShowInt(r.status) + [' '] + r.reason, ' ') == Some((ShowInt(r.status), r.reason))
  {
    ShowIntShape(r.status);
    CutFirst(r.version, ' ', ShowInt(r.status) + [' '] + r.reason);
    CutFirst(ShowInt(r.status), ' ', r.reason);
  }

  /** The same of a response head: only the spelling of the status is normalised. */
  lemma ReadShownResponse(r: Response, suffix: string)
    requires SendableResponse(r)
    ensures var shown := ShowResponse(r);
      var (reading, rest) := ReadResponse(shown + suffix);
      if |shown| <= MAX_HEADER_BYTES
      then reading == Head(NormalResponse(r)) && rest == suffix
      else reading == Malformed
  {
    var text := StatusText(r);
    StatusTextFacts(r);
    StatusTextCuts(r);
    StatusLineIsText(r);
    ScanPrintedHead(text, r.fields, suffix);
    FirstLineReadBack(text);
    ShowIntRoundTrip(r.status);
    ParsePrinted(r.fields, []);
    var lines := [text + "\r\n"] + FieldLines(r.fields);
    assert lines[1..] == FieldLines(r.fields);
    assert [] + Normalised(r.fields) == Normalised(r.fields);
  }

  /** Parsing undoes printing on every head with trimmed names and values. */
  lemma PrintParseRoundTrip(r: Request, suffix: string)
    requires Sendable(r) && AllNormal(r.fields) && |ShowRequest(r, "")| <= MAX_HEADER_BYTES
    ensures ReadRequest(ShowRequest(r, "") + suffix) == (Head(r), suffix)
  {
    ReadShownRequest(r, suffix);
    NormalisedIdentity(r.fields);
  }

  /**
   Whatever head is read, folds included, one pass of printing and reading keeps its
   names and their order, and reaches a fixed point.
   */
  lemma PrintParseFixpoint(input: string, suffix: string)
    requires ReadRequest(input).0.Head? && |ShowRequest(ReadRequest(input).0.head, "")| <= MAX_HEADER_BYTES
    ensures var r := ReadRequest(input).0.head;
      var (again, rest) := ReadRequest(ShowRequest(r, "") + suffix);
      && rest == suffix && again.Head? && again.head == NormalRequest(r)
      && ReadRequest(ShowRequest(again.head, "") + suffix) == (again, suffix)
  {
    var r := ReadRequest(input).0.head;
    ReadRequestSendable(input);
    ReadShownRequest(r, suffix);
    NormalisedNormal(r.fields);
    ShownNoLonger(r.fields);
    PrintParseRoundTrip(NormalRequest(r), suffix);
  }

  /** The same of responses. */
  lemma PrintParseFixpointResponse(input: string, suffix: string)
    requires ReadResponse(input).0.Head? && |ShowResponse(ReadResponse(input).0.head)| <= MAX_HEADER_BYTES
    ensures var r := ReadResponse(input).0.head;
      var (again, rest) := ReadResponse(ShowResponse(r) + suffix);
      && rest == suffix && again.Head? && again.head == NormalResponse(r)
      && ReadResponse(ShowResponse(again.head) + suffix) == (again, suffix)
  {
    var r := ReadResponse(input).0.head;
    ReadResponseSendable(input);
    ReadShownResponse(r, suffix);
    NormalisedNormal(r.fields);
    ShownNoLonger(r.fields);
    ReadShownResponse(NormalResponse(r), suffix);
    NormalisedIdentity(Normalised(r.fields));
  }

  lemma ShownNoLonger(fs: seq<Field>)
    ensures |ShowFields(Normalised(fs))| <= |ShowFields(fs)|
  {
    if fs != [] {
      ShownNoLonger(fs[1..]);
      NormalisedCons(fs);
      var a, b := TrimMargins(fs[0].value, Space);
      assert Normalised(fs)[1..] == Normalised(fs[1..]);
    }
  }

  // ------------------------------------------------------------ the reading methods

  /** The lines of the next header block, or None on a protocol error. */
  method ReadBlock(reader: Reader) returns (lines: Option<seq<string>>)
    modifies reader
    ensures Block(lines, reader.unread) == ScanBlock(old(reader.unread), [], 0)
  {
    var got: seq<string> := [];
    var total: nat := 0;
    ghost var whole := ScanBlock(reader.unread, [], 0);
    while true
      invariant ScanBlock(reader.unread, got, total) == whole
      decreases |reader.unread|
    {
      ghost var input := reader.unread;
      var line := reader.ReadLine();
      assert input[|line|..] == reader.unread;
      ScanStep(input, line, reader.unread, got, total);
      if line == "" {
        return if got == [] then Some([]) else None;
      }
      total := total + |line|;
      if total > MAX_HEADER_BYTES { return None; }
      if IsBlank(line) { return Some(got); }
      if got == [] && All(line, ByteSpace) { continue; }
      if |got| + 1 > MAX_HEADER_COUNT { return None; }
      got := got + [line];
    }
  }

  /** Builds the header list, extending the last value at each fold; null on a malformed line. */
  method ParseHeaders(lines: seq<string>) returns (headers: Headers?)
    ensures headers == null <==> ParseFields(lines, []) == None
    ensures headers != null ==> fresh(headers) && ParseFields(lines, []) == Some(headers.items)
  {
    headers := new Headers([]);
    for i := 0 to |lines|
      invariant headers != null && fresh(headers)
      invariant ParseFields(lines, []) == ParseFields(lines[i..], headers.items)
    {
      assert lines[i..][1..] == lines[i + 1..];
      var next := AddLine(headers.items, lines[i]);
      var line := TrimRight(lines[i], LineEnd);
      var items := headers.items;
      if IsFold(line) && items != [] {
        var last := items[|items| - 1];
        headers.items := items[|items| - 1 := last.(value := last.value + " " + Strip(line))];
        assert headers.items == next.value;
      } else {
        var parts := Cut(line, ':');
        if parts == None { return null; }
        headers.items := items + [Field(Strip(parts.value.0), Strip(parts.value.1))];
      }
    }
  }

  /** A request head whose header list can still change. */
  datatype RequestHead = RequestHead(verb: string, target: string, version: string, headers: Headers) {
    function View(): Request
      reads headers
    {
      Request(verb, target, version, headers.items)
    }
  }

  datatype ResponseHead = ResponseHead(version: string, status: int, reason: string, headers: Headers) {
    function View(): Response
      reads headers
    {
      Response(version, status, reason, headers.items)
    }
  }

  /** What a reading method found, as a value. */
  function RequestSeen(r: Reading<RequestHead>): Reading<Request>
    reads if r.Head? then {r.head.headers} else {}
  {
    match r case Head(h) => Head(h.View()) case Closed => Closed case Malformed => Malformed
  }

  function ResponseSeen(r: Reading<ResponseHead>): Reading<Response>
    reads if r.Head? then {r.head.headers} else {}
  {
    match r case Head(h) => Head(h.View()) case Closed => Closed case Malformed => Malformed
  }

  method ReadRequestHead(reader: Reader) returns (r: Reading<RequestHead>)
    modifies reader
    ensures (RequestSeen(r), reader.unread) == ReadRequest(old(reader.unread))
    ensures r.Head? ==> fresh(r.head.headers)
  {
    var lines := ReadBlock(reader);
    if lines == None { return Malformed; }
    if lines.value == [] { return Closed; }
    var first := Cut(TrimRight(lines.value[0], LineEnd), ' ');
    if first == None { return Malformed; }
    var second := Cut(first.value.1, ' ');
    if second == None { return Malformed; }
    if !StartsWith(second.value.1, "HTTP/") { return Malformed; }
    var headers := ParseHeaders(lines.value[1..]);
    if headers == null { return Malformed; }
    r := Head(RequestHead(first.value.0, second.value.0, second.value.1, headers));
  }

  method ReadResponseHead(reader: Reader) returns (r: Reading<ResponseHead>)
    modifies reader
    ensures (ResponseSeen(r), reader.unread) == ReadResponse(old(reader.unread))
    ensures r.Head? ==> fresh(r.head.headers)
  {
    var lines := ReadBlock(reader);
    if lines == None { return Malformed; }
    if lines.value == [] { return Closed; }
    var first := Cut(TrimRight(lines.value[0], LineEnd), ' ');
    if first == None { return Malformed; }
    var second := Cut(first.value.1, ' ');
    var status, reason := first.value.1, "";
    if second.Some? {
      status, reason := second.value.0, second.value.1;
    }
    var code := IntOfText(status);
    if code == None { return Malformed; }
    var headers := ParseHeaders(lines.value[1..]);
    if headers == null { return Malformed; }
    r := Head(ResponseHead(first.value.0, code.value, reason, headers));
  }
}
