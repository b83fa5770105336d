/**
 Whole connections: message synchronisation over any run of exchanges, and capture and
 redaction as storage-only concerns.
 */
module Connection {
  import opened Basics
  import opened PyText
  import opened Streams
  import opened Headers
  import opened Heads
  import opened HeadReading
  import opened Bodies
  import opened BodyTheorems
  import opened FramingTheorems
  import opened Policy
  import opened HeaderSnapshots
  import opened Proxy

  /** A request and its response as they stand on the two wires. */
  datatype Pair = Pair(
    requestHead: string, request: Request, requestBody: string,
    responseHead: string, response: Response, responseBody: string)

  /** `body` is the whole body under this framing, with `suffix` after it. */
  predicate Stands(framing: Framing, body: string, suffix: string) {
    var p := Pump(framing, body + suffix);
    p.ending == Complete && p.written == body && p.rest == suffix
  }

  /** The response hands the connection over to another protocol. */
  predicate Switches(p: Pair) {
    p.response.status == 101
  }

  /**
   `p` is a well-formed exchange when `client` and `upstream` follow it on the wires: each
   head reads as the head given, and each body is delimited as the forwarded head says.
   After a switch of protocols the bytes that follow belong to no body.
   */
  predicate Clean(p: Pair, client: string, upstream: string) {
    && ReadRequest(p.requestHead + (p.requestBody + client)) == (Head(p.request), p.requestBody + client)
    && RequestFraming(p.request).Some? && Stands(RequestFraming(p.request).value, p.requestBody, client)
    && ReadResponse(p.responseHead + (p.responseBody + upstream)) == (Head(p.response), p.responseBody + upstream)
    && if Switches(p) then p.responseBody == ""
       else
         && ResponseFraming(p.request, p.response).Some?
         && Stands(ResponseFraming(p.request, p.response).value, p.responseBody, upstream)
  }

  predicate KeepsAlive(p: Pair) {
    && !Switches(p) && ResponseFraming(p.request, p.response).Some?
    && Persists(p.request, p.response, ResponseFraming(p.request, p.response).value)
  }

  function ClientBytes(pairs: seq<Pair>): string {
    if pairs == [] then "" else pairs[0].requestHead + (pairs[0].requestBody + ClientBytes(pairs[1..]))
  }

  function UpstreamBytes(pairs: seq<Pair>): string {
    if pairs == [] then "" else pairs[0].responseHead + (pairs[0].responseBody + UpstreamBytes(pairs[1..]))
  }

  /** What the origin receives of one exchange: the stripped head, the body byte for byte. */
  function Forward(split: UrlSplit, p: Pair): string {
    ShowRequest(Sent(p.request), TargetOf(split, p.request.target)) + p.requestBody
  }

  /** What the client receives of one exchange. */
  function Backward(p: Pair): string {
    ShowResponse(if Switches(p) then p.response else SentBack(p.response)) + p.responseBody
  }

  function Requested(split: UrlSplit, pairs: seq<Pair>): string {
    if pairs == [] then "" else Forward(split, pairs[0]) + Requested(split, pairs[1..])
  }

  function Responded(pairs: seq<Pair>): string {
    if pairs == [] then "" else Backward(pairs[0]) + Responded(pairs[1..])
  }

  /** Well-formed exchanges one after the other, all but possibly the last kept alive. */
  predicate Conversation(pairs: seq<Pair>, client: string, upstream: string) {
    pairs == [] ||
    (Clean(pairs[0], ClientBytes(pairs[1..]) + client, UpstreamBytes(pairs[1..]) + upstream)
     && (|pairs| > 1 ==> KeepsAlive(pairs[0]))
     && Conversation(pairs[1..], client, upstream))
  }

  /** One well-formed exchange: exact logs, and both readers at the next message. */
  lemma CleanTransact(p: Pair, target: string, client: string, upstream: string)
    requires Clean(p, client, upstream) && !Switches(p)
    ensures Transact(p.request, target, p.requestBody + client, p.responseHead + (p.responseBody + upstream)) ==
      Transcript(
        if KeepsAlive(p) then KeepAlive else Close,
        ShowRequest(Sent(p.request), target) + p.requestBody,
        ShowResponse(SentBack(p.response)) + p.responseBody,
        client, upstream,
        Some(Pump(RequestFraming(p.request).value, p.requestBody + client).payload), Some(p.response),
        Some(Pump(ResponseFraming(p.request, p.response).value, p.responseBody + upstream).payload), "", "")
  {
    var head := ShowRequest(Sent(p.request), target) + p.requestBody;
    assert DeliverRequest(p.request, target, p.requestBody + client).written == head;
    assert Respond(p.request, client, p.responseHead + (p.responseBody + upstream)) ==
      Answer(p.request, p.response, client, p.responseBody + upstream);
    assert head + "" == head;
  }

  /** A switch of protocols: the 101 head goes through unstripped, then every byte is relayed both ways. */
  lemma SwitchRelaysEverything(split: UrlSplit, request: Request, client: string, upstream: string)
    requires DeliverRequest(request, TargetOf(split, request.target), client).ending == Complete
    requires Switched(upstream)
    ensures var p := DeliverRequest(request, TargetOf(split, request.target), client);
      var (reading, rest) := ReadResponse(upstream);
      Serve(split, Some(request), client, upstream) ==
        Session(Finished, p.written + p.rest, ShowResponse(reading.head) + rest, "", "", 1, 1)
  {
    ServeTurns(split, request, client, upstream);
  }

  /** The next response head on this wire is a 101. */
  predicate Switched(upstream: string) {
    var reading := ReadResponse(upstream).0;
    reading.Head? && reading.head.status == 101
  }

  /** What the loop makes of one exchange with these bytes behind it on the wires. */
  function AfterOne(split: UrlSplit, p: Pair, client: string, upstream: string): Session {
    if KeepsAlive(p) then After(Forward(split, p), Backward(p), 1, Serve(split, None, client, upstream))
    else if Switches(p) then Session(Finished, Forward(split, p) + client, Backward(p) + upstream, "", "", 1, 1)
    else Session(Finished, Forward(split, p), Backward(p), client, upstream, 1, 1)
  }

  lemma CleanServe(split: UrlSplit, p: Pair, client: string, upstream: string)
    requires Clean(p, client, upstream)
    ensures Serve(split, None, p.requestHead + (p.requestBody + client), p.responseHead + (p.responseBody + upstream)) ==
      AfterOne(split, p, client, upstream)
  {
    ServeReads(split, p.requestHead + (p.requestBody + client), p.responseHead + (p.responseBody + upstream));
    if Switches(p) {
      SwitchRelaysEverything(split, p.request, p.requestBody + client, p.responseHead + (p.responseBody + upstream));
      assert "" + upstream == upstream;
      assert ShowResponse(p.response) + "" == ShowResponse(p.response);
    } else {
      ServeTurns(split, p.request, p.requestBody + client, p.responseHead + (p.responseBody + upstream));
      CleanTransact(p, TargetOf(split, p.request.target), client, upstream);
    }
  }

  /** What the loop makes of such a run: exact logs, then the next messages, a relay or the end. */
  function Outcome(split: UrlSplit, pairs: seq<Pair>, client: string, upstream: string): Session
    requires pairs != []
  {
    var last := pairs[|pairs| - 1];
    if KeepsAlive(last)
    then After(Requested(split, pairs), Responded(pairs), |pairs|, Serve(split, None, client, upstream))
    else if Switches(last)
    then Session(Finished, Requested(split, pairs) + client, Responded(pairs) + upstream, "", "", |pairs|, |pairs|)
    else Session(Finished, Requested(split, pairs), Responded(pairs), client, upstream, |pairs|, |pairs|)
  }

  lemma OutcomeCons(split: UrlSplit, pairs: seq<Pair>, client: string, upstream: string)
    requires |pairs| > 1
    ensures Outcome(split, pairs, client, upstream) ==
      After(Forward(split, pairs[0]), Backward(pairs[0]), 1, Outcome(split, pairs[1..], client, upstream))
  {
    var p, rest := pairs[0], pairs[1..];
    assert pairs[|pairs| - 1] == rest[|rest| - 1];
    AfterTwice(Forward(split, p), Backward(p), 1, Requested(split, rest), Responded(rest), |rest|,
               Serve(split, None, client, upstream));
    SeqAssoc(Forward(split, p), Requested(split, rest), client);
    SeqAssoc(Backward(p), Responded(rest), upstream);
  }

  /**
   Message synchronisation. Over any run of well-formed exchanges the origin receives
   exactly the stripped heads and raw bodies of the requests, the client those of the
   responses; while exchanges are kept alive the loop goes on with both readers at the
   start of the next message. At a switch of protocols the response head goes through
   unstripped and everything after it is relayed; at any other exchange that is not kept
   alive the loop stops.
   */
  lemma {:induction false} Synchronised(split: UrlSplit, pairs: seq<Pair>, client: string, upstream: string)
    requires pairs != [] && Conversation(pairs, client, upstream)
    ensures Serve(split, None, ClientBytes(pairs) + client, UpstreamBytes(pairs) + upstream) ==
      Outcome(split, pairs, client, upstream)
    decreases |pairs|
  {
    ServeFirst(split, pairs, client, upstream);
    var rest := pairs[1..];
    if rest == [] {
      OnlyOne(pairs);
      ServeOnlyOne(split, pairs[0], client, upstream);
    } else {
      Synchronised(split, rest, client, upstream);
      OutcomeCons(split, pairs, client, upstream);
    }
  }

  lemma ServeOnlyOne(split: UrlSplit, p: Pair, client: string, upstream: string)
    ensures Requested(split, [p]) == Forward(split, p) && Responded([p]) == Backward(p)
    ensures ClientBytes([]) + client == client && UpstreamBytes([]) + upstream == upstream
  {
    assert Forward(split, p) + "" == Forward(split, p) && Backward(p) + "" == Backward(p);
  }

  lemma OnlyOne<T>(s: seq<T>)
    requires s != [] && s[1..] == []
    ensures s == [s[|s| - 1]] && |s| == 1
  {
  }

  /** The first exchange of a conversation, with the rest of it still on the wires. */
  lemma ServeFirst(split: UrlSplit, pairs: seq<Pair>, client: string, upstream: string)
    requires pairs != [] && Conversation(pairs, client, upstream)
    ensures var clientRest, upstreamRest := ClientBytes(pairs[1..]) + client, UpstreamBytes(pairs[1..]) + upstream;
      Clean(pairs[0], clientRest, upstreamRest) &&
      Serve(split, None, ClientBytes(pairs) + client, UpstreamBytes(pairs) + upstream) ==
        AfterOne(split, pairs[0], clientRest, upstreamRest)
  {
    BytesSplit(pairs, client, upstream);
    CleanServe(split, pairs[0], ClientBytes(pairs[1..]) + client, UpstreamBytes(pairs[1..]) + upstream);
  }

  lemma BytesSplit(pairs: seq<Pair>, client: string, upstream: string)
    requires pairs != []
    ensures var p, rest := pairs[0], pairs[1..];
      ClientBytes(pairs) + client == p.requestHead + (p.requestBody + (ClientBytes(rest) + client)) &&
      UpstreamBytes(pairs) + upstream == p.responseHead + (p.responseBody + (UpstreamBytes(rest) + upstream))
  {
    var p, rest := pairs[0], pairs[1..];
    SeqAssoc(p.requestHead, p.requestBody + ClientBytes(rest), client);
    SeqAssoc(p.requestBody, ClientBytes(rest), client);
    SeqAssoc(p.responseHead, p.responseBody + UpstreamBytes(rest), upstream);
    SeqAssoc(p.responseBody, UpstreamBytes(rest), upstream);
  }

  // --------------------------------------------------- which messages are clean

  /** What a body must look like to be delimited: nothing, a length, chunks, or the end of input. */
  ghost predicate Delimits(framing: Framing, body: string, suffix: string) {
    match framing
    case NoBody => body == ""
    case Sized(n) => |body| == Max(0, n)
    case UntilEof => suffix == ""
    case Chunked => exists m, open :: GoodBody(m, open) && ShowBody(m) == body && (open ==> suffix == "")
  }

  /** Exactly the delimited bodies are pumped whole. */
  lemma StandsIff(framing: Framing, body: string, suffix: string)
    ensures Stands(framing, body, suffix) <==> Delimits(framing, body, suffix)
  {
    var p := Pump(framing, body + suffix);
    match framing {
      case NoBody => assert "" + suffix == suffix;
      case UntilEof => assert suffix == "" ==> body + suffix == body;
      case Sized(n) =>
        if |body| == Max(0, n) {
          assert (body + suffix)[..|body|] == body && (body + suffix)[|body|..] == suffix;
        }
      case Chunked =>
        if Stands(framing, body, suffix) {
          var m, open := ChunkedDecompose(body + suffix);
          assert |ShowBody(m)| == |body|;
          assert ShowBody(m) == (body + suffix)[..|body|] == body;
        }
        if m, open :| GoodBody(m, open) && ShowBody(m) == body && (open ==> suffix == "") {
          ChunkedExact(m, open, suffix);
        }
    }
  }

  /** The response body is delimited as the forwarded head says, or there is none before a switch. */
  ghost predicate ResponseDelimited(p: Pair, upstream: string) {
    if Switches(p) then p.responseBody == ""
    else
      && ResponseFraming(p.request, p.response).Some?
      && Delimits(ResponseFraming(p.request, p.response).value, p.responseBody, upstream)
  }

  /** Printed heads with delimited bodies make a clean exchange, whatever follows. */
  lemma PrintedIsClean(p: Pair, client: string, upstream: string)
    requires Sendable(p.request) && AllNormal(p.request.fields)
    requires SendableResponse(p.response) && AllNormal(p.response.fields)
    requires p.requestHead == ShowRequest(p.request, "") && |p.requestHead| <= MAX_HEADER_BYTES
    requires p.responseHead == ShowResponse(p.response) && |p.responseHead| <= MAX_HEADER_BYTES
    requires RequestFraming(p.request).Some? && Delimits(RequestFraming(p.request).value, p.requestBody, client)
    requires ResponseDelimited(p, upstream)
    ensures Clean(p, client, upstream)
  {
    PrintParseRoundTrip(p.request, p.requestBody + client);
    ReadShownResponse(p.response, p.responseBody + upstream);
    NormalisedIdentity(p.response.fields);
    StandsIff(RequestFraming(p.request).value, p.requestBody, client);
    if !Switches(p) {
      StandsIff(ResponseFraming(p.request, p.response).value, p.responseBody, upstream);
    }
  }

  // --------------------------------------------------------- in the sender's terms

  /** No `Connection` option nominates the field that announces the body. */
  predicate KeepsAnnouncement(fs: seq<Field>) {
    !Loses(fs, if SaysChunked(fs) then "transfer-encoding" else "content-length")
  }

  /** The body is delimited as its sender's own head announces. */
  ghost predicate Announced(fs: seq<Field>, role: Role, body: string, suffix: string) {
    FramingOf(fs, role).Some? && Delimits(FramingOf(fs, role).value, body, suffix)
  }

  lemma AnnouncedDelimits(fs: seq<Field>, role: Role, body: string, suffix: string)
    requires Announced(fs, role, body, suffix) && (IsBodiless(role) || KeepsAnnouncement(fs))
    ensures FramingOf(Forwarded(fs), role).Some? && Delimits(FramingOf(Forwarded(fs), role).value, body, suffix)
  {
    StripKeepsFramingIff(fs, role);
  }

  /**
   So an exchange whose bodies are delimited as its own heads announce is well-formed, as
   long as no `Connection` option nominates an announcing field.
   */
  lemma AnnouncedIsClean(p: Pair, client: string, upstream: string)
    requires Sendable(p.request) && AllNormal(p.request.fields)
    requires SendableResponse(p.response) && AllNormal(p.response.fields)
    requires p.requestHead == ShowRequest(p.request, "") && |p.requestHead| <= MAX_HEADER_BYTES
    requires p.responseHead == ShowResponse(p.response) && |p.responseHead| <= MAX_HEADER_BYTES
    requires Announced(p.request.fields, OfRequest, p.requestBody, client) && KeepsAnnouncement(p.request.fields)
    requires var role := OfResponse(p.response.status, p.request.verb);
      if Switches(p) then p.responseBody == ""
      else Announced(p.response.fields, role, p.responseBody, upstream) && (IsBodiless(role) || KeepsAnnouncement(p.response.fields))
    ensures Clean(p, client, upstream)
  {
    AnnouncedDelimits(p.request.fields, OfRequest, p.requestBody, client);
    if !Switches(p) {
      AnnouncedDelimits(p.response.fields, OfResponse(p.response.status, p.request.verb), p.responseBody, upstream);
    }
    PrintedIsClean(p, client, upstream);
  }

  /**
   Where stripping takes the announcement away, the failure shows on the wire: the origin
   gets the head alone, and the announced body stays unread, to be taken for the next request.
   */
  lemma LostAnnouncement(request: Request, target: string, body: string, client: string, upstream: string)
    requires RequestFraming(request) == Some(NoBody)
    ensures var t := Transact(request, target, body + client, upstream);
      && t.toUpstream == ShowRequest(Sent(request), target) + Respond(request, body + client, upstream).toUpstream
      && (!Switched(upstream) ==> t.toUpstream == ShowRequest(Sent(request), target) && t.clientRest == body + client)
  {
    var head := ShowRequest(Sent(request), target);
    assert head + "" == head;
  }

  /** On the fields of `StripCanChangeFraming` the announcement is lost, whatever the rest of the head. */
  lemma LostOnTheWire(request: Request, target: string, body: string, client: string, upstream: string)
    requires request.fields == [NOMINATION, LENGTH_FIELD] && |body| == 5 && !Switched(upstream)
    ensures Announced(request.fields, OfRequest, body, client)
    ensures var t := Transact(request, target, body + client, upstream);
      t.toUpstream == ShowRequest(Sent(request), target) && t.clientRest == body + client
  {
    StripCanChangeFraming();
    LostAnnouncement(request, target, body, client, upstream);
  }

  // -------------------------------------------------------------- storage only

  /** The two readers and two writers of an intercepted connection. */
  datatype Wires = Wires(clientReader: Reader, clientWriter: Writer, upReader: Reader, upWriter: Writer)

  predicate Apart(a: Wires, b: Wires) {
    && a.clientReader != a.upReader && a.clientWriter != a.upWriter
    && b.clientReader != b.upReader && b.clientWriter != b.upWriter
    && {a.clientReader, a.upReader} !! {b.clientReader, b.upReader}
    && {a.clientWriter, a.upWriter} !! {b.clientWriter, b.upWriter}
  }

  /**
   Two runs of a whole connection on the same input, under decisions that may differ in
   everything and under any fragmentation of either run, consume the same bytes, write the
   same bytes to both sides and end the same way: as the session that the input determines.
   */
  method StorageOnly(server: ProxyServer, d1: Decision, d2: Decision, w1: Wires, w2: Wires)
    returns (end1: SessionEnd, end2: SessionEnd)
    requires Apart(w1, w2)
    requires w1.clientReader.unread == w2.clientReader.unread && w1.upReader.unread == w2.upReader.unread
    modifies server, w1.clientReader, w1.clientWriter, w1.upReader, w1.upWriter
    modifies w2.clientReader, w2.clientWriter, w2.upReader, w2.upWriter
    ensures
      var s := Serve(server.split, None, old(w1.clientReader.unread), old(w1.upReader.unread));
      && end1 == end2 == s.end
      && w1.upWriter.log == old(w1.upWriter.log) + s.toUpstream && w2.upWriter.log == old(w2.upWriter.log) + s.toUpstream
      && w1.clientWriter.log == old(w1.clientWriter.log) + s.toClient && w2.clientWriter.log == old(w2.clientWriter.log) + s.toClient
      && w1.clientReader.unread == w2.clientReader.unread == s.clientRest
      && w1.upReader.unread == w2.upReader.unread == s.upstreamRest
      && server.totalFlows == old(server.totalFlows) + s.flows + s.flows
    ensures server.submitted == old(server.submitted)
      + Recorded(server.split, server.decode, d1, None, old(w1.clientReader.unread), old(w1.upReader.unread))
      + Recorded(server.split, server.decode, d2, None, old(w1.clientReader.unread), old(w1.upReader.unread))
  {
    hide Serve, Recorded;
    end1 := server.ServeHttp(d1, None, w1.clientReader, w1.clientWriter, w1.upReader, w1.upWriter);
    end2 := server.ServeHttp(d2, None, w2.clientReader, w2.clientWriter, w2.upReader, w2.upWriter);
  }

  /** The two messages stored alike: what may differ depends on the part of the decisions that differs. */
  predicate SameHalf(d1: Decision, d2: Decision, a: Half, b: Half) {
    && a.contentType == b.contentType && a.size == b.size && a.headers.Some? == b.headers.Some?
    && (a.headers.Some? ==> AlikeHeaders(a.headers.value, b.headers.value))
    && (d1.redact == d2.redact ==> a.headers == b.headers)
    && (CaptureLimit(d1) == CaptureLimit(d2) ==> a.body == b.body)
  }

  /**
   The same flow stored under two decisions. Only the rule's action, id and name, the path,
   the bodies, the truncation and redaction marks and values of sensitive headers may differ.
   */
  predicate SameFlow(d1: Decision, d2: Decision, a: FlowRecord, b: FlowRecord) {
    && b.(action := a.action, ruleId := a.ruleId, ruleName := a.ruleName, path := a.path,
          request := a.request, response := a.response, truncated := a.truncated, redacted := a.redacted) == a
    && SameHalf(d1, d2, a.request, b.request) && SameHalf(d1, d2, a.response, b.response)
    && (d1.redact == d2.redact ==> a.path == b.path && a.redacted == b.redacted)
    && (CaptureLimit(d1) == CaptureLimit(d2) ==> a.truncated == b.truncated)
    && (a.action, a.ruleId, a.ruleName) == (d1.action, d1.ruleId, d1.ruleName)
    && (b.action, b.ruleId, b.ruleName) == (d2.action, d2.ruleId, d2.ruleName)
  }

  predicate SameFlows(d1: Decision, d2: Decision, a: seq<FlowRecord>, b: seq<FlowRecord>) {
    |a| == |b| && forall i :: 0 <= i < |a| ==> SameFlow(d1, d2, a[i], b[i])
  }

  lemma SameFlowsCons(d1: Decision, d2: Decision, a: FlowRecord, b: FlowRecord, more: seq<FlowRecord>, others: seq<FlowRecord>)
    requires SameFlow(d1, d2, a, b) && SameFlows(d1, d2, more, others)
    ensures SameFlows(d1, d2, [a] + more, [b] + others)
  {
  }

  lemma SameMessage(decode: Decoder, d1: Decision, d2: Decision, fs: seq<Field>, payload: string, relayed: string)
    ensures SameHalf(d1, d2, HalfOf(decode, d1, fs, payload, relayed), HalfOf(decode, d2, fs, payload, relayed))
  {
    RedactedHeadersAlike(ToDict(fs));
  }

  lemma SameExchange(decode: Decoder, request: Request, target: string, d1: Decision, d2: Decision, t: Transcript)
    ensures SameFlow(d1, d2, RecordOf(decode, request, target, d1, t), RecordOf(decode, request, target, d2, t))
  {
    SameMessage(decode, d1, d2, request.fields, TextOr(t.requestBody), t.relayedUp);
    if t.response.Some? {
      SameMessage(decode, d1, d2, t.response.value.fields, TextOr(t.responseBody), t.relayedDown);
    }
  }

  /** A decision shows in the records only where it should, over any connection. */
  lemma {:induction false} RecordsOfTwoDecisions(
    split: UrlSplit, decode: Decoder, d1: Decision, d2: Decision, pending: Option<Request>, client: string, upstream: string)
    ensures SameFlows(d1, d2, Recorded(split, decode, d1, pending, client, upstream), Recorded(split, decode, d2, pending, client, upstream))
    decreases |client|, if pending.Some? then 1 else 0
  {
    match pending {
      case None =>
        RecordedReads(split, decode, d1, client, upstream);
        RecordedReads(split, decode, d2, client, upstream);
        var (reading, rest) := ReadRequest(client);
        if reading.Head? {
          RecordsOfTwoDecisions(split, decode, d1, d2, Some(reading.head), rest, upstream);
        }
      case Some(request) =>
        var target := TargetOf(split, request.target);
        var t := Transact(request, target, client, upstream);
        var more, others: seq<FlowRecord> := [], [];
        if t.verdict == KeepAlive {
          RecordsOfTwoDecisions(split, decode, d1, d2, None, t.clientRest, t.upstreamRest);
          more := Recorded(split, decode, d1, None, t.clientRest, t.upstreamRest);
          others := Recorded(split, decode, d2, None, t.clientRest, t.upstreamRest);
        }
        RecordedTurns(split, decode, d1, request, client, upstream);
        RecordedTurns(split, decode, d2, request, client, upstream);
        SameExchange(decode, request, target, d1, d2, t);
        SameFlowsCons(d1, d2, RecordOf(decode, request, target, d1, t), RecordOf(decode, request, target, d2, t), more, others);
    }
  }
}
