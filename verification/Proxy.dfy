/**
 The HTTP/1.1 loop between the two connections: one exchange, and the loop over them.
 */
module Proxy {
  import opened Basics
  import opened PyText
  import opened Streams
  import opened Headers
  import opened Heads
  import opened HeadReading
  import opened Bodies
  import opened Policy
  import opened HeaderSnapshots
  import UrlRedaction

  const RELAY_CHUNK: nat := 65536

  // ------------------------------------------------------------- one exchange

  /** How an exchange ends: keep the connection, close it, or fail on the wire. */
  datatype Verdict = KeepAlive | Close | Failed(ending: Ending)

  /** Everything an exchange does on the wire, and the payloads it saw. */
  datatype Transcript = Transcript(
    verdict: Verdict,
    toUpstream: string, toClient: string,
    clientRest: string, upstreamRest: string,
    requestBody: Option<string>, response: Option<Response>, responseBody: Option<string>,
    relayedUp: string, relayedDown: string)

  /** `urlsplit`, as far as it is used: the path and the query of an absolute URL. */
  type UrlSplit = string -> (string, string)

  /** The target sent upstream: an absolute-form target loses its scheme and host. */
  function TargetOf(split: UrlSplit, target: string): string {
    if StartsWith(Lower(target), "http://") || StartsWith(Lower(target), "https://") then
      var (path, query) := split(target);
      (if path == "" then "/" else path) + (if query == "" then "" else "?" + query)
    else target
  }

  /** `word` occurs in the first `Connection` field, in any letter case. */
  predicate ConnectionSays(fs: seq<Field>, word: string) {
    Contains(Lower(TextOr(Get(fs, "connection"))), word)
  }

  /** Whether the connection outlives an exchange whose response was framed this way. */
  predicate Persists(request: Request, response: Response, framing: Framing) {
    && framing != UntilEof
    && !(request.version == "HTTP/1.0" && !ConnectionSays(Forwarded(request.fields), "keep-alive"))
    && !ConnectionSays(request.fields, "close") && !ConnectionSays(response.fields, "close")
  }

  function Sent(request: Request): Request {
    request.(fields := Forwarded(request.fields))
  }

  function SentBack(response: Response): Response {
    response.(fields := Forwarded(response.fields))
  }

  /** A head, then the body it frames: what is written and what is left unread. */
  function Deliver(head: string, framing: Option<Framing>, input: string): (p: Pumped)
    ensures |p.rest| <= |input|
  {
    match framing
    case None => Pumped(ProtocolFault, head, "", input)
    case Some(f) =>
      var p := Pump(f, input);
      p.(written := head + p.written)
  }

  function RequestFraming(request: Request): Option<Framing> {
    FramingOf(Forwarded(request.fields), OfRequest)
  }

  function ResponseFraming(request: Request, response: Response): Option<Framing> {
    FramingOf(Forwarded(response.fields), OfResponse(response.status, request.verb))
  }

  /** The request on its way to the origin: stripped head, then the body. */
  function DeliverRequest(request: Request, target: string, client: string): (p: Pumped)
    ensures |p.rest| <= |client|
  {
    Deliver(ShowRequest(Sent(request), target), RequestFraming(request), client)
  }

  function DeliverResponse(request: Request, response: Response, upstream: string): Pumped {
    Deliver(ShowResponse(SentBack(response)), ResponseFraming(request, response), upstream)
  }

  /** What follows a response head: the switch of protocols, or the response and the verdict. */
  function Answer(request: Request, response: Response, client: string, upstream: string): (t: Transcript)
    ensures t.clientRest == client || t.clientRest == ""
  {
    if response.status == 101 then
      Transcript(Close, client, ShowResponse(response) + upstream, "", "", None, Some(response), None, client, upstream)
    else
      var p := DeliverResponse(request, response, upstream);
      var verdict :=
        if p.ending != Complete then Failed(p.ending)
        else if Persists(request, response, ResponseFraming(request, response).value) then KeepAlive
        else Close;
      Transcript(verdict, "", p.written, client, p.rest, None, Some(response),
                 if p.ending == Complete then Some(p.payload) else None, "", "")
  }

  /** The response half of an exchange. */
  function Respond(request: Request, client: string, upstream: string): (t: Transcript)
    ensures t.clientRest == client || t.clientRest == ""
  {
    var (reading, rest) := ReadResponse(upstream);
    if reading.Head? then Answer(request, reading.head, client, rest)
    else Transcript(Failed(ProtocolFault), "", "", client, rest, None, None, None, "", "")
  }

  /** One round trip on the wire. Nothing about capture or redaction enters it. */
  function Transact(request: Request, target: string, client: string, upstream: string): (t: Transcript)
    ensures |t.clientRest| <= |client|
  {
    var p := DeliverRequest(request, target, client);
    if p.ending != Complete
    then Transcript(Failed(p.ending), p.written, "", p.rest, upstream, None, None, None, "", "")
    else
      var t := Respond(request, p.rest, upstream);
      t.(toUpstream := p.written + t.toUpstream, requestBody := Some(p.payload))
  }

  // -------------------------------------------------------- a whole connection

  /** The loop returns, or a malformed request head makes it raise. */
  datatype SessionEnd = Finished | HeadRejected

  /** What the loop does on the wire, with the flows it counts and the records it submits. */
  datatype Session = Session(
    end: SessionEnd, toUpstream: string, toClient: string, clientRest: string, upstreamRest: string,
    flows: nat, records: nat)

  function After(toUpstream: string, toClient: string, flows: nat, s: Session): Session {
    s.(toUpstream := toUpstream + s.toUpstream, toClient := toClient + s.toClient,
       flows := flows + s.flows, records := flows + s.records)
  }

  /** Requests and responses relayed until one side is done, starting with `pending` if there is one. */
  function Serve(split: UrlSplit, pending: Option<Request>, client: string, upstream: string): Session
    decreases |client|, if pending.Some? then 1 else 0
  {
    match pending
    case None =>
      var (reading, rest) := ReadRequest(client);
      (match reading
       case Closed => Session(Finished, "", "", rest, upstream, 0, 0)
       case Malformed => Session(HeadRejected, "", "", rest, upstream, 0, 0)
       case Head(request) => Serve(split, Some(request), rest, upstream))
    case Some(request) =>
      var t := Transact(request, TargetOf(split, request.target), client, upstream);
      if t.verdict == KeepAlive
      then After(t.toUpstream, t.toClient, 1, Serve(split, None, t.clientRest, t.upstreamRest))
      else Session(Finished, t.toUpstream, t.toClient, t.clientRest, t.upstreamRest, if t.verdict == Close then 1 else 0, 1)
  }

  // ------------------------------------------------------------ what is stored

  /** `decode_content`: the readable form of a captured body under its content encoding. */
  type Decoder = (string, Option<string>) -> string

  /** What a record keeps of one of the two messages. */
  datatype Half = Half(headers: Option<seq<Field>>, contentType: Option<string>, size: nat, body: Option<string>)

  /** The part of a flow record that the loop and an exchange fill in. */
  datatype FlowRecord = FlowRecord(
    action: Action, ruleId: Option<int>, ruleName: Option<string>,
    verb: string, path: string, version: string, request: Half,
    status: Option<int>, response: Half,
    truncated: bool, redacted: bool, error: Option<Ending>)

  const NOTHING_YET := Half(None, None, 0, None)

  /** A record before its exchange: the decision is all there is. */
  function NewRecord(decision: Decision): FlowRecord {
    FlowRecord(decision.action, decision.ruleId, decision.ruleName,
               "", "", "", NOTHING_YET, None, NOTHING_YET, false, false, None)
  }

  function CaptureLimit(decision: Decision): int {
    if decision.captureBodies then decision.captureMaxBytes else 0
  }

  predicate Overflows(payload: Option<string>, limit: int) {
    payload.Some? && |payload.value| > Max(0, limit)
  }

  function StoredPath(decision: Decision, target: string): string {
    if decision.redact then UrlRedaction.RedactUrl(target) else target
  }

  /** The stored body: the captured bytes decoded, nothing if there are none. */
  function StoredBody(decode: Decoder, fs: seq<Field>, payload: string, limit: int): Option<string> {
    var captured := Captured(payload, limit);
    if captured == "" then None else Some(decode(captured, Get(Forwarded(fs), "content-encoding")))
  }

  /** What a record keeps of a message with these fields: the snapshot is of the head before stripping. */
  function HalfOf(decode: Decoder, decision: Decision, fs: seq<Field>, payload: string, relayed: string): Half {
    Half(Some(Snapshot(decision.redact, fs)), Get(fs, "content-type"), |payload| + |relayed|,
         StoredBody(decode, fs, payload, CaptureLimit(decision)))
  }

  predicate Redacts(decision: Decision, fs: seq<Field>) {
    decision.redact && Touched(fs)
  }

  /** The record of an exchange: sizes count everything, bodies stop at the limit. */
  function RecordOf(decode: Decoder, request: Request, target: string, decision: Decision, t: Transcript): FlowRecord {
    var limit := CaptureLimit(decision);
    FlowRecord(
      decision.action, decision.ruleId, decision.ruleName,
      request.verb, StoredPath(decision, target), request.version,
      HalfOf(decode, decision, request.fields, TextOr(t.requestBody), t.relayedUp),
      match t.response case None => None case Some(response) => Some(response.status),
      ResponseHalf(decode, decision, t),
      Overflows(t.requestBody, limit) || Overflows(t.responseBody, limit),
      Redacts(decision, request.fields) || (t.response.Some? && Redacts(decision, t.response.value.fields)),
      if t.verdict.Failed? then Some(t.verdict.ending) else None)
  }

  function ResponseHalf(decode: Decoder, decision: Decision, t: Transcript): Half {
    match t.response
    case None => NOTHING_YET
    case Some(response) => HalfOf(decode, decision, response.fields, TextOr(t.responseBody), t.relayedDown)
  }

  /** The records that a whole connection leaves behind: one for each exchange, in order. */
  function Recorded(split: UrlSplit, decode: Decoder, decision: Decision, pending: Option<Request>, client: string, upstream: string): seq<FlowRecord>
    decreases |client|, if pending.Some? then 1 else 0
  {
    match pending
    case None =>
      var (reading, rest) := ReadRequest(client);
      if reading.Head? then Recorded(split, decode, decision, Some(reading.head), rest, upstream) else []
    case Some(request) =>
      var target := TargetOf(split, request.target);
      var t := Transact(request, target, client, upstream);
      [RecordOf(decode, request, target, decision, t)] +
      if t.verdict == KeepAlive then Recorded(split, decode, decision, None, t.clientRest, t.upstreamRest) else []
  }

  // ------------------------------------------------------ a record as it is filled

  /** The record once the request head is known. */
  function WithHead(record: FlowRecord, decision: Decision, request: Request, target: string): FlowRecord {
    record.(verb := request.verb, path := StoredPath(decision, target), version := request.version,
            request := Half(Some(Snapshot(decision.redact, request.fields)), Get(request.fields, "content-type"), 0, None),
            redacted := record.redacted || Redacts(decision, request.fields))
  }

  function WithBody(half: Half, decode: Decoder, fs: seq<Field>, payload: string, limit: int): Half {
    half.(size := |payload|, body := StoredBody(decode, fs, payload, limit))
  }

  function WithRequestBody(record: FlowRecord, decode: Decoder, fs: seq<Field>, payload: string, limit: int): FlowRecord {
    record.(request := WithBody(record.request, decode, fs, payload, limit),
            truncated := record.truncated || |payload| > Max(0, limit))
  }

  /** The record once the response head is known. */
  function WithResponseHead(record: FlowRecord, decision: Decision, response: Response): FlowRecord {
    record.(status := Some(response.status),
            response := Half(Some(Snapshot(decision.redact, response.fields)), Get(response.fields, "content-type"), 0, None),
            redacted := record.redacted || Redacts(decision, response.fields))
  }

  function WithRelayed(record: FlowRecord, up: nat, down: nat): FlowRecord {
    record.(request := record.request.(size := record.request.size + up),
            response := record.response.(size := record.response.size + down))
  }

  function WithResponseBody(record: FlowRecord, decode: Decoder, fs: seq<Field>, payload: string, limit: int): FlowRecord {
    record.(response := WithBody(record.response, decode, fs, payload, limit),
            truncated := record.truncated || |payload| > Max(0, limit))
  }

  /** The record once the response half is over. */
  function WithResponse(record: FlowRecord, decode: Decoder, decision: Decision, t: Transcript): FlowRecord {
    match t.response
    case None => record
    case Some(response) =>
      var known := WithResponseHead(record, decision, response);
      if t.responseBody.Some?
      then WithResponseBody(known, decode, response.fields, t.responseBody.value, CaptureLimit(decision))
      else WithRelayed(known, |t.relayedUp|, |t.relayedDown|)
  }

  /** The record as it grows, from the decision to the response, is the record of the exchange. */
  lemma RecordAssembled(decode: Decoder, request: Request, target: string, decision: Decision, client: string, upstream: string)
    ensures var t := Transact(request, target, client, upstream);
      var p := DeliverRequest(request, target, client);
      var begun := WithHead(NewRecord(decision), decision, request, target);
      RecordOf(decode, request, target, decision, t).(error := None) ==
        if p.ending != Complete then begun
        else
          WithResponse(WithRequestBody(begun, decode, request.fields, p.payload, CaptureLimit(decision)), decode, decision,
                       Respond(request, p.rest, upstream))
  {
    var p := DeliverRequest(request, target, client);
    if p.ending == Complete {
      var t := Respond(request, p.rest, upstream);
      ResponseRecorded(request, p.rest, upstream);
      HalvesAssembled(decode, request, target, decision, p, t);
    }
  }

  lemma HalvesAssembled(decode: Decoder, request: Request, target: string, decision: Decision, p: Pumped, t: Transcript)
    requires (t.responseBody.Some? ==> t.relayedUp == t.relayedDown == "")
    requires (t.response.None? ==> t.responseBody == None && t.relayedUp == t.relayedDown == "")
    ensures var begun := WithHead(NewRecord(decision), decision, request, target);
      RecordOf(decode, request, target, decision, t.(toUpstream := p.written + t.toUpstream, requestBody := Some(p.payload)))
        .(error := None) ==
      WithResponse(WithRequestBody(begun, decode, request.fields, p.payload, CaptureLimit(decision)), decode, decision, t)
  {
  }

  /** Either a body was pumped or bytes were relayed, not both. */
  lemma ResponseRecorded(request: Request, client: string, upstream: string)
    ensures var t := Respond(request, client, upstream);
      && t.requestBody == None
      && (t.responseBody.Some? ==> t.relayedUp == t.relayedDown == "")
      && (t.response.None? ==> t.responseBody == None && t.relayedUp == t.relayedDown == "")
  {
  }

  // --------------------------------------------------------------- the methods

  /** Copies both directions until both inputs end, in any interleaving. */
  method RelayBoth(clientReader: Reader, clientWriter: Writer, upReader: Reader, upWriter: Writer)
    returns (sent: nat, received: nat)
    requires clientReader != upReader && clientWriter != upWriter
    modifies clientReader, clientWriter, upReader, upWriter
    ensures upWriter.log == old(upWriter.log) + old(clientReader.unread) && sent == |old(clientReader.unread)|
    ensures clientWriter.log == old(clientWriter.log) + old(upReader.unread) && received == |old(upReader.unread)|
    ensures clientReader.unread == "" && upReader.unread == ""
  {
    sent, received := 0, 0;
    ghost var up, down := "", "";
    while clientReader.unread != "" || upReader.unread != ""
      invariant old(clientReader.unread) == up + clientReader.unread && sent == |up|
      invariant old(upReader.unread) == down + upReader.unread && received == |down|
      invariant upWriter.log == old(upWriter.log) + up
      invariant clientWriter.log == old(clientWriter.log) + down
      decreases |clientReader.unread| + |upReader.unread|
    {
      var clientFirst := *;
      if upReader.unread == "" || (clientFirst && clientReader.unread != "") {
        var data := clientReader.Read(RELAY_CHUNK);
        upWriter.Write(data);
        sent := sent + |data|;
        up := up + data;
      } else {
        var data := upReader.Read(RELAY_CHUNK);
        clientWriter.Write(data);
        received := received + |data|;
        down := down + data;
      }
    }
    assert up == old(clientReader.unread) && down == old(upReader.unread);
  }

  class ProxyServer {
    const split: UrlSplit
    const decode: Decoder
    var totalFlows: nat
    /** The records handed to the recorder, in order. */
    var submitted: seq<FlowRecord>

    constructor (split: UrlSplit, decode: Decoder)
      ensures this.split == split && this.decode == decode && totalFlows == 0 && submitted == []
    {
      this.split, this.decode := split, decode;
      totalFlows, submitted := 0, [];
    }

    /** Strips the head, writes it upstream and pumps the request body after it. */
    method SendRequest(request: RequestHead, target: string, limit: int, clientReader: Reader, upWriter: Writer)
      returns (ending: Ending, body: BodyResult)
      modifies request.headers, clientReader, upWriter
      ensures request.headers.items == Forwarded(old(request.headers.items))
      ensures var p := DeliverRequest(old(request.View()), target, old(clientReader.unread));
        && ending == p.ending && clientReader.unread == p.rest
        && upWriter.log == old(upWriter.log) + p.written
        && (ending == Complete ==> body == BodyResult(Captured(p.payload, limit), |p.payload|, |p.payload| > Max(0, limit)))
    {
      ghost var log := upWriter.log;
      request.headers.StripHopByHop();
      var head := ShowRequest(request.View(), target);
      upWriter.Write(head);
      var framing := FramingOf(request.headers.items, OfRequest);
      body := BodyResult("", 0, false);
      if framing == None { return ProtocolFault, body; }
      SeqAssoc(log, head, Pump(framing.value, clientReader.unread).written);
      ending, body := PumpBody(clientReader, upWriter, framing.value, limit);
    }

    /** The same towards the client; also returns the framing it used. */
    method SendResponse(response: ResponseHead, ghost request: Request, verb: string, limit: int,
                        upReader: Reader, clientWriter: Writer)
      returns (ending: Ending, body: BodyResult, framing: Option<Framing>)
      requires verb == request.verb
      modifies response.headers, upReader, clientWriter
      ensures response.headers.items == Forwarded(old(response.headers.items))
      ensures framing == ResponseFraming(request, old(response.View()))
      ensures var p := DeliverResponse(request, old(response.View()), old(upReader.unread));
        && ending == p.ending && upReader.unread == p.rest
        && clientWriter.log == old(clientWriter.log) + p.written
        && (ending == Complete ==> framing.Some? && body == BodyResult(Captured(p.payload, limit), |p.payload|, |p.payload| > Max(0, limit)))
    {
      ghost var log := clientWriter.log;
      response.headers.StripHopByHop();
      var head := ShowResponse(response.View());
      clientWriter.Write(head);
      framing := FramingOf(response.headers.items, OfResponse(response.status, verb));
      body := BodyResult("", 0, false);
      if framing == None { return ProtocolFault, body, framing; }
      SeqAssoc(log, head, Pump(framing.value, upReader.unread).written);
      ending, body := PumpBody(upReader, clientWriter, framing.value, limit);
    }

    /** Forwards a 101 head unstripped and relays both directions to their ends. */
    method SwitchProtocols(head: ResponseHead, clientReader: Reader, clientWriter: Writer, upReader: Reader, upWriter: Writer)
      returns (sent: nat, received: nat)
      requires clientReader != upReader && clientWriter != upWriter
      modifies clientReader, clientWriter, upReader, upWriter
      ensures upWriter.log == old(upWriter.log) + old(clientReader.unread)
      ensures clientWriter.log == old(clientWriter.log) + (ShowResponse(old(head.View())) + old(upReader.unread))
      ensures clientReader.unread == "" && upReader.unread == ""
      ensures sent == |old(clientReader.unread)| && received == |old(upReader.unread)|
    {
      ghost var log := clientWriter.log;
      var text := ShowResponse(head.View());
      clientWriter.Write(text);
      SeqAssoc(log, text, upReader.unread);
      sent, received := RelayBoth(clientReader, clientWriter, upReader, upWriter);
    }

    /** The verdict after a complete response. */
    method Conclude(request: RequestHead, ghost r: Request, ghost response: Response, framing: Framing,
                    clientWantsClose: bool, serverWantsClose: bool) returns (verdict: Verdict)
      requires request.View() == Sent(r)
      requires clientWantsClose == ConnectionSays(r.fields, "close")
      requires serverWantsClose == ConnectionSays(response.fields, "close")
      ensures verdict == if Persists(r, response, framing) then KeepAlive else Close
    {
      if framing == UntilEof { return Close; }
      if request.version == "HTTP/1.0" && !ConnectionSays(request.headers.items, "keep-alive") { return Close; }
      verdict := if clientWantsClose || serverWantsClose then Close else KeepAlive;
    }

    /** The body that a record stores of a message whose head has been stripped. */
    method Decoded(headers: Headers, body: BodyResult) returns (stored: Option<string>)
      ensures stored == if body.captured == "" then None else Some(decode(body.captured, Get(headers.items, "content-encoding")))
    {
      stored := if body.captured == "" then None else Some(decode(body.captured, Get(headers.items, "content-encoding")));
    }

    /** What happens once a response head other than 101 has been read. */
    method HandleResponse(request: RequestHead, ghost r: Request, head: ResponseHead, clientWantsClose: bool,
                          limit: int, started: FlowRecord, upReader: Reader, clientWriter: Writer)
      returns (verdict: Verdict, record: FlowRecord)
      requires request.headers != head.headers && head.status != 101
      requires request.View() == Sent(r) && clientWantsClose == ConnectionSays(r.fields, "close")
      modifies head.headers, clientWriter, upReader
      ensures
        var response := old(head.View());
        var p := DeliverResponse(r, response, old(upReader.unread));
        && clientWriter.log == old(clientWriter.log) + p.written && upReader.unread == p.rest
        && (p.ending != Complete ==> verdict == Failed(p.ending) && record == started)
        && (p.ending == Complete ==>
              && verdict == (if Persists(r, response, ResponseFraming(r, response).value) then KeepAlive else Close)
              && record == WithResponseBody(started, decode, response.fields, p.payload, limit))
    {
      ghost var seen := head.View();
      record := started;
      var serverWantsClose := ConnectionSays(head.headers.items, "close");
      var ending, body, framing := SendResponse(head, r, request.verb, limit, upReader, clientWriter);
      if ending != Complete { return Failed(ending), record; }
      var stored := Decoded(head.headers, body);
      record := record.(response := record.response.(size := body.total, body := stored),
                        truncated := record.truncated || body.truncated);
      verdict := Conclude(request, r, seen, framing.value, clientWantsClose, serverWantsClose);
    }

    /** The response head on the record: its status and its snapshot, taken before stripping. */
    method NoteResponse(head: ResponseHead, decision: Decision, started: FlowRecord) returns (record: FlowRecord)
      ensures record == WithResponseHead(started, decision, head.View())
    {
      record := started.(status := Some(head.status));
      var snapshot, touched := TakeSnapshot(head.headers, decision.redact);
      record := record.(redacted := record.redacted || touched,
                        response := Half(Some(snapshot), Get(head.headers.items, "content-type"), 0, None));
    }

    /** What a response head leads to: relaying after a switch of protocols, or the response. */
    method AfterHead(request: RequestHead, ghost r: Request, head: ResponseHead, clientWantsClose: bool,
                     decision: Decision, started: FlowRecord,
                     clientReader: Reader, clientWriter: Writer, upReader: Reader, upWriter: Writer)
      returns (verdict: Verdict, record: FlowRecord)
      requires clientReader != upReader && clientWriter != upWriter && request.headers != head.headers
      requires request.View() == Sent(r) && clientWantsClose == ConnectionSays(r.fields, "close")
      modifies head.headers, clientReader, clientWriter, upReader, upWriter
      ensures
        var t := Answer(r, old(head.View()), old(clientReader.unread), old(upReader.unread));
        && verdict == t.verdict
        && upWriter.log == old(upWriter.log) + t.toUpstream && clientWriter.log == old(clientWriter.log) + t.toClient
        && clientReader.unread == t.clientRest && upReader.unread == t.upstreamRest
        && record == WithResponse(started, decode, decision, t)
    {
      assert upWriter.log + "" == upWriter.log;
      record := NoteResponse(head, decision, started);
      if head.status == 101 {
        var sent, received := SwitchProtocols(head, clientReader, clientWriter, upReader, upWriter);
        record := WithRelayed(record, sent, received);
        verdict := Close;
      } else {
        verdict, record := HandleResponse(request, r, head, clientWantsClose, CaptureLimit(decision), record, upReader, clientWriter);
      }
    }

    /** The response half, from its head on. */
    method ReceiveResponse(request: RequestHead, ghost r: Request, clientWantsClose: bool, decision: Decision, started: FlowRecord,
                           clientReader: Reader, clientWriter: Writer, upReader: Reader, upWriter: Writer)
      returns (verdict: Verdict, record: FlowRecord)
      requires clientReader != upReader && clientWriter != upWriter
      requires request.View() == Sent(r) && clientWantsClose == ConnectionSays(r.fields, "close")
      modifies clientReader, clientWriter, upReader, upWriter
      ensures
        var t := Respond(r, old(clientReader.unread), old(upReader.unread));
        && verdict == t.verdict
        && upWriter.log == old(upWriter.log) + t.toUpstream && clientWriter.log == old(clientWriter.log) + t.toClient
        && clientReader.unread == t.clientRest && upReader.unread == t.upstreamRest
        && record == WithResponse(started, decode, decision, t)
    {
      var response := ReadResponseHead(upReader);
      if response.Head? {
        verdict, record := AfterHead(request, r, response.head, clientWantsClose, decision, started,
                                     clientReader, clientWriter, upReader, upWriter);
      } else {
        assert upWriter.log + "" == upWriter.log && clientWriter.log + "" == clientWriter.log;
        verdict, record := Failed(ProtocolFault), started;
      }
    }

    /** The request head on the record: its snapshot is taken before stripping. */
    method NoteRequest(request: RequestHead, target: string, decision: Decision, started: FlowRecord)
      returns (record: FlowRecord)
      ensures record == WithHead(started, decision, request.View(), target)
    {
      record := started.(verb := request.verb, path := StoredPath(decision, target), version := request.version);
      var snapshot, touched := TakeSnapshot(request.headers, decision.redact);
      record := record.(redacted := record.redacted || touched,
                        request := Half(Some(snapshot), Get(request.headers.items, "content-type"), 0, None));
    }

    /** One request and its response. The wire sees `Transact`, whatever the decision. */
    method Exchange(request: RequestHead, started: FlowRecord, decision: Decision,
                    clientReader: Reader, clientWriter: Writer, upReader: Reader, upWriter: Writer)
      returns (verdict: Verdict, record: FlowRecord)
      requires clientReader != upReader && clientWriter != upWriter && started == NewRecord(decision)
      modifies request.headers, clientReader, clientWriter, upReader, upWriter
      ensures
        var r := old(request.View());
        var target := TargetOf(split, r.target);
        var t := Transact(r, target, old(clientReader.unread), old(upReader.unread));
        && verdict == t.verdict
        && upWriter.log == old(upWriter.log) + t.toUpstream && clientWriter.log == old(clientWriter.log) + t.toClient
        && clientReader.unread == t.clientRest && upReader.unread == t.upstreamRest
        && record == RecordOf(decode, r, target, decision, t).(error := None)
    {
      ghost var r := request.View();
      ghost var upLog, client, upstream := upWriter.log, clientReader.unread, upReader.unread;
      var target := TargetOf(split, request.target);
      record := NoteRequest(request, target, decision, started);
      var limit := CaptureLimit(decision);
      var clientWantsClose := ConnectionSays(request.headers.items, "close");

      ghost var p := DeliverRequest(r, target, client);
      RecordAssembled(decode, r, target, decision, client, upstream);
      var ending, body := SendRequest(request, target, limit, clientReader, upWriter);
      assert clientWriter.log + "" == clientWriter.log;
      if ending != Complete {
        verdict := Failed(ending);
      } else {
        var stored := Decoded(request.headers, body);
        record := record.(request := record.request.(size := body.total, body := stored),
                          truncated := record.truncated || body.truncated);
        SeqAssoc(upLog, p.written, Respond(r, p.rest, upstream).toUpstream);
        verdict, record := ReceiveResponse(request, r, clientWantsClose, decision, record,
                                           clientReader, clientWriter, upReader, upWriter);
      }
    }

    /** One turn of the loop: the exchange, its record, and the flow count. */
    method ServeOne(request: RequestHead, decision: Decision,
                    clientReader: Reader, clientWriter: Writer, upReader: Reader, upWriter: Writer)
      returns (verdict: Verdict)
      requires clientReader != upReader && clientWriter != upWriter
      modifies this, request.headers, clientReader, clientWriter, upReader, upWriter
      ensures
        var r := old(request.View());
        var t := Transact(r, TargetOf(split, r.target), old(clientReader.unread), old(upReader.unread));
        && verdict == t.verdict
        && upWriter.log == old(upWriter.log) + t.toUpstream && clientWriter.log == old(clientWriter.log) + t.toClient
        && clientReader.unread == t.clientRest && upReader.unread == t.upstreamRest
        && submitted == old(submitted) + [RecordOf(decode, r, TargetOf(split, r.target), decision, t)]
      ensures totalFlows == old(totalFlows) + if verdict.Failed? then 0 else 1
    {
      var record := NewRecord(decision);
      verdict, record := Exchange(request, record, decision, clientReader, clientWriter, upReader, upWriter);
      if verdict.Failed? {
        record := record.(error := Some(verdict.ending));
      } else {
        totalFlows := totalFlows + 1;
      }
      submitted := submitted + [record];
    }

    /** One turn of the loop: takes a request, serves it, and says whether to go on. */
    method Turn(decision: Decision, pending: Option<RequestHead>,
                clientReader: Reader, clientWriter: Writer, upReader: Reader, upWriter: Writer)
      returns (running: bool, end: SessionEnd, ghost t: Session, ghost added: seq<FlowRecord>)
      requires clientReader != upReader && clientWriter != upWriter
      modifies this, clientReader, clientWriter, upReader, upWriter, if pending.Some? then {pending.value.headers} else {}
      ensures Serve(split, old(Seen(pending)), old(clientReader.unread), old(upReader.unread)) ==
        if running then After(t.toUpstream, t.toClient, 1, Serve(split, None, clientReader.unread, upReader.unread)) else t
      ensures end == t.end && clientReader.unread == t.clientRest && upReader.unread == t.upstreamRest
      ensures upWriter.log == old(upWriter.log) + t.toUpstream && clientWriter.log == old(clientWriter.log) + t.toClient
      ensures totalFlows == old(totalFlows) + t.flows
      ensures submitted == old(submitted) + added && |added| == t.records
      ensures Recorded(split, decode, decision, old(Seen(pending)), old(clientReader.unread), old(upReader.unread)) ==
        added + if running then Recorded(split, decode, decision, None, clientReader.unread, upReader.unread) else []
      ensures running ==> t.flows == t.records == 1 && |clientReader.unread| <= |old(clientReader.unread)|
      ensures running && pending.None? ==> |clientReader.unread| < |old(clientReader.unread)|
    {
      ServeReads(split, clientReader.unread, upReader.unread);
      RecordedReads(split, decode, decision, clientReader.unread, upReader.unread);
      var reading := TakeRequest(pending, clientReader);
      if reading.Head? {
        ghost var r := reading.head.View();
        ghost var done := Transact(r, TargetOf(split, r.target), clientReader.unread, upReader.unread);
        ServeTurns(split, r, clientReader.unread, upReader.unread);
        RecordedTurns(split, decode, decision, r, clientReader.unread, upReader.unread);
        var verdict := ServeOne(reading.head, decision, clientReader, clientWriter, upReader, upWriter);
        running, end, t := verdict == KeepAlive, Finished, Closing(done);
        added := [RecordOf(decode, r, TargetOf(split, r.target), decision, done)];
      } else {
        running, end := false, if reading.Closed? then Finished else HeadRejected;
        t, added := Session(end, "", "", clientReader.unread, upReader.unread, 0, 0), [];
        assert upWriter.log + "" == upWriter.log && clientWriter.log + "" == clientWriter.log;
        assert submitted + added == submitted;
      }
    }

    /** Relays requests and responses on an established pair of connections. */
    method ServeHttp(decision: Decision, first: Option<RequestHead>,
                     clientReader: Reader, clientWriter: Writer, upReader: Reader, upWriter: Writer)
      returns (end: SessionEnd)
      requires clientReader != upReader && clientWriter != upWriter
      modifies this, clientReader, clientWriter, upReader, upWriter, if first.Some? then {first.value.headers} else {}
      ensures
        var s := Serve(split, old(Seen(first)), old(clientReader.unread), old(upReader.unread));
        && end == s.end
        && upWriter.log == old(upWriter.log) + s.toUpstream && clientWriter.log == old(clientWriter.log) + s.toClient
        && clientReader.unread == s.clientRest && upReader.unread == s.upstreamRest
        && totalFlows == old(totalFlows) + s.flows
        && |submitted| == |old(submitted)| + s.records
      ensures submitted == old(submitted) + Recorded(split, decode, decision, old(Seen(first)), old(clientReader.unread), old(upReader.unread))
    {
      hide Serve, Recorded;
      ghost var upStart, downStart, before := upWriter.log, clientWriter.log, submitted;
      ghost var up, down, flows: nat, records: seq<FlowRecord> := "", "", 0, [];
      ghost var now := Seen(first);
      ghost var whole := Serve(split, now, clientReader.unread, upReader.unread);
      ghost var kept := Recorded(split, decode, decision, now, clientReader.unread, upReader.unread);
      var pending := first;
      while true
        invariant (pending == None || pending == first) && Seen(pending) == now
        invariant |records| == flows
        invariant whole == After(up, down, flows, Serve(split, now, clientReader.unread, upReader.unread))
        invariant kept == records + Recorded(split, decode, decision, now, clientReader.unread, upReader.unread)
        invariant upWriter.log == upStart + up && clientWriter.log == downStart + down
        invariant totalFlows == old(totalFlows) + flows && submitted == before + records
        decreases |clientReader.unread|, if pending.Some? then 1 else 0
      {
        var running;
        ghost var t, added;
        running, end, t, added := Turn(decision, pending, clientReader, clientWriter, upReader, upWriter);
        pending, now := None, None;
        SeqAssoc(upStart, up, t.toUpstream);
        SeqAssoc(downStart, down, t.toClient);
        SeqAssoc(before, records, added);
        if !running { return; }
        SeqAssoc(records, added, Recorded(split, decode, decision, None, clientReader.unread, upReader.unread));
        AfterTwice(up, down, flows, t.toUpstream, t.toClient, 1, Serve(split, None, clientReader.unread, upReader.unread));
        up, down, flows, records := up + t.toUpstream, down + t.toClient, flows + 1, records + added;
      }
    }

    /** The request already in hand, or the next one off the reader. */
    method TakeRequest(pending: Option<RequestHead>, clientReader: Reader) returns (reading: Reading<RequestHead>)
      modifies clientReader
      ensures pending.Some? ==> reading == Head(pending.value) && clientReader.unread == old(clientReader.unread)
      ensures pending.None? ==> (RequestSeen(reading), clientReader.unread) == ReadRequest(old(clientReader.unread))
      ensures pending.None? && reading.Head? ==> fresh(reading.head.headers)
    {
      if pending.Some? {
        reading := Head(pending.value);
      } else {
        reading := ReadRequestHead(clientReader);
      }
    }
  }

  /** The session that one exchange makes when the loop stops after it. */
  function Closing(t: Transcript): Session {
    Session(Finished, t.toUpstream, t.toClient, t.clientRest, t.upstreamRest, if t.verdict.Failed? then 0 else 1, 1)
  }

  lemma RecordedReads(split: UrlSplit, decode: Decoder, decision: Decision, client: string, upstream: string)
    ensures var (reading, rest) := ReadRequest(client);
      Recorded(split, decode, decision, None, client, upstream) ==
        if reading.Head? then Recorded(split, decode, decision, Some(reading.head), rest, upstream) else []
  {
  }

  lemma ServeReads(split: UrlSplit, client: string, upstream: string)
    ensures var (reading, rest) := ReadRequest(client);
      Serve(split, None, client, upstream) ==
        if reading.Head? then Serve(split, Some(reading.head), rest, upstream)
        else Session(if reading.Closed? then Finished else HeadRejected, "", "", rest, upstream, 0, 0)
  {
  }

  lemma RecordedTurns(split: UrlSplit, decode: Decoder, decision: Decision, request: Request, client: string, upstream: string)
    ensures var target := TargetOf(split, request.target);
      var t := Transact(request, target, client, upstream);
      Recorded(split, decode, decision, Some(request), client, upstream) ==
        [RecordOf(decode, request, target, decision, t)] +
        if t.verdict == KeepAlive then Recorded(split, decode, decision, None, t.clientRest, t.upstreamRest) else []
  {
  }

  lemma ServeTurns(split: UrlSplit, request: Request, client: string, upstream: string)
    ensures var t := Transact(request, TargetOf(split, request.target), client, upstream);
      Serve(split, Some(request), client, upstream) ==
        if t.verdict == KeepAlive
        then After(t.toUpstream, t.toClient, 1, Serve(split, None, t.clientRest, t.upstreamRest))
        else Closing(t)
  {
  }

  function Seen(first: Option<RequestHead>): Option<Request>
    reads if first.Some? then {first.value.headers} else {}
  {
    match first case None => None case Some(head) => Some(head.View())
  }

  lemma AfterTwice(u1: string, d1: string, n1: nat, u2: string, d2: string, n2: nat, s: Session)
    ensures After(u1, d1, n1, After(u2, d2, n2, s)) == After(u1 + u2, d1 + d2, n1 + n2, s)
  {
    SeqAssoc(u1, u2, s.toUpstream);
    SeqAssoc(d1, d2, s.toClient);
  }
}
