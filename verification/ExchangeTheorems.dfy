/**
 What one exchange decides: where it goes, when it fails, whether the connection stays
 open after it, and what its record holds.
 */
module ExchangeTheorems {
  import opened Basics
  import opened PyText
  import opened TextTheorems
  import opened Headers
  import opened HeaderTheorems
  import opened Heads
  import opened HeadReading
  import opened Bodies
  import opened FramingCases
  import opened Policy
  import opened HeaderSnapshots
  import opened Proxy
  import UrlRedaction

  // ---------------------------------------------------------------------- target

  /** The target begins with a scheme, in some mixture of letter cases. */
  predicate IsAbsolute(target: string) {
    SpelledAt(target, "http://", 0) || SpelledAt(target, "https://", 0)
  }

  /** Only an absolute target is rewritten, to its path and its query; an empty path becomes a slash. */
  lemma TargetMeaning(split: UrlSplit, target: string)
    ensures !IsAbsolute(target) ==> TargetOf(split, target) == target
    ensures IsAbsolute(target) ==>
      var (path, query) := split(target);
      && (path != "" && query != "" ==> TargetOf(split, target) == path + "?" + query)
      && (path != "" && query == "" ==> TargetOf(split, target) == path)
      && (path == "" && query != "" ==> TargetOf(split, target) == "/?" + query)
      && (path == "" && query == "" ==> TargetOf(split, target) == "/")
  {
    PrefixIff(target, "http://");
    PrefixIff(target, "https://");
    var (path, query) := split(target);
    assert "/" + ("?" + query) == "/?" + query;
    assert path + ("?" + query) == path + "?" + query;
    assert path + "" == path;
  }

  lemma PrefixIff(s: string, prefix: string)
    ensures StartsWith(Lower(s), prefix) <==> SpelledAt(s, prefix, 0)
  {
    if |prefix| <= |s| {
      assert Lower(s)[..|prefix|] == Lower(s[0..0 + |prefix|]);
    }
  }

  // ---------------------------------------------------------------- on the wire

  /** With its framing known, a request is its stripped head and the bytes its body pumps. */
  lemma RequestDelivered(request: Request, target: string, client: string, framing: Framing)
    requires FramingOf(Forwarded(request.fields), OfRequest) == Some(framing)
    ensures var p := DeliverRequest(request, target, client);
      && p.written == ShowRequest(request.(fields := Forwarded(request.fields)), target) + Pump(framing, client).written
      && p.ending == Pump(framing, client).ending && p.payload == Pump(framing, client).payload && p.rest == Pump(framing, client).rest
  {
  }

  lemma ResponseDelivered(request: Request, response: Response, upstream: string, framing: Framing)
    requires FramingOf(Forwarded(response.fields), OfResponse(response.status, request.verb)) == Some(framing)
    ensures var p := DeliverResponse(request, response, upstream);
      && p.written == ShowResponse(response.(fields := Forwarded(response.fields))) + Pump(framing, upstream).written
      && p.ending == Pump(framing, upstream).ending && p.payload == Pump(framing, upstream).payload && p.rest == Pump(framing, upstream).rest
  {
  }

  /** An undeliverable request: the head alone went out, and neither side is read further. */
  lemma RequestRefused(request: Request, target: string, client: string, upstream: string)
    requires FramingOf(Forwarded(request.fields), OfRequest) == None
    ensures var t := Transact(request, target, client, upstream);
      && t.verdict == Failed(ProtocolFault) && t.response == None
      && t.toUpstream == ShowRequest(request.(fields := Forwarded(request.fields)), target) && t.toClient == ""
      && t.clientRest == client && t.upstreamRest == upstream
  {
  }

  /**
   When an exchange fails: the request body does not arrive whole, no response head does,
   or, without a switch of protocols, the response body does not.
   */
  lemma FailsIff(request: Request, target: string, client: string, upstream: string)
    ensures var p := DeliverRequest(request, target, client);
      var (reading, rest) := ReadResponse(upstream);
      Transact(request, target, client, upstream).verdict.Failed? <==>
        || p.ending != Complete
        || !reading.Head?
        || (reading.head.status != 101 && DeliverResponse(request, reading.head, rest).ending != Complete)
  {
  }

  /** A request that fails shows the client nothing and leaves the origin unread. */
  lemma FailedRequestIsSilent(request: Request, target: string, client: string, upstream: string)
    requires DeliverRequest(request, target, client).ending != Complete
    ensures var t := Transact(request, target, client, upstream);
      t.toClient == "" && t.upstreamRest == upstream && t.toUpstream == DeliverRequest(request, target, client).written
  {
  }

  // ----------------------------------------------------------------- the verdict

  /** The forwarded response ends only with its connection. */
  ghost predicate LastsToEnd(request: Request, response: Response) {
    && response.status != 204 && response.status != 304 && !(100 <= response.status <= 199) && Lower(request.verb) != "head"
    && !FirstSays(Forwarded(response.fields), "transfer-encoding", "chunked")
    && Absent(Forwarded(response.fields), "content-length")
  }

  /** A reason to close: either side asks for it, HTTP/1.0 does not ask against it, or the response cannot end otherwise. */
  ghost predicate ReasonToClose(request: Request, response: Response) {
    || FirstSays(request.fields, "connection", "close")
    || FirstSays(response.fields, "connection", "close")
    || (request.version == "HTTP/1.0" && !FirstSays(Forwarded(request.fields), "connection", "keep-alive"))
    || LastsToEnd(request, response)
  }

  lemma SaysIff(fs: seq<Field>, word: string)
    requires word != ""
    ensures ConnectionSays(fs, word) <==> FirstSays(fs, "connection", word)
  {
    assert Lower("connection") == "connection";
    FirstSaysIff(fs, "connection", word);
  }

  lemma UntilEofIff(request: Request, response: Response)
    ensures ResponseFraming(request, response) == Some(UntilEof) <==> LastsToEnd(request, response)
  {
    var fs, role := Forwarded(response.fields), OfResponse(response.status, request.verb);
    TransferNames();
    if !FieldsDecide(role) {
      BodilessFramed(fs, response.status, request.verb);
    } else if FirstSays(fs, "transfer-encoding", "chunked") {
      ChunkedFramed(fs, role);
    } else if Absent(fs, "content-length") {
      UnannouncedFramed(fs, role);
    } else {
      var i := GetMeaning(fs, "content-length");
      LengthFramed(fs, role, i);
    }
  }

  lemma PersistsIff(request: Request, response: Response)
    requires ResponseFraming(request, response).Some?
    ensures Persists(request, response, ResponseFraming(request, response).value) <==> !ReasonToClose(request, response)
  {
    SaysIff(request.fields, "close");
    SaysIff(response.fields, "close");
    SaysIff(Forwarded(request.fields), "keep-alive");
    UntilEofIff(request, response);
  }

  /** The connection stays open after a completed exchange exactly when nothing is a reason to close it. */
  lemma VerdictIff(request: Request, target: string, client: string, upstream: string)
    ensures var t := Transact(request, target, client, upstream);
      && (!t.verdict.Failed? ==> t.response.Some?)
      && (!t.verdict.Failed? ==>
            (t.verdict == KeepAlive <==> t.response.value.status != 101 && !ReasonToClose(request, t.response.value)))
  {
    var p := DeliverRequest(request, target, client);
    var (reading, rest) := ReadResponse(upstream);
    if p.ending == Complete && reading.Head? && reading.head.status != 101
      && DeliverResponse(request, reading.head, rest).ending == Complete {
      PersistsIff(request, reading.head);
    }
  }

  /** After an exchange that gives a reason to close, no second request is read: the session is that exchange. */
  lemma ClosingStops(split: UrlSplit, request: Request, client: string, upstream: string)
    requires var t := Transact(request, TargetOf(split, request.target), client, upstream);
      t.verdict.Failed? || t.response.value.status == 101 || ReasonToClose(request, t.response.value)
    ensures var t := Transact(request, TargetOf(split, request.target), client, upstream);
      Serve(split, Some(request), client, upstream) ==
        Session(Finished, t.toUpstream, t.toClient, t.clientRest, t.upstreamRest, if t.verdict.Failed? then 0 else 1, 1)
  {
    VerdictIff(request, TargetOf(split, request.target), client, upstream);
    ServeTurns(split, request, client, upstream);
  }

  /** After any other completed exchange the loop goes on where both sides stand. */
  lemma OthersGoOn(split: UrlSplit, request: Request, client: string, upstream: string)
    requires var t := Transact(request, TargetOf(split, request.target), client, upstream);
      !t.verdict.Failed? && t.response.value.status != 101 && !ReasonToClose(request, t.response.value)
    ensures var t := Transact(request, TargetOf(split, request.target), client, upstream);
      var s, more := Serve(split, Some(request), client, upstream), Serve(split, None, t.clientRest, t.upstreamRest);
      && s.toUpstream == t.toUpstream + more.toUpstream && s.toClient == t.toClient + more.toClient
      && s.flows == more.flows + 1 && s.records == more.records + 1 && s.end == more.end
      && s.clientRest == more.clientRest && s.upstreamRest == more.upstreamRest
  {
    VerdictIff(request, TargetOf(split, request.target), client, upstream);
    ServeTurns(split, request, client, upstream);
  }

  // ------------------------------------------------------------------- the record

  /** What a record holds of one message: the head as it came, the true size, and a bounded readable body. */
  ghost predicate Keeps(half: Half, decode: Decoder, decision: Decision, fs: seq<Field>, payload: string, relayed: string) {
    && half.headers == Some(if decision.redact then RedactedHeaders(ToDict(fs)) else ToDict(fs))
    && half.contentType == Get(fs, "content-type")
    && half.size == |payload| + |relayed|
    && (payload == "" || !decision.captureBodies || decision.captureMaxBytes <= 0 ==> half.body == None)
    && (payload != "" && decision.captureBodies && decision.captureMaxBytes > 0 ==>
          half.body == Some(decode(
            if |payload| <= decision.captureMaxBytes then payload else payload[..decision.captureMaxBytes],
            Get(Forwarded(fs), "content-encoding"))))
  }

  lemma HalfKeeps(decode: Decoder, decision: Decision, fs: seq<Field>, payload: string, relayed: string)
    ensures Keeps(HalfOf(decode, decision, fs, payload, relayed), decode, decision, fs, payload, relayed)
  {
    CapturedMeaning(payload, CaptureLimit(decision));
  }

  /** The payload is longer than the decision lets through. */
  predicate IsCut(decision: Decision, payload: Option<string>) {
    payload.Some? && payload.value != "" &&
    (!decision.captureBodies || decision.captureMaxBytes <= 0 || |payload.value| > decision.captureMaxBytes)
  }

  /** What the record of an exchange holds, field by field. */
  lemma RecordMeaning(decode: Decoder, request: Request, target: string, decision: Decision, t: Transcript)
    ensures var r := RecordOf(decode, request, target, decision, t);
      && r.action == decision.action && r.ruleId == decision.ruleId && r.ruleName == decision.ruleName
      && r.verb == request.verb && r.version == request.version
      && (decision.redact ==> r.path == UrlRedaction.RedactUrl(target)) && (!decision.redact ==> r.path == target)
      && Keeps(r.request, decode, decision, request.fields, TextOr(t.requestBody), t.relayedUp)
      && (match t.response
          case None => r.status == None && r.response == Half(None, None, 0, None)
          case Some(response) =>
            r.status == Some(response.status)
            && Keeps(r.response, decode, decision, response.fields, TextOr(t.responseBody), t.relayedDown))
      && (r.truncated <==> IsCut(decision, t.requestBody) || IsCut(decision, t.responseBody))
      && (r.redacted <==>
            decision.redact && (Touched(request.fields) || (t.response.Some? && Touched(t.response.value.fields))))
      && (r.error.Some? <==> t.verdict.Failed?)
  {
    HalfKeeps(decode, decision, request.fields, TextOr(t.requestBody), t.relayedUp);
    if t.response.Some? {
      HalfKeeps(decode, decision, t.response.value.fields, TextOr(t.responseBody), t.relayedDown);
    }
  }
}
