# A verified model of the Decrypt0rx data plane

This project models the byte-level HTTP/1.1 engine of the intercepting proxy and the stateful
parts around it, and proves what the design promises of them over whole runs: that messages go
through verbatim and both ends stay synchronised, that capture and redaction never touch the
wire, that the recorder loses nothing it does not account for, that no certificate context
outlives its authority, that the dry run and the proxy decide alike, that redaction hides
exactly the credentials, and that the rate limit bounds every minute.

| module | what it models |
|---|---|
| `Basics` | notions that several parts share |
| `PyText`, `TextTheorems` | the text operations of Python that decide how a header is read: trimming, `int`, `partition`, `lower` |
| `Streams` | a reader whose `read(n)` returns any non-empty piece, a line reader, and an append-only writer |
| `Headers`, `HeaderTheorems`, `HeaderSnapshots` | the header list, its hop-by-hop stripping, and the redacted copy that a record keeps |
| `Heads`, `HeadReading`, `HeadTheorems` | reading and printing of request and response heads |
| `Bodies`, `BodyTheorems`, `FramingCases`, `FramingTheorems` | framing, pumping and teeing of bodies, and what the next hop makes of them |
| `Proxy`, `ExchangeTheorems`, `Connection` | one exchange, the loop over exchanges, and theorems over whole connections |
| `RecorderModel`, `RecorderInvariant`, `RecorderProgress`, `Recorder` | the capture queue and its workers as a state machine |
| `Certs`, `CaRotation` | the LRU of forged contexts, the authority table, and their interleaving |
| `Policy`, `PolicyTable` | rule evaluation in the proxy, rule editing and the dry run in the API |
| `Redaction`, `UrlRedaction` | the JSON tree walk and the URL scan |
| `RateLimit` | the fixed-window counter in a store with expiring keys |

Code that works step by step is imperative here too: a class or a loop, proved equal to a
specification function of its input; the theorems are about those functions. The fragmentation
of the input is a non-deterministic choice inside `Reader.Read`, so every method contract holds
for every fragmentation.

A byte is the `char` that Latin-1 decodes it to, so a byte string and its decoded text are one
`string`. The outcome of anything foreign is a parameter: glob and address parsing (`Library`),
`urlsplit` (`UrlSplit`), forging (`issuable`, `leafKey`), the answer of the store, the clock.

## What the code does against what one may expect

- An empty line before a message is read as the end of the input, not skipped: the blank-line
  test stands before the one that would skip it (`http1.py:120-123`). `EmptyLineCloses` proves it,
  and `PassedOverIff` says exactly which leading lines are passed over.
- Stripping can remove the very field that frames the body, when a `Connection` option names it.
  The proxy then pumps by the framing of the stripped head, so it and the next hop always agree
  (`NextHopAgreesOnRequest`), but the sender's framing is kept exactly under the condition of
  `StripKeepsFramingIff`. `StripCanChangeFraming` is a head on which it is not, and
  `LostOnTheWire` what then happens to the body.
- `docs/LLD.md:537-539` has queued records flushed at shutdown. The code flushes each worker's
  own batch only: `ShutdownLeavesRecord` is a run that leaves a record behind, and by
  `StopLeavesNoneIff` nothing submitted before `stop` is left in the queue if and only if the
  queue is empty when it is called.
- The engine ignores a stored client network that does not parse, the dry run skips such a rule.
  `SameRuleOnTableIff` gives the exact tables and queries on which both pick the same rule, and
  `EditsKeepParity` shows that no sequence of edits leads to any other.
- The dry run assumes one fixed fallback decision; `ParityIff` gives the exact condition on the
  proxy's settings.

## Model

| member | source | states |
|---|---|---|
| PyText.TrimUnique | services/proxy/decrypt0rx_proxy/http1.py:132-140 | trimming removes exactly the margins: any way to write a text as margin, trimmed middle, margin has the trimmed text as its middle |
| PyText.ContainsIgnoresMargins | services/proxy/decrypt0rx_proxy/http1.py:215-216 | a word without white space is found in a value exactly when it is found in the trimmed value |
| PyText.ShowIntRoundTrip | services/proxy/decrypt0rx_proxy/http1.py:103-105 | printing any integer and parsing it again gives it back |
| PyText.CutFirst | services/proxy/decrypt0rx_proxy/http1.py:137 | `partition` splits at the first separator, given any text before it that has none |
| TextTheorems.LowerMeaning | services/proxy/decrypt0rx_proxy/http1.py:40-43 | lowering maps A to Z to a to z and the accented capitals of Latin-1 by 32, and leaves all else |
| TextTheorems.SpaceMeaning | services/proxy/decrypt0rx_proxy/http1.py:132-140 | the white space that byte strings and texts strip, character by character |
| TextTheorems.ContainsIff | services/proxy/decrypt0rx_proxy/http1.py:215-216 | lowering a value and searching it finds a word exactly when it stands there in some mixture of letter cases |
| TextTheorems.UnderscoreIgnored | services/proxy/decrypt0rx_proxy/http1.py:221 | a single underscore between digits changes no number |
| TextTheorems.BadDigitRejected | services/proxy/decrypt0rx_proxy/http1.py:221 | any character that is neither digit nor underscore makes a text no number |
| TextTheorems.SpacedNumberRead | services/proxy/decrypt0rx_proxy/http1.py:168 | a printed number, with a plus sign or not and with white space around it, is read as that number |
| TextTheorems.TextSpaceRead | services/proxy/decrypt0rx_proxy/http1.py:168 | a separator character next to an ASCII number spoils it, next to a number in wider text it does not |
| TextTheorems.HexPrefixRead | services/proxy/decrypt0rx_proxy/http1.py:274 | in base sixteen a prefix 0x changes nothing |
| Streams.LineShape | services/proxy/decrypt0rx_proxy/http1.py:112 | a line ends at its first LF; one without LF is the whole rest of the input |
| Streams.Reader.Read | services/proxy/decrypt0rx_proxy/http1.py:245 | any non-empty piece of at most n bytes; nothing only at the end of the input |
| Streams.Reader.ReadLine | services/proxy/decrypt0rx_proxy/http1.py:268 | up to and including LF, or what is left |
| Streams.Reader.ReadExactly | services/proxy/decrypt0rx_proxy/http1.py:298 | exactly n bytes, or failure with the short rest lost |
| HeaderTheorems.GetMeaning | services/proxy/decrypt0rx_proxy/http1.py:39-44 | lookup returns the value of the first field of that name in any letter case, and nothing exactly when there is none |
| Headers.GetAllInOrder | services/proxy/decrypt0rx_proxy/http1.py:46-48 | each field of that name in any letter case contributes its value once, after those of the fields before it and before those of the fields after it; other fields contribute nothing |
| Headers.DropSetContents | services/proxy/decrypt0rx_proxy/http1.py:71-76 | a name is dropped exactly when it is in the fixed set or some `Connection` field lists it as an option other than close, keep-alive, upgrade |
| HeaderTheorems.OptionsIff | services/proxy/decrypt0rx_proxy/http1.py:72-74 | the options of a value are its parts between commas, trimmed and lowered |
| HeaderTheorems.StrippedIff | services/proxy/decrypt0rx_proxy/http1.py:17-26 | a field is stripped exactly when its name is one of the six fixed ones, or some `Connection` field lists it and it is not empty, close or upgrade |
| Headers.ForwardedSelects | services/proxy/decrypt0rx_proxy/http1.py:69-77 | stripping yields the in-order subsequence of exactly the fields that are neither hop-by-hop nor nominated |
| Headers.ForwardedIdempotent | services/proxy/decrypt0rx_proxy/http1.py:69-77 | stripping twice is stripping once, on every header list |
| Headers.GetWithout | services/proxy/decrypt0rx_proxy/http1.py:39-44 | looking a name up after filtering finds what it found before, or nothing when the name was dropped |
| Headers.Headers.StripHopByHop | services/proxy/decrypt0rx_proxy/http1.py:69-77 | the loops over `Connection` values and tokens leave the list equal to its specification |
| Headers.Headers.Dict | services/proxy/decrypt0rx_proxy/http1.py:58-62 | the loop builds the dict of the whole list |
| HeaderSnapshots.ToDictGathers | services/proxy/decrypt0rx_proxy/http1.py:58-62 | the dict has one entry for each spelling of a name, in order of first occurrence, with the values of all fields so spelled joined by commas in their order |
| HeaderSnapshots.TwoFieldsJoined | services/proxy/decrypt0rx_proxy/http1.py:58-62 | two fields of one spelling are joined by a comma and a space, of two spellings kept apart |
| HeaderSnapshots.MaskedMeaning | packages/core/decrypt0rx_core/redaction.py:17-31 | exactly the eleven listed headers are masked, in any letter case, and by what text |
| HeaderSnapshots.HeadersKernel | packages/core/decrypt0rx_core/redaction.py:73-82 | two dicts are redacted alike if and only if they have the same names in the same order and differ at most in values of sensitive headers |
| HeaderSnapshots.SnapshotIgnoresSecrets | services/proxy/decrypt0rx_proxy/proxy.py:488-492 | no value of a sensitive header reaches a redacted snapshot, however often the header occurs |
| HeaderSnapshots.TouchedIff | services/proxy/decrypt0rx_proxy/proxy.py:488-491 | a snapshot counts as redacted exactly when some field of the head is sensitive |
| HeaderSnapshots.RedactHeaders | packages/core/decrypt0rx_core/redaction.py:73-82 | the loop masks exactly the sensitive entries and reports whether there were any |
| HeaderSnapshots.TakeSnapshot | services/proxy/decrypt0rx_proxy/proxy.py:488-492 | the snapshot and the mark that a decision gives for a header list |
| Heads.ScanPrinted | services/proxy/decrypt0rx_proxy/http1.py:108-126 | any printed block of lines is read back line by line, with what follows unread, exactly when it fits the size limit |
| Heads.ScanContent | services/proxy/decrypt0rx_proxy/http1.py:108-126 | whatever is read is a list of at most 200 terminated, non-blank lines |
| Heads.ParseAccepts | services/proxy/decrypt0rx_proxy/http1.py:129-141 | every parsed field has a trimmed name without colon or LF and a value without LF, and folding never adds a field |
| HeadTheorems.HeaderLineParsed | services/proxy/decrypt0rx_proxy/http1.py:137-140 | a line that is no fold adds the field it spells, name and value trimmed; so does one with leading white space before any field |
| HeadTheorems.NoColonRefused | services/proxy/decrypt0rx_proxy/http1.py:138-139 | a line without a colon that folds nothing is refused |
| HeadTheorems.FoldContinues | services/proxy/decrypt0rx_proxy/http1.py:133-136 | a fold extends the last value by one space and its trimmed text, and changes nothing else |
| HeadTheorems.FoldedFieldParsed | services/proxy/decrypt0rx_proxy/http1.py:129-141 | a field with any number of folds is read as one field, its trimmed pieces joined by single spaces, before parsing goes on |
| HeadTheorems.HeadPrinted | services/proxy/decrypt0rx_proxy/http1.py:91-105 | the first lines as printed, with the target given or that of the head |
| HeadTheorems.ShowFieldsSnoc | services/proxy/decrypt0rx_proxy/http1.py:64-67 | the fields are printed in order, name, colon, space, value and CRLF each |
| Heads.ParsePrinted | services/proxy/decrypt0rx_proxy/http1.py:64-67 | parsing the printed fields gives the same names in the same order, each value trimmed |
| Heads.NormalisedIdentity | services/proxy/decrypt0rx_proxy/http1.py:129-141 | trimming values changes nothing on lists whose values are trimmed |
| HeadReading.EmptyLineCloses | services/proxy/decrypt0rx_proxy/http1.py:120-121 | an empty line before a message reads as a clean close, and is all that is consumed |
| HeadReading.PassedOverIff | services/proxy/decrypt0rx_proxy/http1.py:117-123 | a leading line is passed over, whatever follows, if and only if it is all white space, is not exactly CRLF or LF, and fits the size limit |
| HeadTheorems.EndCloses | services/proxy/decrypt0rx_proxy/http1.py:113-115 | the end of the input before a head is a clean close |
| HeadTheorems.BlockReadIff | services/proxy/decrypt0rx_proxy/http1.py:117-126 | a block of header lines is read exactly when it has at most 200 lines and 65536 bytes |
| HeadTheorems.CutShort | services/proxy/decrypt0rx_proxy/http1.py:113-116 | input that ends inside a header block is a protocol error |
| HeadReading.ReadBlock | services/proxy/decrypt0rx_proxy/http1.py:108-126 | the reading loop returns and leaves unread what the block specification says, limits and premature end included |
| HeadReading.ParseHeaders | services/proxy/decrypt0rx_proxy/http1.py:129-141 | the in-place parsing loop with folds yields the specified fields, or fails exactly when they do not exist |
| HeadReading.ReadRequestHead | services/proxy/decrypt0rx_proxy/http1.py:144-155 | head, clean close or protocol error as `ReadRequest` says, and the exact bytes left unread |
| HeadReading.ReadResponseHead | services/proxy/decrypt0rx_proxy/http1.py:158-171 | the same for status lines, with a missing reason and a non-numeric status |
| HeadTheorems.RequestParsesIff | services/proxy/decrypt0rx_proxy/http1.py:149-155 | a head is read exactly when the first line is its three parts with single spaces, the version begins with HTTP/ and the fields parse |
| HeadTheorems.ResponseParsesIff | services/proxy/decrypt0rx_proxy/http1.py:162-171 | the same of status lines, with any number that `int` reads and with or without a reason |
| HeadReading.ReadRequestSendable | services/proxy/decrypt0rx_proxy/http1.py:144-155 | every request head that is read can be printed and read again |
| HeadReading.ReadResponseSendable | services/proxy/decrypt0rx_proxy/http1.py:158-171 | every response head that is read can be printed and read again |
| HeadReading.ReadShownRequest | services/proxy/decrypt0rx_proxy/http1.py:91-93 | a printed request head followed by anything reads back as itself with trimmed values exactly when it fits the limit, and is refused otherwise |
| HeadReading.ReadShownResponse | services/proxy/decrypt0rx_proxy/http1.py:103-105 | the same for response heads, with any integer status |
| HeadReading.PrintParseRoundTrip | services/proxy/decrypt0rx_proxy/http1.py:91-93 | parse after print is the identity on heads with trimmed names and values |
| HeadReading.PrintParseFixpoint | services/proxy/decrypt0rx_proxy/http1.py:129-155 | for whatever request head is read, folds included, one print and parse pass keeps names and order and reaches a fixed point |
| HeadReading.PrintParseFixpointResponse | services/proxy/decrypt0rx_proxy/http1.py:129-171 | the same for whatever response head is read |
| Bodies.Tee.Feed | services/proxy/decrypt0rx_proxy/http1.py:190-201 | after any sequence of non-empty pieces the tee holds the first `limit` bytes, the true total and the exact truncation mark |
| FramingCases.CapturedMeaning | services/proxy/decrypt0rx_proxy/http1.py:184-201 | what is captured is the longest prefix the limit allows |
| Bodies.PumpExactly | services/proxy/decrypt0rx_proxy/http1.py:242-253 | a length-delimited run of bytes is forwarded and teed exactly, or everything up to the premature end is |
| Bodies.PumpToEnd | services/proxy/decrypt0rx_proxy/http1.py:255-264 | everything up to the end of the input is forwarded and teed |
| Bodies.PumpTrailers | services/proxy/decrypt0rx_proxy/http1.py:278-287 | trailers are forwarded up to and including the blank line or the end of the input |
| Bodies.PumpChunk | services/proxy/decrypt0rx_proxy/http1.py:289-301 | the data of one chunk and its two closing bytes are forwarded, the data alone teed, with both failures |
| Bodies.PumpEncoded | services/proxy/decrypt0rx_proxy/http1.py:266-301 | the chunked loop ends, reads, writes and tees as its specification says on every input |
| Bodies.PumpBody | services/proxy/decrypt0rx_proxy/http1.py:229-301 | in every framing the ending, the bytes consumed and written and the captured result depend on the input alone, not on how reads split it |
| BodyTheorems.PumpVerbatim | services/proxy/decrypt0rx_proxy/http1.py:229-301 | on arbitrary input, in every framing, what is written is a prefix of what was consumed, and all of it at every exit but a short read in a chunk terminator, which loses at most one byte |
| BodyTheorems.ChunkedExact | services/proxy/decrypt0rx_proxy/http1.py:266-301 | any chunked body, followed by anything, is consumed exactly, forwarded byte for byte and decoded to its payload |
| BodyTheorems.ChunkedDecompose | services/proxy/decrypt0rx_proxy/http1.py:266-301 | conversely, whatever the loop completes is such a body with that payload |
| BodyTheorems.ChunkedIff | services/proxy/decrypt0rx_proxy/http1.py:266-301 | a chunked body is completed if and only if a body of the grammar stands at the start of the input |
| FramingTheorems.StandardSizeLine | services/proxy/decrypt0rx_proxy/http1.py:273-276 | a size line of hexadecimal digits with any extension announces the number the digits stand for |
| FramingTheorems.SpacedSizeLine | services/proxy/decrypt0rx_proxy/http1.py:273-276 | white space around the size does not matter |
| FramingCases.EmptySizeIsLast | services/proxy/decrypt0rx_proxy/http1.py:274 | an empty size counts as the last chunk |
| FramingTheorems.StandardBodyExact | services/proxy/decrypt0rx_proxy/http1.py:266-301 | chunked coding as section 7.1 of RFC 9112 writes it is consumed exactly, forwarded and decoded, for every split, extension, trailer and suffix |
| FramingCases.LengthDeclared | services/proxy/decrypt0rx_proxy/http1.py:221 | a length value is the decimal number it spells, whatever white space is around it |
| FramingCases.FirstLengthDeclared | services/proxy/decrypt0rx_proxy/http1.py:221 | of a list of lengths the first counts |
| FramingCases.BodilessFramed | services/proxy/decrypt0rx_proxy/http1.py:210-214 | a response to HEAD or of status 204, 304 or 100 to 199 has no body whatever its fields say |
| FramingCases.ChunkedFramed | services/proxy/decrypt0rx_proxy/http1.py:215-217 | otherwise a first Transfer-Encoding that says chunked wins over any length |
| FramingCases.NumberFramed | services/proxy/decrypt0rx_proxy/http1.py:218-221 | otherwise a first Content-Length that spells a number frames that many bytes |
| FramingCases.LengthFramed | services/proxy/decrypt0rx_proxy/http1.py:218-223 | otherwise the first Content-Length decides, as a number or a protocol error |
| FramingCases.BadLengthRefused | services/proxy/decrypt0rx_proxy/http1.py:222-223 | a length with a character no number has is a protocol error |
| FramingCases.UnannouncedFramed | services/proxy/decrypt0rx_proxy/http1.py:224-226 | with neither field a response lasts to the end of the connection and a request has no body |
| FramingTheorems.FramingOfNormalised | services/proxy/decrypt0rx_proxy/http1.py:207-226 | framing looks through the white space that folding leaves around values |
| FramingTheorems.NextHopAgreesOnRequest | services/proxy/decrypt0rx_proxy/proxy.py:495-501 | a receiver of the forwarded request head reads it whole and frames the body as the proxy pumped it, unless the head exceeds the size limit and is refused |
| FramingTheorems.NextHopAgreesOnResponse | services/proxy/decrypt0rx_proxy/proxy.py:539-546 | the same for the forwarded response head, by status and request method |
| FramingTheorems.PumpReplays | services/proxy/decrypt0rx_proxy/http1.py:229-301 | pumping the bytes that pumping wrote gives the same bytes and payload and leaves what follows |
| FramingTheorems.NextHopReceivesRequest | services/proxy/decrypt0rx_proxy/proxy.py:495-501 | the next hop receives the whole request message: same framing, same body, same payload, the next message untouched |
| FramingTheorems.NextHopReceivesResponse | services/proxy/decrypt0rx_proxy/proxy.py:539-546 | the same for a response, framed by status and request method |
| FramingTheorems.StripKeepsFramingIff | services/proxy/decrypt0rx_proxy/proxy.py:495-500 | stripping leaves the framing the sender announced if and only if no `Connection` option nominates the field that announced it |
| FramingTheorems.StripCanChangeFraming | services/proxy/decrypt0rx_proxy/http1.py:72-77 | a concrete head whose framing stripping changes |
| Proxy.RelayBoth | services/proxy/decrypt0rx_proxy/proxy.py:531-535 | relaying in any interleaving moves every byte of both directions and counts it |
| Proxy.ProxyServer.SendRequest | services/proxy/decrypt0rx_proxy/proxy.py:495-503 | the stripped head and then the framed body go upstream, and the tee result counts the payload |
| Proxy.ProxyServer.SendResponse | services/proxy/decrypt0rx_proxy/proxy.py:539-548 | the same towards the client, framed by status and request method |
| Proxy.ProxyServer.SwitchProtocols | services/proxy/decrypt0rx_proxy/proxy.py:525-536 | a 101 head goes out unstripped, then both directions are relayed to their ends |
| ExchangeTheorems.TargetMeaning | services/proxy/decrypt0rx_proxy/proxy.py:474-479 | exactly a target that begins with a scheme in any letter case is rewritten, to its path, or a slash, and its query |
| ExchangeTheorems.RequestDelivered | services/proxy/decrypt0rx_proxy/proxy.py:495-501 | what goes upstream is the stripped head, printed, and the bytes that its own framing pumps |
| ExchangeTheorems.ResponseDelivered | services/proxy/decrypt0rx_proxy/proxy.py:539-546 | the same towards the client |
| ExchangeTheorems.FailsIff | services/proxy/decrypt0rx_proxy/proxy.py:500-546 | an exchange fails exactly when the request body, the response head or, without a switch, the response body does not arrive whole |
| ExchangeTheorems.RequestRefused | services/proxy/decrypt0rx_proxy/proxy.py:497-500 | a request with an unreadable length sends its head alone and reads nothing further |
| ExchangeTheorems.FailedRequestIsSilent | services/proxy/decrypt0rx_proxy/proxy.py:501 | a request that fails shows the client nothing and leaves the origin unread |
| ExchangeTheorems.VerdictIff | services/proxy/decrypt0rx_proxy/proxy.py:525-560 | a completed exchange keeps the connection exactly when it is no switch, neither unstripped head says close in its first `Connection` field, HTTP/1.0 asks for keep-alive in the stripped head, and the response can end before its connection |
| ExchangeTheorems.ClosingStops | services/proxy/decrypt0rx_proxy/proxy.py:466-467 | after a failure, a switch or a reason to close no second request is read: the session is that exchange |
| ExchangeTheorems.OthersGoOn | services/proxy/decrypt0rx_proxy/proxy.py:420-467 | after any other exchange the loop goes on where both sides stand |
| ExchangeTheorems.RecordMeaning | services/proxy/decrypt0rx_proxy/proxy.py:435-552 | the record field by field: rule, path, heads as they came, sizes, bounded bodies, marks and error |
| Proxy.RecordAssembled | services/proxy/decrypt0rx_proxy/proxy.py:435-552 | the record filled step by step is the one that the whole exchange determines, at every point where an exchange can end |
| Proxy.ProxyServer.Exchange | services/proxy/decrypt0rx_proxy/proxy.py:469-560 | an exchange does on the wire what `Transact` says, which does not mention the decision; the record gets header snapshots from before stripping, content types, sizes, decoded bodies and marks, as far as the exchange comes |
| Proxy.ProxyServer.ServeOne | services/proxy/decrypt0rx_proxy/proxy.py:435-467 | each exchange submits exactly its record with the rule of the decision, also when it fails, then with the error, and counts as a flow only when it does not fail |
| Proxy.ProxyServer.ServeHttp | services/proxy/decrypt0rx_proxy/proxy.py:413-467 | the loop over a whole connection writes, consumes, counts and records what the recursive specifications say, for every fragmentation |
| Connection.CleanTransact | services/proxy/decrypt0rx_proxy/proxy.py:469-560 | a well-formed exchange forwards exactly stripped head and raw body each way and leaves both readers at the next message |
| Connection.Synchronised | services/proxy/decrypt0rx_proxy/proxy.py:413-560 | over any run of well-formed exchanges both logs are exactly the stripped heads and raw bodies in order; the loop continues at the next messages while exchanges are kept alive; at a switch of protocols the response head goes through unstripped and all later bytes both ways; at any other end it stops |
| Connection.CleanServe | services/proxy/decrypt0rx_proxy/proxy.py:413-560 | what one well-formed exchange of either kind makes of the loop |
| Connection.AnnouncedIsClean | services/proxy/decrypt0rx_proxy/proxy.py:495-546 | exchanges whose bodies are delimited as their own heads announce are well-formed unless a `Connection` option nominates an announcing field |
| Connection.LostOnTheWire | services/proxy/decrypt0rx_proxy/proxy.py:495-501 | with such a nomination the origin gets the head alone and the announced body stays unread, to be taken for the next request |
| Connection.StandsIff | services/proxy/decrypt0rx_proxy/http1.py:229-301 | a body is pumped whole, suffix untouched, exactly when it is delimited as its framing says |
| Connection.PrintedIsClean | services/proxy/decrypt0rx_proxy/proxy.py:469-560 | printed heads with delimited bodies are a well-formed exchange whatever follows on the wires |
| Connection.StorageOnly | services/proxy/decrypt0rx_proxy/proxy.py:413-560 | two runs on equal input under any two decisions and fragmentations consume, write and end as the one session the input determines; each leaves its own records |
| Connection.RecordsOfTwoDecisions | services/proxy/decrypt0rx_proxy/proxy.py:435-552 | over any connection two decisions leave the same records up to rule, path, bodies, truncation and redaction marks and values of sensitive headers; equal redaction settings leave equal paths and headers, equal capture limits equal bodies |
| RecorderProgress.InitialMeaning | services/proxy/decrypt0rx_proxy/recorder.py:76-92 | a new recorder holds nothing and all its workers wait |
| RecorderProgress.SubmitIff | services/proxy/decrypt0rx_proxy/recorder.py:100-109 | a record is dropped if and only if the queue is full; otherwise it joins the end of the queue |
| RecorderProgress.DropsIff | services/proxy/decrypt0rx_proxy/recorder.py:100-109 | a run drops nothing if and only if the queue is never full at a submit |
| RecorderProgress.CollectTakes | services/proxy/decrypt0rx_proxy/recorder.py:114-130 | a waiting worker takes from the front of the queue all that the batch size allows |
| RecorderProgress.FlushStores | services/proxy/decrypt0rx_proxy/recorder.py:143-151 | a batch without key conflicts is stored whole, in order, and counted, when nothing fails |
| RecorderProgress.CollectedIsStored | services/proxy/decrypt0rx_proxy/recorder.py:111-151 | from every reachable state with distinct ids, what a worker collects is stored exactly once, in order, when nothing fails |
| RecorderProgress.FailureCostsBatch | services/proxy/decrypt0rx_proxy/recorder.py:138-141 | an error before the commit loses that batch and nothing else, and the worker waits again after its pause |
| RecorderProgress.ConflictCostsBatch | services/proxy/decrypt0rx_proxy/recorder.py:138-150 | so does an insert that repeats a key |
| RecorderProgress.PublishErrorsAreSwallowed | services/proxy/decrypt0rx_proxy/recorder.py:153-160 | an error while live events are sent changes nothing |
| RecorderProgress.CancelledBatchIsStored | services/proxy/decrypt0rx_proxy/recorder.py:131-137 | a worker cancelled before its commit stores its whole batch when the last flush succeeds, and stops |
| RecorderProgress.IdleStops | services/proxy/decrypt0rx_proxy/recorder.py:131-137 | a worker cancelled while it waits or backs off stops at once and takes nothing |
| RecorderInvariant.ExtendKeyed | services/proxy/decrypt0rx_proxy/recorder.py:148-150 | a keyed commit keeps the primary keys of the table unique |
| RecorderInvariant.NextConserved | services/proxy/decrypt0rx_proxy/recorder.py:100-141 | every step keeps each submitted record in exactly one place, once |
| RecorderInvariant.NextBounded | services/proxy/decrypt0rx_proxy/recorder.py:100-126 | every step keeps the queue bound, the batch bound of max(1, batch size) and the balance of counted rows |
| RecorderInvariant.NextInOrder | services/proxy/decrypt0rx_proxy/recorder.py:111-130 | every step keeps batches and queue in submission order and, with one worker, the rows too |
| RecorderInvariant.NextInv | services/proxy/decrypt0rx_proxy/recorder.py:94-151 | every step of every party keeps the whole invariant |
| RecorderInvariant.RecorderInv | services/proxy/decrypt0rx_proxy/recorder.py:75-160 | after any interleaving of submits, worker steps, failures and cancellations: conservation, bounds, unique keys, order, and batches non-empty only while flushing |
| Recorder.RefusedIffStored | services/proxy/decrypt0rx_proxy/recorder.py:131-137 | with distinct ids the insert of a flush is refused if and only if its rows are stored already, so the flush made while being cancelled never stores a record twice |
| Recorder.OneWorkerInOrder | services/proxy/decrypt0rx_proxy/recorder.py:111-130 | with one worker the table is in submission order after every run |
| Recorder.WrittenCounts | services/proxy/decrypt0rx_proxy/recorder.py:148-151 | `written` never exceeds the rows of the table, and accounts for all of them in runs without such interruptions |
| Recorder.CancelsEnd | services/proxy/decrypt0rx_proxy/recorder.py:94-98 | cancelling every worker leaves each of them stopped or in its last flush, and the queue untouched |
| Recorder.ShutdownAbandonsQueue | services/proxy/decrypt0rx_proxy/recorder.py:131-137 | from the cancellation on, whatever happens, what is queued stays queued and never reaches the table or a worker |
| Recorder.NothingLeftBehindIff | services/proxy/decrypt0rx_proxy/recorder.py:131-137 | no record submitted before a shutdown is left in the queue if and only if the queue was empty when it began |
| Recorder.StopLeavesNoneIff | services/proxy/decrypt0rx_proxy/recorder.py:94-98 | the same of `stop` followed by any steps at all |
| Recorder.ShutdownLeavesRecord | services/proxy/decrypt0rx_proxy/recorder.py:131-137 | a concrete run in which a submitted record is left behind at shutdown |
| Recorder.Recorder.constructor | services/proxy/decrypt0rx_proxy/recorder.py:76-86 | a new recorder is in the initial state, for any number of workers |
| Recorder.Recorder.Submit | services/proxy/decrypt0rx_proxy/recorder.py:100-109 | hand-off is the submit step: queued, or dropped and counted when full |
| Recorder.Recorder.Collect | services/proxy/decrypt0rx_proxy/recorder.py:114-128 | a worker's turn is the collect step: it takes a prefix of the queue and leaves the rest |
| Recorder.Recorder.TakeUpTo | services/proxy/decrypt0rx_proxy/recorder.py:116-126 | the loop takes as many records as the batch size allows, at least the awaited one |
| Recorder.Recorder.CountRows | services/proxy/decrypt0rx_proxy/recorder.py:151 | counting after the commit is the advance step of a closing worker |
| Certs.LastUsesMeaning | services/proxy/decrypt0rx_proxy/certs.py:109-114 | the recency list of a history holds each host once and orders them by last access |
| Certs.RecentMeaning | services/proxy/decrypt0rx_proxy/certs.py:127-131 | and of those the last, as many as the cache has room for |
| Certs.RecentHit | services/proxy/decrypt0rx_proxy/certs.py:110-114 | on a hit, moving the host to the end is what the list of recent hosts does |
| Certs.RecentMiss | services/proxy/decrypt0rx_proxy/certs.py:127-131 | on a miss, appending and evicting the oldest is what the list of recent hosts does |
| Certs.CertificateAuthorityProvider.Load | services/proxy/decrypt0rx_proxy/certs.py:55-95 | an absent, unchanged or failing authority changes nothing; a different one replaces forge and key file and empties the cache |
| Certs.LoadCoherent | services/proxy/decrypt0rx_proxy/certs.py:77-95 | a load keeps the cache a recency list of hosts served under the loaded authority, and a different authority empties it |
| Certs.ServeCoherent | services/proxy/decrypt0rx_proxy/certs.py:104-132 | serving a host keeps that, on a hit and on a miss, and the context served is one the current forge could give for the host, up to letter case |
| Certs.CertificateAuthorityProvider.Evict | services/proxy/decrypt0rx_proxy/certs.py:129-131 | the loop leaves the most recent entries up to the cache size |
| Certs.AnsweredIff | services/proxy/decrypt0rx_proxy/certs.py:104-125 | there is no answer only without an authority, or for a host neither cached nor issuable; an uncached issuable host gets a new context, a cached one the cached context |
| Certs.ServedAgain | services/proxy/decrypt0rx_proxy/certs.py:109-132 | a served host is the most recent entry of a cache with any room, and gets the same context again |
| Certs.LoadedIff | services/proxy/decrypt0rx_proxy/certs.py:67-95 | exactly a different authority whose forge can be built replaces forge, fingerprint and key and empties the cache |
| Certs.CertificateAuthorityProvider.ContextFor | services/proxy/decrypt0rx_proxy/certs.py:104-132 | answers with the cached context, a new one or the failure, moves or adds the entry and evicts the oldest; the cache stays the last distinct hosts served since the authority changed, in recency order |
| CaRotation.ActiveRowIsTheOne | services/proxy/decrypt0rx_proxy/certs.py:58-65 | with at most one active row the proxy's query returns exactly that row |
| CaRotation.CaTable.DeactivateOthers | services/api/app/routers/ca.py:27-31 | exactly the other rows become inactive |
| CaRotation.CaTable.Insert | services/api/app/routers/ca.py:88-98 | a repeated name changes nothing; otherwise one row is added and, when activated, all others are deactivated |
| CaRotation.InsertMeaning | services/api/app/routers/ca.py:88-98 | the new row, what becomes of the others, and the outcome, for a free and for a used name |
| CaRotation.RefusedIff | services/api/app/routers/ca.py:179-210 | activation and deletion are refused exactly for unknown ids, expired rows and active rows respectively |
| CaRotation.DeleteMeaning | services/api/app/routers/ca.py:201-212 | exactly the inactive row of that id is taken out |
| CaRotation.CaTable.Generate | services/api/app/routers/ca.py:58-111 | the new table, the outcome, and that an activated authority is the one proxies read |
| CaRotation.CaTable.Import | services/api/app/routers/ca.py:114-171 | unparseable and expired bundles are refused and change nothing; otherwise as for generation |
| CaRotation.CaTable.Activate | services/api/app/routers/ca.py:174-198 | unknown and expired authorities are refused and change nothing; otherwise exactly the chosen row is active |
| CaRotation.CaTable.Delete | services/api/app/routers/ca.py:201-220 | unknown and active authorities are refused; otherwise exactly its row goes, so an active authority never disappears |
| CaRotation.RunInv | services/api/app/routers/ca.py:27-220 | over any interleaving of control-plane and proxy steps, with late and reordered reads: at most one active row, one for ever once there is one, and a cache of the authority held alone |
| CaRotation.RunAuthorised | services/proxy/decrypt0rx_proxy/certs.py:55-132 | in every run each authority a proxy holds and each context it serves is one that an earlier step of the run read off the active row |
| CaRotation.ServedNow | services/proxy/decrypt0rx_proxy/certs.py:104-132 | at any point of any run, what is served is of the authority held at that moment, with the leaf key in the key file, for that host |
| CaRotation.ServingServes | services/proxy/decrypt0rx_proxy/certs.py:104-132 | at any point of any run with an authority held an issuable host is served, becomes the latest entry, and is served the same context again |
| CaRotation.ActivationTakesEffect | services/api/app/routers/ca.py:174-198 | from any state of any run, after activating a known unexpired authority and one read and apply, the proxy serves its contexts |
| CaRotation.Rotate | services/api/app/routers/ca.py:27-220 | the objects go through exactly the run that the steps describe, with those reads and those contexts |
| CaRotation.Follow | services/proxy/decrypt0rx_proxy/certs.py:55-95 | a proxy that reads and applies at once holds the active authority, or keeps what it had when there is none |
| Policy.SelectIgnoresStorageOrder | services/proxy/decrypt0rx_proxy/policy.py:82-88 | the selected rows do not depend on the order in which the table stores them |
| Policy.EvaluatedIsLeast | services/proxy/decrypt0rx_proxy/policy.py:125-137 | the decision is that of the (priority, id)-least enabled matching row, or the fallback exactly when none matches |
| Policy.AppliesIff | services/proxy/decrypt0rx_proxy/policy.py:49-60 | when a rule applies: enabled, port, glob in any letter case, client network if it parses |
| Policy.DecisionMeaning | services/proxy/decrypt0rx_proxy/policy.py:103-136 | the decision of a rule is what its row says, column by column |
| Policy.PolicyEngine.Refresh | services/proxy/decrypt0rx_proxy/policy.py:80-123 | the loop compiles every row, and the version steps exactly when the snapshot changes |
| Policy.PolicyEngine.Evaluate | services/proxy/decrypt0rx_proxy/policy.py:125-137 | the scan returns the decision of the first matching compiled rule |
| Policy.VersionsIdentify | services/proxy/decrypt0rx_proxy/policy.py:118-120 | over any run of refreshes versions never go back, equal versions mean equal snapshots, and each snapshot is that of its rows |
| Policy.RefreshRun | services/proxy/decrypt0rx_proxy/policy.py:80-123 | the engine goes through exactly that history |
| PolicyTable.TestPolicy | services/api/app/routers/policies.py:115-160 | the dry-run loop answers as its specification says |
| PolicyTable.DryRunAppliesIff | services/api/app/routers/policies.py:131-143 | when the dry run accepts a rule, where a client network that does not parse accepts nobody |
| PolicyTable.DryRunIsLeast | services/api/app/routers/policies.py:123-160 | the dry run answers with the (priority, id)-least accepted row, column by column, or the fixed default |
| PolicyTable.ParityIff | services/api/app/routers/policies.py:121 | on tables whose client conditions parse, dry run and proxy agree if and only if some rule matches or the fallback is the one the dry run assumes |
| PolicyTable.SameRuleOnTableIff | services/api/app/routers/policies.py:136-143 | on any table, both pick the same rule if and only if every broken rule the query reaches comes after a rule that the dry run accepts |
| PolicyTable.BrokenConditionBreaksParity | services/proxy/decrypt0rx_proxy/policy.py:93-102 | a one-row table with an unparseable client network on which the two differ |
| PolicyTable.RuleTable.Create | services/api/app/routers/policies.py:39-56 | a payload with an unparseable client network is refused; otherwise exactly its row is added, an empty network stored as none |
| PolicyTable.RuleTable.Update | services/api/app/routers/policies.py:59-92 | outcome and table for unknown rows, unparseable networks, nulls in required columns and success |
| PolicyTable.RuleTable.Delete | services/api/app/routers/policies.py:95-112 | exactly the row of that id goes |
| PolicyTable.CreateMeaning | services/api/app/routers/policies.py:43-54 | the row a payload is stored as, column by column, or nothing |
| PolicyTable.UpdateMeaning | services/api/app/routers/policies.py:78-79 | an update sets each sent column and nothing else |
| PolicyTable.UpdatedRows | services/api/app/routers/policies.py:67-89 | exactly the row of that id is updated, unless the network does not parse or a column takes no null |
| PolicyTable.NullRefusedIff | services/api/app/routers/policies.py:71-89 | the columns that take no null |
| PolicyTable.DeleteMeaning | services/api/app/routers/policies.py:99-111 | exactly the row of that id goes, the others keep their order |
| PolicyTable.EditsKeep | services/api/app/routers/policies.py:39-112 | every run of edits on a valid table keeps ids unique and every client network parseable |
| PolicyTable.EditsKeepParity | services/api/app/routers/policies.py:121 | on the table that any run of edits leads to, the refreshed proxy under the default fallback and the dry run agree on every query |
| PolicyTable.EditAndAsk | services/api/app/routers/policies.py:39-160 | the edits, the refresh and both answers, carried out on the objects, are those the specification names |
| Redaction.SensitiveIff | packages/core/decrypt0rx_core/redaction.py:66-70 | the twenty names and the four words that make a key sensitive, in any letter case |
| Redaction.RedactedMeaning | packages/core/decrypt0rx_core/redaction.py:89-105 | each kind of node: a sensitive value becomes the mask, everything else is redacted in place |
| Redaction.HoldsSecretIff | packages/core/decrypt0rx_core/redaction.py:94-104 | a tree counts as changed exactly when some path leads to a sensitive key |
| Redaction.RedactionKernel | packages/core/decrypt0rx_core/redaction.py:89-105 | two trees redact to the same tree if and only if they differ at most beneath sensitive keys |
| Redaction.RedactedAlike | packages/core/decrypt0rx_core/redaction.py:89-105 | redaction keeps keys, order, list lengths and every leaf outside masked values |
| Redaction.RedactionIdempotent | packages/core/decrypt0rx_core/redaction.py:89-105 | redacting twice is redacting once |
| Redaction.NothingToRedact | packages/core/decrypt0rx_core/redaction.py:89-105 | a tree without a reachable sensitive key stays as it is |
| Redaction.WalkJson | packages/core/decrypt0rx_core/redaction.py:89-105 | the walk returns the redacted tree, and `changed` exactly when a sensitive key is reachable |
| UrlRedaction.MatchIff | packages/core/decrypt0rx_core/redaction.py:60-63 | the scan finds a parameter at a place exactly when the pattern matches there: mark, listed name in any case, equals sign, longest run without `&` and white space |
| UrlRedaction.ParameterMasked | packages/core/decrypt0rx_core/redaction.py:60-63 | the value of each of the seven parameters, behind either mark and in any letter case, is masked up to an ampersand or white space |
| UrlRedaction.OtherCharacterKept | packages/core/decrypt0rx_core/redaction.py:85-86 | a character that begins no parameter is kept |
| UrlRedaction.OtherParameterKept | packages/core/decrypt0rx_core/redaction.py:60-63 | so is a parameter of any other name, and one without a value |
| UrlRedaction.RedactUrlIdempotent | packages/core/decrypt0rx_core/redaction.py:85-86 | redacting a URL twice is redacting it once, for every string |
| UrlRedaction.RedactUrlReplacesValues | packages/core/decrypt0rx_core/redaction.py:60-63 | the stored URL is the URL with exactly the values of listed parameters replaced, all else in order |
| UrlRedaction.RedactUrlIgnoresValues | packages/core/decrypt0rx_core/redaction.py:60-63 | putting any other values in their place does not change the stored URL |
| UrlRedaction.UrlKernel | packages/core/decrypt0rx_core/redaction.py:85-86 | two URLs are stored alike if and only if they scan to the same pieces up to masked values |
| UrlRedaction.Rescan | packages/core/decrypt0rx_core/redaction.py:60-63 | a URL with other values scans into the same secrets and plain characters |
| RateLimit.WindowMeaning | services/proxy/decrypt0rx_proxy/proxy.py:179 | windows are the aligned minutes |
| RateLimit.CountsMeaning | services/proxy/decrypt0rx_proxy/proxy.py:181-185 | the counts are numbers of log entries by client, window or interval, and verdict |
| RateLimit.AdmittedCount | services/proxy/decrypt0rx_proxy/proxy.py:184-185 | each window admits min(limit, requests seen) |
| RateLimit.RateBound | services/proxy/decrypt0rx_proxy/proxy.py:175-188 | at most `limit` per aligned minute and twice that in any half-open minute |
| RateLimit.NextCount | services/proxy/decrypt0rx_proxy/proxy.py:181-184 | the store's counter of a window is what the window has seen: it never expires while the window can still be counted |
| RateLimit.Store.Increment | services/proxy/decrypt0rx_proxy/proxy.py:181-184 | the transaction counts from one when the key has expired and renews its lifetime |
| RateLimit.Limiter.RateLimited | services/proxy/decrypt0rx_proxy/proxy.py:175-188 | a request is limited exactly when its window has already seen `limit` requests of the client; without an answer it passes |
| RateLimit.RateRun | services/proxy/decrypt0rx_proxy/proxy.py:175-188 | any run over all replicas logs exactly its answered requests with the verdicts given, lets the others pass, and keeps both bounds for every client |

## Left out

- Sockets, timeouts, back-pressure and write failures, and the line limit of the stream reader: readers and writers are abstract streams.
- Python's limit of 4300 digits in `int`: numbers of any length parse.
- Connection.Clean: the first response head is taken as the final one, as the code does with any 1xx head other than 101.
- Proxy.TargetOf: `urlsplit` is an abstract total function, so its ValueError on malformed authorities is not modelled.
- Proxy.RecordOf: identity, addresses, times and TLS details of a record are not part of this model; the error is its kind instead of its text, `decode_content` is an abstract function, and the record is a value where the code fills an object.
- `Headers.set` and `remove`, and of `redact_body` the form and JWT branches: easy members. When a JSON body changes, `redact_body` returns before the JWT scrub; that function is not part of this model.
- Redaction.WalkJson: a JSON object is the list of members that the parser keeps, so repeated keys are assumed merged before the walk; keys are Latin-1, where Python also lowers characters outside it to ASCII, such as KELVIN SIGN to k, and then finds a key sensitive that the model does not.
- UrlRedaction.RedactUrlReplacesValues: URLs hold Latin-1 characters only, as a decoded request line does.
- Recorder.Recorder.Collect: a turn of the collecting loop is one atomic step, as it is where `wait_for` loses no item on cancellation; the rest of the worker coroutine is the step relation of `RecorderModel`, not a method, and body upload and the live events are suspension points without data.
- Recorder.Recorder.Submit: records are numbers in submission order with an abstract primary key.
- Certs.CertificateAuthorityProvider.ContextFor: the cache size is a natural number; leaf files, TLS context construction and certificate contents are opaque.
- CaRotation.CaTable.Insert: an endpoint's transaction is one atomic step; the unique index is on the name.
- PolicyTable.RuleTable.Update: a null in a required column fails at commit; column lengths and numeric ranges of payloads are not modelled.
- Policy.Library: glob, network and address parsing are abstract functions that may fail.
- RateLimit.Limiter.RateLimited: requires that all replicas share one clock, and that the store runs a transaction less than a minute after its clock reading and in the order of the runs.
- TLS, CONNECT handling, the connection gate around the loop, the console, authentication and the other API routers.
