/** Laws that span writing and reading: pipelined requests come out one by one, a
    written request or response is read back as it was meant, and both sides agree
    on who waits for an interim response. */
module HttpExchange {
  import opened Text
  import opened HttpReader
  import opened Chunked
  import opened HttpHeaders
  import opened HttpMessages
  import opened HttpConnection

  // ---------------------------------------------------------------- pipelining

  datatype Payload = Empty | Fixed(body: string) | Chunks(chunks: seq<string>, trailers: Headers)

  /** One request as it lies on the wire: the text of its head, what the head says, its body. */
  datatype Sent = Sent(headText: string, head: RequestHead, payload: Payload)

  function PayloadWire(p: Payload): string {
    match p
    case Empty => ""
    case Fixed(body) => body
    case Chunks(chunks, trailers) => EncodeBody(chunks, trailers)
  }

  function PayloadFrame(p: Payload): Frame {
    match p
    case Empty => NoBody
    case Fixed(body) => FixedBody(|body|)
    case Chunks(_, _) => ChunkedBody
  }

  function Content(p: Payload): (string, Headers) {
    match p
    case Empty => ("", [])
    case Fixed(body) => (body, [])
    case Chunks(chunks, trailers) => (Concat(chunks), trailers)
  }

  function Wire(ws: seq<Sent>): string {
    if ws == [] then "" else ws[0].headText + (PayloadWire(ws[0].payload) + Wire(ws[1..]))
  }

  ghost predicate GoodPayload(p: Payload, limits: Limits) {
    match p
    case Empty => true
    case Fixed(body) => |body| <= limits.maxBodyBytes
    case Chunks(chunks, trailers) =>
      && GoodTrailers(trailers, limits) && FitChunks(chunks, 0, limits)
      && forall i :: 0 <= i < |chunks| ==> chunks[i] != []
  }

  /** A request within the limits whose head announces the body it carries. */
  ghost predicate Deliverable(w: Sent, parse: string -> HeadParse<RequestHead>, limits: Limits) {
    && IsHead(parse, w.headText, w.head) && |w.headText| <= limits.maxHeaderBytes
    && FrameAfterHead(w.head) == Ok(PayloadFrame(w.payload))
    && GoodPayload(w.payload, limits)
  }

  ghost function Delivered(w: Sent): Request {
    RequestWith(w.head, PayloadFrame(w.payload), Content(w.payload).0, Content(w.payload).1)
  }

  ghost function AllDelivered(ws: seq<Sent>): seq<Request> {
    if ws == [] then [] else [Delivered(ws[0])] + AllDelivered(ws[1..])
  }

  function Interims(ws: seq<Sent>): string {
    if ws == [] then ""
    else InterimResponse(ws[0].head.headers, PayloadFrame(ws[0].payload)) + Interims(ws[1..])
  }

  lemma PayloadReadBack(p: Payload, rest: string, limits: Limits)
    requires SaneLimits(limits) && limits.maxHeaderBytes >= 3 && GoodPayload(p, limits)
    ensures BodyOf(PayloadWire(p) + rest, PayloadFrame(p), limits, true)
         == Ok(Body(Content(p).0, Content(p).1, rest))
  {
    match p {
      case Empty =>
        assert "" + rest == rest;
      case Fixed(body) =>
        SplitAt(body, rest);
      case Chunks(chunks, trailers) =>
        RoundTrip(chunks, trailers, rest, limits);
    }
  }

  /** The first request of a pipeline is read whole, and what is left is the rest of it. */
  lemma FirstOfPipeline(w: Sent, rest: string, parse: string -> HeadParse<RequestHead>, limits: Limits)
    requires SaneLimits(limits) && limits.maxHeaderBytes >= 3 && Deliverable(w, parse, limits)
    ensures var s := w.headText + (PayloadWire(w.payload) + rest);
            && RequestSpec(s, parse, limits) == Exactly(Ok((Some(Delivered(w)), rest)))
            && InterimFor(s, parse) == InterimResponse(w.head.headers, PayloadFrame(w.payload))
  {
    hide BodyOf, FrameAfterHead, InterimResponse, RequestWith;
    var tail := PayloadWire(w.payload) + rest;
    var s := w.headText + tail;
    assert parse(s) == Parsed(w.head, |w.headText|);
    SplitAt(w.headText, tail);
    PayloadReadBack(w.payload, rest, limits);
  }

  /** The reading loop of `Server::handle_client`: requests laid end to end come out one
      by one, each consuming exactly its own bytes, and the stream ends cleanly. */
  method ReadRequests(conn: Connection, ghost ws: seq<Sent>) returns (requests: seq<Request>, end: Result<(), Error>)
    requires conn.Valid() && conn.Bytes() == Wire(ws)
    requires SaneLimits(conn.limits) && conn.limits.maxHeaderBytes >= 3
    requires forall i :: 0 <= i < |ws| ==> Deliverable(ws[i], conn.parseRequest, conn.limits)
    modifies conn.stream, conn.buffer
    ensures conn.Valid() && conn.Bytes() == ""
    ensures requests == AllDelivered(ws) && end == Ok(())
    ensures conn.stream.sent == old(conn.stream.sent) + Interims(ws)
  {
    hide Deliverable, Delivered, PrefixExact, RequestSpec, InterimFor, InterimResponse;
    requests := [];
    ghost var i := 0;
    assert ws[0..] == ws;
    ghost var start := conn.stream.sent;
    ghost var written := "";
    assert start + "" == start;
    while true
      invariant 0 <= i <= |ws| && conn.Valid() && conn.Bytes() == Wire(ws[i..])
      invariant requests + AllDelivered(ws[i..]) == AllDelivered(ws)
      invariant conn.stream.sent == start + written && written + Interims(ws[i..]) == Interims(ws)
      decreases |ws| - i
    {
      if i < |ws| {
        assert ws[i..][1..] == ws[i + 1..];
        FirstOfPipeline(ws[i], Wire(ws[i + 1..]), conn.parseRequest, conn.limits);
      } else {
        EmptyPipeline(conn.parseRequest, conn.limits);
      }
      var next := conn.ReadRequest();
      match next {
        case Err(e) =>
          return requests, Err(e);
        case Ok(None) =>
          return requests, Ok(());
        case Ok(Some(request)) =>
          Assoc(requests, [request], AllDelivered(ws[i + 1..]));
          ghost var interim := InterimResponse(ws[i].head.headers, PayloadFrame(ws[i].payload));
          Assoc(start, written, interim);
          Assoc(written, interim, Interims(ws[i + 1..]));
          requests := requests + [request];
          written := written + interim;
          i := i + 1;
      }
    }
  }

  lemma EmptyPipeline(parse: string -> HeadParse<RequestHead>, limits: Limits)
    requires PrefixExact(parse) && SaneLimits(limits) && limits.maxHeaderBytes > 0
    ensures RequestSpec("", parse, limits) == Exactly(Ok((None, ""))) && InterimFor("", parse) == ""
  {
    hide PrefixExact, SaneLimits, BodyOf, FrameAfterHead, InterimResponse, RequestFrame, RequestWith, IsHead;
    NoHeadInNothing(parse);
  }

  // ------------------------------------------- a written message is read back

  ghost function ReadBackRequest(request: Request, host: string): Request {
    Request(request.method_, TargetOf(request.target), OutgoingRequestHeaders(request, host), request.body,
            if request.chunked then request.trailers else [], request.minor, request.keepAlive, request.chunked)
  }

  /** The body is within the limits of the reader. */
  ghost predicate FitsReader(body: string, chunked: bool, trailers: Headers, limits: Limits) {
    && |body| <= limits.maxBodyBytes
    && (chunked ==> GoodTrailers(trailers, limits) && |Print(|body|, 16)| + 2 <= limits.maxHeaderBytes)
  }

  lemma OneBody(body: string)
    ensures Concat([body]) == body
  {
    assert Concat([body]) == body + Concat([]);
  }

  /** Reading back a body written in one piece; an empty chunked one is the exception. */
  lemma BodyReadBack(body: string, chunked: bool, trailers: Headers, rest: string, limits: Limits)
    requires SaneLimits(limits) && limits.maxHeaderBytes >= 3 && FitsReader(body, chunked, trailers, limits)
    ensures var wire := if chunked then EncodeBody([body], trailers) else body;
            var frame := if chunked then ChunkedBody else FixedBody(|body|);
            var kept := if chunked then trailers else [];
            && BodyOf(wire + rest, frame, limits, true).Ok?
            && (BodyOf(wire + rest, frame, limits, true) == Ok(Body(body, kept, rest)) <==> !(chunked && body == ""))
  {
    hide DecodeChunks, EncodeBody, Print, GoodTrailers;
    OneBody(body);
    if chunked {
      RoundTripExactly([body], trailers, rest, limits);
      if body == "" {
        assert [body] == [] + [""] + [];
        StopsAtEmptyChunk([], [], trailers, rest, limits);
      } else {
        RoundTrip([body], trailers, rest, limits);
      }
    } else {
      SplitAt(body, rest);
    }
  }

  lemma RequestFraming(request: Request, host: string)
    requires |request.body| < SIZE_MOD && Expect(WithHost(request.headers, host)) != Unsupported
    ensures var head := RequestHead(request.method_, TargetOf(request.target), request.minor,
                                    OutgoingRequestHeaders(request, host));
            && FrameAfterHead(head) == Ok(if request.chunked then ChunkedBody else FixedBody(|request.body|))
            && KeepAlive(head.headers, request.minor) == request.keepAlive
  {
    FramingAgreement(WithHost(request.headers, host), request.keepAlive, request.chunked,
                     if request.chunked then 0 else |request.body|, request.minor);
  }

  /** What `write_request` puts on the wire, `read_request` reads back as the same
      request with the prepared headers, leaving exactly what followed it, if and only
      if it is not a chunked request with an empty body. */
  lemma RequestReadBack(request: Request, host: string, rest: string,
                        parse: string -> HeadParse<RequestHead>, limits: Limits)
    requires SaneLimits(limits) && limits.maxHeaderBytes >= 3 && 0 <= request.minor <= 1
    requires FitsReader(request.body, request.chunked, request.trailers, limits)
    requires Expect(WithHost(request.headers, host)) != Unsupported
    requires var text := OutgoingRequestHead(request, host);
             |text| <= limits.maxHeaderBytes
             && IsHead(parse, text, RequestHead(request.method_, TargetOf(request.target), request.minor,
                                                OutgoingRequestHeaders(request, host)))
    ensures RequestSpec(OutgoingRequestHead(request, host) + (RequestPayload(request) + rest), parse, limits)
            == Exactly(Ok((Some(ReadBackRequest(request, host)), rest)))
       <==> !(request.chunked && request.body == "")
  {
    hide BodyOf, FrameAfterHead, KeepAlive, OutgoingRequestHeaders, Expect;
    var text := OutgoingRequestHead(request, host);
    var tail := RequestPayload(request) + rest;
    assert parse(text + tail).length == |text|;
    SplitAt(text, tail);
    RequestFraming(request, host);
    BodyReadBack(request.body, request.chunked, request.trailers, rest, limits);
  }

  ghost function ReadBackResponse(response: Response, requestMethod: string, phrase: int -> string): Response {
    var hasBody := ResponseHasBody(response.status, requestMethod);
    Response(response.status, ReasonOf(response, phrase), OutgoingResponseHeaders(response, requestMethod),
             if hasBody then response.body else "",
             if SendsChunked(response, requestMethod) then response.trailers else [],
             response.minor, response.keepAlive, SendsChunked(response, requestMethod))
  }

  lemma ResponseFraming(response: Response, requestMethod: string)
    requires |response.body| < SIZE_MOD
    ensures var headers := OutgoingResponseHeaders(response, requestMethod);
            && ResponseFrame(headers)
               == Ok(if SendsChunked(response, requestMethod) then ChunkedBody
                     else FixedBody(if response.chunked then 0 else |response.body|))
            && KeepAlive(headers, response.minor) == response.keepAlive
  {
    FramingAgreement(response.headers, response.keepAlive, SendsChunked(response, requestMethod),
                     if response.chunked then 0 else |response.body|, response.minor);
  }

  /** For a final status and the same request method, the reader takes a body off the
      wire exactly when the writer put one there, and reads the response back, if and
      only if it is not an empty body sent chunked. */
  lemma ResponseReadBack(response: Response, requestMethod: string, phrase: int -> string, rest: string,
                         parse: string -> HeadParse<ResponseHead>, limits: Limits, skip: bool)
    requires SaneLimits(limits) && limits.maxHeaderBytes >= 3 && 0 <= response.minor <= 1 && response.status >= 200
    requires FitsReader(response.body, response.chunked, response.trailers, limits)
    requires var text := ResponseHeadText(response.minor, response.status, ReasonOf(response, phrase),
                                          OutgoingResponseHeaders(response, requestMethod));
             |text| <= limits.maxHeaderBytes
             && IsHead(parse, text, ResponseHead(response.status, ReasonOf(response, phrase), response.minor,
                                                 OutgoingResponseHeaders(response, requestMethod)))
    ensures ResponseSpec(ResponseWire(response, requestMethod, phrase) + rest, requestMethod, parse, limits, skip)
            == Exactly(Ok((ReadBackResponse(response, requestMethod, phrase), rest)))
       <==> !(SendsChunked(response, requestMethod) && response.body == "")
  {
    hide BodyOf, ResponseFrame, KeepAlive, OutgoingResponseHeaders, ResponseHeadText;
    var headers := OutgoingResponseHeaders(response, requestMethod);
    var text := ResponseHeadText(response.minor, response.status, ReasonOf(response, phrase), headers);
    var tail := ResponsePayload(response, requestMethod) + rest;
    Assoc(text, ResponsePayload(response, requestMethod), rest);
    assert parse(text + tail).length == |text|;
    SplitAt(text, tail);
    ResponseFraming(response, requestMethod);
    if ResponseHasBody(response.status, requestMethod) {
      BodyReadBack(response.body, response.chunked, response.trailers, rest, limits);
    } else {
      NothingReadBack(rest, limits);
    }
  }

  lemma NothingReadBack(rest: string, limits: Limits)
    ensures BodyOf("" + rest, NoBody, limits, true) == Ok(Body("", [], rest))
  {
    assert "" + rest == rest;
  }

  /** The client holds its body back exactly when the server answers the head with an
      interim response (section 10.1.1 of RFC 9110). */
  lemma WaitingAgreement(request: Request, host: string)
    requires |request.body| < SIZE_MOD
    ensures var headers := OutgoingRequestHeaders(request, host);
            && RequestFrame(headers).Ok?
            && (WaitsForContinue(request, host)
                <==> InterimResponse(headers, RequestFrame(headers).value) == CONTINUE_LINE)
            && (Expect(headers) == Unsupported <==> FrameAfterHead(RequestHead("", "", 1, headers)) == Err(UNSUPPORTED_EXPECT))
  {
    hide Expect, ContentLength, TransferEncoding, KeepAlive, PrepareOutgoing;
    FramingAgreement(WithHost(request.headers, host), request.keepAlive, request.chunked,
                     if request.chunked then 0 else |request.body|, request.minor);
  }
}
