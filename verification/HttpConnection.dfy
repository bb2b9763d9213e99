/** `Connection` (src/http.cpp): reading requests and responses off one connection,
    and the pipelining law, for every fragmentation of the bytes. */
module HttpConnection {
  import opened Text
  import opened ByteBuffer
  import opened HttpReader
  import opened Chunked
  import opened HttpHeaders
  import opened HttpMessages

  /** `std::logic_error` carries no HTTP status; the model gives it status 0. */
  const ONLY_HTTP_1 := Error(0, "corouv::http::Connection only supports HTTP/1.x")

  /** What a read must yield on given bytes.  `Any` marks the inputs whose outcome may
      depend on the fragmentation: a head or a line that is longer than the limit, a size
      that wraps, or a parser that changes its mind about what it has rejected.  `Refused`
      marks bytes that the parser rejects: which error they give depends on whether it sees
      them at once. */
  datatype Spec<T> = Any | Refused(early: Error, late: Error) | Exactly(outcome: Result<(T, string), Error>)

  ghost predicate Meets<T>(spec: Spec<T>, r: Result<T, Error>, after: string) {
    match spec
    case Any => true
    case Refused(early, late) => r == Err(early) || r == Err(late)
    case Exactly(Ok(v)) => r == Ok(v.0) && after == v.1
    case Exactly(Err(e)) => r == Err(e)
  }

  ghost function RequestSpec(s: string, parse: string -> HeadParse<RequestHead>, limits: Limits): Spec<Option<Request>> {
    var p := parse(s);
    if !SaneLimits(limits) || limits.maxHeaderBytes == 0 then Any
    else if s == "" then Exactly(Ok((None, "")))
    else if !p.Parsed? then
      Faulty(HeadFault(parse, s, limits.maxHeaderBytes, BAD_REQUEST, REQUEST_TOO_LARGE, REQUEST_EOF))
    else if !(p.length <= limits.maxHeaderBytes && p.length <= |s|) then Any
    else RequestAfterHead(p.head, s[p.length..], limits)
  }

  ghost function Faulty<T>(fault: Option<(Error, Error)>): Spec<T> {
    match fault
    case Some((early, late)) => if early == late then Exactly(Err(early)) else Refused(early, late)
    case None => Any
  }

  ghost function RequestAfterHead(head: RequestHead, s: string, limits: Limits): Spec<Option<Request>> {
    match FrameAfterHead(head)
    case Err(e) => Exactly(Err(e))
    case Ok(frame) =>
      var body := BodyOf(s, frame, limits, true);
      if LeftOpen(body) then Any
      else match body
           case Err(e) => Exactly(Err(e))
           case Ok(b) => Exactly(Ok((Some(RequestWith(head, frame, b.body, b.trailers)), b.rest)))
  }

  /** The interim response owed for the request at the head of `s`. */
  function InterimFor(s: string, parse: string -> HeadParse<RequestHead>): string {
    match parse(s)
    case Parsed(head, _) =>
      (match FrameAfterHead(head)
       case Ok(frame) => InterimResponse(head.headers, frame)
       case Err(_) => "")
    case _ => ""
  }

  ghost function ResponseSpec(s: string, requestMethod: string, parse: string -> HeadParse<ResponseHead>,
                              limits: Limits, skip: bool): Spec<Response>
    decreases |s|
  {
    var p := parse(s);
    if !SaneLimits(limits) || limits.maxHeaderBytes == 0 then Any
    else if s == "" then Exactly(Err(RESPONSE_EOF))
    else if !p.Parsed? then
      Faulty(HeadFault(parse, s, limits.maxHeaderBytes, BAD_RESPONSE, RESPONSE_TOO_LARGE, RESPONSE_EOF))
    else if !(0 < p.length <= |s| && p.length <= limits.maxHeaderBytes) then Any
    else
      match ResponseAfterHead(p.head, s[p.length..], requestMethod, limits)
      case Exactly(Ok((response, rest))) =>
        if Informational(p.head.status) && skip then ResponseSpec(rest, requestMethod, parse, limits, skip)
        else Exactly(Ok((response, rest)))
      case other => other
  }

  ghost function ResponseAfterHead(head: ResponseHead, s: string, requestMethod: string, limits: Limits): (spec: Spec<Response>)
    ensures spec.Exactly? && spec.outcome.Ok? ==> |spec.outcome.value.1| <= |s|
  {
    match ResponseFrame(head.headers)
    case Err(e) => Exactly(Err(e))
    case Ok(announced) =>
      var frame := ResponseBodyFrame(head, announced, requestMethod);
      var body := BodyOf(s, frame, limits, !Informational(head.status));
      if LeftOpen(body) then Any
      else match body
           case Err(e) => Exactly(Err(e))
           case Ok(b) => Exactly(Ok((ResponseWith(head, announced, b.body, b.trailers), b.rest)))
  }

  class Connection {
    const stream: ByteStream
    const buffer: BufferCursor
    const limits: Limits
    const parseRequest: string -> HeadParse<RequestHead>
    const parseResponse: string -> HeadParse<ResponseHead>
    const reasonPhrase: int -> string
    var prefetched: Option<Response>

    ghost predicate Valid()
      reads buffer
    {
      buffer.Valid() && PrefixExact(parseRequest) && PrefixExact(parseResponse)
    }

    /** Buffered bytes, then bytes in flight. */
    ghost function Bytes(): string
      requires Valid()
      reads stream, buffer
    {
      Incoming(stream, buffer)
    }

    constructor (stream: ByteStream, buffer: BufferCursor, limits: Limits,
                 parseRequest: string -> HeadParse<RequestHead>, parseResponse: string -> HeadParse<ResponseHead>,
                 reasonPhrase: int -> string)
      requires buffer.Valid() && PrefixExact(parseRequest) && PrefixExact(parseResponse)
      ensures Valid() && prefetched == None
      ensures this.stream == stream && this.buffer == buffer && this.limits == limits
      ensures this.parseRequest == parseRequest && this.parseResponse == parseResponse
      ensures this.reasonPhrase == reasonPhrase
    {
      this.stream := stream;
      this.buffer := buffer;
      this.limits := limits;
      this.parseRequest := parseRequest;
      this.parseResponse := parseResponse;
      this.reasonPhrase := reasonPhrase;
      prefetched := None;
    }

    /** Reads the request the bytes start with, answering its expectation first, and
        leaves exactly the bytes after it.  `None` only if there was nothing at all. */
    method ReadRequest() returns (r: Result<Option<Request>, Error>)
      requires Valid()
      modifies stream, buffer
      ensures Valid()
      ensures r == Ok(None) ==> old(Bytes()) == ""
      ensures Meets(RequestSpec(old(Bytes()), parseRequest, limits), r, Bytes())
      ensures r.Ok? ==> stream.sent == old(stream.sent) + InterimFor(old(Bytes()), parseRequest)
    {
      hide FrameAfterHead, RequestAfterHead, KeepAlive, InterimResponse, IsHead, HeadFault, PrefixExact, SaneLimits;
      var head := ReadHead(stream, buffer, limits.maxHeaderBytes, parseRequest, BAD_REQUEST, REQUEST_TOO_LARGE, REQUEST_EOF);
      if head.Err? {
        return Err(head.error);
      }
      if head.value.None? {
        assert old(Bytes()) == "";
        NoHeadInNothing(parseRequest);
        assert stream.sent + "" == stream.sent;
        return Ok(None);
      }
      r := FinishRequest(head.value.value);
    }

    /** The part of `read_request` after the head has been consumed. */
    method FinishRequest(head: RequestHead) returns (r: Result<Option<Request>, Error>)
      requires Valid()
      modifies stream, buffer
      ensures Valid() && r != Ok(None)
      ensures SaneLimits(limits) ==> Meets(RequestAfterHead(head, old(Bytes()), limits), r, Bytes())
      ensures FrameAfterHead(head).Ok? ==>
                stream.sent == old(stream.sent) + InterimResponse(head.headers, FrameAfterHead(head).value)
      ensures FrameAfterHead(head).Err? ==> r == Err(FrameAfterHead(head).error) && stream.sent == old(stream.sent)
    {
      hide RequestFrame, BodyOf, KeepAlive, Expect, PrefixExact, SaneLimits, LeftOpen;
      var frame := ParseRequestFrame(head.headers);
      if frame.Err? {
        return Err(frame.error);
      }
      var keepAlive := ShouldKeepAlive(head.headers, head.minor);
      var expectation := ParseExpect(head.headers);
      if expectation == Unsupported {
        return Err(UNSUPPORTED_EXPECT);
      }
      if expectation == Continue100 && AnnouncesBody(frame.value) {
        stream.SendAll(CONTINUE_LINE);
      } else {
        assert stream.sent + "" == stream.sent;
      }
      var body := ReadBody(stream, buffer, limits, frame.value, true);
      if body.Err? {
        return Err(body.error);
      }
      return Ok(Some(Request(head.method_, head.target, head.headers, body.value.0, body.value.1, head.minor,
                             keepAlive, frame.value.ChunkedBody?)));
    }

    // ----------------------------------------------------------- responses

    /** The part of reading a response after its head has been consumed. */
    method FinishResponse(head: ResponseHead, requestMethod: string) returns (r: Result<Response, Error>)
      requires Valid()
      modifies stream`inFlight, stream`open, buffer
      ensures Valid()
      ensures r.Ok? ==> |Bytes()| <= |old(Bytes())| && r.value.status == head.status
      ensures SaneLimits(limits) ==> Meets(ResponseAfterHead(head, old(Bytes()), requestMethod, limits), r, Bytes())
    {
      hide ResponseFrame, BodyOf, KeepAlive, PrefixExact, SaneLimits, LeftOpen, ResponseHasBody, Informational;
      var announced := ParseResponseFrame(head.headers);
      if announced.Err? {
        return Err(announced.error);
      }
      var keepAlive := ShouldKeepAlive(head.headers, head.minor);
      var frame := announced.value;
      if !Informational(head.status) {
        if !ResponseHasBody(head.status, requestMethod) {
          frame := NoBody;
        } else if frame.NoBody? && !keepAlive {
          frame := UntilClose;
        }
      }
      var body := ReadBody(stream, buffer, limits, frame, !Informational(head.status));
      if body.Err? {
        return Err(body.error);
      }
      var interim := Informational(head.status);
      return Ok(Response(head.status, head.reason, head.headers, if interim then "" else body.value.0,
                         if interim then [] else body.value.1, head.minor, keepAlive, announced.value.ChunkedBody?));
    }

    /** Reads the response the bytes start with; with `skip`, the first final one. */
    method ReadResponseImpl(requestMethod: string, skip: bool) returns (r: Result<Response, Error>)
      requires Valid()
      modifies stream`inFlight, stream`open, buffer
      ensures Valid()
      ensures Meets(ResponseSpec(old(Bytes()), requestMethod, parseResponse, limits, skip), r, Bytes())
      ensures skip && r.Ok? ==> !Informational(r.value.status)
    {
      hide ResponseAfterHead, IsHead, HeadFault, PrefixExact, SaneLimits, Informational;
      ghost var spec := ResponseSpec(Bytes(), requestMethod, parseResponse, limits, skip);
      while true
        invariant Valid()
        invariant spec.Any? || spec == ResponseSpec(Bytes(), requestMethod, parseResponse, limits, skip)
        decreases |Bytes()|
      {
        ghost var now := Bytes();
        var head := ReadHead(stream, buffer, limits.maxHeaderBytes, parseResponse, BAD_RESPONSE, RESPONSE_TOO_LARGE, RESPONSE_EOF);
        if head.Err? {
          return Err(head.error);
        }
        if head.value.None? {
          NoHeadInNothing(parseResponse);
          return Err(RESPONSE_EOF);
        }
        var response := FinishResponse(head.value.value, requestMethod);
        if response.Err? || !skip || !Informational(response.value.status) {
          return response;
        }
      }
    }

    /** A prefetched response is handed out once, before anything else is read. */
    method ReadResponse(requestMethod: string) returns (r: Result<Response, Error>)
      requires Valid()
      modifies this, stream`inFlight, stream`open, buffer
      ensures Valid() && prefetched == None
      ensures old(prefetched).Some? ==> r == Ok(old(prefetched).value) && Bytes() == old(Bytes())
      ensures old(prefetched).None? ==>
                Meets(ResponseSpec(old(Bytes()), requestMethod, parseResponse, limits, true), r, Bytes())
    {
      hide ResponseSpec, PrefixExact;
      if prefetched.Some? {
        r := Ok(prefetched.value);
        prefetched := None;
        return;
      }
      r := ReadResponseImpl(requestMethod, true);
    }

    // -------------------------------------------------------------- writing

    /** Writes a request.  With an expectation and a body, nothing of the body is written
        before a 100 response has been read; any other response is kept for the next
        `ReadResponse`.  `interim` is the response read while waiting. */
    method WriteRequest(request: Request, host: string) returns (r: Result<(), Error>, interim: Option<Response>)
      requires Valid()
      modifies this, stream, buffer
      ensures Valid()
      ensures !(0 <= request.minor <= 1) ==>
                r == Err(ONLY_HTTP_1) && stream.sent == old(stream.sent) && prefetched == old(prefetched)
      ensures 0 <= request.minor <= 1 ==>
                stream.sent == old(stream.sent) + OutgoingRequestHead(request, host)
                               + (if BodyGoesOut(request, host, r, interim) then RequestPayload(request) else "")
      ensures 0 <= request.minor <= 1 && !WaitsForContinue(request, host) ==>
                r.Ok? && interim == None && prefetched == old(prefetched) && Bytes() == old(Bytes())
      ensures 0 <= request.minor <= 1 && WaitsForContinue(request, host) && r.Ok? ==>
                && interim.Some?
                && Meets(ResponseSpec(old(Bytes()), request.method_, parseResponse, limits, false), Ok(interim.value), Bytes())
                && prefetched == if interim.value.status == 100 then old(prefetched) else interim
      ensures r.Err? ==> prefetched == old(prefetched)
    {
      hide ResponseSpec, PrefixExact, Expect, OutgoingRequestHeaders, EncodeBody, RequestHeadText;
      interim := None;
      if !(0 <= request.minor <= 1) {
        return Err(ONLY_HTTP_1), None;
      }
      var headers := OutgoingRequestHeaders(request, host);
      var expectation := ParseExpect(headers);
      stream.SendAll(RequestHeadText(request.method_, TargetOf(request.target), request.minor, headers));
      assert stream.sent + "" == stream.sent;
      if expectation == Continue100 && (request.chunked || request.body != "") {
        var response := ReadResponseImpl(request.method_, false);
        if response.Err? {
          return Err(response.error), None;
        }
        interim := Some(response.value);
        if response.value.status != 100 {
          prefetched := interim;
          return Ok(()), interim;
        }
      }
      if request.chunked {
        WriteChunkedBody(stream, [request.body], request.trailers);
      } else if request.body != "" {
        stream.SendAll(request.body);
      }
      return Ok(()), interim;
    }

    method WriteResponse(response: Response, requestMethod: string) returns (r: Result<(), Error>)
      requires Valid()
      modifies stream`sent
      ensures !(0 <= response.minor <= 1) ==> r == Err(ONLY_HTTP_1) && stream.sent == old(stream.sent)
      ensures 0 <= response.minor <= 1 ==>
                r.Ok? && stream.sent == old(stream.sent) + ResponseWire(response, requestMethod, reasonPhrase)
    {
      hide OutgoingResponseHeaders, EncodeBody, ResponseHeadText, PrefixExact;
      if !(0 <= response.minor <= 1) {
        return Err(ONLY_HTTP_1);
      }
      var headers := OutgoingResponseHeaders(response, requestMethod);
      var reason := if response.reason == "" then reasonPhrase(response.status) else response.reason;
      var head := ResponseHeadText(response.minor, response.status, reason, headers);
      stream.SendAll(head);
      assert old(stream.sent) + head + "" == old(stream.sent) + (head + "");
      if !ResponseHasBody(response.status, requestMethod) {
        return Ok(());
      }
      Assoc(old(stream.sent), head, ResponsePayload(response, requestMethod));
      if response.chunked {
        WriteChunkedBody(stream, [response.body], response.trailers);
      } else if response.body != "" {
        stream.SendAll(response.body);
      }
      return Ok(());
    }
  }

  /** A write that succeeded without waiting, or after reading a 100. */
  predicate BodyGoesOut(request: Request, host: string, r: Result<(), Error>, interim: Option<Response>) {
    r.Ok? && (WaitsForContinue(request, host) ==> interim.Some? && interim.value.status == 100)
  }
}
