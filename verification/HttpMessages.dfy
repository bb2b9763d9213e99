/** HTTP messages as src/http.cpp reads them: heads found by a foreign head parser,
    then a body whose extent the headers decide (section 6.3 of RFC 9112). */
module HttpMessages {
  import opened Text
  import opened HeaderFields
  import opened ByteBuffer
  import opened HttpReader
  import opened Chunked
  import opened HttpHeaders

  /** What picohttpparser answers on a prefix of the connection's bytes. */
  datatype HeadParse<+H> = Partial | Invalid | Parsed(head: H, length: nat)

  datatype RequestHead = RequestHead(method_: string, target: string, minor: int, headers: Headers)

  datatype ResponseHead = ResponseHead(status: int, reason: string, minor: int, headers: Headers)

  datatype Request = Request(method_: string, target: string, headers: Headers, body: string, trailers: Headers,
                             minor: int, keepAlive: bool, chunked: bool)

  datatype Response = Response(status: int, reason: string, headers: Headers, body: string, trailers: Headers,
                               minor: int, keepAlive: bool, chunked: bool)

  datatype Frame = NoBody | FixedBody(size: nat) | ChunkedBody | UntilClose

  const BAD_REQUEST := Error(400, "invalid HTTP request")
  const REQUEST_TOO_LARGE := Error(431, "request headers too large")
  const REQUEST_EOF := Error(400, "unexpected eof while reading request")
  const BOTH_IN_REQUEST := Error(400, "invalid HTTP request: both Transfer-Encoding and Content-Length")
  const UNSUPPORTED_EXPECT := Error(417, "unsupported Expect header")
  const BAD_RESPONSE := Error(502, "invalid HTTP response")
  const RESPONSE_TOO_LARGE := Error(502, "response headers too large")
  const RESPONSE_EOF := Error(502, "unexpected eof while reading response")
  const BAD_RESPONSE_LENGTH := Error(502, "invalid response Content-Length")
  const BOTH_IN_RESPONSE := Error(502, "invalid HTTP response: both Transfer-Encoding and Content-Length")

  const CONTINUE_LINE := "HTTP/1.1 100 Continue\r\n\r\n"

  // ----------------------------------------------------------------- heads

  /** `text` is a head: recognised as soon as it is complete, whatever follows it. */
  ghost predicate IsHead<H>(parse: string -> HeadParse<H>, text: string, head: H) {
    && text != ""
    && (forall more :: parse(text + more) == Parsed(head, |text|))
    && (forall k :: 0 <= k < |text| ==> parse(text[..k]) == Partial)
  }

  /** The parser's answer depends on the head alone, and it never answers early. */
  ghost predicate PrefixExact<H>(parse: string -> HeadParse<H>) {
    forall s :: parse(s).Parsed? ==> parse(s).length <= |s| && IsHead(parse, s[..parse(s).length], parse(s).head)
  }

  lemma HeadOfPrefix<H>(parse: string -> HeadParse<H>, view: string, more: string)
    requires PrefixExact(parse) && parse(view).Parsed?
    ensures parse(view + more) == parse(view)
    ensures 0 < parse(view).length <= |view|
  {
    var n := parse(view).length;
    assert view[..n] + (view[n..] + more) == view + more;
    assert IsHead(parse, view[..n], parse(view).head);
  }

  /** If the whole input starts with a head, a prefix shows it, or is still partial. */
  lemma HeadOfWhole<H>(parse: string -> HeadParse<H>, view: string, more: string)
    requires PrefixExact(parse) && parse(view + more).Parsed?
    ensures if |view| < parse(view + more).length then parse(view) == Partial
            else parse(view) == parse(view + more)
    ensures parse(view + more).length > 0
  {
    var s := view + more;
    var n := parse(s).length;
    assert IsHead(parse, s[..n], parse(s).head);
    if |view| < n {
      assert s[..n][..|view|] == view;
    } else {
      assert s[..n] + view[n..] == view;
    }
  }

  lemma NoHeadInNothing<H>(parse: string -> HeadParse<H>)
    requires PrefixExact(parse)
    ensures !parse("").Parsed?
  {
    if parse("").Parsed? {
      HeadOfPrefix(parse, "", "");
    }
  }

  /** The parser answers no prefix of `s`. */
  ghost predicate NeverAnswers<H>(parse: string -> HeadParse<H>, s: string) {
    forall k :: 0 <= k <= |s| ==> parse(s[..k]) == Partial
  }

  /** The parser rejects `s` as soon as it sees `n` bytes of it. */
  ghost predicate RejectsAt<H>(parse: string -> HeadParse<H>, s: string, n: nat) {
    && 0 < n <= |s|
    && (forall k :: 0 <= k < n ==> parse(s[..k]) == Partial)
    && (forall k :: n <= k <= |s| ==> parse(s[..k]) == Invalid)
  }

  ghost predicate Rejects<H>(parse: string -> HeadParse<H>, s: string, max: nat) {
    exists n: nat :: n <= max && RejectsAt(parse, s, n)
  }

  /** Why the bytes `s` yield no head: they end, or reach the limit, before the parser has an
      answer; or the parser rejects them within the limit, if it looks before they end. */
  ghost function HeadFault<H>(parse: string -> HeadParse<H>, s: string, max: nat,
                              invalid: Error, tooLarge: Error, eof: Error): Option<(Error, Error)> {
    var late := if |s| < max then eof else tooLarge;
    if s == "" || max == 0 then None
    else if Rejects(parse, s, max) then Some((invalid, late))
    else if NeverAnswers(parse, s) then Some((late, late))
    else None
  }

  /** What picohttpparser answers when told that its answer on the first `lastLen` bytes was
      "partial": it looks for the blank line first, and without one it answers "partial"
      even on bytes it would reject. */
  method Ask<H>(parse: string -> HeadParse<H>, view: string, lastLen: nat) returns (answer: HeadParse<H>)
    ensures answer == parse(view) || (lastLen > 0 && parse(view) == Invalid && answer == Partial)
  {
    answer := parse(view);
    if lastLen > 0 && answer.Invalid? {
      var looked := *;
      if !looked {
        answer := Partial;
      }
    }
  }

  lemma PrefixOfFault<H>(parse: string -> HeadParse<H>, view: string, more: string, n: nat)
    ensures NeverAnswers(parse, view + more) ==> parse(view) == Partial
    ensures RejectsAt(parse, view + more, n) ==> 0 < n <= |view + more|
    ensures RejectsAt(parse, view + more, n) ==> parse(view) == if |view| < n then Partial else Invalid
  {
    assert (view + more)[..|view|] == view;
  }

  lemma RejectedWhole<H>(parse: string -> HeadParse<H>, s: string, max: nat)
    requires Rejects(parse, s, max)
    ensures s != "" && parse(s) == Invalid
  {
    assert s[..|s|] == s;
  }

  lemma DropInside(view: string, more: string, n: nat)
    requires n <= |view|
    ensures (view + more)[n..] == view[n..] + more
  {
  }

  /** Reads until the buffer starts with a whole head, and consumes exactly that head.
      `None` is a clean end of stream: nothing was buffered and nothing came. */
  method ReadHead<H>(stream: ByteStream, buffer: BufferCursor, maxHeaderBytes: nat,
                     parse: string -> HeadParse<H>, invalid: Error, tooLarge: Error, eof: Error)
    returns (r: Result<Option<H>, Error>)
    requires buffer.Valid() && PrefixExact(parse)
    modifies stream`inFlight, buffer
    ensures buffer.Valid()
    ensures r == Ok(None) ==> old(Incoming(stream, buffer)) == "" && Incoming(stream, buffer) == ""
    ensures maxHeaderBytes > 0 && old(Incoming(stream, buffer)) == "" ==> r == Ok(None)
    ensures r.Ok? && r.value.Some? ==>
              var p := parse(old(Incoming(stream, buffer)));
              && p.Parsed? && p.head == r.value.value && 0 < p.length <= |old(Incoming(stream, buffer))|
              && Incoming(stream, buffer) == old(Incoming(stream, buffer))[p.length..]
    ensures var p := parse(old(Incoming(stream, buffer)));
            p.Parsed? && p.length <= maxHeaderBytes ==> r == Ok(Some(p.head))
    ensures var fault := HeadFault(parse, old(Incoming(stream, buffer)), maxHeaderBytes, invalid, tooLarge, eof);
            fault.Some? ==> r == Err(fault.value.0) || r == Err(fault.value.1)
    ensures Rejects(parse, old(buffer.View()), maxHeaderBytes) ==> r == Err(invalid)
  {
    hide PrefixExact, NeverAnswers, RejectsAt;
    ghost var all := Incoming(stream, buffer);
    ghost var limit: nat := if Rejects(parse, all, maxHeaderBytes)
                       then var n: nat :| n <= maxHeaderBytes && RejectsAt(parse, all, n); n else 0;
    if Rejects(parse, buffer.View(), maxHeaderBytes) {
      RejectedWhole(parse, buffer.View(), maxHeaderBytes);
    }
    var lastLen := 0;
    while true
      invariant buffer.Valid() && Incoming(stream, buffer) == all
      invariant lastLen == 0 || !Rejects(parse, old(buffer.View()), maxHeaderBytes)
      invariant lastLen == 0 ==> buffer.View() == old(buffer.View()) || old(buffer.View()) == ""
      decreases |stream.inFlight|
    {
      var view := buffer.View();
      PrefixOfFault(parse, view, stream.inFlight, limit);
      if parse(all).Parsed? {
        HeadOfWhole(parse, view, stream.inFlight);
      }
      if view != "" {
        var parsed := Ask(parse, view, lastLen);
        if parsed.Parsed? {
          HeadOfPrefix(parse, view, stream.inFlight);
          buffer.Consume(parsed.length);
          DropInside(view, stream.inFlight, parsed.length);
          return Ok(Some(parsed.head));
        }
        if parsed.Invalid? {
          return Err(invalid);
        }
      }
      if buffer.Size() >= maxHeaderBytes {
        return Err(tooLarge);
      }
      lastLen := buffer.Size();
      var n := ReadMore(stream, buffer, maxHeaderBytes, tooLarge, maxHeaderBytes - buffer.Size());
      if n.Err? {
        return Err(tooLarge);
      }
      if n.value == 0 {
        assert all == view;
        if view == "" {
          return Ok(None);
        }
        return Err(eof);
      }
    }
  }

  // ---------------------------------------------------------------- bodies

  /** The body that `frame` announces at the head of `s`. */
  function BodyOf(s: string, frame: Frame, limits: Limits, keep: bool): (r: Result<Body, Error>)
    ensures r.Ok? ==> |r.value.rest| <= |s|
  {
    match frame
    case NoBody => Ok(Body("", [], s))
    case FixedBody(size) =>
      (match DecodeFixed(s, size, limits)
       case Ok(d) => Ok(Body(d.0, [], d.1))
       case Err(e) => Err(e))
    case ChunkedBody => DecodeChunks(s, limits.maxHeaderBytes, limits, keep, "")
    case UntilClose => if |s| <= limits.maxBodyBytes then Ok(Body(s, [], "")) else Err(BODY_TOO_LARGE)
  }

  method ReadBody(stream: ByteStream, buffer: BufferCursor, limits: Limits, frame: Frame, keep: bool)
    returns (r: Result<(string, Headers), Error>)
    requires buffer.Valid()
    modifies stream`inFlight, stream`open, buffer
    ensures buffer.Valid()
    ensures var spec := BodyOf(old(Incoming(stream, buffer)), frame, limits, keep);
            SaneLimits(limits) ==> LeftOpen(spec) || Agrees(r, Incoming(stream, buffer), spec)
    ensures r.Ok? ==> |Incoming(stream, buffer)| <= |old(Incoming(stream, buffer))|
  {
    match frame {
      case NoBody =>
        return Ok(("", []));
      case FixedBody(size) =>
        var body := ReadFixedBody(stream, buffer, limits, size);
        if body.Err? {
          return Err(body.error);
        }
        return Ok((body.value, []));
      case ChunkedBody =>
        r := ReadChunkedBody(stream, buffer, limits, keep);
      case UntilClose =>
        var body := ReadUntilCloseBody(stream, buffer, limits);
        if body.Err? {
          return Err(body.error);
        }
        return Ok((body.value, []));
    }
  }

  // --------------------------------------------------------------- requests

  function RequestFrame(headers: Headers): Result<Frame, Error> {
    match TransferEncoding(headers)
    case Err(message) => Err(Error(400, message))
    case Ok(chunked) =>
      match ContentLength(headers)
      case Err(e) => Err(e)
      case Ok(length) =>
        if chunked && length.Some? then Err(BOTH_IN_REQUEST)
        else if chunked then Ok(ChunkedBody)
        else if length.Some? then Ok(FixedBody(length.value))
        else Ok(NoBody)
  }

  predicate AnnouncesBody(frame: Frame) {
    frame.ChunkedBody? || (frame.FixedBody? && frame.size > 0)
  }

  /** What the server writes before it reads the body (section 10.1.1 of RFC 9110). */
  function InterimResponse(headers: Headers, frame: Frame): string {
    if Expect(headers) == Continue100 && AnnouncesBody(frame) then CONTINUE_LINE else ""
  }

  ghost function RequestWith(head: RequestHead, frame: Frame, body: string, trailers: Headers): Request {
    Request(head.method_, head.target, head.headers, body, trailers, head.minor,
            KeepAlive(head.headers, head.minor), frame.ChunkedBody?)
  }

  /** The body to read after a request head, once the head itself is acceptable. */
  function FrameAfterHead(head: RequestHead): Result<Frame, Error> {
    match RequestFrame(head.headers)
    case Err(e) => Err(e)
    case Ok(frame) => if Expect(head.headers) == Unsupported then Err(UNSUPPORTED_EXPECT) else Ok(frame)
  }

  method ParseRequestFrame(headers: Headers) returns (r: Result<Frame, Error>)
    ensures r == RequestFrame(headers)
  {
    var chunked := ParseTransferEncoding(headers);
    if chunked.Err? {
      return Err(Error(400, chunked.error));
    }
    var length := ParseContentLength(headers);
    if length.Err? {
      return Err(length.error);
    }
    if chunked.value && length.value.Some? {
      return Err(BOTH_IN_REQUEST);
    }
    if chunked.value {
      return Ok(ChunkedBody);
    }
    return Ok(if length.value.Some? then FixedBody(length.value.value) else NoBody);
  }

  // -------------------------------------------------------------- responses

  function ResponseFrame(headers: Headers): Result<Frame, Error> {
    match TransferEncoding(headers)
    case Err(message) => Err(Error(502, message))
    case Ok(chunked) =>
      match ContentLength(headers)
      case Err(e) => Err(BAD_RESPONSE_LENGTH)
      case Ok(length) =>
        if chunked && length.Some? then Err(BOTH_IN_RESPONSE)
        else if chunked then Ok(ChunkedBody)
        else if length.Some? then Ok(FixedBody(length.value))
        else Ok(NoBody)
  }

  method ParseResponseFrame(headers: Headers) returns (r: Result<Frame, Error>)
    ensures r == ResponseFrame(headers)
  {
    var chunked := ParseTransferEncoding(headers);
    if chunked.Err? {
      return Err(Error(502, chunked.error));
    }
    var length := ParseContentLength(headers);
    if length.Err? {
      return Err(BAD_RESPONSE_LENGTH);
    }
    if chunked.value && length.value.Some? {
      return Err(BOTH_IN_RESPONSE);
    }
    if chunked.value {
      return Ok(ChunkedBody);
    }
    return Ok(if length.value.Some? then FixedBody(length.value.value) else NoBody);
  }

  /** The coding tokens a message lists. */
  function Codings(headers: Headers): seq<string> {
    NonEmpty(AllTokens(Values(headers, TRANSFER_ENCODING)))
  }

  ghost predicate Announces(headers: Headers, n: nat) {
    var values := Values(headers, CONTENT_LENGTH);
    values != [] && forall i :: 0 <= i < |values| ==> FromChars(Trim(values[i]), 10) == Some(n)
  }

  /** Section 6.3 of RFC 9112: a chunked body means exactly one coding, `chunked`, and no
      length; a body of `n` bytes means no coding and nothing but that length; no body means
      neither.  Everything else is refused, for requests and responses alike. */
  lemma FramedExactly(headers: Headers, n: nat)
    ensures RequestFrame(headers) == Ok(ChunkedBody) <==>
            |Codings(headers)| == 1 && IEquals(Codings(headers)[0], "chunked") && Values(headers, CONTENT_LENGTH) == []
    ensures RequestFrame(headers) == Ok(FixedBody(n)) <==> Codings(headers) == [] && Announces(headers, n)
    ensures RequestFrame(headers) == Ok(NoBody) <==> Codings(headers) == [] && Values(headers, CONTENT_LENGTH) == []
    ensures RequestFrame(headers) != Ok(UntilClose)
    ensures RequestFrame(headers).Ok? <==> ResponseFrame(headers).Ok?
    ensures RequestFrame(headers).Ok? ==> ResponseFrame(headers) == RequestFrame(headers)
  {
    hide EncodingFrom, ContentLengthFrom, AllTokens, Values, NonEmpty;
    EncodingMeaning(AllTokens(Values(headers, TRANSFER_ENCODING)), false);
    var length := ContentLength(headers);
    ContentLengthMeaning(Values(headers, CONTENT_LENGTH), None, n);
    if length.Ok? && length.value.Some? {
      ContentLengthMeaning(Values(headers, CONTENT_LENGTH), None, length.value.value);
    }
  }

  /** An interim response other than 101 (section 15.2 of RFC 9110). */
  predicate Informational(status: int) {
    100 <= status < 200 && status != 101
  }

  /** Which body the reader takes off the wire after a response head. */
  ghost function ResponseBodyFrame(head: ResponseHead, announced: Frame, requestMethod: string): Frame {
    if Informational(head.status) then announced
    else if !ResponseHasBody(head.status, requestMethod) then NoBody
    else if announced.NoBody? && !KeepAlive(head.headers, head.minor) then UntilClose
    else announced
  }

  /** The response handed to the caller; the body of an interim response is dropped. */
  ghost function ResponseWith(head: ResponseHead, announced: Frame, body: string, trailers: Headers): Response {
    var interim := Informational(head.status);
    Response(head.status, head.reason, head.headers, if interim then "" else body, if interim then [] else trailers,
             head.minor, KeepAlive(head.headers, head.minor), announced.ChunkedBody?)
  }

  // ---------------------------------------------------------------- writing

  function RequestHeadText(method_: string, target: string, minor: nat, headers: Headers): string {
    method_ + " " + target + " HTTP/1." + Print(minor, 10) + CRLF + SerializeHeaders(headers) + CRLF
  }

  function PrintInt(n: int): string {
    if n < 0 then "-" + Print(-n, 10) else Print(n, 10)
  }

  function ResponseHeadText(minor: nat, status: int, reason: string, headers: Headers): string {
    "HTTP/1." + Print(minor, 10) + " " + PrintInt(status) + " " + reason + CRLF + SerializeHeaders(headers) + CRLF
  }

  function WithHost(headers: Headers, host: string): Headers {
    if host != "" && Values(headers, "Host") == [] then SetHeader(headers, "Host", host) else headers
  }

  function TargetOf(target: string): string {
    if target == "" then "/" else target
  }

  function OutgoingRequestHeaders(request: Request, host: string): Headers {
    PrepareOutgoing(WithHost(request.headers, host), request.keepAlive, request.chunked,
                    if request.chunked then 0 else |request.body|)
  }

  function OutgoingRequestHead(request: Request, host: string): string
    requires 0 <= request.minor <= 1
  {
    RequestHeadText(request.method_, TargetOf(request.target), request.minor, OutgoingRequestHeaders(request, host))
  }

  function RequestPayload(request: Request): string {
    if request.chunked then EncodeBody([request.body], request.trailers) else request.body
  }

  /** The client sends the head and holds the body back until it has read a response. */
  predicate WaitsForContinue(request: Request, host: string) {
    Expect(OutgoingRequestHeaders(request, host)) == Continue100 && (request.chunked || request.body != "")
  }

  predicate SendsChunked(response: Response, requestMethod: string) {
    response.chunked && ResponseHasBody(response.status, requestMethod)
  }

  function OutgoingResponseHeaders(response: Response, requestMethod: string): Headers {
    PrepareOutgoing(response.headers, response.keepAlive, SendsChunked(response, requestMethod),
                    if response.chunked then 0 else |response.body|)
  }

  function ResponsePayload(response: Response, requestMethod: string): string {
    if !ResponseHasBody(response.status, requestMethod) then ""
    else if response.chunked then EncodeBody([response.body], response.trailers)
    else response.body
  }

  /** The reason written: the standard phrase for the status if the caller gives none. */
  function ReasonOf(response: Response, phrase: int -> string): string {
    if response.reason == "" then phrase(response.status) else response.reason
  }

  function ResponseWire(response: Response, requestMethod: string, phrase: int -> string): string
    requires 0 <= response.minor <= 1
  {
    ResponseHeadText(response.minor, response.status, ReasonOf(response, phrase), OutgoingResponseHeaders(response, requestMethod))
    + ResponsePayload(response, requestMethod)
  }
}
