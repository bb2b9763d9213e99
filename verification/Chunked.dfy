/** The chunked transfer coding of section 7.1 of RFC 9112, as src/http.cpp writes
    and reads it: what a chunked body is on the wire, what reading it yields, and
    the two loops that do the writing and the reading. */
module Chunked {
  import opened Text
  import opened HeaderFields
  import opened ByteBuffer
  import opened HttpReader

  const CHUNK_HEADER_TOO_LARGE := Error(431, "chunk header too large")
  const CHUNK_HEADER_EOF := "unexpected eof while reading chunk header"
  const BAD_CHUNK_SIZE := Error(400, "invalid chunk size")
  const CHUNK_DATA_EOF := "unexpected eof while reading chunk data"
  const BAD_CHUNK_END := Error(400, "invalid chunk terminator")
  const TRAILERS_TOO_LARGE := Error(431, "trailer headers too large")
  const TRAILERS_EOF := "unexpected eof while reading trailer headers"
  const BAD_TRAILER := Error(400, "invalid chunk trailer header")
  const TOO_MANY_TRAILERS := Error(431, "too many chunk trailer headers")

  /** Not an error of the source: the sum of a chunk size and the bytes read so far no
      longer fits `std::size_t`, so that the size check passes what it should refuse.  The
      model stops there and promises nothing about the outcome. */
  const SIZE_WRAPS := Error(0, "chunk size arithmetic wraps around")

  // ------------------------------------------------------------------ writing

  function EncodeChunk(chunk: string): string {
    Print(|chunk|, 16) + CRLF + chunk + CRLF
  }

  function EncodeChunks(chunks: seq<string>): string {
    if chunks == [] then "" else EncodeChunk(chunks[0]) + EncodeChunks(chunks[1..])
  }

  /** A whole chunked body: the chunks, the last chunk, the trailers, an empty line. */
  function EncodeBody(chunks: seq<string>, trailers: Headers): string {
    EncodeChunks(chunks) + ("0" + CRLF + (SerializeHeaders(trailers) + CRLF))
  }

  function Concat(chunks: seq<string>): string {
    if chunks == [] then "" else chunks[0] + Concat(chunks[1..])
  }

  lemma {:induction false} EncodeChunksAppend(a: seq<string>, b: seq<string>)
    ensures EncodeChunks(a + b) == EncodeChunks(a) + EncodeChunks(b)
  {
    if a == [] {
      assert a + b == b;
    } else {
      EncodeChunksAppend(a[1..], b);
      assert (a + b)[1..] == a[1..] + b;
      Assoc(EncodeChunk(a[0]), EncodeChunks(a[1..]), EncodeChunks(b));
    }
  }

  lemma EncodeChunksOne(c: string)
    ensures EncodeChunks([c]) == EncodeChunk(c)
  {
    assert EncodeChunks([c]) == EncodeChunk(c) + EncodeChunks([]);
  }

  method WriteChunk(stream: ByteStream, chunk: string)
    modifies stream`sent
    ensures stream.sent == old(stream.sent) + EncodeChunk(chunk)
  {
    stream.SendAll(Print(|chunk|, 16) + CRLF);
    if chunk != [] {
      stream.SendAll(chunk);
    }
    stream.SendAll(CRLF);
  }

  lemma WireOfBody(sent: string, chunks: string, trailers: string)
    ensures sent + chunks + "0\r\n" + trailers + CRLF == sent + (chunks + ("0" + CRLF + (trailers + CRLF)))
  {
  }

  /** `source` lists what the body source yields before it ends. */
  method WriteChunkedBody(stream: ByteStream, source: seq<string>, trailers: Headers)
    modifies stream`sent
    ensures stream.sent == old(stream.sent) + EncodeBody(source, trailers)
  {
    var i := 0;
    while i < |source|
      invariant 0 <= i <= |source|
      invariant stream.sent == old(stream.sent) + EncodeChunks(source[..i])
    {
      assert source[..i + 1] == source[..i] + [source[i]];
      EncodeChunksAppend(source[..i], [source[i]]);
      EncodeChunksOne(source[i]);
      Assoc(old(stream.sent), EncodeChunks(source[..i]), EncodeChunk(source[i]));
      WriteChunk(stream, source[i]);
      i := i + 1;
    }
    assert source[..i] == source;
    WireOfBody(old(stream.sent), EncodeChunks(source), SerializeHeaders(trailers));
    stream.SendAll("0\r\n");
    if trailers != [] {
      var trailerBlock := WriteHeaders(trailers);
      stream.SendAll(trailerBlock);
    }
    stream.SendAll(CRLF);
  }

  // ------------------------------------------------------------------ meaning

  datatype Body = Body(body: string, trailers: Headers, rest: string)

  /** The size before any chunk extension. */
  function ChunkSize(line: string): Option<nat> {
    var semi := FindChar(line, ';', 0);
    FromChars(Trim(if semi.Some? then line[..semi.value] else line), 16)
  }

  /** The trailer section at the head of `s`; `keep` says whether the caller wants it. */
  function DecodeTrailers(s: string, maxLine: nat, limits: Limits, keep: bool, acc: Headers)
    : (r: Result<(Headers, string), Error>)
    ensures r.Ok? ==> |r.value.1| < |s|
    decreases |s|
  {
    match LineOf(s, maxLine, TRAILERS_TOO_LARGE, Error(400, TRAILERS_EOF))
    case Err(e) => Err(e)
    case Ok(line) =>
      var rest := s[|line| + 2..];
      if line == "" then Ok((acc, rest))
      else if !keep then DecodeTrailers(rest, maxLine, limits, keep, acc)
      else match HeaderOf(line)
           case None => Err(BAD_TRAILER)
           case Some(h) =>
             if |acc| + 1 > limits.maxHeaderCount then Err(TOO_MANY_TRAILERS)
             else DecodeTrailers(rest, maxLine, limits, keep, acc + [h])
  }

  /** A chunk header line: the size it announces, and what follows it. */
  function ChunkHeader(s: string, maxLine: nat): (r: Result<(nat, string), Error>)
    ensures r.Ok? ==> |r.value.1| < |s|
  {
    match LineOf(s, maxLine, CHUNK_HEADER_TOO_LARGE, Error(400, CHUNK_HEADER_EOF))
    case Err(e) => Err(e)
    case Ok(line) =>
      match ChunkSize(line)
      case None => Err(BAD_CHUNK_SIZE)
      case Some(n) => Ok((n, s[|line| + 2..]))
  }

  /** The chunked body at the head of `s`, after `body` has already been read. */
  function DecodeChunks(s: string, maxLine: nat, limits: Limits, keep: bool, body: string): (r: Result<Body, Error>)
    ensures r.Ok? ==> |r.value.rest| < |s|
    decreases |s|
  {
    match NextChunk(s, maxLine, limits, |body|)
    case Err(e) => Err(e)
    case Ok((None, rest)) =>
      (match DecodeTrailers(rest, maxLine, limits, keep, [])
       case Err(e) => Err(e)
       case Ok(t) => Ok(Body(body, t.0, t.1)))
    case Ok((Some(data), rest)) => DecodeChunks(rest, maxLine, limits, keep, body + data)
  }

  /** The chunk at the head of `s`, `None` for the last one, and what follows it. */
  function NextChunk(s: string, maxLine: nat, limits: Limits, total: nat): (r: Result<(Option<string>, string), Error>)
    ensures r.Ok? ==> |r.value.1| < |s|
  {
    match ChunkHeader(s, maxLine)
    case Err(e) => Err(e)
    case Ok((n, rest)) =>
      if n == 0 then Ok((None, rest))
      else
        match ChunkData(rest, n, total, limits)
        case Err(e) => Err(e)
        case Ok(data) => Ok((Some(data), rest[n + 2..]))
  }

  /** The data of one chunk of size `n`, which must be followed by a line break. */
  function ChunkData(s: string, n: nat, total: nat, limits: Limits): (r: Result<string, Error>)
    ensures r.Ok? ==> n + 2 <= |s| && s[..n] == r.value
  {
    if total + n >= SIZE_MOD then Err(SIZE_WRAPS)
    else if total + n > limits.maxBodyBytes then Err(BODY_TOO_LARGE)
    else if |s| < n + 2 then Err(Error(400, CHUNK_DATA_EOF))
    else if s[n..n + 2] != CRLF then Err(BAD_CHUNK_END)
    else Ok(s[..n])
  }

  // --------------------------------------------------------------- round trip

  /** A trailer that survives being printed on one line and parsed back. */
  ghost predicate GoodTrailer(h: Header, limits: Limits) {
    GoodHeader(h) && |h.name| + |h.value| + 4 <= limits.maxHeaderBytes
  }

  ghost predicate GoodTrailers(trailers: Headers, limits: Limits) {
    && |trailers| <= limits.maxHeaderCount
    && forall i :: 0 <= i < |trailers| ==> GoodTrailer(trailers[i], limits)
  }

  /** The chunks are within the limits of a reader that has already read `already` bytes. */
  ghost predicate FitChunks(chunks: seq<string>, already: nat, limits: Limits) {
    && already + |Concat(chunks)| <= limits.maxBodyBytes
    && forall i :: 0 <= i < |chunks| ==> |Print(|chunks[i]|, 16)| + 2 <= limits.maxHeaderBytes
  }

  /** No sum of the limits that the reader forms wraps around. */
  ghost predicate SaneLimits(limits: Limits) {
    limits.maxBodyBytes + limits.maxHeaderBytes + 2 < SIZE_MOD
  }

  lemma Regroup(a: string, b: string, c: string, d: string)
    ensures a + b + c + d == a + (b + c + d)
  {
  }

  lemma AppendCons(acc: Headers, headers: Headers)
    requires headers != []
    ensures acc + [headers[0]] + headers[1..] == acc + headers
  {
  }

  lemma SerializeCons(headers: Headers, rest: string)
    requires headers != []
    ensures SerializeHeaders(headers) + CRLF + rest
         == headers[0].name + ": " + headers[0].value + CRLF + (SerializeHeaders(headers[1..]) + CRLF + rest)
  {
    Regroup(headers[0].name + ": " + headers[0].value + CRLF, SerializeHeaders(headers[1..]), CRLF, rest);
  }

  /** One line read off the front of `line CRLF rest`. */
  lemma LineOfLine(line: string, rest: string, maxLine: nat, tooLarge: Error, eof: Error)
    requires CrLfFree(line) && |line| + 2 <= maxLine
    ensures LineOf(line + CRLF + rest, maxLine, tooLarge, eof) == Ok(line)
    ensures (line + CRLF + rest)[|line| + 2..] == rest
  {
    FindLineEnd(line, rest);
    assert (line + CRLF + rest)[..|line|] == line;
  }

  lemma {:induction false} TrailersRoundTrip(trailers: Headers, acc: Headers, rest: string, limits: Limits)
    requires |acc| + |trailers| <= limits.maxHeaderCount && limits.maxHeaderBytes >= 3
    requires forall i :: 0 <= i < |trailers| ==> GoodTrailer(trailers[i], limits)
    ensures DecodeTrailers(SerializeHeaders(trailers) + CRLF + rest, limits.maxHeaderBytes, limits, true, acc)
         == Ok((acc + trailers, rest))
  {
    var s := SerializeHeaders(trailers) + CRLF + rest;
    if trailers == [] {
      assert s == "" + CRLF + rest;
      LineOfLine("", rest, limits.maxHeaderBytes, TRAILERS_TOO_LARGE, Error(400, TRAILERS_EOF));
      assert acc + trailers == acc;
    } else {
      var line := trailers[0].name + ": " + trailers[0].value;
      var s' := SerializeHeaders(trailers[1..]) + CRLF + rest;
      SerializeCons(trailers, rest);
      HeaderReadBack(trailers[0]);
      LineOfLine(line, s', limits.maxHeaderBytes, TRAILERS_TOO_LARGE, Error(400, TRAILERS_EOF));
      TrailersRoundTrip(trailers[1..], acc + [trailers[0]], rest, limits);
      AppendCons(acc, trailers);
    }
  }

  lemma FitTail(chunks: seq<string>, already: nat, limits: Limits)
    requires chunks != [] && FitChunks(chunks, already, limits)
    ensures FitChunks(chunks[1..], already + |chunks[0]|, limits)
    ensures already + |chunks[0]| <= limits.maxBodyBytes
  {
  }

  /** Reading off the size line of a chunk gives back the chunk's size. */
  lemma SizeLine(n: nat, rest: string, limits: Limits)
    requires n < SIZE_MOD && |Print(n, 16)| + 2 <= limits.maxHeaderBytes
    ensures ChunkHeader(Print(n, 16) + CRLF + rest, limits.maxHeaderBytes) == Ok((n, rest))
  {
    PrintIsPlain(n, 16);
    LineOfLine(Print(n, 16), rest, limits.maxHeaderBytes, CHUNK_HEADER_TOO_LARGE, Error(400, CHUNK_HEADER_EOF));
    TrimOfTrimmed(Print(n, 16));
    ParsePrint(n, 16);
  }

  /** One non-empty chunk is read back and leaves what follows it. */
  lemma OneChunk(chunk: string, rest: string, limits: Limits, body: string)
    requires chunk != [] && SaneLimits(limits) && |body| + |chunk| <= limits.maxBodyBytes
    requires |Print(|chunk|, 16)| + 2 <= limits.maxHeaderBytes
    ensures DecodeChunks(EncodeChunk(chunk) + rest, limits.maxHeaderBytes, limits, true, body)
         == DecodeChunks(rest, limits.maxHeaderBytes, limits, true, body + chunk)
  {
    var after := chunk + CRLF + rest;
    assert EncodeChunk(chunk) + rest == Print(|chunk|, 16) + CRLF + after;
    SizeLine(|chunk|, after, limits);
    assert after[|chunk|..|chunk| + 2] == CRLF && after[|chunk| + 2..] == rest && after[..|chunk|] == chunk;
  }

  /** The last chunk, the trailers and the closing empty line are read back. */
  lemma LastChunk(trailers: Headers, rest: string, limits: Limits, body: string)
    requires GoodTrailers(trailers, limits) && limits.maxHeaderBytes >= 3
    ensures DecodeChunks("0" + CRLF + (SerializeHeaders(trailers) + CRLF) + rest,
                         limits.maxHeaderBytes, limits, true, body)
         == Ok(Body(body, trailers, rest))
  {
    var after := SerializeHeaders(trailers) + CRLF + rest;
    assert Print(0, 16) == "0";
    assert "0" + CRLF + (SerializeHeaders(trailers) + CRLF) + rest == Print(0, 16) + CRLF + after;
    SizeLine(0, after, limits);
    TrailersRoundTrip(trailers, [], rest, limits);
    assert [] + trailers == trailers;
  }

  /** Non-empty chunks are read off one after the other. */
  lemma {:induction false} ManyChunks(chunks: seq<string>, rest: string, limits: Limits, body: string)
    requires SaneLimits(limits) && FitChunks(chunks, |body|, limits)
    requires forall i :: 0 <= i < |chunks| ==> chunks[i] != []
    ensures DecodeChunks(EncodeChunks(chunks) + rest, limits.maxHeaderBytes, limits, true, body)
         == DecodeChunks(rest, limits.maxHeaderBytes, limits, true, body + Concat(chunks))
  {
    if chunks == [] {
      assert EncodeChunks(chunks) + rest == rest && body + Concat(chunks) == body;
    } else {
      var tail := EncodeChunks(chunks[1..]) + rest;
      Assoc(EncodeChunk(chunks[0]), EncodeChunks(chunks[1..]), rest);
      FitTail(chunks, |body|, limits);
      OneChunk(chunks[0], tail, limits, body);
      ManyChunks(chunks[1..], rest, limits, body + chunks[0]);
      Assoc(body, chunks[0], Concat(chunks[1..]));
    }
  }

  /** On the wire an empty chunk looks like the last chunk without trailers. */
  lemma EmptyChunkEnds(rest: string, limits: Limits, body: string)
    requires limits.maxHeaderBytes >= 3
    ensures DecodeChunks(EncodeChunk("") + rest, limits.maxHeaderBytes, limits, true, body)
         == Ok(Body(body, [], rest))
  {
    assert EncodeChunk("") == "0" + CRLF + (SerializeHeaders([]) + CRLF);
    LastChunk([], rest, limits, body);
  }

  /** An empty chunk is the last chunk: reading stops at the first one and leaves
      everything written after it. */
  lemma StopsAtEmptyChunk(before: seq<string>, after: seq<string>, trailers: Headers, rest: string, limits: Limits)
    requires SaneLimits(limits) && limits.maxHeaderBytes >= 3
    requires FitChunks(before, 0, limits) && forall i :: 0 <= i < |before| ==> before[i] != []
    ensures DecodeChunks(EncodeBody(before + [""] + after, trailers) + rest, limits.maxHeaderBytes, limits, true, "")
         == Ok(Body(Concat(before), [], EncodeBody(after, trailers) + rest))
  {
    var last := "0" + CRLF + (SerializeHeaders(trailers) + CRLF);
    var tail := EncodeBody(after, trailers) + rest;
    EncodeChunksAppend(before + [""], after);
    EncodeChunksAppend(before, [""]);
    EncodeChunksOne("");
    WireAroundEmpty(EncodeChunks(before), EncodeChunk(""), EncodeChunks(after), last, rest);
    ManyChunks(before, EncodeChunk("") + tail, limits, "");
    EmptyChunkEnds(tail, limits, "" + Concat(before));
    assert "" + Concat(before) == Concat(before);
  }

  lemma WireAroundEmpty(a: string, e: string, b: string, last: string, rest: string)
    ensures a + e + b + last + rest == a + (e + (b + last + rest))
  {
  }

  lemma {:induction false} ConcatAppend(a: seq<string>, b: seq<string>)
    ensures Concat(a + b) == Concat(a) + Concat(b)
  {
    if a == [] {
      assert a + b == b;
    } else {
      ConcatAppend(a[1..], b);
      assert (a + b)[1..] == a[1..] + b;
      Assoc(a[0], Concat(a[1..]), Concat(b));
    }
  }

  lemma {:induction false} FirstEmpty(chunks: seq<string>) returns (k: nat)
    requires exists i :: 0 <= i < |chunks| && chunks[i] == []
    ensures k < |chunks| && chunks[k] == [] && forall i :: 0 <= i < k ==> chunks[i] != []
  {
    if chunks[0] == [] {
      k := 0;
    } else {
      assert exists i :: 0 <= i < |chunks[1..]| && chunks[1..][i] == [] by {
        var i :| 0 <= i < |chunks| && chunks[i] == [];
        assert chunks[1..][i - 1] == [];
      }
      var j := FirstEmpty(chunks[1..]);
      k := j + 1;
      assert forall i :: 0 < i < k ==> chunks[i] == chunks[1..][i - 1];
    }
  }

  /** Decoding what was encoded gives back the bytes and the trailers, and leaves what followed. */
  lemma RoundTrip(chunks: seq<string>, trailers: Headers, rest: string, limits: Limits)
    requires SaneLimits(limits) && limits.maxHeaderBytes >= 3
    requires GoodTrailers(trailers, limits) && FitChunks(chunks, 0, limits)
    requires forall i :: 0 <= i < |chunks| ==> chunks[i] != []
    ensures DecodeChunks(EncodeBody(chunks, trailers) + rest, limits.maxHeaderBytes, limits, true, "")
         == Ok(Body(Concat(chunks), trailers, rest))
  {
    var last := "0" + CRLF + (SerializeHeaders(trailers) + CRLF);
    Assoc(EncodeChunks(chunks), last, rest);
    ManyChunks(chunks, last + rest, limits, "");
    assert "" + Concat(chunks) == Concat(chunks);
    LastChunk(trailers, rest, limits, Concat(chunks));
  }

  /** The chunked round trip: with everything within the limits, decoding what was
      encoded gives back the bytes and the trailers, and leaves exactly what followed,
      if and only if no chunk is empty. */
  lemma RoundTripExactly(chunks: seq<string>, trailers: Headers, rest: string, limits: Limits)
    requires SaneLimits(limits) && limits.maxHeaderBytes >= 3
    requires GoodTrailers(trailers, limits) && FitChunks(chunks, 0, limits)
    ensures DecodeChunks(EncodeBody(chunks, trailers) + rest, limits.maxHeaderBytes, limits, true, "")
         == Ok(Body(Concat(chunks), trailers, rest))
       <==> forall i :: 0 <= i < |chunks| ==> chunks[i] != []
  {
    if forall i :: 0 <= i < |chunks| ==> chunks[i] != [] {
      RoundTrip(chunks, trailers, rest, limits);
    } else {
      var k := FirstEmpty(chunks);
      var before, after := chunks[..k], chunks[k + 1..];
      assert chunks == before + ([""] + after) == before + [""] + after;
      ConcatAppend(before, [""] + after);
      StopsAtEmptyChunk(before, after, trailers, rest, limits);
      assert |EncodeBody(after, trailers) + rest| > |rest|;
    }
  }

  // ------------------------------------------------------------------ reading

  /** What is left open: a line longer than the limit, whose fate depends on what was
      buffered, and a size whose sum wraps. */
  predicate LeftOpen<T(==)>(r: Result<T, Error>) {
    r == Err(CHUNK_HEADER_TOO_LARGE) || r == Err(TRAILERS_TOO_LARGE) || r == Err(SIZE_WRAPS)
  }

  /** `r`, with `after` left to read, is the outcome `spec` describes. */
  ghost predicate Agrees(r: Result<(string, Headers), Error>, after: string, spec: Result<Body, Error>) {
    match spec
    case Ok(b) => r == Ok((b.body, b.trailers)) && after == b.rest
    case Err(e) => r == Err(e)
  }

  /** A line that was read is what the specification sees too, when the limit is lifted. */
  lemma LineOfRead(s: string, line: string, after: string, cap: nat, tooLarge: Error, eof: Error)
    requires FindSub(s, CRLF, 0) == Some(|line|) && s == line + CRLF + after && |s| <= cap
    ensures LineOf(s, cap, tooLarge, eof) == Ok(line) && s[|line| + 2..] == after
  {
    assert s[..|line|] == line;
  }

  method ReadTrailers(stream: ByteStream, buffer: BufferCursor, limits: Limits, keep: bool, ghost cap: nat)
    returns (r: Result<Headers, Error>)
    requires buffer.Valid() && |Incoming(stream, buffer)| <= cap
    modifies stream`inFlight, buffer
    ensures buffer.Valid()
    ensures var strict := DecodeTrailers(old(Incoming(stream, buffer)), limits.maxHeaderBytes, limits, keep, []);
            !LeftOpen(strict) ==>
              match strict
              case Ok(t) => r == Ok(t.0) && Incoming(stream, buffer) == t.1
              case Err(e) => r == Err(e)
    ensures r.Ok? ==>
              DecodeTrailers(old(Incoming(stream, buffer)), cap, limits, keep, [])
              == Ok((r.value, Incoming(stream, buffer)))
  {
    ghost var all := Incoming(stream, buffer);
    ghost var strict := DecodeTrailers(all, limits.maxHeaderBytes, limits, keep, []);
    ghost var lenient := DecodeTrailers(all, cap, limits, keep, []);
    var trailers: Headers := [];
    while true
      invariant buffer.Valid() && |Incoming(stream, buffer)| <= cap
      invariant LeftOpen(strict)
             || strict == DecodeTrailers(Incoming(stream, buffer), limits.maxHeaderBytes, limits, keep, trailers)
      invariant lenient == DecodeTrailers(Incoming(stream, buffer), cap, limits, keep, trailers)
      decreases |Incoming(stream, buffer)|
    {
      ghost var now := Incoming(stream, buffer);
      var trailer := ReadLineCrlf(stream, buffer, limits.maxHeaderBytes, TRAILERS_TOO_LARGE, TRAILERS_EOF);
      if trailer.Err? {
        return Err(trailer.error);
      }
      var line := trailer.value;
      LineOfRead(now, line, Incoming(stream, buffer), cap, TRAILERS_TOO_LARGE, Error(400, TRAILERS_EOF));
      if line == "" {
        return Ok(trailers);
      }
      if keep {
        var header := ParseHeader(line);
        if header.None? {
          return Err(BAD_TRAILER);
        }
        trailers := trailers + [header.value];
        if |trailers| > limits.maxHeaderCount {
          return Err(TOO_MANY_TRAILERS);
        }
      }
    }
  }

  lemma SplitChunk(view: string, inFlight: string, n: nat)
    requires n + 2 <= |view|
    ensures (view + inFlight)[..n] == view[..n]
    ensures (view + inFlight)[n..n + 2] == [view[n..][0], view[n..][1]]
    ensures (view + inFlight)[n + 2..] == view[n..][2..] + inFlight
  {
  }

  method ReadChunkHeader(stream: ByteStream, buffer: BufferCursor, limits: Limits, ghost cap: nat)
    returns (r: Result<nat, Error>)
    requires buffer.Valid() && |Incoming(stream, buffer)| <= cap
    modifies stream`inFlight, buffer
    ensures buffer.Valid()
    ensures var strict := ChunkHeader(old(Incoming(stream, buffer)), limits.maxHeaderBytes);
            strict != Err(CHUNK_HEADER_TOO_LARGE) || FindSub(old(buffer.View()), CRLF, 0).None? ==>
              match strict
              case Ok(h) => r == Ok(h.0) && Incoming(stream, buffer) == h.1 && limits.maxHeaderBytes >= 2
              case Err(e) => r == Err(e)
    ensures r.Ok? ==>
              ChunkHeader(old(Incoming(stream, buffer)), cap) == Ok((r.value, Incoming(stream, buffer)))
    ensures FindSub(old(buffer.View()), CRLF, 0).Some? && r.Err? ==>
              ChunkHeader(old(Incoming(stream, buffer)), cap) == Err(r.error)
  {
    ghost var now := Incoming(stream, buffer);
    var header := ReadLineCrlf(stream, buffer, limits.maxHeaderBytes, CHUNK_HEADER_TOO_LARGE, CHUNK_HEADER_EOF);
    if header.Err? {
      return Err(header.error);
    }
    var line := header.value;
    LineOfRead(now, line, Incoming(stream, buffer), cap, CHUNK_HEADER_TOO_LARGE, Error(400, CHUNK_HEADER_EOF));
    var semi := FindChar(line, ';', 0);
    var text := TrimCopy(if semi.Some? then line[..semi.value] else line);
    var size := FromChars(text, 16);
    if size.None? {
      return Err(BAD_CHUNK_SIZE);
    }
    return Ok(size.value);
  }

  /** The size check of the source, whose sum is a `size_t`, decides as the sum of numbers
      would if and only if that sum does not wrap; the sum with the terminator then does not
      either.  Behind two bytes or more, the size two below the modulus passes the check, and
      no byte at all is then waited for. */
  lemma SizeCheckExactly(total: nat, n: nat, limits: Limits)
    requires SaneLimits(limits) && total <= limits.maxBodyBytes && n < SIZE_MOD
    ensures ((total + n) % SIZE_MOD > limits.maxBodyBytes <==> total + n > limits.maxBodyBytes) <==> total + n < SIZE_MOD
    ensures total + n <= limits.maxBodyBytes ==> (n + 2) % SIZE_MOD == n + 2
    ensures total >= 2 && n == SIZE_MOD - 2 ==> (total + n) % SIZE_MOD == total - 2 && (n + 2) % SIZE_MOD == 0
  {
    if total + n >= SIZE_MOD {
      assert (total + n) % SIZE_MOD == total + n - SIZE_MOD;
    }
  }

  /** A header limit below two would refuse room for the terminator; no chunk header
      line fits such a limit anyway.  A size that wraps only in the first sum is refused all
      the same, for want of bytes; the model stops where the second sum wraps too. */
  method ReadChunkData(stream: ByteStream, buffer: BufferCursor, limits: Limits, chunkSize: nat, total: nat)
    returns (r: Result<string, Error>)
    requires buffer.Valid() && chunkSize > 0 && total <= limits.maxBodyBytes
    modifies stream`inFlight, buffer
    ensures buffer.Valid()
    ensures SaneLimits(limits) && limits.maxHeaderBytes >= 2 && total + chunkSize < SIZE_MOD ==>
              r == ChunkData(old(Incoming(stream, buffer)), chunkSize, total, limits)
    ensures total + chunkSize >= SIZE_MOD > chunkSize + 2 > |old(Incoming(stream, buffer))| ==>
              r == Err(BODY_TOO_LARGE) || r == Err(Error(400, CHUNK_DATA_EOF))
    ensures r.Ok? ==> r == ChunkData(old(Incoming(stream, buffer)), chunkSize, total, limits)
    ensures r.Ok? ==> Incoming(stream, buffer) == old(Incoming(stream, buffer))[chunkSize + 2..]
    ensures r.Ok? ==> total + chunkSize <= limits.maxBodyBytes
  {
    if (total + chunkSize) % SIZE_MOD > limits.maxBodyBytes {
      return Err(BODY_TOO_LARGE);
    }
    if chunkSize + 2 >= SIZE_MOD {
      return Err(SIZE_WRAPS);
    }
    var maxBuffered := Min((limits.maxBodyBytes - total + 2) % SIZE_MOD,
                           (limits.maxBodyBytes + limits.maxHeaderBytes) % SIZE_MOD);
    var filled := EnsureBuffer(stream, buffer, chunkSize + 2, maxBuffered, BODY_TOO_LARGE, CHUNK_DATA_EOF);
    if filled.Err? {
      return Err(filled.error);
    }
    if total + chunkSize >= SIZE_MOD {
      return Err(SIZE_WRAPS);
    }
    SplitChunk(buffer.View(), stream.inFlight, chunkSize);
    var data := buffer.View()[..chunkSize];
    buffer.Consume(chunkSize);
    var tail := buffer.View();
    if tail[0] != '\r' || tail[1] != '\n' {
      return Err(BAD_CHUNK_END);
    }
    buffer.Consume(2);
    return Ok(data);
  }

  method ReadChunk(stream: ByteStream, buffer: BufferCursor, limits: Limits, total: nat, ghost cap: nat)
    returns (r: Result<Option<string>, Error>)
    requires buffer.Valid() && |Incoming(stream, buffer)| <= cap && total <= limits.maxBodyBytes
    modifies stream`inFlight, buffer
    ensures buffer.Valid()
    ensures var strict := NextChunk(old(Incoming(stream, buffer)), limits.maxHeaderBytes, limits, total);
            SaneLimits(limits) && !LeftOpen(strict) ==>
              match strict
              case Ok(c) => r == Ok(c.0) && Incoming(stream, buffer) == c.1
              case Err(e) => r == Err(e)
    ensures r.Ok? ==>
              NextChunk(old(Incoming(stream, buffer)), cap, limits, total) == Ok((r.value, Incoming(stream, buffer)))
    ensures r.Ok? && r.value.Some? ==> total + |r.value.value| <= limits.maxBodyBytes
  {
    var header := ReadChunkHeader(stream, buffer, limits, cap);
    if header.Err? {
      return Err(header.error);
    }
    var chunkSize := header.value;
    if chunkSize == 0 {
      return Ok(None);
    }
    var data := ReadChunkData(stream, buffer, limits, chunkSize, total);
    if data.Err? {
      return Err(data.error);
    }
    return Ok(Some(data.value));
  }

  /** Whatever the fragmentation, the reader's outcome is what the incoming bytes decode
      to; only a line beyond `max_header_bytes` may be treated more leniently, and then
      the outcome is still what the bytes decode to without that limit.  Nothing is promised
      where a size wraps. */
  method ReadChunkedBody(stream: ByteStream, buffer: BufferCursor, limits: Limits, keep: bool)
    returns (r: Result<(string, Headers), Error>)
    requires buffer.Valid()
    modifies stream`inFlight, buffer
    ensures buffer.Valid()
    ensures var strict := DecodeChunks(old(Incoming(stream, buffer)), limits.maxHeaderBytes, limits, keep, "");
            SaneLimits(limits) ==> LeftOpen(strict) || Agrees(r, Incoming(stream, buffer), strict)
    ensures var all := old(Incoming(stream, buffer));
            r.Ok? ==> Agrees(r, Incoming(stream, buffer), DecodeChunks(all, |all|, limits, keep, ""))
  {
    hide NextChunk, DecodeTrailers, SaneLimits;
    ghost var all := Incoming(stream, buffer);
    ghost var cap := |all|;
    ghost var strict := DecodeChunks(all, limits.maxHeaderBytes, limits, keep, "");
    ghost var lenient := DecodeChunks(all, cap, limits, keep, "");
    var body := "";
    var total := 0;
    while true
      invariant buffer.Valid() && |Incoming(stream, buffer)| <= cap && total == |body|
      invariant total <= limits.maxBodyBytes
      invariant !SaneLimits(limits) || LeftOpen(strict)
             || strict == DecodeChunks(Incoming(stream, buffer), limits.maxHeaderBytes, limits, keep, body)
      invariant lenient == DecodeChunks(Incoming(stream, buffer), cap, limits, keep, body)
      decreases |Incoming(stream, buffer)|
    {
      var chunk := ReadChunk(stream, buffer, limits, total, cap);
      if chunk.Err? {
        return Err(chunk.error);
      }
      if chunk.value.None? {
        var trailers := ReadTrailers(stream, buffer, limits, keep, cap);
        if trailers.Err? {
          return Err(trailers.error);
        }
        return Ok((body, trailers.value));
      }
      body := body + chunk.value.value;
      total := total + |chunk.value.value|;
    }
  }
}
