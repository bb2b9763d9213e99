/** Reading from a byte stream that may fragment anywhere (src/http.cpp):
    `read_more`, `ensure_buffer`, `read_line_crlf` and the fixed and
    close-delimited body readers.  Every contract speaks of `Incoming`, the
    buffered bytes followed by the bytes still in flight, so that it says the
    same thing for every fragmentation. */
module HttpReader {
  import opened Text
  import opened ByteBuffer

  /** `corouv::http::Error`. */
  datatype Error = Error(status: int, message: string)

  datatype Limits = Limits(maxHeaderBytes: nat, maxBodyBytes: nat, maxHeaderCount: nat)

  const SCRATCH: nat := 4096

  /** The peer has sent `inFlight` and then closed; `sent` is what was written to it. */
  class ByteStream {
    var inFlight: string
    var sent: string
    var open: bool

    constructor (inFlight: string)
      ensures this.inFlight == inFlight && sent == [] && open
    {
      this.inFlight := inFlight;
      sent := [];
      open := true;
    }

    /** Any non-empty part of what is in flight, up to `cap`; nothing only at end of stream. */
    method RecvSome(cap: nat) returns (data: string)
      requires cap > 0
      modifies this`inFlight
      ensures data + inFlight == old(inFlight)
      ensures |data| <= cap
      ensures data == [] <==> old(inFlight) == []
    {
      if inFlight == [] {
        return [];
      }
      var n: nat :| 0 < n <= |inFlight| && n <= cap;
      data := inFlight[..n];
      inFlight := inFlight[n..];
    }

    method SendAll(data: string)
      modifies this`sent
      ensures sent == old(sent) + data
    {
      sent := sent + data;
    }

    method Close()
      modifies this`open
      ensures !open
    {
      open := false;
    }
  }

  ghost function Incoming(stream: ByteStream, buffer: BufferCursor): string
    requires buffer.Valid()
    reads stream, buffer
  {
    buffer.View() + stream.inFlight
  }

  function Min(a: nat, b: nat): nat {
    if a <= b then a else b
  }

  method ReadMore(stream: ByteStream, buffer: BufferCursor, maxBuffered: nat, tooLarge: Error, maxRead: nat)
    returns (r: Result<nat, Error>)
    requires buffer.Valid()
    modifies stream`inFlight, buffer
    ensures buffer.Valid()
    ensures r.Ok? ==> Incoming(stream, buffer) == old(Incoming(stream, buffer))
    ensures r.Ok? ==> buffer.Size() == old(buffer.Size()) + r.value
    ensures r.Ok? && maxRead > 0 ==> (r.value == 0 <==> old(stream.inFlight) == [])
    ensures r.Ok? ==> r.value <= maxRead && |stream.inFlight| == old(|stream.inFlight|) - r.value
    ensures r.Err? ==> r.error == tooLarge && old(buffer.Size()) + Min(maxRead, SCRATCH) > maxBuffered
  {
    if maxRead == 0 {
      return Ok(0);
    }
    var data := stream.RecvSome(Min(maxRead, SCRATCH));
    var n := |data|;
    if n == 0 {
      return Ok(0);
    }
    if buffer.Size() + n > maxBuffered {
      return Err(tooLarge);
    }
    buffer.Append(data);
    return Ok(n);
  }

  /** Waits for `wanted` buffered bytes.  With room for them, it succeeds exactly when
      the stream has that many to give, and it loses no byte either way. */
  method EnsureBuffer(stream: ByteStream, buffer: BufferCursor, wanted: nat, maxBuffered: nat,
                      tooLarge: Error, eofMessage: string)
    returns (r: Result<(), Error>)
    requires buffer.Valid()
    modifies stream`inFlight, buffer
    ensures buffer.Valid()
    ensures r.Ok? ==> Incoming(stream, buffer) == old(Incoming(stream, buffer)) && buffer.Size() >= wanted
    ensures wanted <= maxBuffered ==> (r.Ok? <==> wanted <= |old(Incoming(stream, buffer))|)
    ensures wanted <= maxBuffered && r.Err? ==> r.error == Error(400, eofMessage)
    ensures wanted <= maxBuffered ==> Incoming(stream, buffer) == old(Incoming(stream, buffer))
    ensures r.Err? ==> r.error == tooLarge || r.error == Error(400, eofMessage)
  {
    while buffer.Size() < wanted
      invariant buffer.Valid()
      invariant Incoming(stream, buffer) == old(Incoming(stream, buffer))
      decreases |stream.inFlight|
    {
      var need := wanted - buffer.Size();
      var n := ReadMore(stream, buffer, maxBuffered, tooLarge, need);
      if n.Err? {
        return Err(n.error);
      }
      if n.value == 0 {
        return Err(Error(400, eofMessage));
      }
    }
    return Ok(());
  }

  /** What one line read yields on the bytes `s`, when the line is short enough to be
      read from the stream in one go. */
  function LineOf(s: string, maxLine: nat, tooLarge: Error, eof: Error): Result<string, Error> {
    match FindSub(s, CRLF, 0)
    case Some(p) => if p + 2 <= maxLine then Ok(s[..p]) else Err(tooLarge)
    case None => if |s| < maxLine then Err(eof) else Err(tooLarge)
  }

  lemma NoLineBreakInPrefix(view: string, more: string)
    requires FindSub(view, CRLF, 0).None?
    ensures FindSub(view + more, CRLF, 0).Some? ==> FindSub(view + more, CRLF, 0).value + 2 > |view|
  {
    var s := view + more;
    forall k | 0 <= k && k + 2 <= |view| ensures !At(s, CRLF, k) {
      assert !At(view, CRLF, k);
      AtCrLf(s, k);
      AtCrLf(view, k);
    }
  }

  lemma LineBreakInPrefix(view: string, more: string)
    requires FindSub(view, CRLF, 0).Some?
    ensures FindSub(view + more, CRLF, 0) == FindSub(view, CRLF, 0)
  {
    var p := FindSub(view, CRLF, 0).value;
    var s := view + more;
    forall k | 0 <= k <= p ensures At(s, CRLF, k) <==> k == p {
      assert At(view, CRLF, p) && (k < p ==> !At(view, CRLF, k));
      AtCrLf(s, k);
      AtCrLf(view, k);
    }
    FindSubIs(s, CRLF, 0, p);
  }

  lemma LineTaken(view: string, more: string, p: nat)
    requires FindSub(view, CRLF, 0) == Some(p)
    ensures p + 2 <= |view| && FindSub(view + more, CRLF, 0) == Some(p)
    ensures (view + more)[..p] == view[..p] && view + more == view[..p] + CRLF + (view[p + 2..] + more)
  {
    LineBreakInPrefix(view, more);
    assert view == view[..p] + view[p..p + 2] + view[p + 2..];
    Assoc(view[..p] + CRLF, view[p + 2..], more);
  }

  /** A line already buffered is returned whole, however long.  Otherwise the outcome is
      `LineOf` the incoming bytes, whatever the fragmentation; the two differ only for a
      line that is too long for `maxLine`. */
  method ReadLineCrlf(stream: ByteStream, buffer: BufferCursor, maxLine: nat, tooLarge: Error, eofMessage: string)
    returns (r: Result<string, Error>)
    requires buffer.Valid()
    modifies stream`inFlight, buffer
    ensures buffer.Valid()
    ensures r.Ok? ==> FindSub(old(Incoming(stream, buffer)), CRLF, 0) == Some(|r.value|)
    ensures r.Ok? ==> old(Incoming(stream, buffer)) == r.value + CRLF + Incoming(stream, buffer)
    ensures FindSub(old(buffer.View()), CRLF, 0).Some? ==> r.Ok?
    ensures FindSub(old(buffer.View()), CRLF, 0).None? ==>
              r == LineOf(old(Incoming(stream, buffer)), maxLine, tooLarge, Error(400, eofMessage))
    ensures var line := LineOf(old(Incoming(stream, buffer)), maxLine, tooLarge, Error(400, eofMessage));
            r == line || line == Err(tooLarge)
  {
    hide FindSub, At;
    ghost var all := Incoming(stream, buffer);
    while true
      invariant buffer.Valid() && Incoming(stream, buffer) == all
      invariant buffer.View() == old(buffer.View()) || (FindSub(old(buffer.View()), CRLF, 0).None? && buffer.Size() <= maxLine)
      decreases |stream.inFlight|
    {
      var view := buffer.View();
      var pos := FindSub(view, CRLF, 0);
      if pos.Some? {
        LineTaken(view, stream.inFlight, pos.value);
        var out := view[..pos.value];
        buffer.Consume(pos.value + 2);
        return Ok(out);
      }
      NoLineBreakInPrefix(view, stream.inFlight);
      if buffer.Size() >= maxLine {
        return Err(tooLarge);
      }
      var n := ReadMore(stream, buffer, maxLine, tooLarge, maxLine - buffer.Size());
      if n.Err? {
        return Err(tooLarge);
      }
      if n.value == 0 {
        assert view + [] == view;
        return Err(Error(400, eofMessage));
      }
    }
  }

  // ------------------------------------------------- bodies of known extent

  const BODY_TOO_LARGE := Error(413, "HTTP body too large")
  const BODY_EOF := Error(400, "unexpected eof while reading HTTP body")

  /** Section 6.3 of RFC 9112, case 6: exactly `size` bytes. */
  function DecodeFixed(s: string, size: nat, limits: Limits): Result<(string, string), Error> {
    if size > limits.maxBodyBytes then Err(BODY_TOO_LARGE)
    else if |s| < size then Err(BODY_EOF)
    else Ok((s[..size], s[size..]))
  }

  lemma MoveAcross(done: string, view: string, n: nat, rest: string)
    requires n <= |view|
    ensures done + (view + rest) == (done + view[..n]) + (view[n..] + rest)
  {
    assert view == view[..n] + view[n..];
  }

  lemma SplitAt(done: string, rest: string)
    ensures (done + rest)[..|done|] == done && (done + rest)[|done|..] == rest
  {
  }

  /** The chunks handed to the sink concatenate to exactly the first `size` bytes. */
  method ReadFixedBody(stream: ByteStream, buffer: BufferCursor, limits: Limits, size: nat)
    returns (r: Result<string, Error>)
    requires buffer.Valid()
    modifies stream`inFlight, buffer
    ensures buffer.Valid()
    ensures match DecodeFixed(old(Incoming(stream, buffer)), size, limits)
            case Ok(d) => r == Ok(d.0) && Incoming(stream, buffer) == d.1
            case Err(e) => r == Err(e)
  {
    if size > limits.maxBodyBytes {
      return Err(BODY_TOO_LARGE);
    }
    ghost var all := Incoming(stream, buffer);
    var remaining := size;
    var body := "";
    while remaining > 0
      invariant buffer.Valid() && |body| + remaining == size
      invariant all == body + Incoming(stream, buffer)
      decreases remaining, |stream.inFlight|
    {
      if buffer.Size() > 0 {
        var n := Min(remaining, buffer.Size());
        MoveAcross(body, buffer.View(), n, stream.inFlight);
        body := body + buffer.View()[..n];
        buffer.Consume(n);
        remaining := remaining - n;
      } else {
        var n := ReadMore(stream, buffer, remaining, BODY_TOO_LARGE, Min(remaining, SCRATCH));
        if n.Err? {
          return Err(BODY_TOO_LARGE);
        }
        if n.value == 0 {
          return Err(BODY_EOF);
        }
      }
    }
    SplitAt(body, Incoming(stream, buffer));
    return Ok(body);
  }

  /** Section 6.3 of RFC 9112, case 8: everything until the peer closes, within the limit. */
  method ReadUntilCloseBody(stream: ByteStream, buffer: BufferCursor, limits: Limits)
    returns (r: Result<string, Error>)
    requires buffer.Valid()
    modifies stream`inFlight, stream`open, buffer
    ensures buffer.Valid()
    ensures r == if |old(Incoming(stream, buffer))| <= limits.maxBodyBytes
                 then Ok(old(Incoming(stream, buffer))) else Err(BODY_TOO_LARGE)
    ensures r.Ok? ==> Incoming(stream, buffer) == [] && !stream.open
  {
    var total := buffer.Size();
    if total > limits.maxBodyBytes {
      return Err(BODY_TOO_LARGE);
    }
    ghost var all := Incoming(stream, buffer);
    var body := "";
    if total > 0 {
      body := body + buffer.View();
      buffer.Consume(total);
    }
    while true
      invariant buffer.Valid() && buffer.View() == [] && total == |body|
      invariant total <= limits.maxBodyBytes && all == body + stream.inFlight
      decreases |stream.inFlight|
    {
      var data := stream.RecvSome(SCRATCH);
      if |data| == 0 {
        stream.Close();
        assert body + [] == body;
        break;
      }
      if total + |data| > limits.maxBodyBytes {
        return Err(BODY_TOO_LARGE);
      }
      total := total + |data|;
      body := body + data;
    }
    return Ok(body);
  }
}
