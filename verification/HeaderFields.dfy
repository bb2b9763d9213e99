/** Header fields as lines of text, as the HTTP and the multipart code both write and
    read them (src/http.cpp, src/multipart.cpp). */
module HeaderFields {
  import opened Text

  function SerializeHeaders(headers: Headers): string {
    if headers == [] then ""
    else headers[0].name + ": " + headers[0].value + CRLF + SerializeHeaders(headers[1..])
  }

  lemma {:induction false} SerializeHeadersSnoc(headers: Headers, h: Header)
    ensures SerializeHeaders(headers + [h]) == SerializeHeaders(headers) + (h.name + ": " + h.value + CRLF)
  {
    if headers == [] {
      assert headers + [h] == [h] && [h][1..] == [];
    } else {
      SerializeHeadersSnoc(headers[1..], h);
      assert (headers + [h])[1..] == headers[1..] + [h];
      Assoc(headers[0].name + ": " + headers[0].value + CRLF, SerializeHeaders(headers[1..]),
            h.name + ": " + h.value + CRLF);
    }
  }

  method WriteHeaders(headers: Headers) returns (out: string)
    ensures out == SerializeHeaders(headers)
  {
    out := "";
    var i := 0;
    while i < |headers|
      invariant 0 <= i <= |headers| && out == SerializeHeaders(headers[..i])
    {
      assert headers[..i + 1] == headers[..i] + [headers[i]];
      SerializeHeadersSnoc(headers[..i], headers[i]);
      out := out + headers[i].name;
      out := out + ": ";
      out := out + headers[i].value;
      out := out + CRLF;
      i := i + 1;
    }
    assert headers[..i] == headers;
  }

  /** A line split at its first colon, both sides trimmed. */
  function HeaderOf(line: string): Option<Header> {
    match FindChar(line, ':', 0)
    case None => None
    case Some(c) => Some(Header(Trim(line[..c]), Trim(line[c + 1..])))
  }

  /** A field that one line can carry. */
  ghost predicate GoodHeader(h: Header) {
    && Trimmed(h.name) && Trimmed(h.value) && CrLfFree(h.name) && CrLfFree(h.value)
    && ':' !in h.name
  }

  lemma HeaderReadBack(h: Header)
    requires GoodHeader(h)
    ensures CrLfFree(h.name + ": " + h.value)
    ensures HeaderOf(h.name + ": " + h.value) == Some(h)
  {
    CrLfFreeJoin(h.name, ": ");
    CrLfFreeJoin(h.name + ": ", h.value);
    assert h.name + ": " + h.value == h.name + [':'] + ([' '] + h.value);
    FindCharAfter(h.name, ':', [' '] + h.value);
    TrimOfTrimmed(h.name);
    TrimOfTrimmed(h.value);
  }

  method ParseHeader(line: string) returns (r: Option<Header>)
    ensures r == HeaderOf(line)
  {
    var colon := FindChar(line, ':', 0);
    if colon.None? {
      return None;
    }
    var name := TrimCopy(line[..colon.value]);
    var value := TrimCopy(line[colon.value + 1..]);
    return Some(Header(name, value));
  }
}
