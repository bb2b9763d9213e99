/** `multipart/form-data` parsing and printing (src/multipart.cpp; section 4 of RFC 7578
    and section 5.1.1 of RFC 2046). */
module Multipart {
  import opened Text
  import opened HeaderFields

  datatype Part = Part(name: string, filename: Option<string>, contentType: string, headers: Headers, body: string)

  const DISPOSITION := "Content-Disposition"
  const CONTENT_TYPE := "Content-Type"
  const DASHES := "--"
  const BLANK_LINE := CRLF + CRLF

  const BAD_ESCAPE := "corouv::multipart invalid percent-encoding"
  const EXPECTED_FORM_DATA := "corouv::multipart expected form-data content disposition"
  const MALFORMED_HEADER := "corouv::multipart malformed part header"
  const MISSING_BOUNDARY := "corouv::multipart missing boundary in Content-Type"
  const MISSING_OPENING := "corouv::multipart missing opening boundary"
  const MALFORMED_BOUNDARY := "corouv::multipart malformed boundary"
  const MISSING_HEADERS := "corouv::multipart missing part headers"
  const MISSING_NAME := "corouv::multipart part missing content-disposition name"
  const MISSING_CLOSING := "corouv::multipart missing closing boundary"
  const PART_TOO_LARGE := "corouv::multipart part body too large"
  const TOO_MANY_PARTS := "corouv::multipart too many parts"
  const EMPTY_BOUNDARY := "corouv::multipart boundary must not be empty"

  // ---------------------------------------------------------------- quoted values

  predicate Quoted(s: string) {
    |s| >= 2 && s[0] == '"' && s[|s| - 1] == '"'
  }

  /** A backslash that is not the last character stands for the one behind it. */
  function Unescape(s: string): string {
    if s == "" then ""
    else if s[0] == '\\' && |s| > 1 then [s[1]] + Unescape(s[2..])
    else [s[0]] + Unescape(s[1..])
  }

  function Unquoted(s: string): string {
    if Quoted(s) then Unescape(s[1..|s| - 1]) else Trim(s)
  }

  predicate Unescaped(s: string) {
    forall i :: 0 <= i < |s| - 1 ==> s[i] != '\\'
  }

  lemma {:induction false} UnescapeShrinks(s: string)
    ensures |Unescape(s)| <= |s|
    ensures Unescaped(s) ==> Unescape(s) == s
    ensures !Unescaped(s) ==> |Unescape(s)| < |s|
  {
    if s != "" {
      if s[0] == '\\' && |s| > 1 {
        UnescapeShrinks(s[2..]);
      } else {
        UnescapeShrinks(s[1..]);
        assert s == [s[0]] + s[1..];
        assert forall i :: 0 <= i < |s[1..]| ==> s[1..][i] == s[i + 1];
        assert forall i :: 1 <= i < |s| ==> s[i] == s[1..][i - 1];
      }
    }
  }

  /** Quoting is undone exactly when no backslash stands before another character. */
  lemma QuoteReadBack(s: string)
    ensures Unquoted(['"'] + s + ['"']) == s <==> Unescaped(s)
  {
    var q := ['"'] + s + ['"'];
    assert q[1..|q| - 1] == s;
    UnescapeShrinks(s);
  }

  method Unquote(value: string) returns (out: string)
    ensures out == Unquoted(value)
  {
    if |value| >= 2 && value[0] == '"' && value[|value| - 1] == '"' {
      out := "";
      ghost var inner := value[1..|value| - 1];
      var i := 1;
      assert inner[0..] == inner && "" + Unescape(inner) == Unescape(inner);
      while i + 1 < |value|
        invariant 1 <= i < |value|
        invariant out + Unescape(inner[i - 1..]) == Unescape(inner)
      {
        ghost var rest := inner[i - 1..];
        if value[i] == '\\' && i + 2 < |value| {
          i := i + 1;
          assert rest[2..] == inner[i - 1 + 1..];
          assert rest[0] == '\\' && rest[1] == value[i];
        } else {
          assert rest[1..] == inner[i - 1 + 1..];
          assert rest[0] == value[i];
        }
        Assoc(out, [value[i]], Unescape(inner[i..]));
        out := out + [value[i]];
        i := i + 1;
      }
      assert inner[i - 1..] == "" && out + "" == out;
      return;
    }
    out := TrimCopy(value);
  }

  ghost function Behind(out: string, r: Result<string, string>): Result<string, string> {
    match r case Ok(rest) => Ok(out + rest) case Err(e) => Err(e)
  }

  predicate IsHex(c: char) {
    DigitVal(c) < 16
  }

  /** Percent escapes in an extended file name. */
  ghost function Decoded(s: string): Result<string, string> {
    if s == "" then Ok("")
    else if s[0] != '%' then Behind([s[0]], Decoded(s[1..]))
    else if |s| < 3 || !IsHex(s[1]) || !IsHex(s[2]) then Err(BAD_ESCAPE)
    else Behind([(16 * DigitVal(s[1]) + DigitVal(s[2])) as char], Decoded(s[3..]))
  }

  lemma BehindBehind(a: string, b: string, r: Result<string, string>)
    ensures Behind(a, Behind(b, r)) == Behind(a + b, r)
    ensures Behind("", r) == r
  {
    if r.Ok? {
      Assoc(a, b, r.value);
      assert "" + r.value == r.value;
    }
  }

  method DecodePercent(value: string) returns (r: Result<string, string>)
    ensures r == Decoded(value)
  {
    var out := "";
    var i := 0;
    assert value[0..] == value;
    BehindBehind("", "", Decoded(value));
    while i < |value|
      invariant 0 <= i <= |value|
      invariant Behind(out, Decoded(value[i..])) == Decoded(value)
    {
      ghost var rest := value[i..];
      if value[i] != '%' {
        assert rest[1..] == value[i + 1..];
        BehindBehind(out, [value[i]], Decoded(value[i + 1..]));
        out := out + [value[i]];
        i := i + 1;
        continue;
      }
      if i + 2 >= |value| || !IsHex(value[i + 1]) || !IsHex(value[i + 2]) {
        return Err(BAD_ESCAPE);
      }
      var byte := (16 * DigitVal(value[i + 1]) + DigitVal(value[i + 2])) as char;
      assert rest[3..] == value[i + 3..];
      BehindBehind(out, [byte], Decoded(value[i + 3..]));
      out := out + [byte];
      i := i + 3;
    }
    assert value[i..] == "" && out + "" == out;
    return Ok(out);
  }

  // ------------------------------------------------------------ header parameters

  /** What has been read of a content disposition. */
  datatype Reading = Reading(first: bool, name: string, filename: Option<string>, extended: Option<string>)

  /** An extended value without its character set and language. */
  function Encoded(s: string): string {
    match FindChar(s, '\'', 0)
    case None => s
    case Some(i) => match FindChar(s, '\'', i + 1) {
      case None => s
      case Some(j) => s[j + 1..]
    }
  }

  ghost function TakeParameter(d: Reading, key: string, value: string): Result<Reading, string> {
    if IEquals(key, "name") then Ok(d.(name := value))
    else if IEquals(key, "filename") then Ok(d.(filename := Some(value)))
    else if IEquals(key, "filename*") then
      match Decoded(Encoded(value)) {
        case Ok(decoded) => Ok(d.(extended := Some(decoded)))
        case Err(e) => Err(e)
      }
    else Ok(d)
  }

  ghost function TakeToken(d: Reading, token: string): Result<Reading, string> {
    if token == "" then Ok(d)
    else if d.first then
      if IEquals(token, "form-data") then Ok(d.(first := false)) else Err(EXPECTED_FORM_DATA)
    else match FindChar(token, '=', 0)
    case None => Ok(d)
    case Some(eq) => TakeParameter(d, Trim(token[..eq]), Unquoted(token[eq + 1..]))
  }

  /** Reads `;`-separated tokens. */
  ghost function TakeTokens(d: Reading, s: string): Result<Reading, string>
    decreases |s|
  {
    if s == "" then Ok(d)
    else match FindChar(s, ';', 0)
    case None => TakeToken(d, Trim(s))
    case Some(semi) =>
      var taken := TakeToken(d, Trim(s[..semi]));
      if taken.Ok? then TakeTokens(taken.value, s[semi + 1..]) else taken
  }

  lemma TakeFirst(d: Reading, token: string, rest: string)
    requires ';' !in token
    ensures var taken := TakeToken(d, Trim(token));
            TakeTokens(d, token + [';'] + rest) == if taken.Ok? then TakeTokens(taken.value, rest) else taken
  {
    hide TakeToken;
    FindCharAfter(token, ';', rest);
  }

  lemma TakeLast(d: Reading, token: string)
    requires ';' !in token && token != ""
    ensures TakeTokens(d, token) == TakeToken(d, Trim(token))
  {
  }

  ghost function Disposed(part: Part, value: string): Result<Part, string> {
    match TakeTokens(Reading(true, part.name, None, None), value)
    case Err(e) => Err(e)
    case Ok(d) => Ok(part.(name := d.name,
                           filename := if d.extended.Some? then d.extended
                                       else if d.filename.Some? then d.filename else part.filename))
  }

  method ParseToken(d: Reading, token: string) returns (r: Result<Reading, string>)
    ensures r == TakeToken(d, token)
  {
    if token == "" {
      return Ok(d);
    }
    if d.first {
      return if IEquals(token, "form-data") then Ok(d.(first := false)) else Err(EXPECTED_FORM_DATA);
    }
    var eq := FindChar(token, '=', 0);
    if eq.None? {
      return Ok(d);
    }
    var key := TrimCopy(token[..eq.value]);
    var value := Unquote(token[eq.value + 1..]);
    if IEquals(key, "name") {
      return Ok(d.(name := value));
    } else if IEquals(key, "filename") {
      return Ok(d.(filename := Some(value)));
    } else if IEquals(key, "filename*") {
      var decoded := DecodePercent(Encoded(value));
      if decoded.Err? {
        return Err(decoded.error);
      }
      return Ok(d.(extended := Some(decoded.value)));
    }
    return Ok(d);
  }

  method ParseDisposition(part: Part, value: string) returns (r: Result<Part, string>)
    ensures r == Disposed(part, value)
  {
    hide TakeToken, TakeTokens;
    var d := Reading(true, part.name, None, None);
    var start := 0;
    assert value[0..] == value;
    while start < |value|
      invariant 0 <= start <= |value|
      invariant TakeTokens(d, value[start..]) == TakeTokens(Reading(true, part.name, None, None), value)
    {
      var semi := FindChar(value, ';', start);
      var end := if semi.None? then |value| else semi.value;
      var token := value[start..end];
      var trimmed := TrimCopy(token);
      var next := ParseToken(d, trimmed);
      if semi.None? {
        assert value[start..] == token;
        TakeLast(d, token);
      } else {
        assert value[start..] == token + [';'] + value[end + 1..];
        TakeFirst(d, token, value[end + 1..]);
      }
      if next.Err? {
        return Err(next.error);
      }
      d := next.value;
      start := if semi.None? then |value| else end + 1;
      if semi.None? {
        assert value[start..] == "";
        NoTokens(d);
      }
    }
    assert value[start..] == "";
    NoTokens(d);
    return Ok(part.(name := d.name,
                    filename := if d.extended.Some? then d.extended
                                else if d.filename.Some? then d.filename else part.filename));
  }

  lemma NoTokens(d: Reading)
    ensures TakeTokens(d, "") == Ok(d)
  {
  }

  /** The boundary parameter of a content type; `first` says the media type is still to come. */
  function BoundaryOf(first: bool, s: string): Option<string>
    decreases |s|
  {
    if s == "" then None
    else
      var semi := FindChar(s, ';', 0);
      var token := Trim(if semi.None? then s else s[..semi.value]);
      var rest := if semi.None? then "" else s[semi.value + 1..];
      if token == "" then BoundaryOf(first, rest)
      else if first then
        if IEquals(token, "multipart/form-data") then BoundaryOf(false, rest) else None
      else match BoundaryValue(token)
      case None => BoundaryOf(false, rest)
      case Some(boundary) => Some(boundary)
  }

  function BoundaryValue(token: string): Option<string> {
    match FindChar(token, '=', 0)
    case None => None
    case Some(eq) => if IEquals(Trim(token[..eq]), "boundary") then Some(Unquoted(token[eq + 1..])) else None
  }

  method BoundaryFromContentType(contentType: string) returns (r: Option<string>)
    ensures r == BoundaryOf(true, contentType)
  {
    hide BoundaryOf, BoundaryValue;
    var start, first := 0, true;
    assert contentType[0..] == contentType;
    while start < |contentType|
      invariant 0 <= start <= |contentType|
      invariant BoundaryOf(first, contentType[start..]) == BoundaryOf(true, contentType)
    {
      var semi := FindChar(contentType, ';', start);
      var end := if semi.None? then |contentType| else semi.value;
      var rest := if semi.None? then |contentType| else end + 1;
      var part := contentType[start..end];
      if semi.None? {
        assert contentType[start..] == part && contentType[rest..] == "";
        BoundaryLast(first, part);
      } else {
        assert contentType[start..] == part + [';'] + contentType[rest..];
        BoundaryFirst(first, part, contentType[rest..]);
      }
      var token := TrimCopy(part);
      start := rest;
      if token == "" {
        continue;
      }
      if first {
        first := false;
        if !IEquals(token, "multipart/form-data") {
          return None;
        }
        continue;
      }
      var boundary := ParseBoundary(token);
      if boundary.Some? {
        return boundary;
      }
    }
    assert contentType[start..] == "";
    NoBoundary(first);
    return None;
  }

  method ParseBoundary(token: string) returns (r: Option<string>)
    ensures r == BoundaryValue(token)
  {
    var eq := FindChar(token, '=', 0);
    if eq.None? {
      return None;
    }
    var key := TrimCopy(token[..eq.value]);
    if !IEquals(key, "boundary") {
      return None;
    }
    var value := Unquote(token[eq.value + 1..]);
    return Some(value);
  }

  /** What one trimmed token contributes before `rest`. */
  function BoundaryStep(first: bool, token: string, rest: string): Option<string> {
    if token == "" then BoundaryOf(first, rest)
    else if first then
      if IEquals(token, "multipart/form-data") then BoundaryOf(false, rest) else None
    else match BoundaryValue(token)
    case None => BoundaryOf(false, rest)
    case Some(boundary) => Some(boundary)
  }

  lemma BoundaryFirst(first: bool, token: string, rest: string)
    requires ';' !in token
    ensures BoundaryOf(first, token + [';'] + rest) == BoundaryStep(first, Trim(token), rest)
  {
    hide BoundaryValue;
    FindCharAfter(token, ';', rest);
  }

  lemma BoundaryLast(first: bool, token: string)
    requires ';' !in token
    ensures BoundaryOf(first, token) == BoundaryStep(first, Trim(token), "")
  {
  }

  lemma NoBoundary(first: bool)
    ensures BoundaryOf(first, "") == None
  {
  }

  // ------------------------------------------------------------------ part headers

  ghost function Joined(h: Header, r: Result<Headers, string>): Result<Headers, string> {
    match r case Ok(rest) => Ok([h] + rest) case Err(e) => Err(e)
  }

  /** The header fields of one part, line by line. */
  ghost function BlockOf(block: string): Result<Headers, string>
    decreases |block|
  {
    if block == "" then Ok([])
    else match FindSub(block, CRLF, 0)
    case None => LastField(HeaderOf(block))
    case Some(n) => if n == 0 then Ok([]) else NextField(HeaderOf(block[..n]), BlockOf(block[n + 2..]))
  }

  ghost function LastField(h: Option<Header>): Result<Headers, string> {
    if h.None? then Err(MALFORMED_HEADER) else Ok([h.value])
  }

  ghost function NextField(h: Option<Header>, rest: Result<Headers, string>): Result<Headers, string> {
    if h.None? then Err(MALFORMED_HEADER) else Joined(h.value, rest)
  }

  ghost function Onto(headers: Headers, r: Result<Headers, string>): Result<Headers, string> {
    match r case Ok(rest) => Ok(headers + rest) case Err(e) => Err(e)
  }

  lemma OntoJoined(headers: Headers, h: Header, r: Result<Headers, string>)
    ensures Onto(headers, Joined(h, r)) == Onto(headers + [h], r)
    ensures Onto([], r) == r
  {
    if r.Ok? {
      Assoc(headers, [h], r.value);
      assert [] + r.value == r.value;
    }
  }

  lemma AtShift(s: string, pat: string, from: nat, k: nat)
    requires from <= |s|
    ensures At(s[from..], pat, k) <==> At(s, pat, from + k)
  {
    if from + k + |pat| <= |s| {
      assert s[from..][k..k + |pat|] == s[from + k..from + k + |pat|];
    }
  }

  /** A search in a suffix finds what a search from its start finds. */
  lemma FindSubShift(s: string, pat: string, from: nat)
    requires from <= |s|
    ensures var r := FindSub(s, pat, from);
            FindSub(s[from..], pat, 0) == if r.Some? then Some(r.value - from) else None
  {
    hide At, FindSub;
    forall k: nat ensures At(s[from..], pat, k) <==> At(s, pat, from + k) {
      AtShift(s, pat, from, k);
    }
    var r := FindSub(s, pat, from);
    if r.Some? {
      forall k | 0 <= k < r.value - from ensures !At(s[from..], pat, k) {
        assert !At(s, pat, from + k);
      }
      FindSubIs(s[from..], pat, 0, r.value - from);
    } else {
      forall k: nat ensures !At(s[from..], pat, k) {
        assert !At(s, pat, from + k);
      }
    }
  }

  lemma BlockOfLast(s: string)
    requires s != "" && FindSub(s, CRLF, 0) == None
    ensures BlockOf(s) == LastField(HeaderOf(s))
  {
    hide HeaderOf, FindSub, LastField;
  }

  lemma BlockOfNext(s: string, n: nat)
    requires FindSub(s, CRLF, 0) == Some(n)
    ensures n == 0 ==> BlockOf(s) == Ok([])
    ensures n > 0 ==> BlockOf(s) == NextField(HeaderOf(s[..n]), BlockOf(s[n + 2..]))
  {
    hide HeaderOf, FindSub, NextField;
  }

  method ParseHeadersBlock(block: string) returns (r: Result<Headers, string>)
    ensures r == BlockOf(block)
  {
    hide HeaderOf, BlockOf, FindSub;
    var headers: Headers := [];
    var pos := 0;
    assert block[0..] == block;
    OntoJoined([], Header("", ""), BlockOf(block));
    while pos < |block|
      invariant 0 <= pos <= |block|
      invariant Onto(headers, BlockOf(block[pos..])) == BlockOf(block)
    {
      ghost var rest := block[pos..];
      FindSubShift(block, CRLF, pos);
      var end := FindSub(block, CRLF, pos);
      if end.None? {
        BlockOfLast(rest);
        var h := ParseHeader(block[pos..]);
        return if h.None? then Err(MALFORMED_HEADER) else Ok(headers + [h.value]);
      }
      BlockOfNext(rest, end.value - pos);
      var line := block[pos..end.value];
      assert line == rest[..end.value - pos] && rest[end.value - pos + 2..] == block[end.value + 2..];
      if line == "" {
        assert headers + [] == headers;
        return Ok(headers);
      }
      var h := ParseHeader(line);
      if h.None? {
        return Err(MALFORMED_HEADER);
      }
      OntoJoined(headers, h.value, BlockOf(block[end.value + 2..]));
      headers := headers + [h.value];
      pos := end.value + 2;
    }
    assert block[pos..] == "" && headers + [] == headers;
    NoHeaders();
    return Ok(headers);
  }

  lemma NoHeaders()
    ensures BlockOf("") == Ok([])
  {
  }

  predicate Special(name: string) {
    IEquals(name, DISPOSITION) || IEquals(name, CONTENT_TYPE)
  }

  /** A part described by its header fields, in order. */
  ghost function Described(part: Part, headers: Headers): Result<Part, string>
    decreases |headers|
  {
    if headers == [] then Ok(part)
    else
      var h := headers[0];
      if IEquals(h.name, DISPOSITION) then
        match Disposed(part, h.value) {
          case Ok(next) => Described(next, headers[1..])
          case Err(e) => Err(e)
        }
      else if IEquals(h.name, CONTENT_TYPE) then Described(part.(contentType := h.value), headers[1..])
      else Described(part, headers[1..])
  }

  method Describe(headers: Headers) returns (r: Result<Part, string>)
    ensures r == Described(Part("", None, "", headers, ""), headers)
  {
    hide Disposed;
    var part := Part("", None, "", headers, "");
    var i := 0;
    assert headers[0..] == headers;
    while i < |headers|
      invariant 0 <= i <= |headers|
      invariant Described(part, headers[i..]) == Described(Part("", None, "", headers, ""), headers)
    {
      assert headers[i..][1..] == headers[i + 1..];
      if IEquals(headers[i].name, DISPOSITION) {
        var next := ParseDisposition(part, headers[i].value);
        if next.Err? {
          return Err(next.error);
        }
        part := next.value;
      } else if IEquals(headers[i].name, CONTENT_TYPE) {
        part := part.(contentType := headers[i].value);
      }
      i := i + 1;
    }
    assert headers[i..] == [];
    return Ok(part);
  }

  // ------------------------------------------------------------------------- parts

  datatype Limits = Limits(maxParts: nat, maxPartBytes: nat)

  function Delimiter(boundary: string): string {
    CRLF + (DASHES + boundary)
  }

  /** One part behind a boundary line, and what stands behind the next boundary. */
  ghost function PartOf(s: string, boundary: string, have: nat, limits: Limits): (r: Result<(Part, string), string>)
    ensures r.Ok? ==> |r.value.1| < |s|
  {
    if !At(s, CRLF, 0) then Err(MALFORMED_BOUNDARY)
    else match FindSub(s[2..], BLANK_LINE, 0)
    case None => Err(MISSING_HEADERS)
    case Some(e) => match BlockOf(s[2..][..e]) {
      case Err(error) => Err(error)
      case Ok(headers) => match Described(Part("", None, "", headers, ""), headers) {
        case Err(error) => Err(error)
        case Ok(part) => if part.name == "" then Err(MISSING_NAME) else BodyOf(part, s[2..][e + 4..], boundary, have, limits)
      }
    }
  }

  ghost function BodyOf(part: Part, s: string, boundary: string, have: nat, limits: Limits): (r: Result<(Part, string), string>)
    ensures r.Ok? ==> |r.value.1| <= |s|
  {
    match FindSub(s, Delimiter(boundary), 0)
    case None => Err(MISSING_CLOSING)
    case Some(n) =>
      if n > limits.maxPartBytes then Err(PART_TOO_LARGE)
      else if have + 1 > limits.maxParts then Err(TOO_MANY_PARTS)
      else Ok((part.(body := s[..n]), s[n + |Delimiter(boundary)|..]))
  }

  ghost function Before(part: Part, r: Result<seq<Part>, string>): Result<seq<Part>, string> {
    match r case Ok(rest) => Ok([part] + rest) case Err(e) => Err(e)
  }

  /** The parts behind a boundary, when `have` parts came before it. */
  ghost function PartsOf(s: string, boundary: string, have: nat, limits: Limits): Result<seq<Part>, string>
    decreases |s|
  {
    if At(s, DASHES, 0) then Ok([])
    else match PartOf(s, boundary, have, limits)
    case Err(e) => Err(e)
    case Ok((part, rest)) => Before(part, PartsOf(rest, boundary, have + 1, limits))
  }

  ghost function FormOf(contentType: string, body: string, limits: Limits): Result<seq<Part>, string> {
    match BoundaryOf(true, contentType)
    case None => Err(MISSING_BOUNDARY)
    case Some(boundary) =>
      if boundary == "" then Err(MISSING_BOUNDARY)
      else if !At(body, DASHES + boundary, 0) then Err(MISSING_OPENING)
      else PartsOf(body[2 + |boundary|..], boundary, 0, limits)
  }

  method ParsePart(body: string, cursor: nat, boundary: string, have: nat, limits: Limits)
    returns (r: Result<(Part, nat), string>)
    requires cursor <= |body|
    ensures var spec := PartOf(body[cursor..], boundary, have, limits);
            && (r.Err? ==> spec == Err(r.error))
            && (r.Ok? ==> cursor < r.value.1 <= |body| && spec == Ok((r.value.0, body[r.value.1..])))
  {
    hide FindSub, BlockOf, Described, BodyOf;
    AtShift(body, CRLF, cursor, 0);
    if !At(body, CRLF, cursor) {
      return Err(MALFORMED_BOUNDARY);
    }
    var start := cursor + 2;
    assert body[cursor..][2..] == body[start..];
    FindSubShift(body, BLANK_LINE, start);
    var end := FindSub(body, BLANK_LINE, start);
    if end.None? {
      return Err(MISSING_HEADERS);
    }
    assert body[start..][..end.value - start] == body[start..end.value];
    assert body[start..][end.value - start + 4..] == body[end.value + 4..];
    var headers := ParseHeadersBlock(body[start..end.value]);
    if headers.Err? {
      return Err(headers.error);
    }
    var part := Describe(headers.value);
    if part.Err? {
      return Err(part.error);
    }
    if part.value.name == "" {
      return Err(MISSING_NAME);
    }
    r := ParseBody(part.value, body, end.value + 4, boundary, have, limits);
  }

  method ParseBody(part: Part, body: string, cursor: nat, boundary: string, have: nat, limits: Limits)
    returns (r: Result<(Part, nat), string>)
    requires cursor <= |body|
    ensures var spec := BodyOf(part, body[cursor..], boundary, have, limits);
            && (r.Err? ==> spec == Err(r.error))
            && (r.Ok? ==> cursor <= r.value.1 <= |body| && spec == Ok((r.value.0, body[r.value.1..])))
  {
    hide FindSub;
    var marker := Delimiter(boundary);
    FindSubShift(body, marker, cursor);
    var next := FindSub(body, marker, cursor);
    if next.None? {
      return Err(MISSING_CLOSING);
    }
    assert body[cursor..][..next.value - cursor] == body[cursor..next.value];
    assert body[cursor..][next.value - cursor + |marker|..] == body[next.value + |marker|..];
    if next.value - cursor > limits.maxPartBytes {
      return Err(PART_TOO_LARGE);
    }
    if have + 1 > limits.maxParts {
      return Err(TOO_MANY_PARTS);
    }
    return Ok((part.(body := body[cursor..next.value]), next.value + |marker|));
  }

  ghost function Following(parts: seq<Part>, r: Result<seq<Part>, string>): Result<seq<Part>, string> {
    match r case Ok(rest) => Ok(parts + rest) case Err(e) => Err(e)
  }

  lemma FollowingBefore(parts: seq<Part>, part: Part, r: Result<seq<Part>, string>)
    ensures Following(parts, Before(part, r)) == Following(parts + [part], r)
    ensures Following([], r) == r
  {
    if r.Ok? {
      Assoc(parts, [part], r.value);
      assert [] + r.value == r.value;
    }
  }

  method Parse(contentType: string, body: string, limits: Limits) returns (r: Result<seq<Part>, string>)
    ensures r == FormOf(contentType, body, limits)
  {
    hide PartOf, BoundaryOf;
    var boundary := BoundaryFromContentType(contentType);
    if boundary.None? || boundary.value == "" {
      return Err(MISSING_BOUNDARY);
    }
    var marker := DASHES + boundary.value;
    if !At(body, marker, 0) {
      return Err(MISSING_OPENING);
    }
    var parts: seq<Part> := [];
    var cursor := |marker|;
    ghost var spec := PartsOf(body[cursor..], boundary.value, 0, limits);
    FollowingBefore([], Part("", None, "", [], ""), spec);
    while true
      invariant cursor <= |body|
      invariant Following(parts, PartsOf(body[cursor..], boundary.value, |parts|, limits)) == spec
      decreases |body| - cursor
    {
      AtShift(body, DASHES, cursor, 0);
      if At(body, DASHES, cursor) {
        assert parts + [] == parts;
        return Ok(parts);
      }
      var next := ParsePart(body, cursor, boundary.value, |parts|, limits);
      if next.Err? {
        return Err(next.error);
      }
      var (part, end) := next.value;
      FollowingBefore(parts, part, PartsOf(body[end..], boundary.value, |parts| + 1, limits));
      parts := parts + [part];
      cursor := end;
    }
  }

  // ---------------------------------------------------------------------- printing

  function DispositionValue(part: Part): string {
    "form-data; name=\"" + part.name + "\""
    + (if part.filename.Some? then "; filename=\"" + part.filename.value + "\"" else "")
  }

  function Others(headers: Headers): Headers {
    if headers == [] then []
    else (if Special(headers[0].name) then [] else [headers[0]]) + Others(headers[1..])
  }

  /** The header fields a part is written with. */
  function Written(part: Part): Headers {
    [Header(DISPOSITION, DispositionValue(part))]
    + (if part.contentType == "" then [] else [Header(CONTENT_TYPE, part.contentType)])
    + Others(part.headers)
  }

  function PartText(part: Part, boundary: string): string {
    DASHES + boundary + CRLF + (SerializeHeaders(Written(part)) + CRLF + part.body + CRLF)
  }

  function PartsText(parts: seq<Part>, boundary: string): string {
    if parts == [] then "" else PartText(parts[0], boundary) + PartsText(parts[1..], boundary)
  }

  function FormText(parts: seq<Part>, boundary: string): Result<string, string> {
    if boundary == "" then Err(EMPTY_BOUNDARY)
    else Ok(PartsText(parts, boundary) + (DASHES + boundary + DASHES + CRLF))
  }

  function BuildContentType(boundary: string): string {
    "multipart/form-data; boundary=" + boundary
  }

  lemma {:induction false} OthersSnoc(headers: Headers, h: Header)
    ensures Others(headers + [h]) == Others(headers) + (if Special(h.name) then [] else [h])
  {
    if headers == [] {
      assert [] + [h] == [h];
    } else {
      assert (headers + [h])[1..] == headers[1..] + [h];
      OthersSnoc(headers[1..], h);
    }
  }

  method SerializePart(part: Part, boundary: string) returns (out: string)
    ensures out == PartText(part, boundary)
  {
    hide Special;
    var start := DASHES + boundary + CRLF;
    var fields := DISPOSITION + ": " + DispositionValue(part) + CRLF;
    ghost var written := [Header(DISPOSITION, DispositionValue(part))];
    SerializeHeadersSnoc([], written[0]);
    assert [] + written == written && SerializeHeaders([]) + fields == fields;
    if part.contentType != "" {
      SerializeHeadersSnoc(written, Header(CONTENT_TYPE, part.contentType));
      written := written + [Header(CONTENT_TYPE, part.contentType)];
      fields := fields + (CONTENT_TYPE + ": " + part.contentType + CRLF);
    }
    ghost var first := written;
    assert first + Others([]) == first;
    var i := 0;
    while i < |part.headers|
      invariant 0 <= i <= |part.headers|
      invariant written == first + Others(part.headers[..i]) && fields == SerializeHeaders(written)
    {
      var h := part.headers[i];
      assert part.headers[..i + 1] == part.headers[..i] + [h];
      OthersSnoc(part.headers[..i], h);
      i := i + 1;
      if Special(h.name) {
        continue;
      }
      SerializeHeadersSnoc(written, h);
      Assoc(first, Others(part.headers[..i - 1]), [h]);
      written := written + [h];
      fields := fields + (h.name + ": " + h.value + CRLF);
    }
    assert part.headers[..i] == part.headers && written == Written(part);
    out := start + (fields + CRLF + part.body + CRLF);
  }

  method Serialize(parts: seq<Part>, boundary: string) returns (r: Result<string, string>)
    ensures r == FormText(parts, boundary)
  {
    hide PartText;
    if boundary == "" {
      return Err(EMPTY_BOUNDARY);
    }
    var out := "";
    var i := 0;
    assert parts[0..] == parts && "" + PartsText(parts, boundary) == PartsText(parts, boundary);
    while i < |parts|
      invariant 0 <= i <= |parts|
      invariant out + PartsText(parts[i..], boundary) == PartsText(parts, boundary)
    {
      var text := SerializePart(parts[i], boundary);
      assert parts[i..][1..] == parts[i + 1..];
      Assoc(out, text, PartsText(parts[i + 1..], boundary));
      out := out + text;
      i := i + 1;
    }
    assert out + "" == out;
    return Ok(out + (DASHES + boundary + DASHES + CRLF));
  }
}

/** Parsing what was printed (section 4 of RFC 7578). */
module MultipartRoundTrip {
  import opened Text
  import opened HeaderFields
  import opened Multipart

  // ------------------------------------------------------------ the content type

  /** The boundary is found again exactly when it is `;`-free, trimmed and not quoted. */
  lemma BoundaryReadBack(b: string)
    ensures BoundaryOf(true, BuildContentType(b)) == Some(b) <==> ';' !in b && Trimmed(b) && !Quoted(b)
  {
    hide BoundaryOf;
    var second := " boundary=" + b;
    assert BuildContentType(b) == "multipart/form-data" + [';'] + second;
    BoundaryFirst(true, "multipart/form-data", second);
    assert Trimmed("multipart/form-data");
    TrimOfTrimmed("multipart/form-data");
    match FindChar(second, ';', 0)
    case None =>
      BoundaryLast(false, second);
      TokenReadBack(b);
    case Some(semi) =>
      var cut := second[..semi];
      assert second == cut + [';'] + second[semi + 1..];
      BoundaryFirst(false, cut, second[semi + 1..]);
      assert |" boundary="| == 10 && forall i :: 0 <= i < 10 ==> second[i] == " boundary="[i];
      assert cut == " boundary=" + b[..semi - 10];
      TokenReadBack(b[..semi - 10]);
      assert second[semi] == b[semi - 10];
  }

  /** A token ` boundary=v` yields `v` without blanks or quotes. */
  lemma TokenReadBack(v: string)
    ensures Trim(" boundary=" + v) != ""
    ensures BoundaryValue(Trim(" boundary=" + v)).Some?
    ensures var found := BoundaryValue(Trim(" boundary=" + v)).value;
            |found| <= |v| && (found == v <==> Trimmed(v) && !Quoted(v))
  {
    var pad := TrimRightSplits(v);
    var w := TrimRight(v);
    TrimToken("boundary", v);
    assert " boundary=" + v == [' '] + ("boundary" + ['='] + v);
    FindCharAfter("boundary", '=', w);
    assert Trimmed("boundary");
    TrimOfTrimmed("boundary");
    assert BoundaryValue("boundary" + ['='] + w) == Some(Unquoted(w));
    if Quoted(w) {
      UnescapeShrinks(w[1..|w| - 1]);
      assert v == w <==> pad == "";
    } else {
      var left, right := TrimSplits(w);
      assert Unquoted(w) == Trim(w);
      if Trimmed(v) {
        TrimOfTrimmed(v);
        RightOfTrimmed(v);
      }
    }
  }

  lemma RightOfTrimmed(v: string)
    requires Trimmed(v)
    ensures TrimRight(v) == v
  {
  }

  lemma TrimToken(key: string, v: string)
    requires key != "" && !IsSpace(key[0])
    ensures Trim([' '] + (key + ['='] + v)) == key + ['='] + TrimRight(v)
  {
    var t := key + ['='] + v;
    assert ([' '] + t)[1..] == t && t[0] == key[0];
    assert TrimLeft(t) == t && TrimLeft([' '] + t) == t;
    TrimRightBehind(key + ['='], v);
  }

  lemma {:induction false} TrimRightBehind(a: string, v: string)
    requires a != "" && !IsSpace(a[|a| - 1])
    ensures TrimRight(a + v) == a + TrimRight(v)
  {
    if v == "" {
      assert a + v == a;
    } else if IsSpace(v[|v| - 1]) {
      assert (a + v)[..|a + v| - 1] == a + v[..|v| - 1];
      TrimRightBehind(a, v[..|v| - 1]);
    }
  }

  // ------------------------------------------------------------ the disposition

  /** A name that quoting carries through a list of parameters. */
  predicate Carried(s: string) {
    ';' !in s && Unescaped(s)
  }

  ghost predicate GoodName(s: string) {
    Carried(s) && CrLfFree(s)
  }

  function Quote(s: string): string {
    ['"'] + s + ['"']
  }

  function Parameter(key: string, value: string): string {
    [' '] + (key + ['='] + Quote(value))
  }

  /** A token ` key=v` is read as that parameter. */
  lemma ParameterTaken(d: Reading, key: string, v: string)
    requires !d.first && Trimmed(key) && key != "" && '=' !in key
    ensures TakeToken(d, Trim([' '] + (key + ['='] + v))) == TakeParameter(d, key, Unquoted(TrimRight(v)))
  {
    hide TakeParameter;
    TrimToken(key, v);
    FindCharAfter(key, '=', TrimRight(v));
    TrimOfTrimmed(key);
  }

  lemma DispositionText(part: Part)
    ensures DispositionValue(part)
         == "form-data" + [';'] + (Parameter("name", part.name)
            + (if part.filename.Some? then [';'] + Parameter("filename", part.filename.value) else ""))
  {
    var name := Parameter("name", part.name);
    assert name == " name=\"" + part.name + "\"";
    if part.filename.Some? {
      var filename := Parameter("filename", part.filename.value);
      assert filename == " filename=\"" + part.filename.value + "\"";
    }
  }

  function Requoted(s: string): string {
    Unquoted(Quote(s))
  }

  /** Names free of `;` are read back as their quotation is undone. */
  lemma DispositionTaken(part: Part, into: Part)
    requires ';' !in part.name && (part.filename.Some? ==> ';' !in part.filename.value)
    ensures Disposed(into, DispositionValue(part))
         == Ok(into.(name := Requoted(part.name),
                     filename := if part.filename.Some? then Some(Requoted(part.filename.value)) else into.filename))
  {
    hide TakeTokens, TakeToken, DispositionValue, Parameter, TakeParameter, Requoted;
    var start := Reading(true, into.name, None, None);
    var name := Parameter("name", part.name);
    var named := Reading(false, Requoted(part.name), None, None);
    DispositionText(part);
    FormDataToken(start);
    NameToken(start.(first := false), part.name);
    ParameterFree("name", part.name);
    match part.filename
    case None =>
      assert name + "" == name;
      TakeFirst(start, "form-data", name);
      TakeLast(start.(first := false), name);
    case Some(file) =>
      var filename := Parameter("filename", file);
      ParameterFree("filename", file);
      Assoc(name, [';'], filename);
      TakeFirst(start, "form-data", name + [';'] + filename);
      TakeFirst(start.(first := false), name, filename);
      FilenameToken(named, file);
      TakeLast(named, filename);
  }

  lemma ParameterFree(key: string, value: string)
    requires ';' !in key
    ensures Parameter(key, value) != ""
    ensures ';' !in value ==> ';' !in Parameter(key, value)
  {
  }

  lemma NameToken(d: Reading, value: string)
    requires !d.first
    ensures TakeToken(d, Trim(Parameter("name", value))) == Ok(d.(name := Requoted(value)))
  {
    ParameterTaken(d, "name", Quote(value));
  }

  lemma FilenameToken(d: Reading, value: string)
    requires !d.first
    ensures TakeToken(d, Trim(Parameter("filename", value))) == Ok(d.(filename := Some(Requoted(value))))
  {
    ParameterTaken(d, "filename", Quote(value));
    assert |"filename"| != |"name"|;
  }

  lemma DispositionReadBack(part: Part, into: Part)
    requires Carried(part.name) && (part.filename.Some? ==> Carried(part.filename.value))
    ensures Disposed(into, DispositionValue(part))
         == Ok(into.(name := part.name, filename := if part.filename.Some? then part.filename else into.filename))
  {
    hide Disposed, Unescaped;
    DispositionTaken(part, into);
    QuoteReadBack(part.name);
    if part.filename.Some? {
      QuoteReadBack(part.filename.value);
    }
  }

  // Whatever is read from a list of parameters is free of `;`, or shorter than the list.

  lemma {:induction false} UnescapeFree(s: string)
    requires ';' !in s
    ensures ';' !in Unescape(s)
  {
    if s != "" {
      if s[0] == '\\' && |s| > 1 {
        UnescapeFree(s[2..]);
      } else {
        UnescapeFree(s[1..]);
      }
    }
  }

  lemma UnquotedFree(s: string)
    ensures |Unquoted(s)| <= |s| && (';' !in s ==> ';' !in Unquoted(s))
  {
    if Quoted(s) {
      var inner := s[1..|s| - 1];
      UnescapeShrinks(inner);
      if ';' !in s {
        UnescapeFree(inner);
      }
    } else {
      TrimFree(s);
    }
  }

  lemma TrimFree(s: string)
    ensures |Trim(s)| <= |s| && (';' !in s ==> ';' !in Trim(s))
  {
    var left, right := TrimSplits(s);
    assert forall c :: c in Trim(s) ==> c in s;
  }

  lemma {:induction false} DecodedShrinks(s: string)
    ensures Decoded(s).Ok? ==> |Decoded(s).value| <= |s|
  {
    if s != "" {
      DecodedShrinks(s[1..]);
      if |s| >= 3 {
        DecodedShrinks(s[3..]);
      }
    }
  }

  /** `named` says that a file name has been read. */
  ghost predicate Bounded(d: Reading, bound: nat, named: bool) {
    && ';' !in d.name && (d.filename.Some? ==> ';' !in d.filename.value) && (named ==> d.filename.Some?)
    && (d.extended.Some? ==> |d.extended.value| < bound)
  }

  lemma TokenBounded(d: Reading, token: string, bound: nat, named: bool)
    requires Bounded(d, bound, named) && ';' !in token && |token| <= bound && TakeToken(d, token).Ok?
    ensures Bounded(TakeToken(d, token).value, bound, named)
  {
    hide IEquals, Unquoted, Decoded, Trim, FindChar;
    var eq := FindChar(token, '=', 0);
    if token != "" && !d.first && eq.Some? {
      var v := token[eq.value + 1..];
      UnquotedFree(v);
      DecodedShrinks(Encoded(Unquoted(v)));
    }
  }

  lemma {:induction false} TokensBounded(d: Reading, s: string, bound: nat, named: bool)
    requires Bounded(d, bound, named) && |s| <= bound && TakeTokens(d, s).Ok?
    ensures Bounded(TakeTokens(d, s).value, bound, named)
    decreases |s|
  {
    hide TakeToken, Bounded;
    if s != "" {
      var semi := FindChar(s, ';', 0);
      var token := if semi.None? then s else s[..semi.value];
      TrimFree(token);
      if TakeToken(d, Trim(token)).Ok? {
        TokenBounded(d, Trim(token), bound, named);
        if semi.Some? {
          TokensBounded(TakeToken(d, Trim(token)).value, s[semi.value + 1..], bound, named);
        }
      }
    }
  }

  /** A name with a `;` is cut there. */
  lemma NameCut(part: Part, into: Part)
    requires ';' in part.name && ';' !in into.name && Disposed(into, DispositionValue(part)).Ok?
    ensures Disposed(into, DispositionValue(part)).value.name != part.name
  {
    hide TakeTokens, DispositionValue;
    TokensBounded(Reading(true, into.name, None, None), DispositionValue(part), |DispositionValue(part)|, false);
  }

  /** So is a file name, and no extended file name inside it makes up for it. */
  lemma FilenameCut(part: Part, into: Part)
    requires ';' !in part.name && part.filename.Some? && ';' in part.filename.value
    requires Disposed(into, DispositionValue(part)).Ok?
    ensures Disposed(into, DispositionValue(part)).value.filename != part.filename
  {
    hide TakeTokens, TakeToken, DispositionValue, TakeParameter, Requoted, Parameter;
    var start := Reading(true, into.name, None, None);
    var named := Reading(false, Requoted(part.name), None, None);
    var name, file := Parameter("name", part.name), part.filename.value;
    DispositionText(part);
    FormDataToken(start);
    NameToken(start.(first := false), part.name);
    ParameterFree("name", part.name);
    Assoc(name, [';'], Parameter("filename", file));
    TakeFirst(start, "form-data", name + [';'] + Parameter("filename", file));
    TakeFirst(start.(first := false), name, Parameter("filename", file));
    RequotedFree(part.name);
    FilenameTokenCut(named, file);
  }

  lemma RequotedFree(s: string)
    requires ';' !in s
    ensures ';' !in Requoted(s)
  {
    UnquotedFree(Quote(s));
  }

  lemma FilenameTokenCut(d: Reading, file: string)
    requires !d.first && ';' in file && Bounded(d, 0, false) && TakeTokens(d, Parameter("filename", file)).Ok?
    ensures var r := TakeTokens(d, Parameter("filename", file)).value;
            r.filename != Some(file) && r.extended != Some(file) && (r.filename.Some? || r.extended.Some?)
  {
    hide TakeTokens, TakeToken;
    var i := FindChar(file, ';', 0).value;
    var v, rest := ['"'] + file[..i], file[i + 1..] + ['"'];
    var token := [' '] + ("filename" + ['='] + v);
    assert file == file[..i] + [';'] + file[i + 1..];
    assert Parameter("filename", file) == token + [';'] + rest;
    ParameterTaken(d, "filename", v);
    var pad := TrimRightSplits(v);
    assert ';' !in v && forall c :: c in TrimRight(v) ==> c in v;
    UnquotedFree(TrimRight(v));
    assert |"filename"| != |"name"|;
    TakeFirst(d, token, rest);
    TokensBounded(d.(filename := Some(Unquoted(TrimRight(v)))), rest, |file|, true);
  }

  /** Name and file name are read back if and only if neither holds a `;` or a backslash that
      stands before another character. */
  lemma DispositionExactly(part: Part, into: Part)
    requires ';' !in into.name
    ensures Disposed(into, DispositionValue(part))
         == Ok(into.(name := part.name, filename := if part.filename.Some? then part.filename else into.filename))
       <==> Carried(part.name) && (part.filename.Some? ==> Carried(part.filename.value))
  {
    hide Disposed, DispositionValue, Requoted, Unescaped;
    if ';' in part.name {
      if Disposed(into, DispositionValue(part)).Ok? {
        NameCut(part, into);
      }
    } else if part.filename.Some? && ';' in part.filename.value {
      if Disposed(into, DispositionValue(part)).Ok? {
        FilenameCut(part, into);
      }
    } else {
      DispositionTaken(part, into);
      RequotedExactly(part.name);
      if part.filename.Some? {
        RequotedExactly(part.filename.value);
      }
    }
  }

  lemma RequotedExactly(s: string)
    ensures Requoted(s) == s <==> Unescaped(s)
  {
    QuoteReadBack(s);
  }

  lemma FormDataToken(d: Reading)
    requires d.first
    ensures TakeToken(d, Trim("form-data")) == Ok(d.(first := false))
  {
    assert Trimmed("form-data");
    TrimOfTrimmed("form-data");
  }

  // ------------------------------------------------------------ the header block

  function LineOf(h: Header): string {
    h.name + ": " + h.value
  }

  function Lines(headers: Headers): string
    requires headers != []
  {
    LineOf(headers[0]) + (if |headers| == 1 then "" else CRLF + Lines(headers[1..]))
  }

  ghost predicate GoodHeaders(headers: Headers) {
    forall i :: 0 <= i < |headers| ==> GoodHeader(headers[i])
  }

  lemma {:induction false} SerializeIsLines(headers: Headers)
    requires headers != []
    ensures SerializeHeaders(headers) == Lines(headers) + CRLF
  {
    if |headers| == 1 {
      assert SerializeHeaders(headers) == LineOf(headers[0]) + CRLF + SerializeHeaders(headers[1..]);
    } else {
      SerializeIsLines(headers[1..]);
      assert LineOf(headers[0]) + CRLF + (Lines(headers[1..]) + CRLF)
          == LineOf(headers[0]) + (CRLF + Lines(headers[1..])) + CRLF;
    }
  }

  lemma NoLineEnd(line: string)
    requires CrLfFree(line)
    ensures FindSub(line, CRLF, 0) == None
  {
    forall k: nat ensures !At(line, CRLF, k) {
      if k + 2 <= |line| {
        AtCrLf(line, k);
      }
    }
  }

  lemma {:induction false} BlockReadBack(headers: Headers)
    requires headers != [] && GoodHeaders(headers)
    ensures BlockOf(Lines(headers)) == Ok(headers)
  {
    hide BlockOf, HeaderOf, FindSub, GoodHeader;
    var line := LineOf(headers[0]);
    HeaderReadBack(headers[0]);
    if |headers| == 1 {
      assert Lines(headers) == line && headers == [headers[0]];
      NoLineEnd(line);
      BlockOfLast(line);
    } else {
      var rest := Lines(headers[1..]);
      Assoc(line, CRLF, rest);
      FindLineEnd(line, rest);
      BlockOfNext(Lines(headers), |line|);
      assert Lines(headers)[..|line|] == line && Lines(headers)[|line| + 2..] == rest;
      BlockReadBack(headers[1..]);
      assert headers == [headers[0]] + headers[1..];
    }
  }

  lemma AtBlank(s: string, k: nat)
    requires At(s, BLANK_LINE, k)
    ensures At(s, CRLF, k) && At(s, CRLF, k + 2)
  {
    assert s[k..k + 4] == BLANK_LINE;
    assert s[k..k + 2] == s[k..k + 4][..2] == CRLF;
    assert s[k + 2..k + 4] == s[k..k + 4][2..] == CRLF;
  }

  /** A blank line is not where a line ends and another one starts. */
  lemma SkipLine(line: string, t: string)
    requires CrLfFree(line) && !At(t, CRLF, 0)
    ensures var s := line + CRLF + t;
            FindSub(s, BLANK_LINE, 0) == FindSub(s, BLANK_LINE, |line| + 2)
  {
    hide FindSub;
    var s := line + CRLF + t;
    FindLineEnd(line, t);
    assert s[|line| + 2..] == t;
    AtShift(s, CRLF, |line| + 2, 0);
    forall k | 0 <= k < |line| + 2 ensures !At(s, BLANK_LINE, k) {
      if At(s, BLANK_LINE, k) {
        AtBlank(s, k);
        assert k == |line| + 1 && s[k] == '\n';
        AtCrLf(s, k);
        assert false;
      }
    }
    FindLater(s, BLANK_LINE, |line| + 2);
  }

  lemma FindLater(s: string, pat: string, from: nat)
    requires forall k :: 0 <= k < from ==> !At(s, pat, k)
    ensures FindSub(s, pat, 0) == FindSub(s, pat, from)
  {
    hide At;
    var r := FindSub(s, pat, from);
    if r.Some? {
      FindSubIs(s, pat, 0, r.value);
    }
  }

  lemma LinesStart(headers: Headers, rest: string)
    requires headers != [] && GoodHeaders(headers)
    ensures !At(Lines(headers) + rest, CRLF, 0)
  {
    var line := LineOf(headers[0]);
    HeaderReadBack(headers[0]);
    assert |line| >= 2;
    assert (Lines(headers) + rest)[0] == line[0] && (Lines(headers) + rest)[1] == line[1];
    AtCrLf(Lines(headers) + rest, 0);
  }

  /** The blank line behind the last field is the first one. */
  lemma {:induction false} FindBlankLine(headers: Headers, rest: string)
    requires headers != [] && GoodHeaders(headers)
    ensures FindSub(Lines(headers) + BLANK_LINE + rest, BLANK_LINE, 0) == Some(|Lines(headers)|)
  {
    hide FindSub, GoodHeader;
    var line := LineOf(headers[0]);
    var s := Lines(headers) + BLANK_LINE + rest;
    HeaderReadBack(headers[0]);
    if |headers| == 1 {
      FirstBlankLine(line, rest);
      assert Lines(headers) == line;
    } else {
      var lines := Lines(headers[1..]);
      var t := lines + BLANK_LINE + rest;
      FindBlankLine(headers[1..], rest);
      Assoc(lines, BLANK_LINE, rest);
      LinesStart(headers[1..], BLANK_LINE + rest);
      SkipLine(line, t);
      assert s == line + CRLF + t;
      assert s[|line| + 2..] == t;
      FindSubShift(s, BLANK_LINE, |line| + 2);
    }
  }

  lemma FirstBlankLine(line: string, rest: string)
    requires CrLfFree(line)
    ensures FindSub(line + BLANK_LINE + rest, BLANK_LINE, 0) == Some(|line|)
  {
    hide FindSub;
    var s := line + BLANK_LINE + rest;
    FindLineEnd(line, CRLF + rest);
    assert s == line + CRLF + (CRLF + rest);
    assert s[|line|..|line| + 4] == BLANK_LINE;
    forall k | 0 <= k < |line| ensures !At(s, BLANK_LINE, k) {
      if At(s, BLANK_LINE, k) {
        AtBlank(s, k);
        assert false;
      }
    }
    FindSubIs(s, BLANK_LINE, 0, |line|);
  }

  // --------------------------------------------------------------------- the body

  ghost predicate Contains(s: string, pat: string) {
    exists k :: At(s, pat, k)
  }

  /** A carriage return starts the delimiter and stands nowhere else in it, so it cannot
      begin inside a body and end behind it. */
  lemma FindDelimiter(body: string, b: string, rest: string)
    requires '\r' !in b
    ensures var found := FindSub(body + Delimiter(b) + rest, Delimiter(b), 0);
            found.Some? && found.value <= |body| && (found.value == |body| <==> !Contains(body, Delimiter(b)))
  {
    hide FindSub;
    var pat := Delimiter(b);
    var s := body + pat + rest;
    assert s[|body|..|body| + |pat|] == pat;
    assert At(s, pat, |body|);
    forall k | 0 <= k < |body| ensures At(s, pat, k) <==> At(body, pat, k) {
      if k + |pat| <= |body| {
        assert s[k..k + |pat|] == body[k..k + |pat|];
      } else {
        AtCharwise(s, pat, k);
        assert s[k + (|body| - k)] == '\r' && pat[|body| - k] != '\r';
      }
    }
    assert Contains(body, pat) ==> exists k :: 0 <= k < |body| && At(s, pat, k);
  }

  // --------------------------------------------------------------------- the parts

  ghost predicate GoodBoundary(b: string) {
    b != "" && ';' !in b && Trimmed(b) && !Quoted(b) && '\r' !in b
  }

  ghost predicate GoodPart(p: Part) {
    && p.name != "" && GoodName(p.name) && (p.filename.Some? ==> GoodName(p.filename.value))
    && Trimmed(p.contentType) && CrLfFree(p.contentType)
    && forall i :: 0 <= i < |p.headers| ==> Special(p.headers[i].name) || GoodHeader(p.headers[i])
  }

  /** The part with the header fields it is written with. */
  function Canonical(p: Part): Part {
    p.(headers := Written(p))
  }

  lemma {:induction false} OthersPlain(headers: Headers)
    requires forall i :: 0 <= i < |headers| ==> Special(headers[i].name) || GoodHeader(headers[i])
    ensures GoodHeaders(Others(headers))
    ensures forall i :: 0 <= i < |Others(headers)| ==> !Special(Others(headers)[i].name)
  {
    hide GoodHeader, Special;
    if headers != [] {
      OthersPlain(headers[1..]);
    }
  }

  lemma {:induction false} OthersOfOthers(headers: Headers)
    requires forall i :: 0 <= i < |headers| ==> !Special(headers[i].name)
    ensures Others(headers) == headers
    ensures forall p: Part :: Described(p, headers) == Ok(p)
  {
    hide Disposed;
    if headers != [] {
      OthersOfOthers(headers[1..]);
    }
  }

  lemma DispositionGood(p: Part)
    requires GoodPart(p)
    ensures GoodHeader(Header(DISPOSITION, DispositionValue(p)))
  {
    var value := DispositionValue(p);
    var name := "form-data; name=\"" + p.name + "\"";
    CrLfFreeJoin("form-data; name=\"", p.name);
    CrLfFreeJoin("form-data; name=\"" + p.name, "\"");
    match p.filename
    case None => assert name + "" == name;
    case Some(file) =>
      var filename := "; filename=\"" + file + "\"";
      CrLfFreeJoin("; filename=\"", file);
      CrLfFreeJoin("; filename=\"" + file, "\"");
      CrLfFreeJoin(name, filename);
      assert value == name + filename;
  }

  function TypeField(p: Part): Headers {
    if p.contentType == "" then [] else [Header(CONTENT_TYPE, p.contentType)]
  }

  lemma WrittenGood(p: Part)
    requires GoodPart(p)
    ensures Written(p) != [] && GoodHeaders(Written(p))
  {
    hide DispositionValue, Special;
    DispositionGood(p);
    OthersPlain(p.headers);
    assert Written(p) == [Header(DISPOSITION, DispositionValue(p))] + TypeField(p) + Others(p.headers);
    assert GoodHeaders(TypeField(p));
  }

  /** The fields a part is written with describe it. */
  lemma PartDescribed(p: Part)
    requires GoodPart(p)
    ensures Described(Part("", None, "", Written(p), ""), Written(p)) == Ok(Canonical(p).(body := ""))
  {
    hide Disposed, DispositionValue, GoodHeader, Described, Special;
    var blank := Part("", None, "", Written(p), "");
    var named := blank.(name := p.name, filename := p.filename);
    DispositionReadBack(p, blank);
    OthersPlain(p.headers);
    OthersOfOthers(Others(p.headers));
    TypeDescribed(named, p);
    DispositionDescribed(blank, named, DispositionValue(p), TypeField(p) + Others(p.headers));
    Assoc([Header(DISPOSITION, DispositionValue(p))], TypeField(p), Others(p.headers));
  }

  lemma DispositionDescribed(part: Part, next: Part, value: string, rest: Headers)
    requires Disposed(part, value) == Ok(next)
    ensures Described(part, [Header(DISPOSITION, value)] + rest) == Described(next, rest)
  {
    hide Disposed;
    var w := [Header(DISPOSITION, value)] + rest;
    assert w[0] == Header(DISPOSITION, value) && w[1..] == rest;
  }

  lemma TypeDescribed(named: Part, p: Part)
    requires named.contentType == "" && Described(named.(contentType := p.contentType), Others(p.headers)).Ok?
    ensures Described(named, TypeField(p) + Others(p.headers)) == Described(named.(contentType := p.contentType), Others(p.headers))
  {
    hide Disposed;
    if p.contentType == "" {
      assert [] + Others(p.headers) == Others(p.headers);
    } else {
      var w := TypeField(p) + Others(p.headers);
      assert w[0] == Header(CONTENT_TYPE, p.contentType) && w[1..] == Others(p.headers);
      assert |CONTENT_TYPE| != |DISPOSITION|;
    }
  }

  /** What stands behind a boundary in a printed form. */
  function Tail(parts: seq<Part>, b: string): string {
    if parts == [] then DASHES + CRLF
    else CRLF + (SerializeHeaders(Written(parts[0])) + CRLF + (parts[0].body + Delimiter(b) + Tail(parts[1..], b)))
  }

  lemma JoinParts(b: string, fields: string, body: string, tail: string)
    ensures DASHES + b + CRLF + (fields + CRLF + body + CRLF) + (DASHES + b + tail)
         == DASHES + b + (CRLF + (fields + CRLF + (body + Delimiter(b) + tail)))
  {
    var d := DASHES + b;
    assert body + Delimiter(b) + tail == body + CRLF + (d + tail);
    assert fields + CRLF + (body + CRLF + (d + tail)) == fields + CRLF + body + CRLF + (d + tail);
  }

  lemma {:induction false} PrintedIs(parts: seq<Part>, b: string)
    ensures PartsText(parts, b) + (DASHES + b + DASHES + CRLF) == DASHES + b + Tail(parts, b)
  {
    hide Written;
    if parts == [] {
      assert "" + (DASHES + b + DASHES + CRLF) == DASHES + b + (DASHES + CRLF);
    } else {
      PrintedIs(parts[1..], b);
      Assoc(PartText(parts[0], b), PartsText(parts[1..], b), DASHES + b + DASHES + CRLF);
      JoinParts(b, SerializeHeaders(Written(parts[0])), parts[0].body, Tail(parts[1..], b));
    }
  }

  lemma PartBehind(lines: string, rest: string, headers: Headers, part: Part, b: string, have: nat, limits: Limits)
    requires FindSub(lines + BLANK_LINE + rest, BLANK_LINE, 0) == Some(|lines|) && BlockOf(lines) == Ok(headers)
    requires Described(Part("", None, "", headers, ""), headers) == Ok(part) && part.name != ""
    ensures PartOf(CRLF + (lines + BLANK_LINE + rest), b, have, limits) == BodyOf(part, rest, b, have, limits)
  {
    hide BlockOf, Described, BodyOf, FindSub;
    var t := lines + BLANK_LINE + rest;
    assert (CRLF + t)[2..] == t && (CRLF + t)[0..2] == CRLF;
    assert t[..|lines|] == lines && t[|lines| + 4..] == rest;
  }

  /** The first part of a printed form, up to its body. */
  lemma HeadReadBack(p: Part, rest: string, b: string, have: nat, limits: Limits)
    requires GoodPart(p)
    ensures PartOf(CRLF + (SerializeHeaders(Written(p)) + CRLF + rest), b, have, limits)
         == BodyOf(Canonical(p).(body := ""), rest, b, have, limits)
  {
    assert p.name != "";
    WrittenGood(p);
    hide PartOf, BlockOf, Described, BodyOf, FindSub, GoodPart, Written, Lines, SerializeHeaders, GoodHeaders;
    var lines := Lines(Written(p));
    SerializeIsLines(Written(p));
    assert SerializeHeaders(Written(p)) + CRLF + rest == lines + BLANK_LINE + rest by {
      Assoc(lines, CRLF, CRLF);
    }
    FindBlankLine(Written(p), rest);
    BlockReadBack(Written(p));
    PartDescribed(p);
    PartBehind(lines, rest, Written(p), Canonical(p).(body := ""), b, have, limits);
  }

  ghost predicate FitsPart(p: Part, b: string, limits: Limits) {
    |p.body| <= limits.maxPartBytes && !Contains(p.body, Delimiter(b))
  }

  /** The form is within the limits of a parser that already has `have` parts, and no body
      contains the delimiter. */
  ghost predicate Fits(parts: seq<Part>, b: string, have: nat, limits: Limits) {
    && (parts != [] ==> have + |parts| <= limits.maxParts)
    && forall i :: 0 <= i < |parts| ==> FitsPart(parts[i], b, limits)
  }

  lemma FitsNext(parts: seq<Part>, b: string, have: nat, limits: Limits)
    requires parts != []
    ensures Fits(parts, b, have, limits)
       <==> FitsPart(parts[0], b, limits) && have + 1 <= limits.maxParts && Fits(parts[1..], b, have + 1, limits)
  {
    hide FitsPart;
    assert forall i :: 0 <= i < |parts[1..]| ==> parts[1..][i] == parts[i + 1];
    assert forall i :: 1 <= i < |parts| ==> parts[i] == parts[1..][i - 1];
  }

  /** The first part comes back exactly when it fits. */
  lemma FirstReadBack(p: Part, tail: string, b: string, have: nat, limits: Limits)
    requires GoodBoundary(b)
    ensures var r := BodyOf(Canonical(p).(body := ""), p.body + Delimiter(b) + tail, b, have, limits);
            if FitsPart(p, b, limits) && have + 1 <= limits.maxParts then r == Ok((Canonical(p), tail))
            else r.Ok? ==> r.value.0 != Canonical(p)
  {
    hide FindSub, Written, Contains;
    var s := p.body + Delimiter(b) + tail;
    FindDelimiter(p.body, b, tail);
    assert s[..|p.body|] == p.body && s[|p.body| + |Delimiter(b)|..] == tail;
  }

  function Canonicals(parts: seq<Part>): seq<Part> {
    if parts == [] then [] else [Canonical(parts[0])] + Canonicals(parts[1..])
  }

  lemma {:induction false} PartsReadBack(parts: seq<Part>, b: string, have: nat, limits: Limits)
    requires GoodBoundary(b) && forall i :: 0 <= i < |parts| ==> GoodPart(parts[i])
    ensures PartsOf(Tail(parts, b), b, have, limits) == Ok(Canonicals(parts)) <==> Fits(parts, b, have, limits)
    decreases |parts|
  {
    hide PartOf, BodyOf, GoodPart, GoodBoundary, Fits, FitsPart, Canonical, Written;
    if parts == [] {
      NothingFits(b, have, limits);
    } else {
      var p := parts[0];
      var tail := Tail(parts[1..], b);
      var s := Tail(parts, b);
      assert s[0] == '\r' && !At(s, DASHES, 0);
      HeadReadBack(p, p.body + Delimiter(b) + tail, b, have, limits);
      FirstReadBack(p, tail, b, have, limits);
      FitsNext(parts, b, have, limits);
      PartsReadBack(parts[1..], b, have + 1, limits);
      var first := PartOf(s, b, have, limits);
      var rest := if first.Ok? then first.value.1 else tail;
      ConsInjective(first, PartsOf(rest, b, have + 1, limits), Canonical(p), Canonicals(parts[1..]));
    }
  }

  lemma NothingFits(b: string, have: nat, limits: Limits)
    ensures PartsOf(Tail([], b), b, have, limits) == Ok([]) && Fits([], b, have, limits)
  {
    assert (DASHES + CRLF)[0..2] == DASHES;
  }

  lemma ConsInjective(first: Result<(Part, string), string>, rest: Result<seq<Part>, string>, p: Part, ps: seq<Part>)
    ensures first.Ok? ==> (Before(first.value.0, rest) == Ok([p] + ps) <==> first.value.0 == p && rest == Ok(ps))
  {
    if first.Ok? && rest.Ok? {
      var q := [first.value.0] + rest.value;
      assert q[0] == first.value.0 && q[1..] == rest.value;
      assert ([p] + ps)[0] == p && ([p] + ps)[1..] == ps;
    }
  }

  /** Parsing a printed form returns every part, with the fields it was written with,
      exactly when the form is within the limits and no body contains the delimiter. */
  lemma FormReadBack(parts: seq<Part>, b: string, limits: Limits)
    requires GoodBoundary(b) && forall i :: 0 <= i < |parts| ==> GoodPart(parts[i])
    ensures FormText(parts, b).Ok?
    ensures FormOf(BuildContentType(b), FormText(parts, b).value, limits) == Ok(Canonicals(parts))
       <==> Fits(parts, b, 0, limits)
  {
    hide PartsOf, PartsText, Tail, BoundaryOf, GoodPart, Fits, Trimmed, Quoted, BuildContentType, Canonicals;
    BoundaryReadBack(b);
    PrintedIs(parts, b);
    OpeningRead(b, Tail(parts, b), limits);
    PartsReadBack(parts, b, 0, limits);
  }

  lemma OpeningRead(b: string, tail: string, limits: Limits)
    requires b != "" && BoundaryOf(true, BuildContentType(b)) == Some(b)
    ensures FormOf(BuildContentType(b), DASHES + b + tail, limits) == PartsOf(tail, b, 0, limits)
  {
    hide PartsOf, BoundaryOf, BuildContentType;
    var text := DASHES + b + tail;
    assert text[0..2 + |b|] == DASHES + b && text[2 + |b|..] == tail;
  }

  /** The fields a part is written with are all it takes to write it again. */
  lemma CanonicalWritten(p: Part)
    requires GoodPart(p)
    ensures Written(Canonical(p)) == Written(p) && Canonical(Canonical(p)) == Canonical(p)
  {
    assert DispositionValue(Canonical(p)) == DispositionValue(p);
    hide GoodHeader, DispositionValue;
    OthersPlain(p.headers);
    OthersOfOthers(Others(p.headers));
    OthersBehind(Header(DISPOSITION, DispositionValue(p)), TypeField(p) + Others(p.headers));
    Assoc([Header(DISPOSITION, DispositionValue(p))], TypeField(p), Others(p.headers));
    if p.contentType == "" {
      assert [] + Others(p.headers) == Others(p.headers);
    } else {
      OthersBehind(Header(CONTENT_TYPE, p.contentType), Others(p.headers));
    }
  }

  lemma OthersBehind(h: Header, headers: Headers)
    requires h.name == DISPOSITION || h.name == CONTENT_TYPE
    ensures Others([h] + headers) == Others(headers)
  {
    assert ([h] + headers)[1..] == headers;
  }
}
