/** The header-driven framing decisions of src/http.cpp: what the writer puts into
    the headers and what the reader's header parsers make of them (section 6.3 of
    RFC 9112). */
module HttpHeaders {
  import opened Text
  import opened HttpReader

  const CONNECTION := "Connection"
  const CONTENT_LENGTH := "Content-Length"
  const TRANSFER_ENCODING := "Transfer-Encoding"
  const EXPECT := "Expect"

  const BAD_CONTENT_LENGTH := Error(400, "invalid Content-Length")
  const CONFLICTING_CONTENT_LENGTH := Error(400, "conflicting Content-Length headers")
  const DUPLICATE_CHUNKED := "invalid HTTP message: duplicate chunked Transfer-Encoding"
  const UNSUPPORTED_ENCODING := "unsupported Transfer-Encoding"

  datatype Expectation = NoExpectation | Continue100 | Unsupported

  // ----------------------------------------------------------- header lists

  /** The values of all headers called `name`, in order. */
  function Values(headers: Headers, name: string): seq<string> {
    if headers == [] then []
    else (if IEquals(headers[0].name, name) then [headers[0].value] else []) + Values(headers[1..], name)
  }

  function EraseHeader(headers: Headers, name: string): Headers {
    if headers == [] then []
    else (if IEquals(headers[0].name, name) then [] else [headers[0]]) + EraseHeader(headers[1..], name)
  }

  function SetHeader(headers: Headers, name: string, value: string): Headers {
    EraseHeader(headers, name) + [Header(name, value)]
  }

  function PrepareOutgoing(headers: Headers, keepAlive: bool, chunked: bool, bodySize: nat): Headers {
    var bare := EraseHeader(EraseHeader(EraseHeader(headers, CONNECTION), CONTENT_LENGTH), TRANSFER_ENCODING);
    var linked := SetHeader(bare, CONNECTION, if keepAlive then "keep-alive" else "close");
    if chunked then SetHeader(linked, TRANSFER_ENCODING, "chunked")
    else SetHeader(linked, CONTENT_LENGTH, Print(bodySize, 10))
  }

  lemma {:induction false} ValuesAppend(a: Headers, b: Headers, name: string)
    ensures Values(a + b, name) == Values(a, name) + Values(b, name)
  {
    if a == [] {
      assert a + b == b;
    } else {
      ValuesAppend(a[1..], b, name);
      assert (a + b)[1..] == a[1..] + b;
      Assoc(if IEquals(a[0].name, name) then [a[0].value] else [], Values(a[1..], name), Values(b, name));
    }
  }

  /** Erasing a name removes all its values and no others. */
  lemma {:induction false} ValuesErase(headers: Headers, erased: string, name: string)
    requires |erased| != |name| || erased == name
    ensures Values(EraseHeader(headers, erased), name) == if erased == name then [] else Values(headers, name)
  {
    if headers != [] {
      ValuesErase(headers[1..], erased, name);
      ValuesAppend(if IEquals(headers[0].name, erased) then [] else [headers[0]], EraseHeader(headers[1..], erased), name);
    }
  }

  lemma ValuesSet(headers: Headers, set_: string, value: string, name: string)
    requires |set_| != |name| || set_ == name
    ensures Values(SetHeader(headers, set_, value), name) == if set_ == name then [value] else Values(headers, name)
  {
    var h := Header(set_, value);
    ValuesErase(headers, set_, name);
    ValuesAppend(EraseHeader(headers, set_), [h], name);
    assert Values([h], name) == if set_ == name then [value] else [];
  }

  lemma ValuesPrepared(headers: Headers, keepAlive: bool, chunked: bool, bodySize: nat, name: string)
    requires name == CONNECTION || name == CONTENT_LENGTH || name == TRANSFER_ENCODING || name == EXPECT
    ensures Values(PrepareOutgoing(headers, keepAlive, chunked, bodySize), name)
         == if name == CONNECTION then [if keepAlive then "keep-alive" else "close"]
            else if name == TRANSFER_ENCODING then (if chunked then ["chunked"] else [])
            else if name == CONTENT_LENGTH then (if chunked then [] else [Print(bodySize, 10)])
            else Values(headers, name)
  {
    var one := EraseHeader(headers, CONNECTION);
    var two := EraseHeader(one, CONTENT_LENGTH);
    var bare := EraseHeader(two, TRANSFER_ENCODING);
    ValuesErase(headers, CONNECTION, name);
    ValuesErase(one, CONTENT_LENGTH, name);
    ValuesErase(two, TRANSFER_ENCODING, name);
    var word := if keepAlive then "keep-alive" else "close";
    ValuesSet(bare, CONNECTION, word, name);
    var linked := SetHeader(bare, CONNECTION, word);
    if chunked {
      ValuesSet(linked, TRANSFER_ENCODING, "chunked", name);
    } else {
      ValuesSet(linked, CONTENT_LENGTH, Print(bodySize, 10), name);
    }
  }

  // ---------------------------------------------------------- Content-Length

  function ContentLengthFrom(values: seq<string>, parsed: Option<nat>): Result<Option<nat>, Error> {
    if values == [] then Ok(parsed)
    else match FromChars(Trim(values[0]), 10)
         case None => Err(BAD_CONTENT_LENGTH)
         case Some(n) =>
           if parsed.Some? && parsed.value != n then Err(CONFLICTING_CONTENT_LENGTH)
           else ContentLengthFrom(values[1..], Some(n))
  }

  function ContentLength(headers: Headers): Result<Option<nat>, Error> {
    ContentLengthFrom(Values(headers, CONTENT_LENGTH), None)
  }

  /** A length is announced exactly when there is one and every header announces it. */
  lemma {:induction false} ContentLengthMeaning(values: seq<string>, parsed: Option<nat>, n: nat)
    ensures ContentLengthFrom(values, parsed) == Ok(Some(n)) <==>
            && (values != [] || parsed.Some?)
            && (parsed.Some? ==> parsed.value == n)
            && forall i :: 0 <= i < |values| ==> FromChars(Trim(values[i]), 10) == Some(n)
    ensures ContentLengthFrom(values, parsed) == Ok(None) <==> values == [] && parsed.None?
  {
    if values != [] {
      var first := FromChars(Trim(values[0]), 10);
      if first.Some? {
        ContentLengthMeaning(values[1..], first, n);
        assert forall i :: 0 < i < |values| ==> values[i] == values[1..][i - 1];
      }
    }
  }

  method ParseContentLength(headers: Headers) returns (r: Result<Option<nat>, Error>)
    ensures r == ContentLength(headers)
  {
    var parsed: Option<nat> := None;
    var i := 0;
    assert headers[0..] == headers;
    while i < |headers|
      invariant 0 <= i <= |headers|
      invariant ContentLengthFrom(Values(headers[i..], CONTENT_LENGTH), parsed) == ContentLength(headers)
    {
      assert headers[i..][1..] == headers[i + 1..];
      if IEquals(headers[i].name, CONTENT_LENGTH) {
        ghost var values := Values(headers[i..], CONTENT_LENGTH);
        assert values[0] == headers[i].value && values[1..] == Values(headers[i + 1..], CONTENT_LENGTH);
        var value := TrimCopy(headers[i].value);
        var current := FromChars(value, 10);
        if current.None? {
          return Err(BAD_CONTENT_LENGTH);
        }
        if parsed.Some? && parsed.value != current.value {
          return Err(CONFLICTING_CONTENT_LENGTH);
        }
        parsed := current;
      } else {
        assert Values(headers[i..], CONTENT_LENGTH) == Values(headers[i + 1..], CONTENT_LENGTH);
      }
      i := i + 1;
    }
    return Ok(parsed);
  }

  // ------------------------------------------------------ comma-separated lists

  /** The trimmed elements of a comma-separated value; nothing follows a final comma. */
  function Tokens(value: string): seq<string>
    decreases |value|
  {
    if value == "" then []
    else match FindChar(value, ',', 0)
         case None => [Trim(value)]
         case Some(c) => [Trim(value[..c])] + Tokens(value[c + 1..])
  }

  function AllTokens(values: seq<string>): seq<string> {
    if values == [] then [] else Tokens(values[0]) + AllTokens(values[1..])
  }

  /** The tokens from header `i` on: its own, if it has the name, then the later ones. */
  lemma AllTokensStep(headers: Headers, i: nat, name: string)
    requires i < |headers|
    ensures AllTokens(Values(headers[i..], name))
         == if IEquals(headers[i].name, name)
            then Tokens(headers[i].value) + AllTokens(Values(headers[i + 1..], name))
            else AllTokens(Values(headers[i + 1..], name))
  {
    var later := Values(headers[i + 1..], name);
    assert headers[i..][1..] == headers[i + 1..];
    if IEquals(headers[i].name, name) {
      assert Values(headers[i..], name) == [headers[i].value] + later;
      assert ([headers[i].value] + later)[1..] == later;
    } else {
      assert Values(headers[i..], name) == [] + later == later;
    }
  }

  method SplitTokens(value: string) returns (tokens: seq<string>)
    ensures tokens == Tokens(value)
  {
    tokens := [];
    var remaining := value;
    while remaining != ""
      invariant tokens + Tokens(remaining) == Tokens(value)
      decreases |remaining|
    {
      var comma := FindChar(remaining, ',', 0);
      var token := TrimCopy(if comma.Some? then remaining[..comma.value] else remaining);
      if comma.None? {
        return tokens + [token];
      }
      Assoc(tokens, [token], Tokens(remaining[comma.value + 1..]));
      tokens := tokens + [token];
      remaining := remaining[comma.value + 1..];
    }
  }

  ghost predicate ContainsToken(values: seq<string>, token: string) {
    exists i, t :: 0 <= i < |values| && t in Tokens(values[i]) && IEquals(t, token)
  }

  method ValueContainsToken(value: string, token: string) returns (r: bool)
    ensures r <==> exists t :: t in Tokens(value) && IEquals(t, token)
  {
    var tokens := SplitTokens(value);
    var j := 0;
    while j < |tokens|
      invariant 0 <= j <= |tokens|
      invariant forall k :: 0 <= k < j ==> !IEquals(tokens[k], token)
    {
      if IEquals(tokens[j], token) {
        assert tokens[j] in tokens;
        return true;
      }
      j := j + 1;
    }
    return false;
  }

  method HeaderContainsToken(headers: Headers, name: string, token: string) returns (r: bool)
    ensures r <==> ContainsToken(Values(headers, name), token)
  {
    var i := 0;
    assert headers[0..] == headers;
    while i < |headers|
      invariant 0 <= i <= |headers|
      invariant ContainsToken(Values(headers[i..], name), token) <==> ContainsToken(Values(headers, name), token)
    {
      assert headers[i..][1..] == headers[i + 1..];
      if IEquals(headers[i].name, name) {
        ContainsTokenCons(headers[i].value, Values(headers[i + 1..], name), token);
        var found := ValueContainsToken(headers[i].value, token);
        if found {
          return true;
        }
      } else {
        assert Values(headers[i..], name) == Values(headers[i + 1..], name);
      }
      i := i + 1;
    }
    return false;
  }

  lemma ContainsTokenCons(value: string, values: seq<string>, token: string)
    ensures ContainsToken([value] + values, token) <==>
            (exists t :: t in Tokens(value) && IEquals(t, token)) || ContainsToken(values, token)
  {
    var all := [value] + values;
    assert all[0] == value && forall i :: 0 <= i < |values| ==> all[i + 1] == values[i];
    if ContainsToken(values, token) {
      var i, t :| 0 <= i < |values| && t in Tokens(values[i]) && IEquals(t, token);
      assert t in Tokens(all[i + 1]);
    }
    if ContainsToken(all, token) {
      var i, t :| 0 <= i < |all| && t in Tokens(all[i]) && IEquals(t, token);
      assert i == 0 || t in Tokens(values[i - 1]);
    }
  }

  // ------------------------------------------------------- Transfer-Encoding

  /** `Ok(true)` for chunked, `Ok(false)` for none. */
  function EncodingFrom(tokens: seq<string>, sawChunked: bool): Result<bool, string> {
    if tokens == [] then Ok(sawChunked)
    else if tokens[0] == "" then EncodingFrom(tokens[1..], sawChunked)
    else if !IEquals(tokens[0], "chunked") then Err(UNSUPPORTED_ENCODING)
    else if sawChunked then Err(DUPLICATE_CHUNKED)
    else EncodingFrom(tokens[1..], true)
  }

  function TransferEncoding(headers: Headers): Result<bool, string> {
    EncodingFrom(AllTokens(Values(headers, TRANSFER_ENCODING)), false)
  }

  function NonEmpty(tokens: seq<string>): seq<string> {
    if tokens == [] then [] else (if tokens[0] == "" then [] else [tokens[0]]) + NonEmpty(tokens[1..])
  }

  /** Accepted are no coding at all and the single coding `chunked`; nothing else. */
  lemma {:induction false} EncodingMeaning(tokens: seq<string>, sawChunked: bool)
    ensures EncodingFrom(tokens, sawChunked) == Ok(true) <==>
            if sawChunked then NonEmpty(tokens) == []
            else |NonEmpty(tokens)| == 1 && IEquals(NonEmpty(tokens)[0], "chunked")
    ensures EncodingFrom(tokens, sawChunked) == Ok(false) <==> NonEmpty(tokens) == [] && !sawChunked
  {
    if tokens != [] {
      EncodingMeaning(tokens[1..], sawChunked);
      EncodingMeaning(tokens[1..], true);
    }
  }

  lemma {:induction false} EncodingAppend(a: seq<string>, b: seq<string>, sawChunked: bool)
    ensures EncodingFrom(a + b, sawChunked)
         == match EncodingFrom(a, sawChunked)
            case Err(e) => Err(e)
            case Ok(saw) => EncodingFrom(b, saw)
  {
    if a == [] {
      assert a + b == b;
    } else {
      assert (a + b)[1..] == a[1..] + b;
      EncodingAppend(a[1..], b, sawChunked);
      EncodingAppend(a[1..], b, true);
    }
  }

  method ScanEncoding(value: string, saw: bool) returns (r: Result<bool, string>)
    ensures r == EncodingFrom(Tokens(value), saw)
  {
    var sawChunked := saw;
    var tokens := SplitTokens(value);
    assert tokens[0..] == tokens;
    var j := 0;
    while j < |tokens|
      invariant 0 <= j <= |tokens|
      invariant EncodingFrom(tokens[j..], sawChunked) == EncodingFrom(tokens, saw)
    {
      assert tokens[j..][1..] == tokens[j + 1..];
      if tokens[j] != "" {
        if !IEquals(tokens[j], "chunked") {
          return Err(UNSUPPORTED_ENCODING);
        }
        if sawChunked {
          return Err(DUPLICATE_CHUNKED);
        }
        sawChunked := true;
      }
      j := j + 1;
    }
    return Ok(sawChunked);
  }

  method ParseEncoding(headers: Headers, name: string) returns (r: Result<bool, string>)
    ensures r == EncodingFrom(AllTokens(Values(headers, name)), false)
  {
    var sawChunked := false;
    var i := 0;
    assert headers[0..] == headers;
    while i < |headers|
      invariant 0 <= i <= |headers|
      invariant EncodingFrom(AllTokens(Values(headers[i..], name)), sawChunked)
             == EncodingFrom(AllTokens(Values(headers, name)), false)
    {
      AllTokensStep(headers, i, name);
      if IEquals(headers[i].name, name) {
        EncodingAppend(Tokens(headers[i].value), AllTokens(Values(headers[i + 1..], name)), sawChunked);
        var scanned := ScanEncoding(headers[i].value, sawChunked);
        if scanned.Err? {
          return Err(scanned.error);
        }
        sawChunked := scanned.value;
      }
      i := i + 1;
    }
    return Ok(sawChunked);
  }

  method ParseTransferEncoding(headers: Headers) returns (r: Result<bool, string>)
    ensures r == TransferEncoding(headers)
  {
    r := ParseEncoding(headers, TRANSFER_ENCODING);
  }

  // --------------------------------------------------- Expect and Connection

  /** Some non-empty token is, or is not, `100-continue`. */
  predicate AnyToken(tokens: seq<string>, isContinue: bool) {
    exists i :: 0 <= i < |tokens| && tokens[i] != "" && IEquals(tokens[i], "100-continue") == isContinue
  }

  lemma AnyTokenAppend(a: seq<string>, b: seq<string>, isContinue: bool)
    ensures AnyToken(a + b, isContinue) <==> AnyToken(a, isContinue) || AnyToken(b, isContinue)
  {
    var s := a + b;
    assert forall i :: 0 <= i < |a| ==> s[i] == a[i];
    assert forall i :: 0 <= i < |b| ==> s[i + |a|] == b[i];
    if AnyToken(s, isContinue) {
      var i :| 0 <= i < |s| && s[i] != "" && IEquals(s[i], "100-continue") == isContinue;
      assert if i < |a| then s[i] == a[i] else s[i] == b[i - |a|];
    }
  }

  /** Any token other than `100-continue` makes the expectation unsupported. */
  function ExpectationOf(tokens: seq<string>): Expectation {
    if AnyToken(tokens, false) then Unsupported
    else if AnyToken(tokens, true) then Continue100
    else NoExpectation
  }

  function Expect(headers: Headers): Expectation {
    ExpectationOf(AllTokens(Values(headers, EXPECT)))
  }

  method ScanExpect(value: string, isContinue: bool) returns (r: bool)
    ensures r <==> AnyToken(Tokens(value), isContinue)
  {
    r := false;
    var tokens := SplitTokens(value);
    var j := 0;
    while j < |tokens|
      invariant 0 <= j <= |tokens|
      invariant r <==> exists k :: 0 <= k < j && tokens[k] != "" && IEquals(tokens[k], "100-continue") == isContinue
    {
      if tokens[j] != "" && IEquals(tokens[j], "100-continue") == isContinue {
        r := true;
      }
      j := j + 1;
    }
  }

  method ParseExpect(headers: Headers) returns (r: Expectation)
    ensures r == Expect(headers)
  {
    var sawContinue, sawOther := false, false;
    var i := 0;
    assert headers[0..] == headers;
    ghost var all := AllTokens(Values(headers, EXPECT));
    while i < |headers|
      invariant 0 <= i <= |headers|
      invariant AnyToken(all, false) <==> sawOther || AnyToken(AllTokens(Values(headers[i..], EXPECT)), false)
      invariant AnyToken(all, true) <==> sawContinue || AnyToken(AllTokens(Values(headers[i..], EXPECT)), true)
    {
      AllTokensStep(headers, i, EXPECT);
      if IEquals(headers[i].name, EXPECT) {
        AnyTokenAppend(Tokens(headers[i].value), AllTokens(Values(headers[i + 1..], EXPECT)), false);
        AnyTokenAppend(Tokens(headers[i].value), AllTokens(Values(headers[i + 1..], EXPECT)), true);
        var other := ScanExpect(headers[i].value, false);
        var continue_ := ScanExpect(headers[i].value, true);
        sawOther := sawOther || other;
        sawContinue := sawContinue || continue_;
      }
      i := i + 1;
    }
    return if sawOther then Unsupported else if sawContinue then Continue100 else NoExpectation;
  }

  ghost function KeepAlive(headers: Headers, minor: int): bool {
    if ContainsToken(Values(headers, CONNECTION), "close") then false
    else if ContainsToken(Values(headers, CONNECTION), "keep-alive") then true
    else minor >= 1
  }

  method ShouldKeepAlive(headers: Headers, minor: int) returns (r: bool)
    ensures r == KeepAlive(headers, minor)
  {
    var close := HeaderContainsToken(headers, CONNECTION, "close");
    if close {
      return false;
    }
    var keep := HeaderContainsToken(headers, CONNECTION, "keep-alive");
    if keep {
      return true;
    }
    return minor >= 1;
  }

  predicate ResponseHasBody(status: int, requestMethod: string) {
    !IEquals(requestMethod, "HEAD") && !(100 <= status < 200) && status != 204 && status != 304
  }

  // --------------------------------------------------------- framing agreement

  lemma OneToken(value: string)
    requires value != "" && ',' !in value && Trimmed(value)
    ensures Tokens(value) == [value] && AllTokens([value]) == [value]
  {
    TrimOfTrimmed(value);
    assert AllTokens([value]) == Tokens(value) + AllTokens([]);
  }

  /** Whatever the caller's headers, the reader's parsers see exactly the framing, the
      length and the persistence the writer chose, and the caller's expectation. */
  lemma FramingAgreement(headers: Headers, keepAlive: bool, chunked: bool, bodySize: nat, minor: int)
    requires bodySize < SIZE_MOD
    ensures var out := PrepareOutgoing(headers, keepAlive, chunked, bodySize);
            && ContentLength(out) == Ok(if chunked then None else Some(bodySize))
            && TransferEncoding(out) == Ok(chunked)
            && KeepAlive(out, minor) == keepAlive
            && Expect(out) == Expect(headers)
  {
    LengthAgreement(headers, keepAlive, chunked, bodySize);
    EncodingAgreement(headers, keepAlive, chunked, bodySize);
    PersistenceAgreement(headers, keepAlive, chunked, bodySize, minor);
    ValuesPrepared(headers, keepAlive, chunked, bodySize, EXPECT);
  }

  lemma LengthAgreement(headers: Headers, keepAlive: bool, chunked: bool, bodySize: nat)
    requires bodySize < SIZE_MOD
    ensures ContentLength(PrepareOutgoing(headers, keepAlive, chunked, bodySize))
         == Ok(if chunked then None else Some(bodySize))
  {
    ValuesPrepared(headers, keepAlive, chunked, bodySize, CONTENT_LENGTH);
    if !chunked {
      var printed := Print(bodySize, 10);
      ParsePrint(bodySize, 10);
      PrintIsPlain(bodySize, 10);
      TrimOfTrimmed(printed);
      assert ContentLengthFrom([printed], None) == ContentLengthFrom([], Some(bodySize));
    }
  }

  lemma EncodingAgreement(headers: Headers, keepAlive: bool, chunked: bool, bodySize: nat)
    ensures TransferEncoding(PrepareOutgoing(headers, keepAlive, chunked, bodySize)) == Ok(chunked)
  {
    ValuesPrepared(headers, keepAlive, chunked, bodySize, TRANSFER_ENCODING);
    ChunkedAlone("chunked");
  }

  lemma ChunkedAlone(word: string)
    requires word != "" && ',' !in word && Trimmed(word) && IEquals(word, "chunked")
    ensures EncodingFrom(AllTokens([word]), false) == Ok(true)
  {
    OneToken(word);
    assert EncodingFrom([word], false) == EncodingFrom([], true);
  }

  lemma PersistenceAgreement(headers: Headers, keepAlive: bool, chunked: bool, bodySize: nat, minor: int)
    ensures KeepAlive(PrepareOutgoing(headers, keepAlive, chunked, bodySize), minor) == keepAlive
  {
    hide ContainsToken;
    var word := if keepAlive then "keep-alive" else "close";
    ConnectionWritten(headers, keepAlive, chunked, bodySize);
    hide Values, PrepareOutgoing;
    ConnectionRead(word, keepAlive);
  }

  lemma ConnectionWritten(headers: Headers, keepAlive: bool, chunked: bool, bodySize: nat)
    ensures Values(PrepareOutgoing(headers, keepAlive, chunked, bodySize), CONNECTION)
         == [if keepAlive then "keep-alive" else "close"]
  {
    hide PrepareOutgoing, Values;
    ValuesPrepared(headers, keepAlive, chunked, bodySize, CONNECTION);
  }

  lemma ConnectionRead(word: string, keepAlive: bool)
    requires word == if keepAlive then "keep-alive" else "close"
    ensures ContainsToken([word], "close") == !keepAlive && ContainsToken([word], "keep-alive") == keepAlive
  {
    hide ContainsToken;
    assert |"close"| != |"keep-alive"|;
    OneTokenContains(word, "close");
    OneTokenContains(word, "keep-alive");
  }

  lemma OneTokenContains(word: string, token: string)
    requires word != "" && ',' !in word && Trimmed(word)
    ensures ContainsToken([word], token) <==> IEquals(word, token)
  {
    OneToken(word);
    assert [word] == [word] + [];
    ContainsTokenCons(word, [], token);
    assert word in [word];
  }

  predicate Owned(name: string) {
    IEquals(name, CONNECTION) || IEquals(name, CONTENT_LENGTH) || IEquals(name, TRANSFER_ENCODING)
  }

  /** The headers the writer does not own. */
  function Others(headers: Headers): Headers {
    if headers == [] then []
    else (if Owned(headers[0].name) then [] else [headers[0]]) + Others(headers[1..])
  }

  lemma {:induction false} OthersAppend(a: Headers, b: Headers)
    ensures Others(a + b) == Others(a) + Others(b)
  {
    if a == [] {
      assert a + b == b;
    } else {
      OthersAppend(a[1..], b);
      assert (a + b)[1..] == a[1..] + b;
      Assoc(if Owned(a[0].name) then [] else [a[0]], Others(a[1..]), Others(b));
    }
  }

  lemma {:induction false} OthersErase(headers: Headers, name: string)
    requires name == CONNECTION || name == CONTENT_LENGTH || name == TRANSFER_ENCODING
    ensures Others(EraseHeader(headers, name)) == Others(headers)
  {
    if headers != [] {
      OthersErase(headers[1..], name);
      OthersAppend(if IEquals(headers[0].name, name) then [] else [headers[0]], EraseHeader(headers[1..], name));
    }
  }

  /** Preparing the headers changes no header the writer does not own, nor their order. */
  lemma PreparePreservesOthers(headers: Headers, keepAlive: bool, chunked: bool, bodySize: nat)
    ensures Others(PrepareOutgoing(headers, keepAlive, chunked, bodySize)) == Others(headers)
  {
    var one := EraseHeader(headers, CONNECTION);
    var two := EraseHeader(one, CONTENT_LENGTH);
    var bare := EraseHeader(two, TRANSFER_ENCODING);
    OthersErase(headers, CONNECTION);
    OthersErase(one, CONTENT_LENGTH);
    OthersErase(two, TRANSFER_ENCODING);
    var word := if keepAlive then "keep-alive" else "close";
    OthersSet(bare, CONNECTION, word);
    var linked := SetHeader(bare, CONNECTION, word);
    OthersSet(linked, TRANSFER_ENCODING, "chunked");
    OthersSet(linked, CONTENT_LENGTH, Print(bodySize, 10));
  }

  lemma OthersSet(headers: Headers, name: string, value: string)
    requires name == CONNECTION || name == CONTENT_LENGTH || name == TRANSFER_ENCODING
    ensures Others(SetHeader(headers, name, value)) == Others(headers)
  {
    OthersErase(headers, name);
    OthersAppend(EraseHeader(headers, name), [Header(name, value)]);
    assert Others([Header(name, value)]) == [];
  }
}
