/** `application/x-www-form-urlencoded` (src/http.cpp; section 5 of the WHATWG URL
    Standard).  Strings are byte strings: every character is below 256. */
module Form {
  import opened Text

  datatype Field = Field(name: string, value: string)

  const BAD_ESCAPE := "corouv::http invalid percent-encoding in form value"
  const TOO_MANY := "corouv::http too many form fields"

  ghost predicate Bytes(s: string) {
    forall i :: 0 <= i < |s| ==> s[i] as int < 256
  }

  predicate Plain(c: char) {
    '0' <= c <= '9' || 'a' <= c <= 'z' || 'A' <= c <= 'Z' || c == '-' || c == '_' || c == '.' || c == '*'
  }

  function HexChar(d: nat): char
    requires d < 16
  {
    if d < 10 then '0' + d as char else 'A' + (d - 10) as char
  }

  predicate IsHex(c: char) {
    DigitVal(c) < 16
  }

  function EncodeByte(c: char): string
    requires c as int < 256
  {
    if Plain(c) then [c]
    else if c == ' ' then "+"
    else ['%', HexChar(c as int / 16), HexChar(c as int % 16)]
  }

  ghost function Encode(s: string): string
    requires Bytes(s)
  {
    if s == "" then "" else EncodeByte(s[0]) + Encode(s[1..])
  }

  /** What a suffix decodes to, behind bytes already decoded. */
  ghost function Behind(out: string, r: Result<string, string>): Result<string, string> {
    match r case Ok(rest) => Ok(out + rest) case Err(e) => Err(e)
  }

  ghost function Decode(s: string): Result<string, string> {
    if s == "" then Ok("")
    else if s[0] == '+' then Behind(" ", Decode(s[1..]))
    else if s[0] != '%' then Behind([s[0]], Decode(s[1..]))
    else if |s| < 3 || !IsHex(s[1]) || !IsHex(s[2]) then Err(BAD_ESCAPE)
    else Behind([Escaped(s[1], s[2])], Decode(s[3..]))
  }

  function Escaped(hi: char, lo: char): char
    requires IsHex(hi) && IsHex(lo)
  {
    (16 * DigitVal(hi) + DigitVal(lo)) as char
  }

  lemma BehindBehind(a: string, b: string, r: Result<string, string>)
    ensures Behind(a, Behind(b, r)) == Behind(a + b, r)
    ensures Behind("", r) == r
  {
    if r.Ok? {
      Assoc(a, b, r.value);
      assert "" + r.value == r.value;
    }
  }

  method UrlEncode(value: string) returns (out: string)
    requires Bytes(value)
    ensures out == Encode(value)
  {
    out := "";
    var i := 0;
    assert value[0..] == value && "" + Encode(value) == Encode(value);
    while i < |value|
      invariant 0 <= i <= |value|
      invariant out + Encode(value[i..]) == Encode(value)
    {
      var c := value[i];
      assert value[i..][1..] == value[i + 1..];
      Assoc(out, EncodeByte(c), Encode(value[i + 1..]));
      if Plain(c) {
        out := out + [c];
      } else if c == ' ' {
        out := out + "+";
      } else {
        out := out + ['%', HexChar(c as int / 16), HexChar(c as int % 16)];
      }
      i := i + 1;
    }
    assert value[i..] == "" && out + "" == out;
  }

  method UrlDecode(value: string) returns (r: Result<string, string>)
    ensures r == Decode(value)
  {
    var out := "";
    var i := 0;
    assert value[0..] == value;
    BehindBehind("", "", Decode(value));
    while i < |value|
      invariant 0 <= i <= |value|
      invariant Behind(out, Decode(value[i..])) == Decode(value)
    {
      var c := value[i];
      ghost var rest := value[i..];
      assert rest[1..] == value[i + 1..];
      if c == '+' {
        BehindBehind(out, " ", Decode(value[i + 1..]));
        out := out + " ";
        i := i + 1;
        continue;
      }
      if c != '%' {
        BehindBehind(out, [c], Decode(value[i + 1..]));
        out := out + [c];
        i := i + 1;
        continue;
      }
      if i + 2 >= |value| {
        return Err(BAD_ESCAPE);
      }
      if !IsHex(value[i + 1]) || !IsHex(value[i + 2]) {
        return Err(BAD_ESCAPE);
      }
      var byte := Escaped(value[i + 1], value[i + 2]);
      assert rest[3..] == value[i + 3..];
      BehindBehind(out, [byte], Decode(value[i + 3..]));
      out := out + [byte];
      i := i + 3;
    }
    assert value[i..] == "" && out + "" == out;
    return Ok(out);
  }

  /** Decoding the code of one byte gives it back, whatever follows. */
  lemma DecodeByte(c: char, rest: string)
    requires c as int < 256
    ensures Decode(EncodeByte(c) + rest) == Behind([c], Decode(rest))
  {
    var s := EncodeByte(c) + rest;
    if Plain(c) || c == ' ' {
      assert s[1..] == rest;
    } else {
      assert s[3..] == rest;
      HexInverts(c as int / 16);
      HexInverts(c as int % 16);
      assert 16 * (c as int / 16) + c as int % 16 == c as int;
    }
  }

  lemma HexInverts(d: nat)
    requires d < 16
    ensures DigitVal(HexChar(d)) == d
  {
  }

  /** For every byte string, decoding the encoding returns it. */
  lemma {:induction false} DecodeInverts(s: string)
    requires Bytes(s)
    ensures Decode(Encode(s)) == Ok(s)
  {
    if s != "" {
      DecodeInverts(s[1..]);
      DecodeByte(s[0], Encode(s[1..]));
      assert [s[0]] + s[1..] == s;
    }
  }

  /** Every percent sign starts an escape. */
  ghost predicate WellEscaped(s: string) {
    forall i :: 0 <= i < |s| && s[i] == '%' ==> i + 2 < |s| && IsHex(s[i + 1]) && IsHex(s[i + 2])
  }

  /** Decoding fails exactly when some percent sign does not start an escape. */
  lemma {:induction false} DecodesExactly(s: string)
    ensures Decode(s).Ok? <==> WellEscaped(s)
    ensures Decode(s).Err? ==> Decode(s) == Err(BAD_ESCAPE)
    decreases |s|
  {
    if s != "" {
      if s[0] != '%' {
        DecodesExactly(s[1..]);
        EscapedTail(s, 1);
      } else if !(|s| < 3 || !IsHex(s[1]) || !IsHex(s[2])) {
        DecodesExactly(s[3..]);
        EscapedTail(s, 3);
      }
    }
  }

  lemma EscapedTail(s: string, n: nat)
    requires n <= |s|
    requires forall i :: 0 <= i < n && s[i] == '%' ==> i + 2 < |s| && IsHex(s[i + 1]) && IsHex(s[i + 2])
    ensures WellEscaped(s) <==> WellEscaped(s[n..])
  {
    var t := s[n..];
    assert forall i :: n <= i < |s| ==> s[i] == t[i - n];
    if WellEscaped(t) {
      forall i | 0 <= i < |s| && s[i] == '%' ensures i + 2 < |s| && IsHex(s[i + 1]) && IsHex(s[i + 2]) {
        if i >= n {
          assert t[i - n] == '%';
        }
      }
    }
  }

  // Field lists.

  ghost function FieldOf(token: string): Result<Field, string> {
    var eq := FindChar(token, '=', 0);
    var name := if eq.None? then token else token[..eq.value];
    var value := if eq.None? then "" else token[eq.value + 1..];
    match Decode(name)
    case Err(e) => Err(e)
    case Ok(n) => match Decode(value) {
      case Err(e) => Err(e)
      case Ok(v) => Ok(Field(n, v))
    }
  }

  /** The fields of one token: none if it is empty. */
  ghost function FieldsOf(token: string, have: nat, max: nat): Result<seq<Field>, string> {
    if token == "" then Ok([])
    else match FieldOf(token)
    case Err(e) => Err(e)
    case Ok(f) => if have + 1 > max then Err(TOO_MANY) else Ok([f])
  }

  ghost function After(fields: seq<Field>, r: Result<seq<Field>, string>): Result<seq<Field>, string> {
    match r case Ok(rest) => Ok(fields + rest) case Err(e) => Err(e)
  }

  /** What `body` parses to when `have` fields came before it. */
  ghost function Parse(body: string, have: nat, max: nat): Result<seq<Field>, string>
    decreases |body|
  {
    var amp := FindChar(body, '&', 0);
    var token := if amp.None? then body else body[..amp.value];
    match FieldsOf(token, have, max)
    case Err(e) => Err(e)
    case Ok(fields) =>
      if amp.None? then Ok(fields)
      else After(fields, Parse(body[amp.value + 1..], have + |fields|, max))
  }

  ghost predicate ByteFields(fields: seq<Field>) {
    forall i :: 0 <= i < |fields| ==> Bytes(fields[i].name) && Bytes(fields[i].value)
  }

  ghost function Code(f: Field): string
    requires Bytes(f.name) && Bytes(f.value)
  {
    Encode(f.name) + ['='] + Encode(f.value)
  }

  ghost function Serialize(fields: seq<Field>): string
    requires ByteFields(fields)
  {
    if fields == [] then ""
    else if |fields| == 1 then Code(fields[0])
    else Code(fields[0]) + ['&'] + Serialize(fields[1..])
  }

  lemma {:induction false} EncodeIsPlain(s: string)
    requires Bytes(s)
    ensures '&' !in Encode(s) && '=' !in Encode(s)
  {
    if s != "" {
      EncodeIsPlain(s[1..]);
    }
  }

  lemma FieldReadBack(f: Field, have: nat, max: nat)
    requires Bytes(f.name) && Bytes(f.value)
    ensures '&' !in Code(f) && Code(f) != ""
    ensures FieldsOf(Code(f), have, max) == if have + 1 > max then Err(TOO_MANY) else Ok([f])
  {
    EncodeIsPlain(f.name);
    EncodeIsPlain(f.value);
    FindCharAfter(Encode(f.name), '=', Encode(f.value));
    DecodeInverts(f.name);
    DecodeInverts(f.value);
  }

  /** A first token without an ampersand, then an ampersand. */
  lemma ParseFirst(token: string, rest: string, have: nat, max: nat)
    requires '&' !in token
    ensures Parse(token + ['&'] + rest, have, max)
         == match FieldsOf(token, have, max)
            case Err(e) => Err(e)
            case Ok(fields) => After(fields, Parse(rest, have + |fields|, max))
  {
    hide FieldsOf, After;
    FindCharAfter(token, '&', rest);
  }

  lemma ParseOnly(token: string, have: nat, max: nat)
    requires '&' !in token
    ensures Parse(token, have, max) == FieldsOf(token, have, max)
  {
  }

  /** Parsing the serialization returns the same list, exactly when it is within the limit. */
  lemma {:induction false} FieldsReadBack(fields: seq<Field>, have: nat, max: nat)
    requires ByteFields(fields)
    ensures Parse(Serialize(fields), have, max)
         == if fields == [] || have + |fields| <= max then Ok(fields) else Err(TOO_MANY)
    decreases |fields|
  {
    hide Parse, FieldsOf, Code;
    if fields == [] {
      ParseOnly("", have, max);
      NoFields(have, max);
    } else {
      FieldReadBack(fields[0], have, max);
      if |fields| == 1 {
        ParseOnly(Code(fields[0]), have, max);
        assert fields == [fields[0]];
      } else {
        ParseFirst(Code(fields[0]), Serialize(fields[1..]), have, max);
        FieldsReadBack(fields[1..], have + 1, max);
        assert fields == [fields[0]] + fields[1..];
      }
    }
  }

  lemma NoFields(have: nat, max: nat)
    ensures FieldsOf("", have, max) == Ok([])
  {
  }

  method ParseFields(body: string, max: nat) returns (r: Result<seq<Field>, string>)
    ensures r == Parse(body, 0, max)
  {
    hide Parse, FieldsOf;
    var fields: seq<Field> := [];
    var start := 0;
    assert body[0..] == body;
    AfterAfter([], [], Parse(body, 0, max));
    while true
      invariant 0 <= start <= |body|
      invariant After(fields, Parse(body[start..], |fields|, max)) == Parse(body, 0, max)
      decreases |body| - start
    {
      var amp := FindChar(body, '&', start);
      var token := if amp.None? then body[start..] else body[start..amp.value];
      ghost var rest := if amp.None? then "" else body[amp.value + 1..];
      if amp.None? {
        ParseOnly(token, |fields|, max);
      } else {
        assert body[start..] == token + ['&'] + rest;
        ParseFirst(token, rest, |fields|, max);
      }
      var parsed := ParseToken(token, |fields|, max);
      if parsed.Err? {
        return Err(parsed.error);
      }
      if amp.Some? {
        AfterAfter(fields, parsed.value, Parse(rest, |fields| + |parsed.value|, max));
      }
      fields := fields + parsed.value;
      if amp.None? {
        return Ok(fields);
      }
      start := amp.value + 1;
    }
  }

  method ParseToken(token: string, have: nat, max: nat) returns (r: Result<seq<Field>, string>)
    ensures r == FieldsOf(token, have, max)
  {
    hide Decode;
    if token == "" {
      return Ok([]);
    }
    var eq := FindChar(token, '=', 0);
    var name := UrlDecode(if eq.None? then token else token[..eq.value]);
    if name.Err? {
      return Err(name.error);
    }
    var value := UrlDecode(if eq.None? then "" else token[eq.value + 1..]);
    if value.Err? {
      return Err(value.error);
    }
    if have + 1 > max {
      return Err(TOO_MANY);
    }
    return Ok([Field(name.value, value.value)]);
  }

  lemma AfterAfter(a: seq<Field>, b: seq<Field>, r: Result<seq<Field>, string>)
    ensures After(a, After(b, r)) == After(a + b, r)
    ensures After([], r) == r
  {
    if r.Ok? {
      Assoc(a, b, r.value);
      assert [] + r.value == r.value;
    }
  }

  method SerializeFields(fields: seq<Field>) returns (out: string)
    requires ByteFields(fields)
    ensures out == Serialize(fields)
  {
    out := "";
    var i := 0;
    assert fields[0..] == fields && "" + Serialize(fields) == Serialize(fields);
    while i < |fields|
      invariant 0 <= i <= |fields|
      invariant out + Joint(fields, i) + Serialize(fields[i..]) == Serialize(fields)
    {
      var name := UrlEncode(fields[i].name);
      var value := UrlEncode(fields[i].value);
      SerializeNext(out, fields, i);
      if i > 0 {
        out := out + ['&'];
      }
      out := out + (name + ['='] + value);
      i := i + 1;
    }
    assert out + "" + "" == out;
  }

  /** The separator still to be written before field `i`. */
  ghost function Joint(fields: seq<Field>, i: nat): string {
    if 0 < i < |fields| then "&" else ""
  }

  lemma SerializeNext(out: string, fields: seq<Field>, i: nat)
    requires i < |fields| && ByteFields(fields)
    ensures out + Joint(fields, i) + Serialize(fields[i..])
         == out + (if i > 0 then "&" else "") + Code(fields[i]) + Joint(fields, i + 1) + Serialize(fields[i + 1..])
  {
    hide Code;
    assert fields[i..][1..] == fields[i + 1..];
    var before := out + (if i > 0 then "&" else "");
    if i + 1 == |fields| {
      assert before + Code(fields[i]) + "" + "" == before + Code(fields[i]);
    } else {
      Assoc(before, Code(fields[i]), "&");
      Assoc(before, Code(fields[i]) + "&", Serialize(fields[i + 1..]));
    }
  }
}
