/** Byte strings and the small library vocabulary the C++ sources lean on:
    `std::string_view::find`, `std::isspace`, `std::tolower`, `std::to_string`,
    `snprintf("%zx")` and `std::from_chars`. */
module Text {

  datatype Option<+T> = None | Some(value: T)

  datatype Result<+T, +E> = Ok(value: T) | Err(error: E)

  /** One past the largest `std::size_t`. */
  const SIZE_MOD: nat := 0x1_0000_0000_0000_0000

  const CRLF: string := "\r\n"

  /** An HTTP or MIME header field, in the order it was written. */
  datatype Header = Header(name: string, value: string)

  type Headers = seq<Header>

  // ---------------------------------------------------------------- searching

  /** `pat` occurs in `s` at index `i`. */
  predicate At(s: string, pat: string, i: int) {
    0 <= i && i + |pat| <= |s| && s[i..i + |pat|] == pat
  }

  /** `s.find(pat, from)`. */
  function FindSub(s: string, pat: string, from: nat): (r: Option<nat>)
    ensures r.Some? ==> from <= r.value && At(s, pat, r.value)
    ensures r.Some? ==> forall k :: from <= k < r.value ==> !At(s, pat, k)
    ensures r.None? ==> forall k :: from <= k ==> !At(s, pat, k)
    decreases |s| - from
  {
    if from + |pat| > |s| then None
    else if At(s, pat, from) then Some(from)
    else FindSub(s, pat, from + 1)
  }

  /** `s.find(c, from)`. */
  function FindChar(s: string, c: char, from: nat): (r: Option<nat>)
    ensures r.Some? ==> from <= r.value < |s| && s[r.value] == c
    ensures r.Some? ==> forall k :: from <= k < r.value ==> s[k] != c
    ensures r.None? ==> forall k :: from <= k < |s| ==> s[k] != c
    decreases |s| - from
  {
    if from >= |s| then None
    else if s[from] == c then Some(from)
    else FindChar(s, c, from + 1)
  }

  lemma FindSubIs(s: string, pat: string, from: nat, i: nat)
    requires from <= i && At(s, pat, i)
    requires forall k :: from <= k < i ==> !At(s, pat, k)
    ensures FindSub(s, pat, from) == Some(i)
  {
    assert At(s, pat, i);
  }

  /** The first `c` of `a c b` is the one after a `c`-free `a`. */
  lemma FindCharAfter(a: string, c: char, b: string)
    requires c !in a
    ensures FindChar(a + [c] + b, c, 0) == Some(|a|)
    ensures (a + [c] + b)[..|a|] == a && (a + [c] + b)[|a| + 1..] == b
  {
    var s := a + [c] + b;
    assert s[|a|] == c && forall k :: 0 <= k < |a| ==> s[k] == a[k];
  }

  lemma AtCharwise(s: string, pat: string, i: nat)
    requires i + |pat| <= |s|
    ensures At(s, pat, i) <==> forall j :: 0 <= j < |pat| ==> s[i + j] == pat[j]
  {
    var w := s[i..i + |pat|];
    assert forall j :: 0 <= j < |pat| ==> w[j] == s[i + j];
  }

  /** No line break inside `s`. */
  ghost predicate CrLfFree(s: string) {
    forall i :: 0 <= i < |s| - 1 ==> s[i] != '\r' || s[i + 1] != '\n'
  }

  lemma CrLfFreeJoin(a: string, b: string)
    requires CrLfFree(a) && CrLfFree(b)
    requires a == [] || b == [] || a[|a| - 1] != '\r' || b[0] != '\n'
    ensures CrLfFree(a + b)
  {
    var s := a + b;
    forall i | 0 <= i < |s| - 1 ensures s[i] != '\r' || s[i + 1] != '\n' {
      if i + 1 < |a| {
        assert s[i] == a[i] && s[i + 1] == a[i + 1];
      } else if i >= |a| {
        assert s[i] == b[i - |a|] && s[i + 1] == b[i - |a| + 1];
      }
    }
  }

  lemma AtCrLf(s: string, i: nat)
    requires i + 2 <= |s|
    ensures At(s, CRLF, i) <==> s[i] == '\r' && s[i + 1] == '\n'
  {
    assert s[i..i + 2] == [s[i], s[i + 1]];
  }

  /** The first line break of `line CRLF rest` is the one after `line`. */
  lemma FindLineEnd(line: string, rest: string)
    requires CrLfFree(line)
    ensures FindSub(line + CRLF + rest, CRLF, 0) == Some(|line|)
  {
    var s := line + CRLF + rest;
    assert s[|line|] == '\r' && s[|line| + 1] == '\n';
    forall k | 0 <= k <= |line| ensures At(s, CRLF, k) <==> k == |line| {
      AtCrLf(s, k);
      assert k + 1 < |line| ==> s[k] == line[k] && s[k + 1] == line[k + 1];
    }
    FindSubIs(s, CRLF, 0, |line|);
  }

  /** Sequence concatenation is associative; stated once so that proofs can say where. */
  lemma Assoc<T>(a: seq<T>, b: seq<T>, c: seq<T>)
    ensures a + b + c == a + (b + c)
  {
  }

  // ------------------------------------------------------ characters and case

  predicate IsSpace(c: char) {
    c == ' ' || 9 <= c as int <= 13
  }

  function ToLower(c: char): char {
    if 'A' <= c <= 'Z' then (c as int + 32) as char else c
  }

  predicate IEquals(a: string, b: string) {
    |a| == |b| && forall i :: 0 <= i < |a| ==> ToLower(a[i]) == ToLower(b[i])
  }

  // ------------------------------------------------------------------ trimming

  function TrimLeft(s: string): string {
    if s != [] && IsSpace(s[0]) then TrimLeft(s[1..]) else s
  }

  function TrimRight(s: string): string {
    if s != [] && IsSpace(s[|s| - 1]) then TrimRight(s[..|s| - 1]) else s
  }

  function Trim(s: string): string {
    TrimRight(TrimLeft(s))
  }

  predicate Trimmed(s: string) {
    s == [] || (!IsSpace(s[0]) && !IsSpace(s[|s| - 1]))
  }

  predicate AllSpace(s: string) {
    forall i :: 0 <= i < |s| ==> IsSpace(s[i])
  }

  lemma TrimOfTrimmed(s: string)
    requires Trimmed(s)
    ensures Trim(s) == s && Trim([' '] + s) == s
  {
    assert ([' '] + s)[1..] == s;
  }

  lemma {:induction false} TrimLeftSplits(s: string) returns (pad: string)
    ensures s == pad + TrimLeft(s) && AllSpace(pad)
    ensures TrimLeft(s) != [] ==> !IsSpace(TrimLeft(s)[0])
  {
    if s != [] && IsSpace(s[0]) {
      var p := TrimLeftSplits(s[1..]);
      pad := [s[0]] + p;
      assert s == [s[0]] + s[1..];
    } else {
      pad := [];
    }
  }

  lemma {:induction false} TrimRightSplits(s: string) returns (pad: string)
    ensures s == TrimRight(s) + pad && AllSpace(pad)
    ensures TrimRight(s) != [] ==> !IsSpace(TrimRight(s)[|TrimRight(s)| - 1])
  {
    if s != [] && IsSpace(s[|s| - 1]) {
      var p := TrimRightSplits(s[..|s| - 1]);
      pad := p + [s[|s| - 1]];
      assert s == s[..|s| - 1] + [s[|s| - 1]];
    } else {
      pad := [];
    }
  }

  /** Trimming removes white space at both ends and nothing else. */
  lemma TrimSplits(s: string) returns (left: string, right: string)
    ensures s == left + Trim(s) + right
    ensures AllSpace(left) && AllSpace(right) && Trimmed(Trim(s))
  {
    left := TrimLeftSplits(s);
    right := TrimRightSplits(TrimLeft(s));
    var m := TrimLeft(s);
    if Trim(s) != [] {
      assert m[0] == Trim(s)[0];
    }
  }

  /** `trim_copy`: two index loops closing in from both ends. */
  method TrimCopy(value: string) returns (r: string)
    ensures r == Trim(value)
  {
    var begin, end := 0, |value|;
    assert value[0..] == value;
    while begin < end && IsSpace(value[begin])
      invariant 0 <= begin <= end == |value|
      invariant TrimLeft(value) == TrimLeft(value[begin..])
    {
      assert value[begin..][1..] == value[begin + 1..];
      begin := begin + 1;
    }
    assert value[begin..end] == value[begin..];
    while end > begin && IsSpace(value[end - 1])
      invariant begin <= end <= |value|
      invariant Trim(value) == TrimRight(value[begin..end])
    {
      assert value[begin..end][..end - begin - 1] == value[begin..end - 1];
      end := end - 1;
    }
    r := value[begin..end];
  }

  // ------------------------------------------------------------------- numbers

  predicate IsBase(base: nat) {
    base == 10 || base == 16
  }

  /** Lower-case digit, as `%zx` and `std::to_string` print it. */
  function DigitChar(d: nat): (c: char)
    requires d < 16
    ensures DigitVal(c) == d
  {
    if d < 10 then ('0' as int + d) as char else ('a' as int + (d - 10)) as char
  }

  /** Value of a digit of either case; 99 for any other character. */
  function DigitVal(c: char): nat {
    if '0' <= c <= '9' then c as int - '0' as int
    else if 'a' <= c <= 'f' then 10 + (c as int - 'a' as int)
    else if 'A' <= c <= 'F' then 10 + (c as int - 'A' as int)
    else 99
  }

  function Print(n: nat, base: nat): (s: string)
    requires IsBase(base)
    ensures s != []
    ensures forall i :: 0 <= i < |s| ==> DigitVal(s[i]) < base
  {
    if n < base then [DigitChar(n)] else Print(n / base, base) + [DigitChar(n % base)]
  }

  function ValueOf(s: string, base: nat): nat {
    if s == [] then 0 else ValueOf(s[..|s| - 1], base) * base + DigitVal(s[|s| - 1])
  }

  /** `std::from_chars` over the whole text: digits only, at least one, no overflow. */
  function FromChars(s: string, base: nat): Option<nat>
    requires IsBase(base)
  {
    if s == [] || (exists i :: 0 <= i < |s| && DigitVal(s[i]) >= base) then None
    else if ValueOf(s, base) >= SIZE_MOD then None
    else Some(ValueOf(s, base))
  }

  lemma {:induction false} ValueOfPrint(n: nat, base: nat)
    requires IsBase(base)
    ensures ValueOf(Print(n, base), base) == n
  {
    var s := Print(n, base);
    if n < base {
      assert s[..0] == [];
    } else {
      ValueOfPrint(n / base, base);
      assert s[..|s| - 1] == Print(n / base, base);
      if base == 10 {
        assert n == n / 10 * 10 + n % 10;
      } else {
        assert n == n / 16 * 16 + n % 16;
      }
    }
  }

  /** Printing a size and parsing it back is the identity, in base 10 and 16. */
  lemma ParsePrint(n: nat, base: nat)
    requires IsBase(base) && n < SIZE_MOD
    ensures FromChars(Print(n, base), base) == Some(n)
  {
    ValueOfPrint(n, base);
  }

  /** A printed number holds only digits: no white space and none of the other characters. */
  lemma PrintIsPlain(n: nat, base: nat)
    requires IsBase(base)
    ensures Trimmed(Print(n, base)) && CrLfFree(Print(n, base))
    ensures forall i :: 0 <= i < |Print(n, base)| ==> Print(n, base)[i] !in ";,:"
  {
    assert forall c: char :: DigitVal(c) < 99 ==> !IsSpace(c) && c !in ";,:";
  }
}
