/** Placeholders in SQL text (include/corouv/sql/orm.h).  Text is given a meaning: a
    sequence of characters and bound parameters.  Each backend splits text into words,
    numbers, quoted parts and comments by its own rules.  In code, a `?` stands for the next
    parameter; in PostgreSQL a `$` that does not continue a word, with the longest run of
    digits behind it, stands for the parameter of that number. */
module Placeholders {
  import opened Text

  datatype Value = Null | Boolean(b: bool) | Integer(i: int) | Double(r: real) | Str(s: string) | Blob(bytes: string)

  type Params = seq<Value>

  /** `Junk` is a numbered placeholder that runs into a word, which PostgreSQL rejects. */
  datatype Piece = Char(c: char) | Bound(v: Value) | Unbound(n: nat) | Junk

  datatype Backend = Unknown | SQLite | PostgreSQL | MySQL

  // -------------------------------------------------------------------------- reading

  datatype Quotes = Ticks | Marks | Backticks | Brackets

  function Closer(quotes: Quotes): char {
    match quotes case Ticks => '\'' case Marks => '"' case Backticks => '`' case Brackets => ']'
  }

  /** Where a scan of SQL text is. */
  datatype Mode =
    | Code
    | Word(escape: bool)                                 // in a word; `escape` if that is E so far
    | Number
    | Dash                                               // behind a dash
    | Dashes                                             // behind two, where they need a blank to be a comment
    | Slash
    | Tag(tag: string)                                   // behind a `$` that may open a dollar quote
    | Quote(kind: Quotes, slashes: bool, escaped: bool)    // in quotes; `slashes` if backslashes escape
    | Shut(kind: Quotes, slashes: bool)                    // behind the closing quote, which may be doubled
    | Dollar(tag: string, seen: Option<string>)          // in a dollar quote; what was seen of its end
    | LineComment
    | Comment(depth: nat, prev: char)

  predicate InCode(mode: Mode) {
    !mode.Quote? && !mode.Dollar? && !mode.LineComment? && !mode.Comment?
  }

  /** A `$` here starts a token of PostgreSQL's. */
  predicate Starts(mode: Mode) {
    InCode(mode) && !mode.Word? && !mode.Tag? && !mode.Dashes?
  }

  predicate IsDigit(c: char) {
    '0' <= c <= '9'
  }

  predicate WordStart(c: char) {
    'a' <= c <= 'z' || 'A' <= c <= 'Z' || c == '_' || c as int >= 128
  }

  predicate IsE(word: string) {
    word == "e" || word == "E"
  }

  /** What a character starts in code. */
  function FromCode(b: Backend, c: char): Mode {
    if c == '\'' then Quote(Ticks, b == MySQL, false)
    else if c == '"' then Quote(Marks, b == MySQL, false)
    else if c == '`' && (b == MySQL || b == SQLite) then Quote(Backticks, false, false)
    else if c == '[' && b == SQLite then Quote(Brackets, false, false)
    else if c == '#' && b == MySQL then LineComment
    else if c == '-' then Dash
    else if c == '/' then Slash
    else if c == '$' then (if b == PostgreSQL then Tag("") else Word(false))
    else if WordStart(c) then Word(IsE([c]))
    else if IsDigit(c) then Number
    else Code
  }

  /** Behind a word; PostgreSQL's E'...' has backslash escapes. */
  function FromWord(b: Backend, escape: bool, c: char): Mode {
    if escape && c == '\'' && b == PostgreSQL then Quote(Ticks, true, false) else FromCode(b, c)
  }

  function Next(b: Backend, mode: Mode, c: char): Mode {
    match mode
    case Code => FromCode(b, c)
    case Word(escape) => if WordStart(c) || IsDigit(c) || c == '$' then Word(false) else FromWord(b, escape, c)
    case Number => if WordStart(c) || IsDigit(c) then Number else FromCode(b, c)
    case Dash =>
      if c != '-' then FromCode(b, c) else if b == MySQL then Dashes else LineComment
    case Dashes =>
      if c == '-' then Dashes else if c <= ' ' then (if c == '\n' then Code else LineComment) else FromCode(b, c)
    case Slash => if c == '*' then Comment(0, ' ') else FromCode(b, c)
    case Tag(tag) =>
      if c == '$' then Dollar(tag, None)
      else if WordStart(c) || (IsDigit(c) && tag != "") then Tag(tag + [c])
      else FromWord(b, IsE(tag), c)
    case Quote(kind, slashes, escaped) =>
      if escaped then Quote(kind, slashes, false)
      else if slashes && c == '\\' then Quote(kind, slashes, true)
      else if c == Closer(kind) then Shut(kind, slashes)
      else mode
    case Shut(kind, slashes) => if c == Closer(kind) && kind != Brackets then Quote(kind, slashes, false) else FromCode(b, c)
    case Dollar(tag, seen) =>
      if c == '$' then (if seen == Some(tag) then Code else Dollar(tag, Some("")))
      else if seen.Some? && (WordStart(c) || IsDigit(c)) then Dollar(tag, Some(seen.value + [c]))
      else Dollar(tag, None)
    case LineComment => if c == '\n' || (c == '\r' && b == PostgreSQL) then Code else LineComment
    case Comment(depth, prev) =>
      if prev == '*' && c == '/' then (if depth == 0 then Code else Comment(depth - 1, ' '))
      else if prev == '/' && c == '*' && b == PostgreSQL then Comment(depth + 1, ' ')
      else Comment(depth, c)
  }

  function End(b: Backend, mode: Mode, s: string): Mode
    decreases |s|
  {
    if s == "" then mode else End(b, Next(b, mode, s[0]), s[1..])
  }

  // -------------------------------------------------------------------------- meaning

  function Hole(params: Params, n: nat): Piece {
    if 1 <= n <= |params| then Bound(params[n - 1]) else Unbound(n)
  }

  function DigitRun(s: string): (n: nat)
    ensures n <= |s| && forall i :: 0 <= i < n ==> IsDigit(s[i])
    ensures n < |s| ==> !IsDigit(s[n])
  {
    if s != "" && IsDigit(s[0]) then 1 + DigitRun(s[1..]) else 0
  }

  /** A numbered placeholder with `rest` behind it. */
  function NumberedHole(params: Params, digits: string, rest: string): Piece {
    if rest != "" && WordStart(rest[0]) then Junk else Hole(params, ValueOf(digits, 10))
  }

  /** Meaning of text with numbered placeholders, to PostgreSQL. */
  function Numbered(s: string, params: Params, mode: Mode): seq<Piece>
    decreases |s|
  {
    if s == "" then []
    else if s[0] == '$' && Starts(mode) && DigitRun(s[1..]) > 0 then
      var n := DigitRun(s[1..]);
      [NumberedHole(params, s[1..][..n], s[1..][n..])] + Numbered(s[1..][n..], params, Code)
    else [Char(s[0])] + Numbered(s[1..], params, Next(PostgreSQL, mode, s[0]))
  }

  /** Meaning of text with `?` placeholders to backend `b`; the first is parameter `k + 1`. */
  function Positional(b: Backend, s: string, params: Params, k: nat, mode: Mode): seq<Piece>
    decreases |s|
  {
    if s == "" then []
    else if s[0] == '?' && InCode(mode) then [Hole(params, k + 1)] + Positional(b, s[1..], params, k + 1, Next(b, mode, s[0]))
    else [Char(s[0])] + Positional(b, s[1..], params, k, Next(b, mode, s[0]))
  }

  function Meaning(backend: Backend, s: string, params: Params): seq<Piece> {
    if backend == PostgreSQL then Numbered(s, params, Code) else Positional(backend, s, params, 0, Code)
  }

  function Count(s: string): nat {
    if s == "" then 0 else (if s[0] == '?' then 1 else 0) + Count(s[1..])
  }

  /** Each `?` numbered from `index` on, wherever it stands. */
  function Renumbered(s: string, index: nat): string {
    if s == "" then ""
    else if s[0] == '?' then ['$'] + Print(index, 10) + Renumbered(s[1..], index + 1)
    else [s[0]] + Renumbered(s[1..], index)
  }

  function Rendered(s: string, backend: Backend, index: nat): string {
    if backend == PostgreSQL then Renumbered(s, index) else s
  }

  // ---------------------------------------------------------------- what is preserved

  /** Would run into a numbered placeholder before it. */
  predicate Glued(t: string) {
    t != "" && (IsDigit(t[0]) || WordStart(t[0]))
  }

  /** Numbering the first character, read in `mode`, gives PostgreSQL what was meant: a `?`
      stands where a token starts, free of what follows, and a `$` is no placeholder already. */
  predicate Safe(s: string, mode: Mode)
    requires s != ""
  {
    && (s[0] == '?' ==> Starts(mode) && !Glued(s[1..]))
    && (s[0] == '$' && Starts(mode) ==> DigitRun(s[1..]) == 0)
  }

  /** No `?` stands outside the code of backend `b`, and every character is safe for
      PostgreSQL; `mode` and `pg` are where the two are in the text. */
  predicate Portable(b: Backend, s: string, mode: Mode, pg: Mode)
    decreases |s|
  {
    s == "" || ((s[0] == '?' ==> InCode(mode)) && Safe(s, pg)
                && Portable(b, s[1..], Next(b, mode, s[0]), Next(PostgreSQL, pg, s[0])))
  }

  lemma {:induction false} DigitRunIs(digits: string, rest: string)
    requires forall i :: 0 <= i < |digits| ==> IsDigit(digits[i])
    ensures DigitRun(digits + rest) == |digits| + DigitRun(rest)
  {
    if digits == "" {
      assert digits + rest == rest;
    } else {
      assert (digits + rest)[1..] == digits[1..] + rest;
      DigitRunIs(digits[1..], rest);
    }
  }

  lemma {:induction false} RenumberedDigits(digits: string, rest: string, index: nat)
    requires forall i :: 0 <= i < |digits| ==> IsDigit(digits[i])
    ensures Renumbered(digits + rest, index) == digits + Renumbered(rest, index)
  {
    if digits == "" {
      assert digits + rest == rest && "" + Renumbered(rest, index) == Renumbered(rest, index);
    } else {
      assert (digits + rest)[1..] == digits[1..] + rest;
      RenumberedDigits(digits[1..], rest, index);
      assert [digits[0]] + (digits[1..] + Renumbered(rest, index)) == digits + Renumbered(rest, index);
    }
  }

  /** Renumbering keeps what kind of character a text starts with. */
  lemma FirstKept(s: string, index: nat)
    ensures Renumbered(s, index) == "" <==> s == ""
    ensures s != "" ==> Renumbered(s, index)[0] == if s[0] == '?' then '$' else s[0]
  {
    hide Print;
  }

  /** Renumbering keeps the digits a text starts with, and adds none. */
  lemma DigitRunRenumbered(s: string, index: nat)
    ensures DigitRun(Renumbered(s, index)) == DigitRun(s)
    ensures Renumbered(s, index)[DigitRun(s)..] == Renumbered(s[DigitRun(s)..], index)
    ensures Renumbered(s, index)[..DigitRun(s)] == s[..DigitRun(s)]
  {
    var n := DigitRun(s);
    assert s == s[..n] + s[n..];
    RenumberedDigits(s[..n], s[n..], index);
    var t := Renumbered(s[n..], index);
    FirstKept(s[n..], index);
    assert t != "" ==> !IsDigit(t[0]);
    DigitRunIs(s[..n], t);
  }

  lemma PrintDigits(n: nat)
    ensures forall i :: 0 <= i < |Print(n, 10)| ==> IsDigit(Print(n, 10)[i])
  {
  }

  lemma HoleFirst(digits: string, rest: string, params: Params, mode: Mode)
    requires Starts(mode) && digits != "" && DigitRun(digits + rest) == |digits|
    ensures Numbered(['$'] + (digits + rest), params, mode)
         == [NumberedHole(params, digits, rest)] + Numbered(rest, params, Code)
  {
    hide NumberedHole, DigitRun, Next, Starts;
    var t := digits + rest;
    assert (['$'] + t)[1..] == t && t[..|digits|] == digits && t[|digits|..] == rest;
  }

  /** A placeholder takes the digits behind it: one piece for all of them. */
  lemma TakesDigits(number: string, t: string, index: nat, params: Params, mode: Mode)
    requires Starts(mode) && forall i :: 0 <= i < |number| ==> IsDigit(number[i])
    requires |number| + DigitRun(t) > 0
    ensures var d := DigitRun(t);
            Numbered(['$'] + number + Renumbered(t, index), params, mode)
            == [NumberedHole(params, number + t[..d], t[d..])] + Numbered(Renumbered(t[d..], index), params, Code)
  {
    hide ValueOf, Hole, Numbered, Renumbered, DigitRun, Starts;
    var d := DigitRun(t);
    var r := Renumbered(t, index);
    DigitRunRenumbered(t, index);
    DigitRunIs(number, r);
    assert r == t[..d] + r[d..];
    Assoc(number, t[..d], r[d..]);
    Assoc(['$'], number, r);
    FirstKept(t[d..], index);
    HoleFirst(number + t[..d], r[d..], params, mode);
  }

  // What the first character of a text becomes once the text is renumbered.

  lemma PlainPiece(s: string, index: nat, params: Params, mode: Mode)
    requires s != "" && s[0] != '?' && (s[0] == '$' && Starts(mode) ==> DigitRun(s[1..]) == 0)
    ensures Numbered(Renumbered(s, index), params, mode)
         == [Char(s[0])] + Numbered(Renumbered(s[1..], index), params, Next(PostgreSQL, mode, s[0]))
  {
    hide DigitRun, NumberedHole, Next, Starts;
    DigitRunRenumbered(s[1..], index);
    assert Renumbered(s, index)[1..] == Renumbered(s[1..], index);
  }

  lemma HolePiece(s: string, index: nat, params: Params, mode: Mode)
    requires s != "" && s[0] == '?' && Starts(mode)
    ensures var t, d := s[1..], DigitRun(s[1..]);
            Numbered(Renumbered(s, index), params, mode)
            == [NumberedHole(params, Print(index, 10) + t[..d], t[d..])] + Numbered(Renumbered(t[d..], index + 1), params, Code)
  {
    hide DigitRun, NumberedHole, Numbered, Print, Next, Starts;
    PrintDigits(index);
    TakesDigits(Print(index, 10), s[1..], index + 1, params, mode);
  }

  lemma DollarPiece(s: string, index: nat, params: Params, mode: Mode)
    requires s != "" && s[0] == '$' && Starts(mode) && DigitRun(s[1..]) > 0
    ensures Numbered(Renumbered(s, index), params, mode) != [] && !Numbered(Renumbered(s, index), params, mode)[0].Char?
  {
    hide DigitRun, Numbered, Next, Starts;
    TakesDigits("", s[1..], index, params, mode);
    assert ['$'] + "" == ['$'];
  }

  lemma TextPiece(s: string, index: nat, params: Params, mode: Mode)
    requires s != "" && s[0] == '?' && !Starts(mode)
    ensures Numbered(Renumbered(s, index), params, mode) != [] && Numbered(Renumbered(s, index), params, mode)[0] == Char('$')
  {
    hide Print, Next, Starts;
    FirstKept(s, index);
  }

  lemma NoDigitFirst(s: string, params: Params, c: char)
    requires (s == "" || !IsDigit(s[0])) && IsDigit(c)
    ensures Numbered(s, params, Code) == [] || Numbered(s, params, Code)[0] != Char(c)
  {
    hide Next, ValueOf, DigitRun;
  }

  lemma ConsEqual<T>(x: T, xs: seq<T>, y: T, ys: seq<T>)
    ensures [x] + xs == [y] + ys <==> x == y && xs == ys
  {
    assert ([x] + xs)[0] == x && ([x] + xs)[1..] == xs;
    assert ([y] + ys)[0] == y && ([y] + ys)[1..] == ys;
  }

  /** A `?` before a digit or a word: the digit is swallowed, or the placeholder is junk. */
  lemma Swallowed(b: Backend, s: string, index: nat, params: Params, mode: Mode, pg: Mode)
    requires index >= 1 && s != "" && s[0] == '?' && InCode(mode) && Starts(pg) && Glued(s[1..])
    ensures Numbered(Renumbered(s, index), params, pg) != Positional(b, s, params, index - 1, mode)
  {
    var t, d := s[1..], DigitRun(s[1..]);
    HolePiece(s, index, params, pg);
    FirstKept(t[d..], index + 1);
    assert t[d..] != "" ==> t[d..][0] == t[d];
    hide Numbered, Renumbered, DigitRun, ValueOf, Print, Next, Starts;
    var n := Numbered(Renumbered(t[d..], index + 1), params, Code);
    var p := Positional(b, t, params, index, Next(b, mode, '?'));
    assert p[0] == Char(t[0]);
    if IsDigit(t[0]) {
      NoDigitFirst(Renumbered(t[d..], index + 1), params, t[0]);
    } else {
      assert d == 0 && t[d..] == t;
    }
    ConsEqual(NumberedHole(params, Print(index, 10) + t[..d], t[d..]), n, Hole(params, index), p);
  }

  lemma TrapDiffers(b: Backend, s: string, index: nat, params: Params, mode: Mode, pg: Mode)
    requires index >= 1 && s != "" && !((s[0] == '?' ==> InCode(mode)) && Safe(s, pg))
    ensures Numbered(Renumbered(s, index), params, pg) != Positional(b, s, params, index - 1, mode)
  {
    hide Numbered, Renumbered, DigitRun, Print, Next, Starts, Glued;
    if s[0] == '?' {
      if !Starts(pg) {
        TextPiece(s, index, params, pg);
      } else if InCode(mode) {
        Swallowed(b, s, index, params, mode, pg);
      } else {
        HolePiece(s, index, params, pg);
        assert !Numbered(Renumbered(s, index), params, pg)[0].Char?;
        assert Positional(b, s, params, index - 1, mode)[0] == Char('?');
      }
    } else {
      DollarPiece(s, index, params, pg);
    }
  }

  /** What the first character means where nothing is a trap. */
  function FirstPiece(s: string, params: Params, n: nat): Piece
    requires s != ""
  {
    if s[0] == '?' then Hole(params, n) else Char(s[0])
  }

  function NextIndex(s: string, n: nat): nat
    requires s != ""
  {
    if s[0] == '?' then n + 1 else n
  }

  lemma NumberedFirst(s: string, index: nat, params: Params, pg: Mode)
    requires s != "" && Safe(s, pg)
    ensures Numbered(Renumbered(s, index), params, pg)
         == [FirstPiece(s, params, index)] + Numbered(Renumbered(s[1..], NextIndex(s, index)), params, Next(PostgreSQL, pg, s[0]))
  {
    if s[0] == '?' {
      QuestionEnds(pg);
      assert DigitRun(s[1..]) == 0;
      hide Numbered, Renumbered, DigitRun, ValueOf, Print, Hole, Next, Starts;
      HolePiece(s, index, params, pg);
      assert s[1..][..0] == "" && s[1..][0..] == s[1..] && Print(index, 10) + "" == Print(index, 10);
      ValueOfPrint(index, 10);
    } else {
      hide Numbered, Renumbered, DigitRun, Next, Starts;
      PlainPiece(s, index, params, pg);
    }
  }

  lemma QuestionEnds(mode: Mode)
    requires Starts(mode)
    ensures Next(PostgreSQL, mode, '?') == Code
  {
  }

  lemma PositionalFirst(b: Backend, s: string, params: Params, k: nat, mode: Mode)
    requires s != "" && (s[0] == '?' ==> InCode(mode))
    ensures Positional(b, s, params, k, mode)
         == [FirstPiece(s, params, k + 1)] + Positional(b, s[1..], params, NextIndex(s, k), Next(b, mode, s[0]))
  {
    hide Next;
  }

  lemma PortableNext(b: Backend, s: string, mode: Mode, pg: Mode)
    requires s != ""
    ensures Portable(b, s, mode, pg)
       <==> (s[0] == '?' ==> InCode(mode)) && Safe(s, pg) && Portable(b, s[1..], Next(b, mode, s[0]), Next(PostgreSQL, pg, s[0]))
  {
    hide Next, Safe;
  }

  lemma NoPieces(b: Backend, index: nat, params: Params, k: nat, mode: Mode, pg: Mode)
    ensures Numbered(Renumbered("", index), params, pg) == Positional(b, "", params, k, mode) == []
    ensures Portable(b, "", mode, pg)
  {
  }

  lemma {:induction false} RenumberedMeans(b: Backend, s: string, index: nat, params: Params, mode: Mode, pg: Mode)
    requires index >= 1
    ensures Numbered(Renumbered(s, index), params, pg) == Positional(b, s, params, index - 1, mode) <==> Portable(b, s, mode, pg)
    decreases |s|
  {
    hide Numbered, Positional, Renumbered, Portable, Safe, Next, InCode, Hole;
    if s == "" {
      NoPieces(b, index, params, index - 1, mode, pg);
    } else {
      PortableNext(b, s, mode, pg);
      if !((s[0] == '?' ==> InCode(mode)) && Safe(s, pg)) {
        TrapDiffers(b, s, index, params, mode, pg);
      } else {
        RenumberedMeans(b, s[1..], NextIndex(s, index), params, Next(b, mode, s[0]), Next(PostgreSQL, pg, s[0]));
        NumberedFirst(s, index, params, pg);
        PositionalFirst(b, s, params, index - 1, mode);
        ConsEqual(FirstPiece(s, params, index),
                  Numbered(Renumbered(s[1..], NextIndex(s, index)), params, Next(PostgreSQL, pg, s[0])),
                  FirstPiece(s, params, index),
                  Positional(b, s[1..], params, NextIndex(s, index - 1), Next(b, mode, s[0])));
      }
    }
  }

  /** What `?` text means to backend `b`, the rendered text means to PostgreSQL, if and only if
      every `?` stands in the code of both, starts a token of PostgreSQL's and is followed by
      neither digit nor word, and no `$` before a digit is a placeholder already. */
  lemma RenderPreserves(b: Backend, s: string, index: nat, params: Params)
    requires index >= 1
    ensures Numbered(Rendered(s, PostgreSQL, index), params, Code) == Positional(b, s, params, index - 1, Code)
       <==> Portable(b, s, Code, Code)
  {
    RenumberedMeans(b, s, index, params, Code, Code);
  }

  /** A trap anywhere spoils the text. */
  lemma {:induction false} TrapInside(b: Backend, before: string, s: string, mode: Mode, pg: Mode)
    requires s != "" && !Safe(s, End(PostgreSQL, pg, before)) && (s[0] == '?' || s[0] == '$')
    ensures !Portable(b, before + s, mode, pg)
    decreases |before|
  {
    hide Next, Starts;
    if before == "" {
      assert before + s == s;
    } else {
      assert (before + s)[1..] == before[1..] + s;
      TrapInside(b, before[1..], s, Next(b, mode, before[0]), Next(PostgreSQL, pg, before[0]));
    }
  }

  /** A `?` that touches a word before or behind it means a parameter to the other backends,
      but never to PostgreSQL once it is numbered. */
  lemma TouchingWord(b: Backend, before: string, rest: string, index: nat, params: Params)
    requires index >= 1
    requires End(PostgreSQL, Code, before).Word? || (rest != "" && WordStart(rest[0]))
    ensures Numbered(Rendered(before + (['?'] + rest), PostgreSQL, index), params, Code)
         != Positional(b, before + (['?'] + rest), params, index - 1, Code)
  {
    hide Numbered, Positional, Renumbered, Next, End;
    assert (['?'] + rest)[1..] == rest;
    TrapInside(b, before, ['?'] + rest, Code, Code);
    RenderPreserves(b, before + (['?'] + rest), index, params);
  }

  lemma {:induction false} PositionalLength(b: Backend, s: string, params: Params, k: nat, mode: Mode)
    ensures |Positional(b, s, params, k, mode)| == |s|
    decreases |s|
  {
    hide Next;
    if s != "" {
      PositionalLength(b, s[1..], params, if InCode(mode) && s[0] == '?' then k + 1 else k, Next(b, mode, s[0]));
    }
  }

  // ------------------------------------------------------------------------- the loops

  lemma {:induction false} CountAppend(a: string, b: string)
    ensures Count(a + b) == Count(a) + Count(b)
  {
    if a == "" {
      assert a + b == b;
    } else {
      assert (a + b)[1..] == a[1..] + b;
      CountAppend(a[1..], b);
    }
  }

  lemma {:induction false} RenumberedAppend(a: string, b: string, index: nat)
    ensures Renumbered(a + b, index) == Renumbered(a, index) + Renumbered(b, index + Count(a))
  {
    hide Print;
    if a == "" {
      assert a + b == b && "" + Renumbered(b, index) == Renumbered(b, index);
    } else {
      var next := if a[0] == '?' then index + 1 else index;
      var first := if a[0] == '?' then ['$'] + Print(index, 10) else [a[0]];
      assert (a + b)[1..] == a[1..] + b;
      RenumberedAppend(a[1..], b, next);
      Assoc(first, Renumbered(a[1..], next), Renumbered(b, next + Count(a[1..])));
    }
  }

  method CountQuestions(sql: string) returns (count: nat)
    ensures count == Count(sql)
  {
    count := 0;
    for i := 0 to |sql|
      invariant count == Count(sql[..i])
    {
      assert sql[..i + 1] == sql[..i] + [sql[i]];
      CountAppend(sql[..i], [sql[i]]);
      if sql[i] == '?' {
        count := count + 1;
      }
    }
    assert sql[..|sql|] == sql;
  }

  method RenderQuestions(sql: string, backend: Backend, start: nat) returns (out: string)
    ensures out == Rendered(sql, backend, start)
  {
    hide Print;
    if backend != PostgreSQL {
      return sql;
    }
    out := "";
    var index := start;
    for i := 0 to |sql|
      invariant index == start + Count(sql[..i]) && out == Renumbered(sql[..i], start)
    {
      assert sql[..i + 1] == sql[..i] + [sql[i]];
      CountAppend(sql[..i], [sql[i]]);
      RenumberedAppend(sql[..i], [sql[i]], start);
      RenumberedOne(sql[i], index);
      if sql[i] == '?' {
        out := out + (['$'] + Print(index, 10));
        index := index + 1;
      } else {
        out := out + [sql[i]];
      }
    }
    assert sql[..|sql|] == sql;
  }

  lemma RenumberedOne(c: char, index: nat)
    ensures Renumbered([c], index) == if c == '?' then ['$'] + Print(index, 10) else [c]
    ensures Count([c]) == if c == '?' then 1 else 0
  {
    hide Print;
    assert [c][1..] == "";
    assert Renumbered("", index) == "" && ['$'] + Print(index, 10) + "" == ['$'] + Print(index, 10);
  }

  // ------------------------------------------------------------- text with its parameters

  datatype Fragment = Fragment(sql: string, params: Params)

  function Cat(f: Fragment, g: Fragment): Fragment {
    Fragment(f.sql + g.sql, f.params + g.params)
  }

  /** The text ends in code, and stays there behind a blank: no literal, quoted name or
      comment is left open. */
  predicate Closed(b: Backend, s: string) {
    InCode(End(b, Code, s)) && !End(b, Code, s).Dashes?
  }

  /** The first character is what it seems to backend `b`: a `?` stands in code, and for
      PostgreSQL numbering is safe. */
  predicate Sound(b: Backend, s: string, mode: Mode)
    requires s != ""
  {
    (s[0] == '?' ==> InCode(mode)) && (b == PostgreSQL ==> Safe(s, mode))
  }

  predicate Clear(b: Backend, s: string, mode: Mode)
    decreases |s|
  {
    s == "" || (Sound(b, s, mode) && Clear(b, s[1..], Next(b, mode, s[0])))
  }

  /** For PostgreSQL's own reading of `?` text, clear is portable. */
  lemma {:induction false} ClearIsPortable(s: string, mode: Mode)
    ensures Clear(PostgreSQL, s, mode) <==> Portable(PostgreSQL, s, mode, mode)
    decreases |s|
  {
    hide Next, Glued, DigitRun;
    if s != "" {
      ClearIsPortable(s[1..], Next(PostgreSQL, mode, s[0]));
    }
  }

  /** As many `?` as parameters, none of them a trap, and nothing left open. */
  ghost predicate Whole(b: Backend, f: Fragment) {
    Count(f.sql) == |f.params| && Clear(b, f.sql, Code) && Closed(b, f.sql)
  }

  ghost function Pieces(b: Backend, f: Fragment): seq<Piece> {
    Positional(b, f.sql, f.params, 0, Code)
  }

  predicate IsSeparator(c: char) {
    c == ' ' || c == '(' || c == ')' || c == ','
  }

  /** `y` starts afresh, or `x` ends so that anything behind it does. */
  predicate Joins(x: string, y: string) {
    Separated(y) || x == "" || IsSeparator(x[|x| - 1])
  }

  predicate Separated(y: string) {
    y == "" || IsSeparator(y[0])
  }

  function Chars(s: string): seq<Piece> {
    if s == "" then [] else [Char(s[0])] + Chars(s[1..])
  }

  /** Text without a `?` that means what it says and leaves nothing open. */
  predicate Plain(b: Backend, s: string) {
    '?' !in s && Clear(b, s, Code) && Closed(b, s)
  }

  /** Key words, operators and punctuation. */
  predicate Bland(s: string) {
    forall i :: 0 <= i < |s| ==> BlandChar(s[i])
  }

  predicate BlandChar(c: char) {
    'A' <= c <= 'Z' || IsSeparator(c) || c == '=' || c == '<' || c == '>' || c == '!'
  }

  /** Bland text starts and ends nothing but words. */
  lemma {:induction false} BlandEnds(b: Backend, s: string, mode: Mode)
    requires Bland(s)
    ensures mode.Code? || mode.Word? ==> End(b, mode, s).Code? || End(b, mode, s).Word?
    ensures !InCode(mode) ==> !InCode(End(b, mode, s))
    decreases |s|
  {
    if s != "" {
      BlandNext(b, s[0], mode);
      BlandEnds(b, s[1..], Next(b, mode, s[0]));
    }
  }

  lemma BlandNext(b: Backend, c: char, mode: Mode)
    requires BlandChar(c)
    ensures mode.Code? || mode.Word? ==> Next(b, mode, c).Code? || Next(b, mode, c).Word?
    ensures !InCode(mode) ==> !InCode(Next(b, mode, c))
  {
  }

  /** A separator ends every token, where it is code at all. */
  lemma SeparatorNext(b: Backend, c: char, mode: Mode)
    requires IsSeparator(c)
    ensures InCode(mode) && !mode.Dashes? ==> Next(b, mode, c) == Code
    ensures InCode(Next(b, mode, c)) ==> Next(b, mode, c) == Code
    ensures mode.Dashes? && c == ' ' ==> Next(b, mode, c) == LineComment
  {
  }

  lemma {:induction false} EndAppend(b: Backend, mode: Mode, x: string, y: string)
    ensures End(b, mode, x + y) == End(b, End(b, mode, x), y)
    decreases |x|
  {
    hide Next;
    if x == "" {
      assert x + y == y;
    } else {
      assert (x + y)[1..] == x[1..] + y;
      EndAppend(b, Next(b, mode, x[0]), x[1..], y);
    }
  }

  lemma EndsSettled(b: Backend, x: string)
    requires Closed(b, x) && (x == "" || IsSeparator(x[|x| - 1]))
    ensures End(b, Code, x) == Code
  {
    if x != "" {
      var before, last := x[..|x| - 1], x[|x| - 1..];
      assert x == before + last && last[1..] == "";
      EndAppend(b, Code, before, last);
      SeparatorNext(b, last[0], End(b, Code, before));
    }
  }

  /** Behind closed text, joined text is read as on its own. */
  lemma SameStart(b: Backend, x: string, y: string, params: Params, k: nat)
    requires Closed(b, x) && Joins(x, y)
    ensures var mode := End(b, Code, x);
            && Positional(b, y, params, k, mode) == Positional(b, y, params, k, Code)
            && Clear(b, y, mode) == Clear(b, y, Code)
            && (y != "" ==> End(b, mode, y) == End(b, Code, y))
  {
    var mode := End(b, Code, x);
    if y != "" {
      if IsSeparator(y[0]) {
        SeparatorNext(b, y[0], mode);
        SeparatorNext(b, y[0], Code);
        hide Next;
      } else {
        EndsSettled(b, x);
        hide Next, End;
      }
    }
  }

  lemma {:induction false} PlainMeans(b: Backend, s: string, params: Params, k: nat, mode: Mode)
    requires '?' !in s
    ensures Positional(b, s, params, k, mode) == Chars(s) && Count(s) == 0
    decreases |s|
  {
    hide Next;
    if s != "" {
      PlainMeans(b, s[1..], params, k, Next(b, mode, s[0]));
    }
  }

  lemma {:induction false} UnmarkedClear(b: Backend, s: string, mode: Mode)
    requires '?' !in s && '$' !in s
    ensures Clear(b, s, mode)
    decreases |s|
  {
    hide Next;
    if s != "" {
      UnmarkedClear(b, s[1..], Next(b, mode, s[0]));
    }
  }

  lemma BlandPlain(b: Backend, s: string)
    requires Bland(s)
    ensures Plain(b, s)
  {
    UnmarkedClear(b, s, Code);
    BlandEnds(b, s, Code);
  }

  /** What ends in a placeholder character is not followed by what would run into it. */
  lemma {:induction false} ClearAppend(b: Backend, x: string, y: string, mode: Mode)
    requires Clear(b, x, mode) && Clear(b, y, End(b, mode, x))
    requires x != "" && Glued(y) ==> x[|x| - 1] != '?' && x[|x| - 1] != '$'
    ensures Clear(b, x + y, mode)
    decreases |x|
  {
    hide Next;
    if x == "" {
      assert x + y == y;
    } else {
      assert (x + y)[1..] == x[1..] + y;
      assert x[1..] != "" ==> x[1..][|x[1..]| - 1] == x[|x| - 1];
      ClearAppend(b, x[1..], y, Next(b, mode, x[0]));
      NoRun(x[1..], y);
    }
  }

  lemma NoRun(t: string, y: string)
    ensures DigitRun(t) == 0 && (t == "" ==> !Glued(y)) ==> DigitRun(t + y) == 0
    ensures !Glued(t) && (t == "" ==> !Glued(y)) ==> !Glued(t + y)
  {
  }

  lemma SeparatorFree(x: string, y: string)
    requires Joins(x, y)
    ensures x != "" && Glued(y) ==> x[|x| - 1] != '?' && x[|x| - 1] != '$'
  {
  }

  lemma PlainJoin(b: Backend, x: string, y: string)
    requires Plain(b, x) && Plain(b, y) && Joins(x, y)
    ensures Plain(b, x + y)
  {
    hide Clear, End, Joins;
    SameStart(b, x, y, [], 0);
    SeparatorFree(x, y);
    ClearAppend(b, x, y, Code);
    EndAppend(b, Code, x, y);
    EmptyEnds(b, End(b, Code, x));
  }

  lemma ParamsAround(b: Backend, s: string, all: Params, k: nat, own: Params)
    requires k + |own| <= |all| && all[k..k + |own|] == own && Count(s) <= |own|
    ensures Positional(b, s, all, k, Code) == Positional(b, s, own, 0, Code)
  {
    ParamsShift(b, s, all, k, own, 0, Code);
  }

  lemma {:induction false} ParamsShift(b: Backend, s: string, all: Params, k: nat, own: Params, j: nat, mode: Mode)
    requires k + |own| <= |all| && all[k..k + |own|] == own && j + Count(s) <= |own|
    ensures Positional(b, s, all, k + j, mode) == Positional(b, s, own, j, mode)
    decreases |s|
  {
    hide Next;
    if s != "" {
      ParamsShift(b, s[1..], all, k, own, if InCode(mode) && s[0] == '?' then j + 1 else j, Next(b, mode, s[0]));
      if s[0] == '?' {
        assert j < |own| && all[k + j] == all[k..k + |own|][j];
      }
    }
  }

  lemma {:induction false} PositionalAppend(b: Backend, x: string, y: string, params: Params, k: nat, mode: Mode)
    requires Clear(b, x, mode)
    ensures Positional(b, x + y, params, k, mode)
         == Positional(b, x, params, k, mode) + Positional(b, y, params, k + Count(x), End(b, mode, x))
    decreases |x|
  {
    hide Hole, Next, Positional, Safe;
    if x == "" {
      assert x + y == y;
      NoPieces(b, 0, params, k, mode, mode);
      assert [] + Positional(b, y, params, k, mode) == Positional(b, y, params, k, mode);
    } else {
      assert (x + y)[1..] == x[1..] + y;
      PositionalFirst(b, x, params, k, mode);
      PositionalFirst(b, x + y, params, k, mode);
      PositionalAppend(b, x[1..], y, params, NextIndex(x, k), Next(b, mode, x[0]));
      Assoc([FirstPiece(x, params, k + 1)], Positional(b, x[1..], params, NextIndex(x, k), Next(b, mode, x[0])),
            Positional(b, y, params, k + Count(x), End(b, mode, x)));
    }
  }

  /** Meaning is built up from left to right. */
  lemma CatMeans(b: Backend, f: Fragment, g: Fragment)
    requires Whole(b, f) && Whole(b, g) && Joins(f.sql, g.sql)
    ensures Whole(b, Cat(f, g)) && Pieces(b, Cat(f, g)) == Pieces(b, f) + Pieces(b, g)
  {
    hide Positional, Count, Clear, Joins, End;
    var params := f.params + g.params;
    CountAppend(f.sql, g.sql);
    SameStart(b, f.sql, g.sql, params, |f.params|);
    SeparatorFree(f.sql, g.sql);
    ClearAppend(b, f.sql, g.sql, Code);
    EndAppend(b, Code, f.sql, g.sql);
    EmptyEnds(b, End(b, Code, f.sql));
    PositionalAppend(b, f.sql, g.sql, params, 0, Code);
    assert params[0..|f.params|] == f.params && params[|f.params|..|f.params| + |g.params|] == g.params;
    ParamsAround(b, f.sql, params, 0, f.params);
    ParamsAround(b, g.sql, params, |f.params|, g.params);
  }

  lemma EmptyEnds(b: Backend, mode: Mode)
    ensures End(b, mode, "") == mode
  {
  }

  lemma PlainWhole(b: Backend, s: string)
    requires Plain(b, s)
    ensures Whole(b, Fragment(s, [])) && Pieces(b, Fragment(s, [])) == Chars(s)
  {
    PlainMeans(b, s, [], 0, Code);
  }

  /** Plain text in front of a fragment or behind it. */
  lemma TextBefore(b: Backend, s: string, f: Fragment)
    requires Plain(b, s) && Whole(b, f) && Joins(s, f.sql)
    ensures Whole(b, Fragment(s + f.sql, f.params)) && Pieces(b, Fragment(s + f.sql, f.params)) == Chars(s) + Pieces(b, f)
  {
    hide Whole, Pieces, Plain, Joins;
    PlainWhole(b, s);
    CatMeans(b, Fragment(s, []), f);
    assert [] + f.params == f.params;
  }

  lemma TextBehind(b: Backend, f: Fragment, s: string)
    requires Plain(b, s) && Whole(b, f) && Joins(f.sql, s)
    ensures Whole(b, Fragment(f.sql + s, f.params)) && Pieces(b, Fragment(f.sql + s, f.params)) == Pieces(b, f) + Chars(s)
  {
    hide Whole, Pieces, Plain, Joins;
    PlainWhole(b, s);
    CatMeans(b, f, Fragment(s, []));
    assert f.params + [] == f.params;
  }

  lemma OneHole(b: Backend, v: Value)
    ensures Whole(b, Fragment("?", [v])) && Pieces(b, Fragment("?", [v])) == [Bound(v)]
  {
    assert "?"[1..] == "";
    assert Positional(b, "?", [v], 0, Code) == [Hole([v], 1)] + Positional(b, "", [v], 1, Next(b, Code, '?'));
    assert End(b, Code, "?") == End(b, Next(b, Code, '?'), "");
  }
}
