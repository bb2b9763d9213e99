/** Clause builders (include/corouv/sql/orm.h). */
module Clauses {
  import opened Text
  import opened Placeholders

  const EMPTY_COLUMN := "corouv::sql::orm empty where column"
  const EMPTY_IN := "corouv::sql::orm where_in values is empty"
  const EMPTY_WITH_PARAMS := "corouv::sql::orm empty where clause with non-empty params"
  const COUNT_MISMATCH := "corouv::sql::orm where clause placeholder count mismatch"
  const MIXED_MODE := "corouv::sql::orm mixed placeholder rewrite mode in where_combine"

  datatype WhereClause = WhereClause(sql: string, params: Params, rewrite: bool)

  /** Why a clause is rejected, if it is. */
  function Fault(w: WhereClause): Option<string> {
    if w.sql == "" then if w.params != [] then Some(EMPTY_WITH_PARAMS) else None
    else if w.rewrite && Count(w.sql) != |w.params| then Some(COUNT_MISMATCH)
    else None
  }

  method Validate(w: WhereClause) returns (fault: Option<string>)
    ensures fault == Fault(w)
  {
    if w.sql == "" {
      return if w.params != [] then Some(EMPTY_WITH_PARAMS) else None;
    }
    if !w.rewrite {
      return None;
    }
    var count := CountQuestions(w.sql);
    return if count != |w.params| then Some(COUNT_MISMATCH) else None;
  }

  function RenderedClause(w: WhereClause, backend: Backend, start: nat): Result<string, string> {
    match Fault(w)
    case Some(e) => Err(e)
    case None => Ok(if w.rewrite then Rendered(w.sql, backend, start) else w.sql)
  }

  method RenderClause(w: WhereClause, backend: Backend, start: nat) returns (r: Result<string, string>)
    ensures r == RenderedClause(w, backend, start)
  {
    var fault := Validate(w);
    if fault.Some? {
      return Err(fault.value);
    }
    if !w.rewrite {
      return Ok(w.sql);
    }
    var text := RenderQuestions(w.sql, backend, start);
    return Ok(text);
  }

  // --------------------------------------------------------------------------- builders

  datatype Op = Eq | Ne | Gt | Ge | Lt | Le | Like

  function OpText(op: Op): string {
    match op
    case Eq => "="
    case Ne => "!="
    case Gt => ">"
    case Ge => ">="
    case Lt => "<"
    case Le => "<="
    case Like => "LIKE"
  }

  function WhereBinary(column: string, op: string, value: Value): Result<WhereClause, string> {
    if column == "" then Err(EMPTY_COLUMN)
    else Ok(WhereClause(column + " " + op + " ?", [value], true))
  }

  function WhereBetween(column: string, low: Value, high: Value): Result<WhereClause, string> {
    if column == "" then Err(EMPTY_COLUMN)
    else Ok(WhereClause(column + " BETWEEN ? AND ?", [low, high], true))
  }

  /** `count` question marks between commas. */
  function Questions(count: nat): string {
    if count == 0 then "" else if count == 1 then "?" else Questions(count - 1) + ", ?"
  }

  method QuestionPlaceholders(count: nat) returns (out: string)
    ensures out == Questions(count)
  {
    out := "";
    for i := 0 to count
      invariant out == Questions(i)
    {
      if i > 0 {
        out := out + ", ";
      }
      out := out + ['?'];
    }
  }

  function WhereIn(column: string, values: Params): Result<WhereClause, string> {
    if column == "" then Err(EMPTY_COLUMN)
    else if values == [] then Err(EMPTY_IN)
    else Ok(WhereClause(column + " IN (" + Questions(|values|) + ")", values, true))
  }

  function WhereText(column: string, text: string): Result<WhereClause, string> {
    if column == "" then Err(EMPTY_COLUMN) else Ok(WhereClause(column + text, [], true))
  }

  function WhereNot(w: WhereClause): Result<WhereClause, string> {
    match Fault(w)
    case Some(e) => Err(e)
    case None =>
      if w.sql == "" then Ok(w)
      else Ok(WhereClause("NOT (" + w.sql + ")", w.params, w.rewrite))
  }

  /** What has been combined so far. */
  datatype Combining = Combining(sql: string, params: Params, first: bool, mode: Option<bool>)

  /** The rewrite mode once `w` is added: parameters decide, and must agree. */
  function Mode(so: Combining, w: WhereClause): Result<bool, string> {
    match so.mode
    case None => Ok(w.rewrite)
    case Some(mode) =>
      if mode == w.rewrite || w.params == [] then Ok(mode)
      else if so.params == [] then Ok(w.rewrite)
      else Err(MIXED_MODE)
  }

  function CombineOne(so: Combining, w: WhereClause, op: string): Result<Combining, string> {
    if w.sql == "" then Ok(so)
    else match Fault(w)
    case Some(e) => Err(e)
    case None => match Mode(so, w) {
      case Err(e) => Err(e)
      case Ok(mode) =>
        Ok(Combining(so.sql + (if so.first then "" else " " + op + " ") + ("(" + w.sql + ")"),
                     so.params + w.params, false, Some(mode)))
    }
  }

  function CombineAll(so: Combining, ws: seq<WhereClause>, op: string): Result<Combining, string>
    decreases |ws|
  {
    if ws == [] then Ok(so)
    else match CombineOne(so, ws[0], op)
    case Err(e) => Err(e)
    case Ok(next) => CombineAll(next, ws[1..], op)
  }

  const NOTHING := Combining("", [], true, None)

  function Combined(ws: seq<WhereClause>, op: string): Result<WhereClause, string> {
    match CombineAll(NOTHING, ws, op)
    case Err(e) => Err(e)
    case Ok(so) => Ok(WhereClause(so.sql, so.params, if so.mode.None? then true else so.mode.value))
  }

  method Combine(ws: seq<WhereClause>, op: string) returns (r: Result<WhereClause, string>)
    ensures r == Combined(ws, op)
  {
    hide CombineOne;
    var so := NOTHING;
    var i := 0;
    assert ws[0..] == ws;
    while i < |ws|
      invariant 0 <= i <= |ws|
      invariant CombineAll(so, ws[i..], op) == CombineAll(NOTHING, ws, op)
    {
      assert ws[i..][1..] == ws[i + 1..];
      var next := AddClause(so, ws[i], op);
      if next.Err? {
        return Err(next.error);
      }
      so := next.value;
      i := i + 1;
    }
    assert ws[i..] == [];
    return Ok(WhereClause(so.sql, so.params, if so.mode.None? then true else so.mode.value));
  }

  method AddClause(so: Combining, w: WhereClause, op: string) returns (r: Result<Combining, string>)
    ensures r == CombineOne(so, w, op)
  {
    if w.sql == "" {
      return Ok(so);
    }
    var fault := Validate(w);
    if fault.Some? {
      return Err(fault.value);
    }
    var mode := so.mode;
    if mode.None? {
      mode := Some(w.rewrite);
    } else if mode.value != w.rewrite {
      if w.params != [] {
        if so.params == [] {
          mode := Some(w.rewrite);
        } else {
          return Err(MIXED_MODE);
        }
      }
    }
    var sql := so.sql;
    if !so.first {
      sql := sql + (" " + op + " ");
    } else {
      assert sql + "" == sql;
    }
    return Ok(Combining(sql + ("(" + w.sql + ")"), so.params + w.params, false, mode));
  }

  // ------------------------------------------------------------------------ clause trees

  datatype Clause = Compare(column: string, op: Op, value: Value)
                  | Between(column: string, low: Value, high: Value)
                  | In(column: string, values: Params)
                  | IsNull(column: string)
                  | IsNotNull(column: string)
                  | Not(clause: Clause)
                  | All(clauses: seq<Clause>)
                  | Any(clauses: seq<Clause>)

  function Built(c: Clause): Result<WhereClause, string>
    decreases c
  {
    match c
    case Compare(column, op, value) => WhereBinary(column, OpText(op), value)
    case Between(column, low, high) => WhereBetween(column, low, high)
    case In(column, values) => WhereIn(column, values)
    case IsNull(column) => WhereText(column, " IS NULL")
    case IsNotNull(column) => WhereText(column, " IS NOT NULL")
    case Not(clause) => (match Built(clause) case Ok(w) => WhereNot(w) case Err(e) => Err(e))
    case All(clauses) => (match BuiltAll(clauses) case Ok(ws) => Combined(ws, "AND") case Err(e) => Err(e))
    case Any(clauses) => (match BuiltAll(clauses) case Ok(ws) => Combined(ws, "OR") case Err(e) => Err(e))
  }

  function BuiltAll(cs: seq<Clause>): Result<seq<WhereClause>, string>
    decreases cs
  {
    if cs == [] then Ok([])
    else match Built(cs[0])
    case Err(e) => Err(e)
    case Ok(w) => match BuiltAll(cs[1..]) {
      case Err(e) => Err(e)
      case Ok(ws) => Ok([w] + ws)
    }
  }

  /** What a clause says, independently of any placeholder syntax. */
  function Said(c: Clause): seq<Piece>
    decreases c
  {
    match c
    case Compare(column, op, value) => Chars(column + " " + OpText(op) + " ") + [Bound(value)]
    case Between(column, low, high) => Chars(column + " BETWEEN ") + [Bound(low)] + Chars(" AND ") + [Bound(high)]
    case In(column, values) => Chars(column + " IN (") + Listed(values) + Chars(")")
    case IsNull(column) => Chars(column + " IS NULL")
    case IsNotNull(column) => Chars(column + " IS NOT NULL")
    case Not(clause) => if Said(clause) == [] then [] else Chars("NOT (") + Said(clause) + Chars(")")
    case All(clauses) => Joined([], SaidAll(clauses), "AND")
    case Any(clauses) => Joined([], SaidAll(clauses), "OR")
  }

  function SaidAll(cs: seq<Clause>): seq<seq<Piece>>
    decreases cs
  {
    if cs == [] then [] else [Said(cs[0])] + SaidAll(cs[1..])
  }

  function Listed(values: Params): seq<Piece> {
    if values == [] then []
    else if |values| == 1 then [Bound(values[0])]
    else Listed(values[..|values| - 1]) + Chars(", ") + [Bound(values[|values| - 1])]
  }

  /** Non-empty parts in parentheses with the connective between them. */
  function Joined(so: seq<Piece>, parts: seq<seq<Piece>>, op: string): seq<Piece>
    decreases |parts|
  {
    if parts == [] then so
    else if parts[0] == [] then Joined(so, parts[1..], op)
    else Joined(so + (if so == [] then [] else Chars(" " + op + " ")) + (Chars("(") + parts[0] + Chars(")")), parts[1..], op)
  }

  predicate PlainColumns(b: Backend, c: Clause)
    decreases c
  {
    match c
    case Not(clause) => PlainColumns(b, clause)
    case All(clauses) => forall i :: 0 <= i < |clauses| ==> PlainColumns(b, clauses[i])
    case Any(clauses) => forall i :: 0 <= i < |clauses| ==> PlainColumns(b, clauses[i])
    case _ => Plain(b, c.column)
  }

  /** No empty column name and no empty list of values anywhere. */
  predicate WellFormed(c: Clause)
    decreases c
  {
    match c
    case Not(clause) => WellFormed(clause)
    case All(clauses) => forall i :: 0 <= i < |clauses| ==> WellFormed(clauses[i])
    case Any(clauses) => forall i :: 0 <= i < |clauses| ==> WellFormed(clauses[i])
    case In(column, values) => column != "" && values != []
    case _ => c.column != ""
  }

  function FragmentOf(w: WhereClause): Fragment {
    Fragment(w.sql, w.params)
  }

  ghost predicate Means(b: Backend, w: WhereClause, pieces: seq<Piece>) {
    w.rewrite && Whole(b, FragmentOf(w)) && Pieces(b, FragmentOf(w)) == pieces
  }

  /** Text, then one more parameter. */
  lemma HoleBehind(b: Backend, f: Fragment, s: string, v: Value)
    requires Whole(b, f) && Plain(b, s) && s != "" && IsSeparator(s[|s| - 1]) && Joins(f.sql, s)
    ensures Whole(b, Fragment(f.sql + (s + "?"), f.params + [v]))
    ensures Pieces(b, Fragment(f.sql + (s + "?"), f.params + [v])) == Pieces(b, f) + (Chars(s) + [Bound(v)])
  {
    hide Whole, Pieces, Plain;
    OneHole(b, v);
    assert (s + "?")[0] == s[0];
    TextBefore(b, s, Fragment("?", [v]));
    CatMeans(b, f, Fragment(s + "?", [v]));
  }

  lemma NothingMeans(b: Backend)
    ensures Whole(b, Fragment("", [])) && Pieces(b, Fragment("", [])) == []
  {
  }

  lemma OperatorPlain(b: Backend, column: string, op: Op)
    requires Plain(b, column)
    ensures Plain(b, column + " " + OpText(op) + " ")
  {
    assert Bland(OpText(op));
    hide Plain;
    BlandPlain(b, " ");
    BlandPlain(b, OpText(op));
    PlainJoin(b, column, " ");
    PlainJoin(b, column + " ", OpText(op));
    PlainJoin(b, column + " " + OpText(op), " ");
  }

  lemma CompareMeans(b: Backend, column: string, op: Op, value: Value)
    requires Plain(b, column) && column != ""
    ensures Means(b, WhereBinary(column, OpText(op), value).value, Chars(column + " " + OpText(op) + " ") + [Bound(value)])
  {
    var text := column + " " + OpText(op) + " ";
    OperatorPlain(b, column, op);
    hide Whole, Pieces, OpText, Chars, Plain;
    OneHole(b, value);
    TextBefore(b, text, Fragment("?", [value]));
    assert text + "?" == column + " " + OpText(op) + " ?";
  }

  lemma BetweenMeans(b: Backend, column: string, low: Value, high: Value)
    requires Plain(b, column) && column != ""
    ensures Means(b, WhereBetween(column, low, high).value,
                  Chars(column + " BETWEEN ") + [Bound(low)] + Chars(" AND ") + [Bound(high)])
  {
    hide Whole, Pieces, Chars, Plain;
    var text := column + " BETWEEN ";
    BlandPlain(b, " BETWEEN ");
    BlandPlain(b, " AND ");
    PlainJoin(b, column, " BETWEEN ");
    OneHole(b, low);
    TextBefore(b, text, Fragment("?", [low]));
    HoleBehind(b, Fragment(text + "?", [low]), " AND ", high);
    assert text + "?" + (" AND " + "?") == column + " BETWEEN ? AND ?" && [low] + [high] == [low, high];
    Assoc(Chars(text) + [Bound(low)], Chars(" AND "), [Bound(high)]);
  }

  lemma {:induction false} QuestionsMean(b: Backend, values: Params)
    ensures Whole(b, Fragment(Questions(|values|), values))
    ensures Pieces(b, Fragment(Questions(|values|), values)) == Listed(values)
  {
    hide Whole, Pieces;
    if values == [] {
      NothingMeans(b);
    } else if |values| == 1 {
      OneHole(b, values[0]);
      assert values == [values[0]];
    } else {
      var before, last := values[..|values| - 1], values[|values| - 1];
      QuestionsMean(b, before);
      BlandPlain(b, ", ");
      HoleBehind(b, Fragment(Questions(|before|), before), ", ", last);
      assert before + [last] == values && ", " + "?" == ", ?";
      Assoc(Listed(before), Chars(", "), [Bound(last)]);
    }
  }

  lemma {:induction false} QuestionsStart(n: nat)
    requires n > 0
    ensures Questions(n) != "" && Questions(n)[0] == '?'
  {
    if n > 1 {
      QuestionsStart(n - 1);
    }
  }

  lemma InMeans(b: Backend, column: string, values: Params)
    requires Plain(b, column) && column != "" && values != []
    ensures Means(b, WhereIn(column, values).value, Chars(column + " IN (") + Listed(values) + Chars(")"))
  {
    QuestionsStart(|values|);
    hide Whole, Pieces, Questions, Listed, Plain;
    QuestionsMean(b, values);
    BlandPlain(b, " IN (");
    BlandPlain(b, ")");
    PlainJoin(b, column, " IN (");
    TextBefore(b, column + " IN (", Fragment(Questions(|values|), values));
    TextBehind(b, Fragment(column + " IN (" + Questions(|values|), values), ")");
  }

  lemma TextMeans(b: Backend, column: string, text: string)
    requires Plain(b, column) && Bland(text) && Separated(text) && column != ""
    ensures Means(b, WhereText(column, text).value, Chars(column + text))
  {
    BlandPlain(b, text);
    PlainJoin(b, column, text);
    PlainWhole(b, column + text);
  }

  lemma NotMeans(b: Backend, w: WhereClause, pieces: seq<Piece>)
    requires Means(b, w, pieces)
    ensures WhereNot(w).Ok?
    ensures Means(b, WhereNot(w).value, if pieces == [] then [] else Chars("NOT (") + pieces + Chars(")"))
  {
    SameEmptiness(b, w, pieces);
    assert Fault(w) == None by {
      assert w.sql == "" ==> Count(w.sql) == 0;
    }
    hide Whole, Pieces, Plain;
    BlandPlain(b, "NOT (");
    BlandPlain(b, ")");
    TextBefore(b, "NOT (", FragmentOf(w));
    TextBehind(b, Fragment("NOT (" + w.sql, w.params), ")");
  }

  lemma SameEmptiness(b: Backend, w: WhereClause, pieces: seq<Piece>)
    requires Means(b, w, pieces)
    ensures w.sql == "" <==> pieces == []
  {
    PositionalLength(b, w.sql, w.params, 0, Code);
  }

  // Combining.

  ghost predicate Holds(b: Backend, so: Combining, pieces: seq<Piece>) {
    && Whole(b, Fragment(so.sql, so.params)) && Pieces(b, Fragment(so.sql, so.params)) == pieces
    && (so.first <==> so.sql == "") && (so.sql == "" <==> pieces == []) && so.mode != Some(false)
  }

  lemma CombineOneMeans(b: Backend, so: Combining, pieces: seq<Piece>, w: WhereClause, said: seq<Piece>, op: string)
    requires Holds(b, so, pieces) && Means(b, w, said) && Bland(op) && said != []
    ensures CombineOne(so, w, op).Ok?
    ensures Holds(b, CombineOne(so, w, op).value,
                  pieces + (if pieces == [] then [] else Chars(" " + op + " ")) + (Chars("(") + said + Chars(")")))
  {
    SameEmptiness(b, w, said);
    assert Fault(w) == None;
    BlandPlain(b, "(");
    BlandPlain(b, ")");
    BlandPlain(b, " " + op + " ");
    hide Whole, Pieces, Positional, Clear, Count, Plain, Bland, Closed;
    TextBefore(b, "(", FragmentOf(w));
    TextBehind(b, Fragment("(" + w.sql, w.params), ")");
    var f := Fragment(so.sql, so.params);
    var sep := if so.first then "" else " " + op + " ";
    if !so.first {
      TextBehind(b, f, sep);
    } else {
      assert so.sql + "" == so.sql && pieces + [] == pieces;
    }
    CatMeans(b, Fragment(so.sql + sep, so.params), Fragment("(" + w.sql + ")", w.params));
  }

  lemma {:induction false} CombineAllMeans(b: Backend, so: Combining, pieces: seq<Piece>, ws: seq<WhereClause>, said: seq<seq<Piece>>, op: string)
    requires Holds(b, so, pieces) && Bland(op) && |ws| == |said|
    requires forall i :: 0 <= i < |ws| ==> Means(b, ws[i], said[i])
    ensures CombineAll(so, ws, op).Ok? && Holds(b, CombineAll(so, ws, op).value, Joined(pieces, said, op))
    decreases |ws|
  {
    hide Holds, Means, Bland;
    if ws != [] {
      SameEmptiness(b, ws[0], said[0]);
      if said[0] == [] {
        CombineAllMeans(b, so, pieces, ws[1..], said[1..], op);
      } else {
        CombineOneMeans(b, so, pieces, ws[0], said[0], op);
        var next := CombineOne(so, ws[0], op).value;
        var more := pieces + (if pieces == [] then [] else Chars(" " + op + " ")) + (Chars("(") + said[0] + Chars(")"));
        hide CombineOne;
        CombineAllMeans(b, next, more, ws[1..], said[1..], op);
      }
    }
  }

  lemma CombinedMeans(b: Backend, ws: seq<WhereClause>, said: seq<seq<Piece>>, op: string)
    requires Bland(op) && |ws| == |said| && forall i :: 0 <= i < |ws| ==> Means(b, ws[i], said[i])
    ensures Combined(ws, op).Ok? && Means(b, Combined(ws, op).value, Joined([], said, op))
  {
    NothingMeans(b);
    assert Holds(b, NOTHING, []);
    CombineAllMeans(b, NOTHING, [], ws, said, op);
  }

  predicate IsLeaf(c: Clause) {
    !c.Not? && !c.All? && !c.Any?
  }

  lemma LeafMeans(b: Backend, c: Clause)
    requires PlainColumns(b, c) && IsLeaf(c)
    ensures Built(c).Ok? <==> WellFormed(c)
    ensures Built(c).Ok? ==> Means(b, Built(c).value, Said(c))
  {
    hide Means, Listed, Questions;
    if WellFormed(c) {
      match c
      case Compare(column, op, value) => CompareMeans(b, column, op, value);
      case Between(column, low, high) => BetweenMeans(b, column, low, high);
      case In(column, values) => InMeans(b, column, values);
      case IsNull(column) => TextMeans(b, column, " IS NULL");
      case IsNotNull(column) => TextMeans(b, column, " IS NOT NULL");
    }
  }

  /** A comparison on a column without a `?`, and without a trap for the backend, is sound to
      that backend if and only if the column leaves no literal, quoted name or comment open. */
  lemma OpenColumn(b: Backend, column: string, op: Op, value: Value)
    requires column != "" && '?' !in column && Clear(b, column, Code)
    ensures Whole(b, FragmentOf(WhereBinary(column, OpText(op), value).value)) <==> Closed(b, column)
  {
    hide Clear, Count, Positional, End;
    if Closed(b, column) {
      CompareMeans(b, column, op, value);
    } else {
      assert Bland(OpText(op) + " ");
      OpenTrap(b, column, OpText(op) + " ");
      assert column + " " + OpText(op) + " ?" == column + ([' '] + (OpText(op) + " ")) + "?";
    }
  }

  lemma OpenTrap(b: Backend, column: string, text: string)
    requires !Closed(b, column) && Bland(text)
    ensures !Clear(b, column + ([' '] + text) + "?", Code)
  {
    hide Clear, Next;
    var mode := End(b, Code, column);
    EndAppend(b, Code, column, [' '] + text);
    assert ([' '] + text)[1..] == text && End(b, mode, [' '] + text) == End(b, Next(b, mode, ' '), text);
    SeparatorNext(b, ' ', mode);
    BlandNext(b, ' ', mode);
    BlandEnds(b, text, Next(b, mode, ' '));
    TrapAtEnd(b, column + ([' '] + text), Code);
  }

  lemma {:induction false} TrapAtEnd(b: Backend, s: string, mode: Mode)
    requires !InCode(End(b, mode, s))
    ensures !Clear(b, s + "?", mode)
    decreases |s|
  {
    hide Next;
    if s == "" {
      assert s + "?" == "?";
    } else {
      assert (s + "?")[1..] == s[1..] + "?";
      TrapAtEnd(b, s[1..], Next(b, mode, s[0]));
    }
  }

  /** A clause tree over plain columns is built exactly when it is well formed, with as many
      `?` as parameters, and it says what the tree says. */
  lemma {:induction false} ClauseMeans(b: Backend, c: Clause)
    requires PlainColumns(b, c)
    ensures Built(c).Ok? <==> WellFormed(c)
    ensures Built(c).Ok? ==> Means(b, Built(c).value, Said(c))
    decreases c, 1
  {
    assert Bland("AND") && Bland("OR");
    hide Means, Combined, WhereNot, Joined, Plain, Bland, WhereBinary, WhereBetween, WhereIn, WhereText, Chars, Listed;
    match c
    case Not(clause) =>
      ClauseMeans(b, clause);
      if Built(clause).Ok? {
        NotMeans(b, Built(clause).value, Said(clause));
      }
    case All(clauses) =>
      ClausesMean(b, clauses);
      if BuiltAll(clauses).Ok? {
        CombinedMeans(b, BuiltAll(clauses).value, SaidAll(clauses), "AND");
      }
    case Any(clauses) =>
      ClausesMean(b, clauses);
      if BuiltAll(clauses).Ok? {
        CombinedMeans(b, BuiltAll(clauses).value, SaidAll(clauses), "OR");
      }
    case _ =>
      LeafMeans(b, c);
  }

  lemma {:induction false} ClausesMean(b: Backend, cs: seq<Clause>)
    requires forall i :: 0 <= i < |cs| ==> PlainColumns(b, cs[i])
    ensures BuiltAll(cs).Ok? <==> forall i :: 0 <= i < |cs| ==> WellFormed(cs[i])
    ensures BuiltAll(cs).Ok? ==> |BuiltAll(cs).value| == |SaidAll(cs)|
    ensures BuiltAll(cs).Ok? ==>
              forall i :: 0 <= i < |SaidAll(cs)| ==> Means(b, BuiltAll(cs).value[i], SaidAll(cs)[i])
    decreases cs, 0
  {
    hide Means, Built, Said, PlainColumns, WellFormed;
    if cs != [] {
      ClauseMeans(b, cs[0]);
      ClausesMean(b, cs[1..]);
      assert cs == [cs[0]] + cs[1..];
      assert forall i :: 1 <= i < |cs| ==> cs[i] == cs[1..][i - 1];
    }
  }

  // ------------------------------------------------------------------- rewrite modes

  predicate Decides(w: WhereClause) {
    w.sql != "" && w.params != []
  }

  /** Some clause with parameters is not of mode `mode`. */
  ghost predicate Differs(ws: seq<WhereClause>, mode: bool) {
    exists j :: 0 <= j < |ws| && Decides(ws[j]) && ws[j].rewrite != mode
  }

  ghost predicate Mixed(ws: seq<WhereClause>) {
    exists i, j :: 0 <= i < j < |ws| && Decides(ws[i]) && Decides(ws[j]) && ws[i].rewrite != ws[j].rewrite
  }

  lemma DiffersNext(ws: seq<WhereClause>, mode: bool)
    requires ws != []
    ensures Differs(ws, mode) <==> (Decides(ws[0]) && ws[0].rewrite != mode) || Differs(ws[1..], mode)
  {
    hide Decides;
    var t := ws[1..];
    if Differs(t, mode) {
      var j :| 0 <= j < |t| && Decides(t[j]) && t[j].rewrite != mode;
      assert ws[j + 1] == t[j];
    }
    if Differs(ws, mode) {
      var j :| 0 <= j < |ws| && Decides(ws[j]) && ws[j].rewrite != mode;
      assert j > 0 ==> t[j - 1] == ws[j];
    }
  }

  lemma MixedNext(ws: seq<WhereClause>)
    requires ws != []
    ensures Mixed(ws) <==> (Decides(ws[0]) && Differs(ws[1..], ws[0].rewrite)) || Mixed(ws[1..])
  {
    hide Decides;
    var t := ws[1..];
    assert forall j :: 0 <= j < |t| ==> t[j] == ws[j + 1];
    if Mixed(t) {
      var i, j :| 0 <= i < j < |t| && Decides(t[i]) && Decides(t[j]) && t[i].rewrite != t[j].rewrite;
      assert ws[i + 1] == t[i] && ws[j + 1] == t[j];
    }
    if Decides(ws[0]) && Differs(t, ws[0].rewrite) {
      var j :| 0 <= j < |t| && Decides(t[j]) && t[j].rewrite != ws[0].rewrite;
      assert ws[j + 1] == t[j];
    }
    if Mixed(ws) {
      var i, j :| 0 <= i < j < |ws| && Decides(ws[i]) && Decides(ws[j]) && ws[i].rewrite != ws[j].rewrite;
      assert t[j - 1] == ws[j] && (i > 0 ==> t[i - 1] == ws[i]);
    }
  }

  /** What is combined so far had mode `so.mode` wherever it had parameters. */
  lemma {:induction false} ModesAgree(so: Combining, ws: seq<WhereClause>, op: string)
    requires forall i :: 0 <= i < |ws| ==> Fault(ws[i]) == None
    requires so.params != [] ==> so.mode.Some?
    ensures CombineAll(so, ws, op).Err? <==> (so.params != [] && Differs(ws, so.mode.value)) || Mixed(ws)
    decreases |ws|
  {
    hide Differs, Mixed, Fault;
    if ws == [] {
      NoneMixed(if so.mode.Some? then so.mode.value else true);
    } else {
      MixedNext(ws);
      if so.mode.Some? {
        DiffersNext(ws, so.mode.value);
      }
      var next := CombineOne(so, ws[0], op);
      if next.Ok? {
        ModesAgree(next.value, ws[1..], op);
      }
    }
  }

  lemma NoneMixed(mode: bool)
    ensures !Differs([], mode) && !Mixed([])
  {
  }

  /** Combining sound clauses fails exactly when two of them have parameters and differ in
      whether these are to be rewritten. */
  lemma MixedExactly(ws: seq<WhereClause>, op: string)
    requires forall i :: 0 <= i < |ws| ==> Fault(ws[i]) == None
    ensures Combined(ws, op).Err? <==> Mixed(ws)
  {
    ModesAgree(NOTHING, ws, op);
  }
}

/** Statements with several placeholder groups (include/corouv/sql/orm.h). */
module Statements {
  import opened Text
  import opened Placeholders
  import opened Clauses

  const EMPTY_TABLE := "corouv::sql::orm empty table name"
  const EMPTY_COLUMNS := "corouv::sql::orm empty column list"
  const EMPTY_SET := "corouv::sql::orm update set_columns is empty"
  const VALUES_MISMATCH := "corouv::sql::orm update values count does not match columns"
  const WHERE_REQUIRED := "corouv::sql::orm update_where requires where clause"

  datatype Statement = Statement(sql: string, params: Params)

  datatype Table = Table(name: string, columns: seq<string>)

  function TableFault(table: Table): Option<string> {
    if table.name == "" then Some(EMPTY_TABLE)
    else if table.columns == [] then Some(EMPTY_COLUMNS)
    else None
  }

  // ------------------------------------------------------------------ WHERE and HAVING

  /** A statement under way and the number of its next placeholder. */
  datatype Writing = Writing(st: Statement, index: nat)

  function Appended(w: Writing, backend: Backend, clause: Option<WhereClause>, keyword: string): Result<Writing, string> {
    if clause.None? || clause.value.sql == "" then Ok(w)
    else match RenderedClause(clause.value, backend, w.index)
    case Err(e) => Err(e)
    case Ok(text) =>
      Ok(Writing(Statement(w.st.sql + (" " + keyword + " " + text), w.st.params + clause.value.params),
                 w.index + |clause.value.params|))
  }

  method AppendOptionalClause(w: Writing, backend: Backend, clause: Option<WhereClause>, keyword: string)
    returns (r: Result<Writing, string>)
    ensures r == Appended(w, backend, clause, keyword)
  {
    if clause.None? || clause.value.sql == "" {
      return Ok(w);
    }
    var text := RenderClause(clause.value, backend, w.index);
    if text.Err? {
      return Err(text.error);
    }
    return Ok(Writing(Statement(w.st.sql + (" " + keyword + " " + text.value), w.st.params + clause.value.params),
                      w.index + |clause.value.params|));
  }

  function WithText(w: Writing, text: string): Writing {
    w.(st := Statement(w.st.sql + text, w.st.params))
  }

  /** `head` ends with the joins, `groupBy` is that clause, `tail` is order, limit and offset. */
  function Selected(backend: Backend, head: string, where_: Option<WhereClause>, groupBy: string,
                    having: Option<WhereClause>, tail: string): Result<Statement, string> {
    match Appended(Writing(Statement(head, []), 1), backend, where_, "WHERE")
    case Err(e) => Err(e)
    case Ok(w) => match Appended(WithText(w, groupBy), backend, having, "HAVING") {
      case Err(e) => Err(e)
      case Ok(w') => Ok(WithText(w', tail).st)
    }
  }

  method Select(backend: Backend, head: string, where_: Option<WhereClause>, groupBy: string,
                having: Option<WhereClause>, tail: string) returns (r: Result<Statement, string>)
    ensures r == Selected(backend, head, where_, groupBy, having, tail)
  {
    var w := AppendOptionalClause(Writing(Statement(head, []), 1), backend, where_, "WHERE");
    if w.Err? {
      return Err(w.error);
    }
    var h := AppendOptionalClause(WithText(w.value, groupBy), backend, having, "HAVING");
    if h.Err? {
      return Err(h.error);
    }
    return Ok(Statement(h.value.st.sql + tail, h.value.st.params));
  }

  /** The statement is `q` rendered, and says `pieces`. */
  ghost predicate Writes(w: Writing, backend: Backend, q: Fragment, pieces: seq<Piece>) {
    && Whole(backend, q) && Pieces(backend, q) == pieces
    && w.st.sql == Rendered(q.sql, backend, 1) && w.st.params == q.params && w.index == 1 + |q.params|
  }

  lemma RenderedAppend(a: string, b: string, backend: Backend, index: nat)
    ensures Rendered(a + b, backend, index) == Rendered(a, backend, index) + Rendered(b, backend, index + Count(a))
  {
    RenumberedAppend(a, b, index);
  }

  lemma {:induction false} PlainRendered(s: string, backend: Backend, index: nat)
    requires '?' !in s
    ensures Rendered(s, backend, index) == s
  {
    if s != "" {
      PlainRendered(s[1..], backend, index);
      assert s == [s[0]] + s[1..];
    }
  }

  lemma WritesText(w: Writing, backend: Backend, q: Fragment, pieces: seq<Piece>, text: string)
    requires Writes(w, backend, q, pieces) && Plain(backend, text) && Separated(text)
    ensures Writes(WithText(w, text), backend, Fragment(q.sql + text, q.params), pieces + Chars(text))
  {
    hide Whole, Pieces, Rendered, Clear, Closed, Chars;
    TextBehind(backend, q, text);
    RenderedAppend(q.sql, text, backend, 1);
    PlainRendered(text, backend, 1 + Count(q.sql));
  }

  function Keyed(keyword: string, pieces: seq<Piece>): seq<Piece> {
    if pieces == [] then [] else Chars(" " + keyword + " ") + pieces
  }

  /** What an optional clause says. */
  ghost predicate MeansOptional(backend: Backend, clause: Option<WhereClause>, pieces: seq<Piece>) {
    if clause.None? then pieces == [] else Means(backend, clause.value, pieces)
  }

  lemma WritesClause(w: Writing, backend: Backend, q: Fragment, pieces: seq<Piece>,
                     clause: Option<WhereClause>, keyword: string, said: seq<Piece>) returns (q': Fragment)
    requires Writes(w, backend, q, pieces) && MeansOptional(backend, clause, said) && Bland(keyword)
    ensures Appended(w, backend, clause, keyword).Ok?
    ensures Writes(Appended(w, backend, clause, keyword).value, backend, q', pieces + Keyed(keyword, said))
  {
    q' := q;
    if clause.Some? {
      SameEmptiness(backend, clause.value, said);
    }
    if clause.None? || clause.value.sql == "" {
      assert pieces + [] == pieces;
    } else {
      assert Fault(clause.value) == None && Count(q.sql) == |q.params|;
      var text := " " + keyword + " ";
      BlandPlain(backend, text);
      var f := FragmentOf(clause.value);
      ClauseRendered(backend, q.sql, text, f.sql);
      hide Whole, Pieces, Rendered, Chars, Count, Plain, Bland;
      TextBefore(backend, text, f);
      assert (text + f.sql)[0] == ' ';
      CatMeans(backend, q, Fragment(text + f.sql, f.params));
      q' := Cat(q, Fragment(text + f.sql, f.params));
    }
  }

  lemma ClauseRendered(backend: Backend, sql: string, text: string, clause: string)
    requires Plain(backend, text)
    ensures Rendered(sql + (text + clause), backend, 1)
         == Rendered(sql, backend, 1) + (text + Rendered(clause, backend, 1 + Count(sql)))
  {
    hide Rendered, Count, Closed, Clear;
    PlainCount(text);
    PlainRendered(text, backend, 1 + Count(sql));
    RenderedAppend(text, clause, backend, 1 + Count(sql));
    RenderedAppend(sql, text + clause, backend, 1);
  }

  lemma PlainCount(s: string)
    requires '?' !in s
    ensures Count(s) == 0
  {
    PlainMeans(Unknown, s, [], 0, Code);
  }

  lemma WrittenMeans(w: Writing, backend: Backend, q: Fragment, pieces: seq<Piece>)
    requires Writes(w, backend, q, pieces)
    ensures Meaning(backend, w.st.sql, w.st.params) == pieces
  {
    hide Numbered, Positional, Clear, Closed, Portable;
    if backend == PostgreSQL {
      ClearIsPortable(q.sql, Code);
      RenderPreserves(backend, q.sql, 1, q.params);
    }
  }

  /** For every backend a SELECT says its clauses, with the parameters of WHERE before
      those of HAVING. */
  lemma SelectMeans(backend: Backend, head: string, where_: Option<WhereClause>, groupBy: string,
                    having: Option<WhereClause>, tail: string, said: seq<Piece>, had: seq<Piece>)
    requires Plain(backend, head) && Plain(backend, groupBy) && Plain(backend, tail)
    requires Separated(groupBy) && Separated(tail)
    requires MeansOptional(backend, where_, said) && MeansOptional(backend, having, had)
    ensures Selected(backend, head, where_, groupBy, having, tail).Ok?
    ensures var st := Selected(backend, head, where_, groupBy, having, tail).value;
            Meaning(backend, st.sql, st.params)
            == Chars(head) + Keyed("WHERE", said) + Chars(groupBy) + Keyed("HAVING", had) + Chars(tail)
  {
    hide Meaning, Writes, MeansOptional, Appended, Chars, Keyed;
    var start := Writing(Statement(head, []), 1);
    HeadWritten(backend, head);
    var q1 := WritesClause(start, backend, Fragment(head, []), Chars(head), where_, "WHERE", said);
    var w1 := Appended(start, backend, where_, "WHERE").value;
    WritesText(w1, backend, q1, Chars(head) + Keyed("WHERE", said), groupBy);
    var p2 := Chars(head) + Keyed("WHERE", said) + Chars(groupBy);
    var q3 := WritesClause(WithText(w1, groupBy), backend, Fragment(q1.sql + groupBy, q1.params), p2, having, "HAVING", had);
    var w3 := Appended(WithText(w1, groupBy), backend, having, "HAVING").value;
    WritesText(w3, backend, q3, p2 + Keyed("HAVING", had), tail);
    WrittenMeans(WithText(w3, tail), backend, Fragment(q3.sql + tail, q3.params), p2 + Keyed("HAVING", had) + Chars(tail));
  }

  lemma HeadWritten(backend: Backend, head: string)
    requires Plain(backend, head)
    ensures Writes(Writing(Statement(head, []), 1), backend, Fragment(head, []), Chars(head))
  {
    PlainWhole(backend, head);
    PlainRendered(head, backend, 1);
  }

  // -------------------------------------------------------------------- SET and WHERE

  function Placeholder(backend: Backend, index: nat): string {
    if backend == PostgreSQL then ['$'] + Print(index, 10) else "?"
  }

  /** The first `n` assignments. */
  function Assigned(backend: Backend, columns: seq<string>, n: nat): string
    requires n <= |columns|
  {
    if n == 0 then ""
    else Assigned(backend, columns, n - 1) + ((if n > 1 then ", " else "") + columns[n - 1] + " = " + Placeholder(backend, n))
  }

  function Updated(backend: Backend, table: Table, columns: seq<string>, values: Params,
                   where_: WhereClause, allowEmpty: bool): Result<Statement, string> {
    if TableFault(table).Some? then Err(TableFault(table).value)
    else if columns == [] then Err(EMPTY_SET)
    else if |values| != |columns| then Err(VALUES_MISMATCH)
    else if where_.sql == "" && !allowEmpty then Err(WHERE_REQUIRED)
    else
      var sql := "UPDATE " + table.name + " SET " + Assigned(backend, columns, |columns|);
      match Appended(Writing(Statement(sql, values), |columns| + 1), backend, Some(where_), "WHERE")
      case Err(e) => Err(e)
      case Ok(w) => Ok(w.st)
  }

  method UpdateWhere(backend: Backend, table: Table, columns: seq<string>, values: Params,
                     where_: WhereClause, allowEmpty: bool) returns (r: Result<Statement, string>)
    ensures r == Updated(backend, table, columns, values, where_, allowEmpty)
  {
    if table.name == "" {
      return Err(EMPTY_TABLE);
    }
    if table.columns == [] {
      return Err(EMPTY_COLUMNS);
    }
    if columns == [] {
      return Err(EMPTY_SET);
    }
    if |values| != |columns| {
      return Err(VALUES_MISMATCH);
    }
    if where_.sql == "" && !allowEmpty {
      return Err(WHERE_REQUIRED);
    }
    var sql := "";
    for i := 0 to |columns|
      invariant sql == Assigned(backend, columns, i)
    {
      var sep := if i > 0 then ", " else "";
      sql := sql + (sep + columns[i] + " = " + Placeholder(backend, i + 1));
    }
    sql := "UPDATE " + table.name + " SET " + sql;
    if where_.sql == "" {
      return Ok(Statement(sql, values));
    }
    var text := RenderClause(where_, backend, |columns| + 1);
    if text.Err? {
      return Err(text.error);
    }
    assert " WHERE " == " " + "WHERE" + " ";
    return Ok(Statement(sql + (" WHERE " + text.value), values + where_.params));
  }

  function AssignedPieces(columns: seq<string>, values: Params, n: nat): seq<Piece>
    requires n <= |columns| == |values|
  {
    if n == 0 then []
    else AssignedPieces(columns, values, n - 1)
         + (Chars((if n > 1 then ", " else "") + columns[n - 1] + " = ") + [Bound(values[n - 1])])
  }

  lemma PlaceholderRendered(backend: Backend, index: nat)
    ensures Placeholder(backend, index) == Rendered("?", backend, index)
  {
    RenumberedOne('?', index);
  }

  /** One more assignment. */
  function WithHole(q: Fragment, text: string, v: Value): Fragment {
    Fragment(q.sql + (text + "?"), q.params + [v])
  }

  lemma WritesHole(backend: Backend, sql: string, q: Fragment, pieces: seq<Piece>, text: string, v: Value)
    requires Writes(Writing(Statement(sql, q.params), 1 + |q.params|), backend, q, pieces) && Plain(backend, text)
    requires text != "" && IsSeparator(text[|text| - 1]) && Joins(q.sql, text)
    ensures Writes(Writing(Statement(sql + (text + Placeholder(backend, 1 + |q.params|)), q.params + [v]), 2 + |q.params|),
                   backend, WithHole(q, text, v), pieces + (Chars(text) + [Bound(v)]))
  {
    HoleText(backend, q, text, v);
    HoleMeans(backend, q, text, v);
    assert WithHole(q, text, v).params == q.params + [v];
    hide Whole, Pieces, Rendered, Chars, Placeholder, Plain, WithHole, Joins, IsSeparator;
  }

  lemma HoleText(backend: Backend, q: Fragment, text: string, v: Value)
    requires Whole(backend, q) && Plain(backend, text)
    ensures Rendered(WithHole(q, text, v).sql, backend, 1)
         == Rendered(q.sql, backend, 1) + (text + Placeholder(backend, 1 + |q.params|))
  {
    hide Rendered, Placeholder, Clear, Closed;
    HoleRendered(backend, q.sql, text);
  }

  lemma HoleMeans(backend: Backend, q: Fragment, text: string, v: Value)
    requires Whole(backend, q) && Plain(backend, text)
    requires text != "" && IsSeparator(text[|text| - 1]) && Joins(q.sql, text)
    ensures Whole(backend, WithHole(q, text, v))
    ensures Pieces(backend, WithHole(q, text, v)) == Pieces(backend, q) + (Chars(text) + [Bound(v)])
  {
    hide Whole, Pieces, Chars, Plain, Joins, IsSeparator;
    HoleBehind(backend, q, text, v);
  }

  lemma WrittenParams(backend: Backend, w: Writing, q: Fragment, pieces: seq<Piece>)
    requires Writes(w, backend, q, pieces)
    ensures w.st.params == q.params
  {
  }

  lemma HoleRendered(backend: Backend, sql: string, text: string)
    requires Plain(backend, text)
    ensures Rendered(sql + (text + "?"), backend, 1)
         == Rendered(sql, backend, 1) + (text + Placeholder(backend, 1 + Count(sql)))
  {
    hide Rendered, Count, Placeholder, Closed, Clear;
    PlainCount(text);
    PlainRendered(text, backend, 1 + Count(sql));
    PlaceholderRendered(backend, 1 + Count(sql));
    RenderedAppend(text, "?", backend, 1 + Count(sql));
    RenderedAppend(sql, text + "?", backend, 1);
  }

  lemma NothingWritten(backend: Backend)
    ensures Writes(Writing(Statement("", []), 1), backend, Fragment("", []), [])
  {
  }

  /** The assignments are `?` text rendered from 1 on. */
  lemma {:induction false} AssignedWrites(backend: Backend, columns: seq<string>, values: Params, n: nat)
    returns (q: Fragment)
    requires n <= |columns| == |values| && forall i :: 0 <= i < |columns| ==> Plain(backend, columns[i])
    ensures Writes(Writing(Statement(Assigned(backend, columns, n), values[..n]), n + 1), backend, q,
                   AssignedPieces(columns, values, n))
    ensures n == 0 ==> q.sql == ""
  {
    hide Writes, Placeholder, Chars, Plain;
    if n == 0 {
      q := Fragment("", []);
      NothingWritten(backend);
      assert values[..0] == [];
    } else {
      var before := AssignedWrites(backend, columns, values, n - 1);
      var text := (if n > 1 then ", " else "") + columns[n - 1] + " = ";
      var sep := if n > 1 then ", " else "";
      BlandPlain(backend, sep);
      BlandPlain(backend, " = ");
      PlainJoin(backend, sep, columns[n - 1]);
      PlainJoin(backend, sep + columns[n - 1], " = ");
      WrittenParams(backend, Writing(Statement(Assigned(backend, columns, n - 1), values[..n - 1]), n), before,
                    AssignedPieces(columns, values, n - 1));
      WritesHole(backend, Assigned(backend, columns, n - 1), before, AssignedPieces(columns, values, n - 1), text, values[n - 1]);
      assert values[..n] == values[..n - 1] + [values[n - 1]];
      q := WithHole(before, text, values[n - 1]);
    }
  }

  lemma WritesBehind(head: string, w: Writing, backend: Backend, q: Fragment, pieces: seq<Piece>)
    requires Writes(w, backend, q, pieces) && Plain(backend, head) && Joins(head, q.sql)
    ensures Writes(Writing(Statement(head + w.st.sql, w.st.params), w.index), backend,
                   Fragment(head + q.sql, q.params), Chars(head) + pieces)
  {
    hide Whole, Pieces, Rendered, Chars, Clear, Closed;
    TextBefore(backend, head, q);
    PlainCount(head);
    PlainRendered(head, backend, 1);
    RenderedAppend(head, q.sql, backend, 1);
  }

  /** The statement before its clause. */
  function UpdateStart(backend: Backend, table: Table, columns: seq<string>, values: Params): Writing {
    Writing(Statement("UPDATE " + table.name + " SET " + Assigned(backend, columns, |columns|), values), |columns| + 1)
  }

  lemma StartWritten(backend: Backend, table: Table, columns: seq<string>, values: Params) returns (q: Fragment)
    requires Plain(backend, table.name) && |columns| == |values| && forall i :: 0 <= i < |columns| ==> Plain(backend, columns[i])
    ensures Writes(UpdateStart(backend, table, columns, values), backend, q,
                   Chars("UPDATE " + table.name + " SET ") + AssignedPieces(columns, values, |columns|))
  {
    hide Writes, Chars, AssignedPieces, Assigned, Plain;
    var head := "UPDATE " + table.name + " SET ";
    BlandPlain(backend, "UPDATE ");
    BlandPlain(backend, " SET ");
    PlainJoin(backend, "UPDATE ", table.name);
    PlainJoin(backend, "UPDATE " + table.name, " SET ");
    assert head[|head| - 1] == ' ';
    var sets := AssignedWrites(backend, columns, values, |columns|);
    assert values[..|columns|] == values;
    WritesBehind(head, Writing(Statement(Assigned(backend, columns, |columns|), values), |columns| + 1), backend, sets,
                 AssignedPieces(columns, values, |columns|));
    q := Fragment(head + sets.sql, sets.params);
  }

  lemma UpdateAppends(backend: Backend, table: Table, columns: seq<string>, values: Params, where_: WhereClause, allowEmpty: bool)
    requires TableFault(table) == None && columns != [] && |values| == |columns| && (where_.sql != "" || allowEmpty)
    ensures var w := Appended(UpdateStart(backend, table, columns, values), backend, Some(where_), "WHERE");
            w.Ok? ==> Updated(backend, table, columns, values, where_, allowEmpty) == Ok(w.value.st)
  {
    hide Appended, Assigned, TableFault;
  }

  /** For every backend an UPDATE says its assignments and its clause, with the values of
      SET before the parameters of WHERE. */
  lemma UpdateMeans(backend: Backend, table: Table, columns: seq<string>, values: Params,
                    where_: WhereClause, allowEmpty: bool, said: seq<Piece>)
    requires Plain(backend, table.name) && forall i :: 0 <= i < |columns| ==> Plain(backend, columns[i])
    requires Means(backend, where_, said)
    ensures Updated(backend, table, columns, values, where_, allowEmpty).Ok?
       <==> TableFault(table) == None && columns != [] && |values| == |columns| && (said != [] || allowEmpty)
    ensures Updated(backend, table, columns, values, where_, allowEmpty).Ok? ==>
              var st := Updated(backend, table, columns, values, where_, allowEmpty).value;
              Meaning(backend, st.sql, st.params)
              == Chars("UPDATE " + table.name + " SET ") + AssignedPieces(columns, values, |columns|) + Keyed("WHERE", said)
  {
    SameEmptiness(backend, where_, said);
    if TableFault(table) == None && columns != [] && |values| == |columns| && (said != [] || allowEmpty) {
      UpdateAppends(backend, table, columns, values, where_, allowEmpty);
      assert Bland("WHERE");
      hide Updated, UpdateStart, Meaning, Writes, Means, Appended, Chars, Keyed, AssignedPieces, Plain, Bland, TableFault;
      var start := UpdateStart(backend, table, columns, values);
      var pieces := Chars("UPDATE " + table.name + " SET ") + AssignedPieces(columns, values, |columns|);
      var q := StartWritten(backend, table, columns, values);
      var q1 := WritesClause(start, backend, q, pieces, Some(where_), "WHERE", said);
      WrittenMeans(Appended(start, backend, Some(where_), "WHERE").value, backend, q1, pieces + Keyed("WHERE", said));
    }
  }

  /** A SELECT whose clauses are given as trees. */
  datatype Query = Query(head: string, where_: Clause, groupBy: string, having: Clause, tail: string)

  ghost predicate PlainQuery(backend: Backend, q: Query) {
    && Plain(backend, q.head) && Plain(backend, q.groupBy) && Plain(backend, q.tail) && Separated(q.groupBy) && Separated(q.tail)
    && PlainColumns(backend, q.where_) && WellFormed(q.where_) && PlainColumns(backend, q.having) && WellFormed(q.having)
  }

  ghost function SaidBy(q: Query): seq<Piece> {
    Chars(q.head) + Keyed("WHERE", Said(q.where_)) + Chars(q.groupBy) + Keyed("HAVING", Said(q.having)) + Chars(q.tail)
  }

  function SelectedQuery(backend: Backend, q: Query): Result<Statement, string> {
    match Built(q.where_)
    case Err(e) => Err(e)
    case Ok(w) => match Built(q.having) {
      case Err(e) => Err(e)
      case Ok(h) => Selected(backend, q.head, Some(w), q.groupBy, Some(h), q.tail)
    }
  }

  /** Clause trees in a SELECT: on every backend the statement says what the trees say, for
      any trees over columns plain to that backend, with the same parameters on all of them. */
  lemma TreesSelect(backend: Backend, q: Query)
    requires PlainQuery(backend, q)
    ensures Built(q.where_).Ok? && Built(q.having).Ok? && SelectedQuery(backend, q).Ok?
    ensures var st := SelectedQuery(backend, q).value;
            && Meaning(backend, st.sql, st.params) == SaidBy(q)
            && st.params == Built(q.where_).value.params + Built(q.having).value.params
  {
    hide Built, Said, Means, PlainColumns, WellFormed, Meaning, Chars, Keyed, Plain, Selected, MeansOptional, Separated;
    ClauseMeans(backend, q.where_);
    ClauseMeans(backend, q.having);
    var w, h := Built(q.where_).value, Built(q.having).value;
    SomeMeans(backend, w, Said(q.where_));
    SomeMeans(backend, h, Said(q.having));
    SelectMeans(backend, q.head, Some(w), q.groupBy, Some(h), q.tail, Said(q.where_), Said(q.having));
    NoTextNoParams(backend, w, Said(q.where_));
    NoTextNoParams(backend, h, Said(q.having));
    SelectParams(backend, q.head, w, q.groupBy, h, q.tail);
  }

  lemma SomeMeans(backend: Backend, w: WhereClause, said: seq<Piece>)
    requires Means(backend, w, said)
    ensures MeansOptional(backend, Some(w), said)
  {
  }

  lemma NoTextNoParams(backend: Backend, w: WhereClause, said: seq<Piece>)
    requires Means(backend, w, said)
    ensures w.sql == "" ==> w.params == []
  {
  }

  lemma SelectParams(backend: Backend, head: string, w: WhereClause, groupBy: string, h: WhereClause, tail: string)
    requires (w.sql == "" ==> w.params == []) && (h.sql == "" ==> h.params == [])
    requires Selected(backend, head, Some(w), groupBy, Some(h), tail).Ok?
    ensures Selected(backend, head, Some(w), groupBy, Some(h), tail).value.params == w.params + h.params
  {
    hide RenderedClause;
    assert [] + w.params == w.params && w.params + [] == w.params;
  }
}
