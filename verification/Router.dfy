/** Route patterns, mount points and dispatch (include/corouv/web.h). */
module Router {
  import opened Text

  datatype Param = Param(name: string, value: string)

  /** A successful match: the parameters in order and the segments consumed. */
  datatype Match = Match(params: seq<Param>, segments: nat)

  const WILDCARD := "*"

  // ---------------------------------------------------------------- targets and paths

  function PathOf(target: string): string {
    var q := FindChar(target, '?', 0);
    if q.None? then target else target[..q.value]
  }

  function QueryOf(target: string): string {
    target[|PathOf(target)|..]
  }

  /** The length of the first segment. */
  function SegmentLength(s: string): (n: nat)
    ensures n <= |s| && '/' !in s[..n]
    ensures n < |s| ==> s[n] == '/'
  {
    if s == "" || s[0] == '/' then 0
    else
      assert forall n :: 0 <= n < |s| ==> s[..n + 1] == [s[0]] + s[1..][..n];
      1 + SegmentLength(s[1..])
  }

  /** The non-empty segments between slashes. */
  function Split(s: string): seq<string>
    decreases |s|
  {
    if s == "" then []
    else if s[0] == '/' then Split(s[1..])
    else [s[..SegmentLength(s)]] + Split(s[SegmentLength(s)..])
  }

  predicate Segment(s: string) {
    s != "" && '/' !in s
  }

  ghost predicate Segments(parts: seq<string>) {
    forall i :: 0 <= i < |parts| ==> Segment(parts[i])
  }

  function Join(parts: seq<string>): string {
    if parts == [] then "" else ['/'] + parts[0] + Join(parts[1..])
  }

  /** Segments joined without a leading slash, as a wildcard parameter holds them. */
  function Tail(parts: seq<string>): string {
    if parts == [] then "" else Join(parts)[1..]
  }

  lemma {:induction false} SplitSegments(s: string)
    ensures Segments(Split(s))
    decreases |s|
  {
    if s != "" {
      if s[0] == '/' {
        SplitSegments(s[1..]);
      } else {
        SplitSegments(s[SegmentLength(s)..]);
      }
    }
  }

  /** A segment is cut off in front of a slash or at the end. */
  lemma {:induction false} CutSegment(a: string, rest: string)
    requires '/' !in a && (rest == "" || rest[0] == '/')
    ensures SegmentLength(a + rest) == |a|
  {
    if a != "" {
      assert (a + rest)[1..] == a[1..] + rest;
      CutSegment(a[1..], rest);
    } else {
      assert a + rest == rest;
    }
  }

  /** Splitting does not see where a slash was put. */
  lemma {:induction false} SplitJoined(a: string, b: string)
    ensures Split(a + ['/'] + b) == Split(a) + Split(b)
    decreases |a|
  {
    var s := a + ['/'] + b;
    if a == "" {
      assert s[1..] == b;
    } else if a[0] == '/' {
      assert s[1..] == a[1..] + ['/'] + b;
      SplitJoined(a[1..], b);
    } else {
      var n := SegmentLength(a);
      assert a == a[..n] + a[n..];
      var rest := a[n..] + ['/'] + b;
      assert s == a[..n] + rest;
      CutSegment(a[..n], rest);
      assert s[..n] == a[..n] && s[n..] == rest;
      SplitJoined(a[n..], b);
      Assoc([a[..n]], Split(a[n..]), Split(b));
    }
  }

  /** Splitting undoes joining. */
  lemma {:induction false} SplitOfJoin(parts: seq<string>)
    requires Segments(parts)
    ensures Split(Join(parts)) == parts
  {
    if parts != [] {
      var rest := Join(parts[1..]);
      SplitOfJoin(parts[1..]);
      assert Join(parts) == "" + ['/'] + (parts[0] + rest);
      SplitJoined("", parts[0] + rest);
      SplitFirst(parts[0], rest);
      hide Split;
      assert parts == [parts[0]] + parts[1..];
    }
  }

  method SkipSlashes(path: string, from: nat) returns (i: nat)
    requires from <= |path|
    ensures from <= i <= |path| && Split(path[i..]) == Split(path[from..])
    ensures i < |path| ==> path[i] != '/'
  {
    i := from;
    while i < |path| && path[i] == '/'
      invariant from <= i <= |path| && Split(path[i..]) == Split(path[from..])
    {
      assert path[i..][1..] == path[i + 1..];
      i := i + 1;
    }
  }

  method SegmentEnd(path: string, start: nat) returns (i: nat)
    requires start < |path| && path[start] != '/'
    ensures start < i <= |path| && Split(path[start..]) == [path[start..i]] + Split(path[i..])
  {
    hide Split;
    i := start;
    while i < |path| && path[i] != '/'
      invariant start <= i <= |path| && '/' !in path[start..i]
    {
      assert path[start..i + 1] == path[start..i] + [path[i]];
      i := i + 1;
    }
    SplitFirst(path[start..i], path[i..]);
    assert path[start..] == path[start..i] + path[i..];
  }

  lemma SplitFirst(a: string, rest: string)
    requires Segment(a) && (rest == "" || rest[0] == '/')
    ensures Split(a + rest) == [a] + Split(rest)
  {
    CutSegment(a, rest);
    assert (a + rest)[..|a|] == a && (a + rest)[|a|..] == rest;
  }

  method SplitPath(path: string) returns (out: seq<string>)
    ensures out == Split(path)
  {
    hide Split;
    out := [];
    var i := SkipSlashes(path, 0);
    assert path[0..] == path && [] + Split(path) == Split(path);
    while i < |path|
      invariant i <= |path| && out + Split(path[i..]) == Split(path)
      invariant i < |path| ==> path[i] != '/'
      decreases |path| - i
    {
      var start := i;
      i := SegmentEnd(path, start);
      Assoc(out, [path[start..i]], Split(path[i..]));
      out := out + [path[start..i]];
      i := SkipSlashes(path, i);
    }
    NoSegments();
    assert path[i..] == "" && out + [] == out;
  }

  lemma NoSegments()
    ensures Split("") == []
  {
  }

  // --------------------------------------------------------------------------- matching

  predicate IsParam(pat: string) {
    |pat| > 1 && pat[0] == ':'
  }

  function Taken(pat: string, seg: string): seq<Param> {
    if IsParam(pat) then [Param(pat[1..], seg)] else []
  }

  function Behind(first: seq<Param>, m: Option<Match>): Option<Match> {
    if m.None? then None else Some(Match(first + m.value.params, m.value.segments + 1))
  }

  /** Matching segment by segment: `*` takes all that is left and must come last. */
  function Matched(path: seq<string>, pats: seq<string>, prefix: bool): Option<Match>
    decreases |pats|
  {
    if pats == [] then if prefix || path == [] then Some(Match([], 0)) else None
    else if pats[0] == WILDCARD then
      if |pats| == 1 then Some(Match([Param(WILDCARD, Tail(path))], 0)) else None
    else if path == [] || (!IsParam(pats[0]) && pats[0] != path[0]) then None
    else Behind(Taken(pats[0], path[0]), Matched(path[1..], pats[1..], prefix))
  }

  /** A match needs enough segments, and a wildcard only at the end. */
  lemma {:induction false} MatchedNeeds(path: seq<string>, pats: seq<string>, prefix: bool)
    requires Matched(path, pats, prefix).Some?
    ensures Matched(path, pats, prefix).value.segments <= |path|
    ensures forall w :: 0 <= w < |pats| && pats[w] == WILDCARD ==> w + 1 == |pats| && w <= |path|
    ensures WILDCARD !in pats ==> |pats| <= |path| && (prefix || |pats| == |path|)
    decreases |pats|
  {
    if pats != [] && pats[0] != WILDCARD {
      MatchedNeeds(path[1..], pats[1..], prefix);
      assert forall w :: 1 <= w < |pats| ==> pats[w] == pats[1..][w - 1];
    }
  }

  predicate Fits(pat: string, seg: string) {
    IsParam(pat) || pat == seg
  }

  /** Without a wildcard: segment by segment, no more and no fewer unless it is a prefix. */
  lemma {:induction false} MatchedExactly(path: seq<string>, pats: seq<string>, prefix: bool)
    requires WILDCARD !in pats
    ensures Matched(path, pats, prefix).Some?
       <==> && |pats| <= |path| && (prefix || |pats| == |path|)
            && forall i :: 0 <= i < |pats| && i < |path| ==> Fits(pats[i], path[i])
    decreases |pats|
  {
    if pats != [] && path != [] {
      MatchedExactly(path[1..], pats[1..], prefix);
      assert forall i :: 1 <= i < |pats| ==> pats[i] == pats[1..][i - 1];
      assert forall i :: 1 <= i < |path| ==> path[i] == path[1..][i - 1];
    }
  }

  /** The pattern with its parameters replaced, in order, by their values. */
  function Filled(pats: seq<string>, params: seq<Param>): seq<string> {
    if pats == [] then []
    else if IsParam(pats[0]) && params != [] then [params[0].value] + Filled(pats[1..], params[1..])
    else [pats[0]] + Filled(pats[1..], params)
  }

  /** Putting the captured values back into the pattern gives the matched segments. */
  lemma {:induction false} MatchFills(path: seq<string>, pats: seq<string>, prefix: bool)
    requires WILDCARD !in pats && Matched(path, pats, prefix).Some?
    ensures var m := Matched(path, pats, prefix).value;
            m.segments == |pats| <= |path| && Filled(pats, m.params) == path[..|pats|]
    decreases |pats|
  {
    if pats != [] {
      MatchFills(path[1..], pats[1..], prefix);
      var rest := Matched(path[1..], pats[1..], prefix).value;
      assert path[..|pats|] == [path[0]] + path[1..][..|pats| - 1];
      if IsParam(pats[0]) {
        assert (Taken(pats[0], path[0]) + rest.params)[1..] == rest.params;
      } else {
        assert [] + rest.params == rest.params;
      }
    }
  }

  /** Matching `q` as a prefix and then `p` on what is left is matching `q` followed by `p`. */
  lemma {:induction false} MatchedInTwo(path: seq<string>, q: seq<string>, p: seq<string>, prefix: bool)
    requires WILDCARD !in q
    ensures var first := Matched(path, q, true);
            var whole := Matched(path, q + p, prefix);
            if first.None? || first.value.segments > |path| then whole == None
            else
              var second := Matched(path[first.value.segments..], p, prefix);
              if second.None? then whole == None
              else whole == Some(Match(first.value.params + second.value.params,
                                       first.value.segments + second.value.segments))
    decreases |q|
  {
    if q == [] {
      assert q + p == p && path[0..] == path;
      var m := Matched(path, p, prefix);
      assert m.Some? ==> [] + m.value.params == m.value.params;
    } else if path != [] && (IsParam(q[0]) || q[0] == path[0]) {
      assert (q + p)[1..] == q[1..] + p;
      MatchedInTwo(path[1..], q[1..], p, prefix);
      var first := Matched(path[1..], q[1..], true);
      if first.Some? && first.value.segments <= |path[1..]| {
        assert path[1..][first.value.segments..] == path[first.value.segments + 1..];
        var second := Matched(path[1..][first.value.segments..], p, prefix);
        if second.Some? {
          Assoc(Taken(q[0], path[0]), first.value.params, second.value.params);
        }
      }
    }
  }

  lemma NoMatch(path: seq<string>, pats: seq<string>, prefix: bool, wildcard: Option<nat>)
    requires wildcard.Some? ==> wildcard.value < |pats| && pats[wildcard.value] == WILDCARD
    requires wildcard.None? ==> WILDCARD !in pats
    requires if wildcard.Some? then wildcard.value + 1 != |pats| || |path| < wildcard.value
             else |path| < |pats| || (!prefix && |path| != |pats|)
    ensures Matched(path, pats, prefix) == None
  {
    hide Matched;
    if Matched(path, pats, prefix).Some? {
      MatchedNeeds(path, pats, prefix);
    }
  }

  function Onto(params: seq<Param>, n: nat, m: Option<Match>): Option<Match> {
    if m.None? then None else Some(Match(params + m.value.params, n + m.value.segments))
  }

  lemma OntoBehind(params: seq<Param>, n: nat, first: seq<Param>, m: Option<Match>)
    ensures Onto(params, n, Behind(first, m)) == Onto(params + first, n + 1, m)
    ensures Onto([], 0, m) == m
  {
    if m.Some? {
      Assoc(params, first, m.value.params);
      assert [] + m.value.params == m.value.params;
    }
  }

  lemma {:induction false} JoinSnoc(parts: seq<string>, x: string)
    ensures Join(parts + [x]) == Join(parts) + (['/'] + x)
  {
    if parts == [] {
      assert [] + [x] == [x] && ['/'] + x + "" == ['/'] + x;
    } else {
      assert (parts + [x])[1..] == parts[1..] + [x];
      JoinSnoc(parts[1..], x);
      Assoc(['/'] + parts[0], Join(parts[1..]), ['/'] + x);
    }
  }

  lemma TailSnoc(parts: seq<string>, x: string)
    requires Segments(parts)
    ensures Tail(parts + [x]) == (if Tail(parts) == "" then "" else Tail(parts) + ['/']) + x
  {
    JoinSnoc(parts, x);
    if parts != [] {
      assert Join(parts)[1..] == parts[0] + Join(parts[1..]);
      assert (Join(parts) + (['/'] + x))[1..] == Join(parts)[1..] + ['/'] + x;
    } else {
      assert (['/'] + x)[1..] == x;
    }
  }

  method WildcardTail(parts: seq<string>) returns (tail: string)
    requires Segments(parts)
    ensures tail == Tail(parts)
  {
    hide Tail, Segment;
    tail := "";
    var j := 0;
    assert parts[..0] == [];
    NoTail();
    while j < |parts|
      invariant 0 <= j <= |parts| && tail == Tail(parts[..j])
    {
      assert parts[..j + 1] == parts[..j] + [parts[j]];
      TailSnoc(parts[..j], parts[j]);
      if tail != "" {
        tail := tail + ['/'];
      }
      tail := tail + parts[j];
      j := j + 1;
    }
    assert parts[..j] == parts;
  }

  lemma NoTail()
    ensures Tail([]) == ""
  {
  }

  method FirstWildcard(pats: seq<string>) returns (wildcard: Option<nat>)
    ensures wildcard.None? ==> WILDCARD !in pats
    ensures wildcard.Some? ==> wildcard.value < |pats| && pats[wildcard.value] == WILDCARD
    ensures wildcard.Some? ==> WILDCARD !in pats[..wildcard.value]
  {
    for i := 0 to |pats|
      invariant WILDCARD !in pats[..i]
    {
      if pats[i] == WILDCARD {
        return Some(i);
      }
    }
    return None;
  }

  method MatchRoute(path: string, pattern: string, prefix: bool) returns (r: Option<Match>)
    ensures r == Matched(Split(path), Split(pattern), prefix)
  {
    hide Split;
    var parts := SplitPath(path);
    var pats := SplitPath(pattern);
    SplitSegments(path);
    var wildcard := FirstWildcard(pats);
    if if wildcard.Some? then wildcard.value + 1 != |pats| || |parts| < wildcard.value
       else |parts| < |pats| || (!prefix && |parts| != |pats|) {
      NoMatch(parts, pats, prefix, wildcard);
      return None;
    }
    r := MatchParts(parts, pats, prefix);
  }

  method MatchParts(parts: seq<string>, pats: seq<string>, prefix: bool) returns (r: Option<Match>)
    requires Segments(parts) && forall w :: 0 <= w < |pats| && pats[w] == WILDCARD ==> w + 1 == |pats|
    ensures r == Matched(parts, pats, prefix)
  {
    hide Tail, Segment;
    var params: seq<Param> := [];
    var i := 0;
    assert parts[0..] == parts && pats[0..] == pats;
    OntoBehind([], 0, [], Matched(parts, pats, prefix));
    while i < |pats|
      invariant 0 <= i <= |pats| && i <= |parts|
      invariant Onto(params, i, Matched(parts[i..], pats[i..], prefix)) == Matched(parts, pats, prefix)
    {
      ghost var rest := pats[i..];
      assert rest[1..] == pats[i + 1..] && rest[0] == pats[i];
      if pats[i] == WILDCARD {
        var tail := WildcardTail(parts[i..]);
        return Some(Match(params + [Param(WILDCARD, tail)], i));
      }
      if i >= |parts| {
        return None;
      }
      assert parts[i..][1..] == parts[i + 1..];
      if !IsParam(pats[i]) && pats[i] != parts[i] {
        return None;
      }
      OntoBehind(params, i, Taken(pats[i], parts[i]), Matched(parts[i + 1..], pats[i + 1..], prefix));
      params := params + Taken(pats[i], parts[i]);
      i := i + 1;
    }
    assert pats[i..] == [] && params + [] == params;
    if !prefix && |parts| != |pats| {
      return None;
    }
    return Some(Match(params, |pats|));
  }

  // --------------------------------------------------------------------------- mounting

  function Stripped(target: string, n: nat): string {
    var parts := Split(PathOf(target));
    (if n < |parts| then Join(parts[n..]) else "/") + QueryOf(target)
  }

  method StripMatchedPrefix(target: string, n: nat) returns (out: string)
    ensures out == Stripped(target, n)
  {
    hide Split;
    var path := PathOf(target);
    var suffix := target[|path|..];
    var parts := SplitPath(path);
    out := "/";
    if n < |parts| {
      out := "";
      var i := n;
      while i < |parts|
        invariant n <= i <= |parts| && out == Join(parts[n..i])
      {
        assert parts[n..i + 1] == parts[n..i] + [parts[i]];
        JoinSnoc(parts[n..i], parts[i]);
        out := out + ['/'];
        out := out + parts[i];
        i := i + 1;
        Assoc(Join(parts[n..i - 1]), ['/'], parts[i - 1]);
      }
      assert parts[n..i] == parts[n..];
    }
    out := out + suffix;
  }

  lemma {:induction false} SplitFree(s: string, c: char)
    requires c !in s
    ensures forall i :: 0 <= i < |Split(s)| ==> c !in Split(s)[i]
    decreases |s|
  {
    if s != "" {
      if s[0] == '/' {
        SplitFree(s[1..], c);
      } else {
        SplitFree(s[SegmentLength(s)..], c);
      }
    }
  }

  lemma {:induction false} JoinFree(parts: seq<string>, c: char)
    requires c != '/' && forall i :: 0 <= i < |parts| ==> c !in parts[i]
    ensures c !in Join(parts)
  {
    if parts != [] {
      JoinFree(parts[1..], c);
    }
  }

  lemma Requested(path: string, query: string)
    requires '?' !in path && (query == "" || query[0] == '?')
    ensures PathOf(path + query) == path && QueryOf(path + query) == query
  {
    if query == "" {
      assert path + query == path;
    } else {
      assert path + query == path + ['?'] + query[1..];
      FindCharAfter(path, '?', query[1..]);
    }
  }

  lemma TargetSplits(target: string)
    ensures '?' !in PathOf(target) && (QueryOf(target) == "" || QueryOf(target)[0] == '?')
  {
  }

  function Drop(parts: seq<string>, n: nat): seq<string> {
    if n < |parts| then parts[n..] else []
  }

  /** Stripping drops leading segments and leaves the query string alone. */
  lemma StrippedIs(target: string, n: nat)
    ensures Split(PathOf(Stripped(target, n))) == Drop(Split(PathOf(target)), n)
    ensures QueryOf(Stripped(target, n)) == QueryOf(target)
  {
    var path := PathOf(target);
    var parts := Split(path);
    var stripped := if n < |parts| then Join(parts[n..]) else "/";
    hide PathOf, QueryOf;
    TargetSplits(target);
    SplitSegments(path);
    SplitFree(path, '?');
    if n < |parts| {
      JoinFree(parts[n..], '?');
      SplitOfJoin(parts[n..]);
    } else {
      assert "/"[1..] == "";
    }
    Requested(stripped, QueryOf(target));
  }

  lemma StrippedTwice(target: string, m: nat, n: nat)
    ensures Stripped(Stripped(target, m), n) == Stripped(target, m + n)
  {
    hide PathOf, QueryOf, Split, Join;
    StrippedIs(target, m);
    var parts := Split(PathOf(target));
    if m + n < |parts| {
      assert parts[m..][n..] == parts[m + n..];
    }
  }

  /** A pattern on a request target. */
  function MatchOf(target: string, pattern: string, prefix: bool): Option<Match> {
    Matched(Split(PathOf(target)), Split(pattern), prefix)
  }

  /** For a wildcard-free mount point `q`: matching `q` as a prefix, stripping, then
      matching `p` succeeds exactly when matching `q/p` does, with the same parameters,
      and the query string is untouched. */
  lemma MountFlattens(target: string, q: string, p: string, prefix: bool)
    requires WILDCARD !in Split(q)
    ensures var first := MatchOf(target, q, true);
            var whole := MatchOf(target, q + ['/'] + p, prefix);
            if first.None? then whole == None
            else
              var inner := Stripped(target, first.value.segments);
              && whole == Onto(first.value.params, first.value.segments, MatchOf(inner, p, prefix))
              && QueryOf(inner) == QueryOf(target)
              && forall n :: Stripped(inner, n) == Stripped(target, first.value.segments + n)
  {
    hide Split, PathOf, QueryOf, Stripped, Matched;
    var parts := Split(PathOf(target));
    SplitJoined(q, p);
    MatchedInTwo(parts, Split(q), Split(p), prefix);
    var first := MatchOf(target, q, true);
    if first.Some? {
      MatchedNeeds(parts, Split(q), true);
      StrippedIs(target, first.value.segments);
      assert Drop(parts, first.value.segments) == parts[first.value.segments..];
      forall n ensures Stripped(Stripped(target, first.value.segments), n) == Stripped(target, first.value.segments + n) {
        StrippedTwice(target, first.value.segments, n);
      }
    }
  }

  /** A mount point that ends in a wildcard strips like the one without it, and adds the
      wildcard's parameter; the joined pattern never matches. */
  lemma WildcardMount(path: seq<string>, q: seq<string>, p: seq<string>, prefix: bool)
    requires WILDCARD !in q && p != []
    ensures Matched(path, q + [WILDCARD] + p, prefix) == None
    ensures var plain := Matched(path, q, true);
            var starred := Matched(path, q + [WILDCARD], true);
            if plain.None? || plain.value.segments > |path| then starred == None
            else starred == Some(Match(plain.value.params + [Param(WILDCARD, Tail(path[plain.value.segments..]))],
                                       plain.value.segments))
  {
    hide Matched, Tail;
    Assoc(q, [WILDCARD], p);
    MatchedInTwo(path, q, [WILDCARD] + p, prefix);
    MatchedInTwo(path, q, [WILDCARD], true);
    var plain := Matched(path, q, true);
    if plain.Some? && plain.value.segments <= |path| {
      Starred(path[plain.value.segments..], p, prefix);
    }
  }

  lemma Starred(path: seq<string>, p: seq<string>, prefix: bool)
    ensures Matched(path, [WILDCARD], true) == Some(Match([Param(WILDCARD, Tail(path))], 0))
    ensures p != [] ==> Matched(path, [WILDCARD] + p, prefix) == None
  {
  }

  // --------------------------------------------------------------------------- dispatch

  /** A handler is a leaf of its own or a mounted router. */
  datatype Handler = Leaf(id: nat) | Mounted(routes: seq<Route>)

  datatype Route = Route(verb: Option<string>, path: string, handler: Handler, prefix: bool, strip: bool)

  datatype Outcome = Handled(id: nat, params: seq<Param>, target: string)
                   | NotAllowed(allow: seq<string>)
                   | NotFound

  predicate Allows(route: Route, verb: string) {
    route.verb.None? || IEquals(verb, route.verb.value)
  }

  predicate Accepts(route: Route, verb: string, target: string) {
    MatchOf(target, route.path, route.prefix).Some? && Allows(route, verb)
  }

  /** The route matches the path but is for another verb. */
  predicate Offers(route: Route, verb: string, target: string) {
    MatchOf(target, route.path, route.prefix).Some? && !Allows(route, verb)
  }

  predicate Listed(allow: seq<string>, verb: string) {
    exists i :: 0 <= i < |allow| && IEquals(allow[i], verb)
  }

  function Added(allow: seq<string>, verb: string): seq<string> {
    if Listed(allow, verb) then allow else allow + [verb]
  }

  /** The verbs of the first `n` routes that match the path but not the verb. */
  function AllowedBy(routes: seq<Route>, n: nat, verb: string, target: string): seq<string>
    requires n <= |routes|
  {
    if n == 0 then []
    else
      var before := AllowedBy(routes, n - 1, verb, target);
      var route := routes[n - 1];
      if Offers(route, verb, target) then Added(before, route.verb.value) else before
  }

  /** The first route at or behind `i` that accepts the request. */
  function Chosen(routes: seq<Route>, i: nat, verb: string, target: string): (r: Option<nat>)
    requires i <= |routes|
    ensures r.Some? ==> i <= r.value < |routes| && Accepts(routes[r.value], verb, target)
    ensures r.Some? ==> forall k :: i <= k < r.value ==> !Accepts(routes[k], verb, target)
    ensures r.None? ==> forall k :: i <= k < |routes| ==> !Accepts(routes[k], verb, target)
    decreases |routes| - i
  {
    if i == |routes| then None
    else if Accepts(routes[i], verb, target) then Some(i)
    else Chosen(routes, i + 1, verb, target)
  }

  function Dispatched(routes: seq<Route>, verb: string, target: string, params: seq<Param>): Outcome
    decreases routes
  {
    match Chosen(routes, 0, verb, target)
    case None =>
      var allow := AllowedBy(routes, |routes|, verb, target);
      if allow == [] then NotFound else NotAllowed(allow)
    case Some(i) =>
      var m := MatchOf(target, routes[i].path, routes[i].prefix).value;
      var inner := if routes[i].strip then Stripped(target, m.segments) else target;
      match routes[i].handler
      case Leaf(id) => Handled(id, params + m.params, inner)
      case Mounted(mounted) => Dispatched(mounted, verb, inner, params + m.params)
  }

  method Dispatch(routes: seq<Route>, verb: string, target: string, params: seq<Param>) returns (r: Outcome)
    ensures r == Dispatched(routes, verb, target, params)
    decreases routes
  {
    hide Matched, Split, Stripped, AllowedBy;
    var path := PathOf(target);
    var allow: seq<string> := [];
    var i := 0;
    NoneAllowed(routes, verb, target);
    while i < |routes|
      invariant 0 <= i <= |routes|
      invariant Chosen(routes, 0, verb, target) == Chosen(routes, i, verb, target)
      invariant allow == AllowedBy(routes, i, verb, target)
    {
      var route := routes[i];
      var m := MatchRoute(path, route.path, route.prefix);
      AllowedNext(routes, i, verb, target);
      if m.None? {
        i := i + 1;
        continue;
      }
      if !Allows(route, verb) {
        allow := AddAllowed(allow, route.verb.value);
        i := i + 1;
        continue;
      }
      var inner := target;
      if route.strip {
        inner := StripMatchedPrefix(target, m.value.segments);
      }
      match route.handler {
        case Leaf(id) =>
          return Handled(id, params + m.value.params, inner);
        case Mounted(mounted) =>
          r := Dispatch(mounted, verb, inner, params + m.value.params);
          return;
      }
    }
    return if allow == [] then NotFound else NotAllowed(allow);
  }

  lemma NoneAllowed(routes: seq<Route>, verb: string, target: string)
    ensures AllowedBy(routes, 0, verb, target) == []
  {
  }

  lemma AllowedNext(routes: seq<Route>, i: nat, verb: string, target: string)
    requires i < |routes|
    ensures AllowedBy(routes, i + 1, verb, target)
         == if Offers(routes[i], verb, target)
            then Added(AllowedBy(routes, i, verb, target), routes[i].verb.value)
            else AllowedBy(routes, i, verb, target)
  {
    hide MatchOf;
  }

  method AddAllowed(allow: seq<string>, verb: string) returns (r: seq<string>)
    ensures r == Added(allow, verb)
  {
    for i := 0 to |allow|
      invariant forall k :: 0 <= k < i ==> !IEquals(allow[k], verb)
    {
      if IEquals(allow[i], verb) {
        return allow;
      }
    }
    return allow + [verb];
  }

  lemma NowListed(allow: seq<string>, verb: string)
    ensures Listed(Added(allow, verb), verb)
  {
    if !Listed(allow, verb) {
      var now := allow + [verb];
      assert now[|allow|] == verb && IEquals(verb, verb);
    }
  }

  lemma StillListed(allow: seq<string>, verb: string, other: string)
    requires Listed(allow, other)
    ensures Listed(Added(allow, verb), other)
  {
    hide IEquals;
    var i :| 0 <= i < |allow| && IEquals(allow[i], other);
    assert Added(allow, verb)[i] == allow[i];
  }

  /** Every verb some matching route is for is offered ... */
  lemma {:induction false} AllowedListed(routes: seq<Route>, n: nat, verb: string, target: string, k: nat)
    requires k < n <= |routes| && Offers(routes[k], verb, target)
    ensures Listed(AllowedBy(routes, n, verb, target), routes[k].verb.value)
  {
    hide MatchOf, IEquals, Listed, Added;
    AllowedNext(routes, n - 1, verb, target);
    if k < n - 1 {
      AllowedListed(routes, n - 1, verb, target, k);
      if Offers(routes[n - 1], verb, target) {
        StillListed(AllowedBy(routes, n - 1, verb, target), routes[n - 1].verb.value, routes[k].verb.value);
      }
    } else {
      NowListed(AllowedBy(routes, n - 1, verb, target), routes[k].verb.value);
    }
  }

  ghost predicate Offered(routes: seq<Route>, n: nat, verb: string, target: string, offer: string)
    requires n <= |routes|
  {
    exists k :: 0 <= k < n && Offers(routes[k], verb, target) && routes[k].verb == Some(offer)
  }

  /** ... and nothing else is ... */
  lemma {:induction false} AllowedOffered(routes: seq<Route>, n: nat, verb: string, target: string, j: nat)
    requires n <= |routes| && j < |AllowedBy(routes, n, verb, target)|
    ensures Offered(routes, n, verb, target, AllowedBy(routes, n, verb, target)[j])
  {
    hide MatchOf, Listed;
    if n > 0 {
      AllowedNext(routes, n - 1, verb, target);
      if j < |AllowedBy(routes, n - 1, verb, target)| {
        AllowedOffered(routes, n - 1, verb, target, j);
      } else {
        assert Offers(routes[n - 1], verb, target);
      }
    }
  }

  /** ... and no verb twice. */
  lemma {:induction false} AllowedOnce(routes: seq<Route>, n: nat, verb: string, target: string, i: nat, j: nat)
    requires n <= |routes| && i < j < |AllowedBy(routes, n, verb, target)|
    ensures !IEquals(AllowedBy(routes, n, verb, target)[i], AllowedBy(routes, n, verb, target)[j])
  {
    hide MatchOf, IEquals;
    if n > 0 {
      AllowedNext(routes, n - 1, verb, target);
      if j < |AllowedBy(routes, n - 1, verb, target)| {
        AllowedOnce(routes, n - 1, verb, target, i, j);
      }
    }
  }

  /** Every mount point is wildcard-free, strips, and takes any verb, as `mount` makes it. */
  ghost predicate PlainMounts(routes: seq<Route>)
    decreases routes
  {
    forall i :: 0 <= i < |routes| && routes[i].handler.Mounted? ==>
      && WILDCARD !in Split(routes[i].path) && routes[i].prefix && routes[i].strip && routes[i].verb == None
      && PlainMounts(routes[i].handler.routes)
  }

  /** The router serves leaf `id` under `pattern`, the mount points' patterns joined. */
  ghost predicate Serves(routes: seq<Route>, id: nat, pattern: string, prefix: bool, verb: string)
    decreases routes
  {
    exists i :: 0 <= i < |routes| && Allows(routes[i], verb) &&
      match routes[i].handler
      case Leaf(leaf) => leaf == id && routes[i].path == pattern && routes[i].prefix == prefix && !routes[i].strip
      case Mounted(mounted) =>
        exists sub :: pattern == routes[i].path + ['/'] + sub && Serves(mounted, id, sub, prefix, verb)
  }

  ghost predicate LeavesKeepTarget(routes: seq<Route>)
    decreases routes
  {
    forall i :: 0 <= i < |routes| ==>
      match routes[i].handler
      case Leaf(_) => !routes[i].strip
      case Mounted(mounted) => LeavesKeepTarget(mounted)
  }

  /** A request handled through any depth of mounts is handled as by the flat pattern: the
      parameters are those of the joined pattern, and the query string is untouched. */
  lemma {:induction false} HandledAsFlat(routes: seq<Route>, verb: string, target: string, params: seq<Param>)
    returns (pattern: string, prefix: bool)
    requires PlainMounts(routes) && LeavesKeepTarget(routes)
    requires Dispatched(routes, verb, target, params).Handled?
    ensures var r := Dispatched(routes, verb, target, params);
            && Serves(routes, r.id, pattern, prefix, verb)
            && MatchOf(target, pattern, prefix).Some?
            && r.params == params + MatchOf(target, pattern, prefix).value.params
            && QueryOf(r.target) == QueryOf(target)
    decreases routes
  {
    hide Matched, MatchOf, Split, Stripped, QueryOf, AllowedBy;
    var i := Chosen(routes, 0, verb, target).value;
    var route := routes[i];
    match route.handler
    case Leaf(_) =>
      pattern, prefix := route.path, route.prefix;
    case Mounted(mounted) =>
      var m := MatchOf(target, route.path, true).value;
      var inner := Stripped(target, m.segments);
      var sub, subPrefix := HandledAsFlat(mounted, verb, inner, params + m.params);
      pattern, prefix := route.path + ['/'] + sub, subPrefix;
      MountFlattens(target, route.path, sub, prefix);
      Assoc(params, m.params, MatchOf(inner, sub, prefix).value.params);
  }

  // ------------------------------------------------------------------- the flat table

  /** A leaf with the patterns of its mount points joined in front of its own. */
  datatype FlatRoute = FlatRoute(verb: Option<string>, pattern: string, prefix: bool, id: nat)

  function Under(q: string, flat: seq<FlatRoute>): seq<FlatRoute> {
    if flat == [] then []
    else [flat[0].(pattern := q + ['/'] + flat[0].pattern)] + Under(q, flat[1..])
  }

  /** The leaves at and behind route `i`, in the order they are registered. */
  function Flat(routes: seq<Route>, i: nat): seq<FlatRoute>
    requires i <= |routes|
    decreases routes, |routes| - i
  {
    if i == |routes| then [] else FlatOne(routes[i]) + Flat(routes, i + 1)
  }

  function FlatOne(route: Route): seq<FlatRoute>
    decreases route
  {
    match route.handler
    case Leaf(id) => [FlatRoute(route.verb, route.path, route.prefix, id)]
    case Mounted(mounted) => Under(route.path, Flat(mounted, 0))
  }

  predicate FlatAccepts(f: FlatRoute, verb: string, target: string) {
    MatchOf(target, f.pattern, f.prefix).Some? && (f.verb.None? || IEquals(verb, f.verb.value))
  }

  /** The first flat route that accepts the request. */
  function FlatChosen(flat: seq<FlatRoute>, verb: string, target: string): (r: Option<FlatRoute>)
    ensures r.Some? ==> FlatAccepts(r.value, verb, target)
  {
    if flat == [] then None
    else if FlatAccepts(flat[0], verb, target) then Some(flat[0])
    else FlatChosen(flat[1..], verb, target)
  }

  lemma {:induction false} FlatChosenAppend(a: seq<FlatRoute>, b: seq<FlatRoute>, verb: string, target: string)
    ensures FlatChosen(a + b, verb, target)
         == if FlatChosen(a, verb, target).Some? then FlatChosen(a, verb, target) else FlatChosen(b, verb, target)
  {
    hide FlatAccepts;
    if a == [] {
      assert a + b == b;
    } else {
      assert (a + b)[1..] == a[1..] + b;
      FlatChosenAppend(a[1..], b, verb, target);
    }
  }

  /** Behind a mount point the flat table chooses what the inner one chooses for the stripped
      target, and nothing if the mount point does not match. */
  lemma {:induction false} UnderChosen(q: string, flat: seq<FlatRoute>, verb: string, target: string)
    requires WILDCARD !in Split(q)
    ensures var first := MatchOf(target, q, true);
            var outer := FlatChosen(Under(q, flat), verb, target);
            if first.None? then outer == None
            else
              var target' := Stripped(target, first.value.segments);
              var chosen := FlatChosen(flat, verb, target');
              && (outer.Some? <==> chosen.Some?)
              && (chosen.Some? ==>
                    && outer.value.id == chosen.value.id
                    && MatchOf(target, outer.value.pattern, outer.value.prefix).value.params
                       == first.value.params + MatchOf(target', chosen.value.pattern, chosen.value.prefix).value.params)
  {
    hide MatchOf, Split, Stripped;
    if flat != [] {
      UnderChosen(q, flat[1..], verb, target);
      MountFlattens(target, q, flat[0].pattern, flat[0].prefix);
    }
  }

  /** Routes before the chosen one contribute nothing to the flat table's choice. */
  lemma {:induction false} SkipsToChosen(routes: seq<Route>, i: nat, verb: string, target: string)
    requires i <= |routes| && PlainMounts(routes)
    ensures var c := Chosen(routes, i, verb, target);
            FlatChosen(Flat(routes, i), verb, target)
            == if c.None? then None else FlatChosen(Flat(routes, c.value), verb, target)
    decreases |routes| - i
  {
    hide MatchOf, Split, Stripped;
    if i < |routes| && !Accepts(routes[i], verb, target) {
      SkipsToChosen(routes, i + 1, verb, target);
      FlatChosenAppend(FlatOne(routes[i]), Flat(routes, i + 1), verb, target);
      NotAccepted(routes[i], verb, target);
    }
  }

  lemma NotAccepted(route: Route, verb: string, target: string)
    requires !Accepts(route, verb, target)
    requires route.handler.Mounted? ==> WILDCARD !in Split(route.path) && route.prefix && route.verb == None
    ensures FlatChosen(FlatOne(route), verb, target) == None
  {
    hide MatchOf, Split, Stripped, Flat;
    match route.handler
    case Leaf(_) =>
    case Mounted(mounted) => UnderChosen(route.path, Flat(mounted, 0), verb, target);
  }

  /** Dispatch ends at a mount point that matches, inside which no route accepts. */
  predicate Stuck(routes: seq<Route>, verb: string, target: string)
    decreases routes
  {
    match Chosen(routes, 0, verb, target)
    case None => false
    case Some(i) =>
      match routes[i].handler
      case Leaf(_) => false
      case Mounted(mounted) =>
        var target' := InnerTarget(routes[i], target);
        Chosen(mounted, 0, verb, target').None? || Stuck(mounted, verb, target')
  }

  function InnerTarget(route: Route, target: string): string {
    var m := MatchOf(target, route.path, route.prefix);
    if m.Some? && route.strip then Stripped(target, m.value.segments) else target
  }

  /** `r` is what the flat table says. */
  predicate AsFlat(r: Outcome, flat: Option<FlatRoute>, target: string, params: seq<Param>) {
    match flat
    case None => !r.Handled?
    case Some(f) =>
      && MatchOf(target, f.pattern, f.prefix).Some? && r.Handled? && r.id == f.id
      && r.params == params + MatchOf(target, f.pattern, f.prefix).value.params
  }

  lemma {:induction false} HandledUnlessStuck(routes: seq<Route>, verb: string, target: string, params: seq<Param>)
    ensures Dispatched(routes, verb, target, params).Handled?
       <==> Chosen(routes, 0, verb, target).Some? && !Stuck(routes, verb, target)
    decreases routes
  {
    hide MatchOf, Stripped, AllowedBy;
    var c := Chosen(routes, 0, verb, target);
    if c.Some? && routes[c.value].handler.Mounted? {
      var m := MatchOf(target, routes[c.value].path, routes[c.value].prefix).value;
      HandledUnlessStuck(routes[c.value].handler.routes, verb, InnerTarget(routes[c.value], target), params + m.params);
    }
  }

  /** Whatever nested dispatch handles, the flat table handles the same way. */
  lemma {:induction false} HandledFlat(routes: seq<Route>, verb: string, target: string, params: seq<Param>)
    requires PlainMounts(routes) && Dispatched(routes, verb, target, params).Handled?
    ensures AsFlat(Dispatched(routes, verb, target, params), FlatChosen(Flat(routes, 0), verb, target), target, params)
    ensures FlatChosen(Flat(routes, 0), verb, target).Some?
    decreases routes
  {
    hide MatchOf, Split, Stripped, AllowedBy;
    var i := Chosen(routes, 0, verb, target).value;
    SkipsToChosen(routes, 0, verb, target);
    FlatChosenAppend(FlatOne(routes[i]), Flat(routes, i + 1), verb, target);
    match routes[i].handler
    case Leaf(_) =>
    case Mounted(mounted) =>
      var m := MatchOf(target, routes[i].path, true).value;
      var target' := Stripped(target, m.segments);
      HandledFlat(mounted, verb, target', params + m.params);
      UnderChosen(routes[i].path, Flat(mounted, 0), verb, target);
      var f := FlatChosen(Flat(mounted, 0), verb, target').value;
      Assoc(params, m.params, MatchOf(target', f.pattern, f.prefix).value.params);
  }

  /** Nested dispatch is dispatch of the flat table, for every request, if and only if it does
      not get stuck in a mount while some flat route accepts the request. */
  lemma FlatExactly(routes: seq<Route>, verb: string, target: string, params: seq<Param>)
    requires PlainMounts(routes)
    ensures AsFlat(Dispatched(routes, verb, target, params), FlatChosen(Flat(routes, 0), verb, target), target, params)
       <==> !(Stuck(routes, verb, target) && FlatChosen(Flat(routes, 0), verb, target).Some?)
  {
    hide MatchOf, Split, Stripped, AllowedBy, Dispatched, Stuck, PlainMounts;
    HandledUnlessStuck(routes, verb, target, params);
    SkipsToChosen(routes, 0, verb, target);
    if Dispatched(routes, verb, target, params).Handled? {
      HandledFlat(routes, verb, target, params);
    }
  }

  /** A mount that matches hides every later route, even if it has none itself. */
  lemma MountShadows(q: string, p: string, prefix: bool, id: nat, verb: string, target: string)
    requires WILDCARD !in Split(q) && MatchOf(target, q, true).Some? && MatchOf(target, p, prefix).Some?
    ensures var routes := [Route(None, q, Mounted([]), true, true), Route(None, p, Leaf(id), prefix, false)];
            && PlainMounts(routes)
            && Dispatched(routes, verb, target, []) == NotFound
            && FlatChosen(Flat(routes, 0), verb, target) == Some(FlatRoute(None, p, prefix, id))
  {
    hide MatchOf, Split, Stripped;
    var mount, leaf := Route(None, q, Mounted([]), true, true), Route(None, p, Leaf(id), prefix, false);
    var routes := [mount, leaf];
    assert Accepts(mount, verb, target) && Chosen(routes, 0, verb, target) == Some(0);
    assert Chosen([], 0, verb, InnerTarget(mount, target)) == None;
    assert Flat([], 0) == [] && Under(q, []) == [];
    assert Flat(routes, 2) == [] && Flat(routes, 1) == FlatOne(leaf) + [];
    assert Flat(routes, 0) == [] + Flat(routes, 1);
    assert Flat(routes, 0) == [FlatRoute(None, p, prefix, id)];
  }
}
