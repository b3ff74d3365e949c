/**
 * Routes as text: which requests a registered path answers, stated about the segments of the
 * path and of the request, and proved of AddRoute and FindRoute of HttpRouter.
 */
module RouteText {
  import opened Prelude
  import opened HttpRouter

  lemma Marks()
    ensures [Slash] == Ascii("/") && [ColonChar] == Ascii(":") && [Star] == Ascii("*")
  {
  }

  /** A segment of a path: not empty, and without a slash. */
  ghost predicate GoodSegment(s: bytes) {
    s != [] && Ascii("/")[0] !in s
  }

  ghost predicate GoodSegments(segs: seq<bytes>) {
    forall i {:trigger segs[i]} :: 0 <= i < |segs| ==> GoodSegment(segs[i])
  }

  /** The path of the segments from i on, each behind a slash. */
  function PathText(segs: seq<bytes>, i: nat): bytes
    decreases |segs| - i
  {
    if i >= |segs| then [] else Ascii("/") + segs[i] + PathText(segs, i + 1)
  }

  predicate IsParam(seg: bytes) {
    seg != [] && seg[0] == Ascii(":")[0]
  }

  predicate IsWild(seg: bytes) {
    seg != [] && seg[0] == Ascii("*")[0]
  }

  /** One level for each segment: a colon makes a parameter of the name behind it, a star a wildcard, which is the last level. */
  function PatternOf(segs: seq<bytes>, i: nat): Pattern
    decreases |segs| - i
  {
    if i >= |segs| then End
    else if IsParam(segs[i]) then Param(segs[i][1..], PatternOf(segs, i + 1))
    else if IsWild(segs[i]) then Wild(segs[i][1..])
    else Static(segs[i], PatternOf(segs, i + 1))
  }

  // ---------------------------------------------------------------- segments of a text

  lemma {:induction false} UpToSlashIs(seg: bytes, rest: bytes)
    requires Slash !in seg && (rest != [] ==> rest[0] == Slash)
    ensures UpToSlash(seg + rest) == |seg|
  {
    if seg != [] {
      assert (seg + rest)[1..] == seg[1..] + rest;
      UpToSlashIs(seg[1..], rest);
    } else {
      assert seg + rest == rest;
    }
  }

  lemma FirstSegment(seg: bytes, rest: bytes)
    requires seg != [] && Slash !in seg && (rest != [] ==> rest[0] == Slash)
    ensures
      var s := [Slash] + seg + rest;
      Segment(s) == seg && AfterSegment(s) == rest && Raw(s) == seg + rest
  {
    var s := [Slash] + seg + rest;
    assert s[1..] == seg + rest;
    UpToSlashIs(seg, rest);
    assert (seg + rest)[..|seg|] == seg && (seg + rest)[|seg|..] == rest;
  }

  lemma PathAt(segs: seq<bytes>, i: nat)
    requires GoodSegments(segs) && i <= |segs|
    ensures i < |segs| ==>
      var s := PathText(segs, i);
      Segment(s) == segs[i] && AfterSegment(s) == PathText(segs, i + 1) && Raw(s) == segs[i] + PathText(segs, i + 1)
    ensures i == |segs| ==> Segment(PathText(segs, i)) == []
  {
    Marks();
    if i < |segs| {
      assert GoodSegment(segs[i]);
      FirstSegment(segs[i], PathText(segs, i + 1));
    }
  }

  /** ParsePattern under another name, which does not unfold. */
  ghost predicate IsParse(parse: bytes -> Pattern) {
    forall s {:trigger ParsePattern(s)} :: ParsePattern(s) == parse(s)
  }

  lemma {:induction false} ParseStep(s: bytes, seg: bytes, rest: bytes, parse: bytes -> Pattern)
    requires Segment(s) == seg && AfterSegment(s) == rest && IsParse(parse)
    ensures seg == [] ==> parse(s) == End
    ensures IsParam(seg) ==> parse(s) == Param(seg[1..], parse(rest))
    ensures IsWild(seg) ==> parse(s) == Wild(seg[1..])
    ensures seg != [] && !IsParam(seg) && !IsWild(seg) ==> parse(s) == Static(seg, parse(rest))
  {
    Marks();
    assert parse(s) == ParsePattern(s) && parse(rest) == ParsePattern(rest);
  }

  lemma {:induction false} TextParses(segs: seq<bytes>, i: nat, parse: bytes -> Pattern)
    requires GoodSegments(segs) && i <= |segs| && IsParse(parse)
    ensures parse(PathText(segs, i)) == PatternOf(segs, i)
    decreases |segs| - i
  {
    PathAt(segs, i);
    if i < |segs| {
      assert GoodSegment(segs[i]);
      TextParses(segs, i + 1, parse);
      ParseStep(PathText(segs, i), segs[i], PathText(segs, i + 1), parse);
    } else {
      ParseStep([], [], [], parse);
    }
  }

  /** A registered text is parsed to one level for each of its segments. */
  lemma TextIsPattern(segs: seq<bytes>)
    requires GoodSegments(segs)
    ensures ParsePattern(PathText(segs, 0)) == PatternOf(segs, 0)
  {
    TextParses(segs, 0, s => ParsePattern(s));
  }

  /** A slash in front makes no difference. */
  lemma WithoutSlash(s: bytes)
    requires s == [] || s[0] != Slash
    ensures ParsePattern([Slash] + s) == ParsePattern(s)
  {
    assert ([Slash] + s)[1..] == s;
  }

  // ---------------------------------------------------------------- requests

  /** The request has the same segments, and anything where the route has a parameter, up to a wildcard. */
  ghost predicate Fits(segs: seq<bytes>, asked: seq<bytes>, i: nat)
    decreases |segs| - i
  {
    if i >= |segs| then i >= |asked|
    else IsWild(segs[i]) || (i < |asked| && (IsParam(segs[i]) || asked[i] == segs[i]) && Fits(segs, asked, i + 1))
  }

  /** The rest of the path, without the slash it begins with. */
  function Remainder(asked: seq<bytes>, i: nat): bytes {
    if i >= |asked| then [] else asked[i] + PathText(asked, i + 1)
  }

  /** Each parameter has the segment of its place; of two with one name the later counts. */
  function Bindings(segs: seq<bytes>, asked: seq<bytes>, i: nat): map<bytes, bytes>
    decreases |segs| - i
  {
    if i >= |segs| || (i >= |asked| && !IsWild(segs[i])) then map[]
    else if IsWild(segs[i]) && !IsParam(segs[i]) then map[segs[i][1..] := Remainder(asked, i)]
    else if IsParam(segs[i]) then map[segs[i][1..] := asked[i]] + Bindings(segs, asked, i + 1)
    else Bindings(segs, asked, i + 1)
  }

  /** One level of a match. */
  lemma {:induction false} BindStep(p: Pattern, s: bytes, seg: bytes, rest: bytes, raw: bytes)
    requires seg != [] && Segment(s) == seg && AfterSegment(s) == rest && Raw(s) == raw
    ensures p.End? ==> Bind(p, s) == None
    ensures p.Wild? ==> Bind(p, s) == Some(map[p.name := raw])
    ensures p.Static? ==> Bind(p, s) == if seg == p.text then Bind(p.rest, rest) else None
    ensures p.Param? ==> Bind(p, s) == if Bind(p.rest, rest).None? then None else Some(map[p.name := seg] + Bind(p.rest, rest).value)
  {
  }

  lemma {:induction false} BindIsText(segs: seq<bytes>, asked: seq<bytes>, i: nat)
    requires GoodSegments(segs) && GoodSegments(asked) && i <= |segs| && i <= |asked|
    ensures Bind(PatternOf(segs, i), PathText(asked, i)) == if Fits(segs, asked, i) then Some(Bindings(segs, asked, i)) else None
    decreases |segs| - i
  {
    var p, s := PatternOf(segs, i), PathText(asked, i);
    PathAt(asked, i);
    if i < |asked| {
      var rest := PathText(asked, i + 1);
      BindStep(p, s, asked[i], rest, asked[i] + rest);
      if i < |segs| {
        OneMark(segs[i]);
        BindIsText(segs, asked, i + 1);
      }
    } else if i < |segs| {
      OneMark(segs[i]);
      BindEnd(p, s);
    } else {
      BindEnd(p, s);
    }
  }

  lemma {:induction false} BindEnd(p: Pattern, s: bytes)
    requires Segment(s) == []
    ensures p.End? ==> Bind(p, s) == Some(map[])
    ensures p.Wild? ==> Bind(p, s) == Some(map[p.name := []])
    ensures p.Static? || p.Param? ==> Bind(p, s) == None
  {
  }

  lemma OneMark(seg: bytes)
    ensures !(IsParam(seg) && IsWild(seg))
  {
  }

  // ---------------------------------------------------------------- entries

  /** What adding methods does: each gets the handler, GET also serves HEAD unless HEAD is there, and the others stay. */
  lemma {:induction false} AddMethodsAre(e: Entry, methods: seq<Method>, h: Handler, m: Method)
    ensures m in AddMethods(e, methods, h) <==> m in e || m in methods || (m == Head && Get in methods)
    ensures m in methods || (m == Head && Get in methods && Head !in e) ==> m in AddMethods(e, methods, h) && AddMethods(e, methods, h)[m] == h
    ensures m in e && m !in methods ==> m in AddMethods(e, methods, h) && AddMethods(e, methods, h)[m] == e[m]
    decreases |methods|
  {
    if methods != [] {
      var first, more := methods[0], methods[1..];
      assert methods == [first] + more;
      AddMethodsAre(AddMethod(e, first, h), more, h, m);
    }
  }

  // ---------------------------------------------------------------- registering and asking

  /** Some segment is a parameter or a wildcard. */
  ghost predicate HasMark(segs: seq<bytes>, i: nat) {
    exists k {:trigger segs[k]} :: i <= k < |segs| && (IsParam(segs[k]) || IsWild(segs[k]))
  }

  /** A byte behind a slash is the first of a segment. */
  lemma {:induction false} MarkedIff(segs: seq<bytes>, i: nat, c: byte)
    requires GoodSegments(segs) && i <= |segs| && c != Slash
    ensures Marked(PathText(segs, i), c) <==> exists k {:trigger segs[k]} :: i <= k < |segs| && segs[k][0] == c
    decreases |segs| - i
  {
    Marks();
    if i < |segs| {
      var path, rest, seg := PathText(segs, i), PathText(segs, i + 1), segs[i];
      assert GoodSegment(seg) && path == [Slash] + seg + rest;
      assert path[0] == Slash && path[1] == seg[0];
      MarkedIff(segs, i + 1, c);
      if Marked(path, c) {
        var x :| 0 <= x < |path| && path[x] == c && (x == 0 || path[x - 1] == Slash);
        FirstOfSegment(seg, rest, path, x, c);
      }
      if k :| i <= k < |segs| && segs[k][0] == c {
        if k == i {
          assert path[1] == c && path[0] == Slash;
        } else {
          var x :| 0 <= x < |rest| && rest[x] == c && (x == 0 || rest[x - 1] == Slash);
          LaterSegment(seg, rest, path, x, c);
        }
      }
    }
  }

  lemma FirstOfSegment(seg: bytes, rest: bytes, path: bytes, x: nat, c: byte)
    requires seg != [] && Slash !in seg && c != Slash && path == [Slash] + seg + rest && (rest != [] ==> rest[0] == Slash)
    requires x < |path| && path[x] == c && (x == 0 || path[x - 1] == Slash)
    ensures seg[0] == c || Marked(rest, c)
  {
    if x > 1 {
      assert forall y {:trigger path[y]} :: 1 <= y <= |seg| ==> path[y] == seg[y - 1] != Slash;
      var y := x - 1 - |seg|;
      assert path[x] == rest[y];
      assert y > 0 ==> path[x - 1] == rest[y - 1];
      assert rest[y] == c && (y == 0 || rest[y - 1] == Slash);
    }
  }

  lemma LaterSegment(seg: bytes, rest: bytes, path: bytes, x: nat, c: byte)
    requires seg != [] && c != Slash && path == [Slash] + seg + rest && (rest != [] ==> rest[0] == Slash)
    requires x < |rest| && rest[x] == c && (x == 0 || rest[x - 1] == Slash)
    ensures Marked(path, c)
  {
    var y := x + 1 + |seg|;
    assert path[y] == c && path[y - 1] == rest[x - 1];
  }

  lemma HasMarkIff(segs: seq<bytes>)
    requires GoodSegments(segs)
    ensures HasMark(segs, 0) <==> Marked(PathText(segs, 0), ColonChar) || Marked(PathText(segs, 0), Star)
  {
    Marks();
    MarkedIff(segs, 0, ColonChar);
    MarkedIff(segs, 0, Star);
    assert forall k {:trigger segs[k]} :: 0 <= k < |segs| ==> GoodSegment(segs[k]);
  }

  /** The levels of a route before its wildcard. */
  function Levels(segs: seq<bytes>, i: nat): nat
    decreases |segs| - i
  {
    if i >= |segs| || (IsWild(segs[i]) && !IsParam(segs[i])) then 0 else 1 + Levels(segs, i + 1)
  }

  lemma {:induction false} LevelsAre(segs: seq<bytes>, i: nat)
    ensures Depth(PatternOf(segs, i)) == Levels(segs, i)
    decreases |segs| - i
  {
    if i < |segs| {
      LevelsAre(segs, i + 1);
    }
  }

  /** The first of the routes registered for a pattern, then the others: the last one adds its methods. */
  lemma RegisteredMore(routes: seq<Route>, r: Route)
    ensures Registered(routes + [r], r.pattern) == AddMethods(Registered(routes, r.pattern), r.methods, r.handler)
  {
    assert (routes + [r])[..|routes|] == routes;
  }

  /** The pattern answers requests that fit its text, and no others. */
  lemma ServesText(routes: seq<Route>, segs: seq<bytes>, methods: seq<Method>, h: Handler, asked: seq<bytes>)
    requires GoodSegments(segs) && GoodSegments(asked) && methods != []
    ensures Serves(routes + [Route(PatternOf(segs, 0), methods, h)], PatternOf(segs, 0), PathText(asked, 0)) <==>
      Fits(segs, asked, 0) && Levels(segs, 0) <= 32
  {
    RegisteredMore(routes, Route(PatternOf(segs, 0), methods, h));
    AddMethodsAre(Registered(routes, PatternOf(segs, 0)), methods, h, methods[0]);
    BindIsText(segs, asked, 0);
    LevelsAre(segs, 0);
  }

  /**
   * A route with a parameter or a wildcard is registered, and then any request is made: it is
   * answered by that route, or by one that comes before it, if and only if it fits the text;
   * with the handler, and with the segments that stand in the places of the parameters.
   */
  method RegisterAndAsk(router: Router, segs: seq<bytes>, methods: seq<Method>, h: Handler, m: Method, asked: seq<bytes>)
    returns (r: RouteResult, ghost p: Option<Pattern>)
    requires router.Valid() && GoodSegments(segs) && HasMark(segs, 0) && GoodSegments(asked) && methods != []
    requires |PathText(asked, 0)| <= 2048 && PathText(asked, 0) !in router.exactRoutes
    modifies router
    ensures Fits(segs, asked, 0) && Levels(segs, 0) <= 32 ==> p.Some? && (p.value == PatternOf(segs, 0) || Before(p.value, PatternOf(segs, 0)))
    ensures p == Some(PatternOf(segs, 0)) ==> Fits(segs, asked, 0) && Levels(segs, 0) <= 32
    ensures p == Some(PatternOf(segs, 0)) && m in methods ==> r.reason == Routed && r.handler == Some(h)
    ensures p == Some(PatternOf(segs, 0)) && AllNamesOnce(router.routes) ==> r.params == Bindings(segs, asked, 0)
    ensures p == Some(PatternOf(segs, 0)) && Registered(old(router.routes), PatternOf(segs, 0)) == map[] && m !in methods && !(m == Head && Get in methods) ==>
      && r.reason == MethodNotAllowed && r.handler.None?
      && forall x {:trigger x in r.allowed} :: x in r.allowed <==> x in methods || (x == Head && Get in methods)
    ensures p.None? ==> r.reason == NotFound && r.handler.None?
  {
    ghost var routes, pattern := router.routes, PatternOf(segs, 0);
    HasMarkIff(segs);
    TextIsPattern(segs);
    router.AddRoute(PathText(segs, 0), methods, h);
    ServesText(routes, segs, methods, h, asked);
    RegisteredMore(routes, Route(pattern, methods, h));
    r, p := router.FindRoute(m, PathText(asked, 0));
    if p == Some(pattern) {
      BindIsText(segs, asked, 0);
      AnswerSays(Registered(routes, pattern), methods, h, m, r);
    }
  }

  /** What the entry of a route answers to one method. */
  lemma AnswerSays(e: Entry, methods: seq<Method>, h: Handler, m: Method, r: RouteResult)
    requires r == LookupMethod(AddMethods(e, methods, h), m, r.params)
    ensures m in methods ==> r.reason == Routed && r.handler == Some(h)
    ensures e == map[] && m !in methods && !(m == Head && Get in methods) ==>
      && r.reason == MethodNotAllowed && r.handler.None?
      && forall x {:trigger x in r.allowed} :: x in r.allowed <==> x in methods || (x == Head && Get in methods)
  {
    forall x {:trigger x in r.allowed} ensures x in AddMethods(e, methods, h) <==> x in e || x in methods || (x == Head && Get in methods) {
      AddMethodsAre(e, methods, h, x);
    }
    AddMethodsAre(e, methods, h, m);
  }

  /** A route without either is registered, and asked for in its own words. */
  method RegisterExact(router: Router, path: bytes, methods: seq<Method>, h: Handler, m: Method) returns (r: RouteResult)
    requires router.Valid() && !Marked(path, ColonChar) && !Marked(path, Star) && m in methods && |path| <= 2048
    modifies router
    ensures r.reason == Routed && r.handler == Some(h) && r.params == map[]
  {
    AddMethodsAre(if path in router.exactRoutes then router.exactRoutes[path] else map[], methods, h, m);
    router.AddRoute(path, methods, h);
    ghost var p;
    r, p := router.FindRoute(m, path);
  }

  // ---------------------------------------------------------------- which route comes first

  /** The level of a segment: what kind it is, in the order of the search, and its text or name. */
  datatype Level = Level(rank: nat, name: bytes)

  /** A pattern as its levels, the end included. */
  function AsLevels(p: Pattern): (l: seq<Level>)
    ensures l != []
  {
    match p
    case Static(text, rest) => [Level(0, text)] + AsLevels(rest)
    case Param(name, rest) => [Level(1, name)] + AsLevels(rest)
    case Wild(name) => [Level(2, name)]
    case End => [Level(3, [])]
  }

  /** A static segment before a parameter, that before a wildcard, that before the end; parameters and wildcards by name. */
  predicate LevelBefore(a: Level, b: Level) {
    a.rank < b.rank || (a.rank == b.rank && a.rank in {1, 2} && NameLess(a.name, b.name))
  }

  /** Alike up to level i, and before there. */
  ghost predicate BeforeAt(a: seq<Level>, b: seq<Level>, i: nat) {
    i < |a| && i < |b| && a[..i] == b[..i] && LevelBefore(a[i], b[i])
  }

  ghost predicate ComesFirst(a: seq<Level>, b: seq<Level>) {
    exists i {:trigger BeforeAt(a, b, i)} :: BeforeAt(a, b, i)
  }

  lemma PrefixOfCons(a: Level, x: seq<Level>, i: nat)
    requires i <= |x|
    ensures ([a] + x)[..i + 1] == [a] + x[..i] && ([a] + x)[..i + 1][1..] == x[..i]
  {
    assert ([a] + x)[..i + 1] == [a] + x[..i];
  }

  lemma BeforeAtNext(a: Level, b: Level, x: seq<Level>, y: seq<Level>)
    ensures ComesFirst([a] + x, [b] + y) <==> LevelBefore(a, b) || (a == b && ComesFirst(x, y))
  {
    var p, q := [a] + x, [b] + y;
    if LevelBefore(a, b) {
      assert BeforeAt(p, q, 0);
    }
    if a == b {
      forall i: nat | BeforeAt(x, y, i) ensures BeforeAt(p, q, i + 1) {
        PrefixOfCons(a, x, i);
        PrefixOfCons(b, y, i);
      }
    }
    forall i: nat | BeforeAt(p, q, i) && i > 0 ensures a == b && BeforeAt(x, y, i - 1) {
      PrefixOfCons(a, x, i - 1);
      PrefixOfCons(b, y, i - 1);
      assert p[..i][0] == a && q[..i][0] == b && p[..i][1..] == q[..i][1..];
    }
  }

  /** One pattern comes before another if and only if it does at the first level where they differ. */
  lemma {:induction false} BeforeIff(p: Pattern, q: Pattern)
    ensures Before(p, q) <==> ComesFirst(AsLevels(p), AsLevels(q))
    decreases p
  {
    var x := if p.Static? || p.Param? then AsLevels(p.rest) else [];
    var y := if q.Static? || q.Param? then AsLevels(q.rest) else [];
    var a, b := AsLevels(p)[0], AsLevels(q)[0];
    assert AsLevels(p) == [a] + x && AsLevels(q) == [b] + y;
    BeforeAtNext(a, b, x, y);
    if p.Param? && q.Param? && p.name == q.name {
      NameLessIrreflexive(p.name);
    }
    if (p.Static? && q.Static?) || (p.Param? && q.Param?) {
      BeforeIff(p.rest, q.rest);
      assert AsLevels(p.rest) == x && AsLevels(q.rest) == y;
    } else {
      assert a == b ==> x == [] && !ComesFirst(x, y);
    }
  }
}
