/**
 * HttpRouter.cc: the segment tree and its backtracking search, proved against a scan of all
 * registered patterns. The tree is a value here; insertion rebuilds the path it changes.
 */
module HttpRouter {
  import opened Prelude

  type bytes = seq<byte>
  type Method = nat
  type Handler = nat

  const Get: Method := 0
  const Head: Method := 1
  const Slash: byte := 47
  const ColonChar: byte := 58
  const Star: byte := 42
  const MaxPathLength := 2048
  const MaxPathSegments := 32

  // ---------------------------------------------------------------- segments

  /** A path without the slash it may begin with. */
  function Raw(s: bytes): bytes {
    if s != [] && s[0] == Slash then s[1..] else s
  }

  function UpToSlash(s: bytes): (n: nat)
    ensures n <= |s|
  {
    if s == [] || s[0] == Slash then 0 else 1 + UpToSlash(s[1..])
  }

  function Segment(s: bytes): bytes {
    Raw(s)[..UpToSlash(Raw(s))]
  }

  function AfterSegment(s: bytes): (r: bytes)
    ensures Segment(s) != [] ==> |r| < |s|
  {
    Raw(s)[UpToSlash(Raw(s))..]
  }

  method SkipToSlash(path: bytes, first: nat) returns (pos: nat)
    requires first <= |path|
    ensures first <= pos <= |path| && pos == first + UpToSlash(path[first..])
  {
    pos := first;
    while pos < |path| && path[pos] != Slash
      invariant first <= pos <= |path| && UpToSlash(path[first..]) == pos - first + UpToSlash(path[pos..])
    {
      assert path[pos..][1..] == path[pos + 1..];
      pos := pos + 1;
    }
  }

  /** nextSegment: the segment at pos, and the position after it. */
  method NextSegment(path: bytes, start: nat) returns (segment: bytes, pos: nat)
    requires start <= |path|
    ensures start <= pos <= |path| && segment == Segment(path[start..]) && path[pos..] == AfterSegment(path[start..])
    ensures segment != [] ==> |segment| <= pos && path[pos - |segment|..] == Raw(path[start..])
  {
    pos := start;
    if pos >= |path| {
      return [], pos;
    }
    if path[pos] == Slash {
      pos := pos + 1;
    }
    var first := pos;
    ghost var raw := path[first..];
    assert raw == Raw(path[start..]);
    pos := SkipToSlash(path, first);
    segment := path[first..pos];
    SliceOfDrop(path, first, pos - first);
  }

  // ---------------------------------------------------------------- patterns

  datatype Pattern =
    | End
    | Wild(name: bytes)
    | Static(text: bytes, rest: Pattern)
    | Param(name: bytes, rest: Pattern)

  /** A pattern is cut at its first empty segment, and after its first wildcard. */
  function ParsePattern(s: bytes): Pattern
    decreases |s|
  {
    var seg := Segment(s);
    if seg == [] then End
    else if seg[0] == ColonChar then Param(seg[1..], ParsePattern(AfterSegment(s)))
    else if seg[0] == Star then Wild(seg[1..])
    else Static(seg, ParsePattern(AfterSegment(s)))
  }

  /** The bindings with which a pattern matches a path, the scan every search is measured against. */
  function Bind(p: Pattern, s: bytes): Option<map<bytes, bytes>> {
    var seg := Segment(s);
    match p
    case End => if seg == [] then Some(map[]) else None
    case Wild(name) => Some(map[name := if seg == [] then [] else Raw(s)])
    case Static(text, rest) => if seg == [] || seg != text then None else Bind(rest, AfterSegment(s))
    case Param(name, rest) =>
      if seg == [] then None else
      match Bind(rest, AfterSegment(s))
      case None => None
      case Some(m) => Some(map[name := seg] + m)
  }

  function Size(p: Pattern): nat {
    match p
    case End => 0
    case Wild(_) => 1
    case Static(_, rest) => 1 + Size(rest)
    case Param(_, rest) => 1 + Size(rest)
  }

  /** Segments that cost a level of the search. */
  function Depth(p: Pattern): nat {
    match p
    case Static(_, rest) => 1 + Depth(rest)
    case Param(_, rest) => 1 + Depth(rest)
    case _ => 0
  }

  /** std::string's order. */
  predicate NameLess(a: bytes, b: bytes) {
    if b == [] then false else if a == [] then true
    else a[0] < b[0] || (a[0] == b[0] && NameLess(a[1..], b[1..]))
  }

  /** static, then parameters by name, then wildcards by name, then the end. */
  predicate Before(p: Pattern, q: Pattern) {
    match p
    case Static(a, x) => (match q case Static(b, y) => a == b && Before(x, y) case _ => true)
    case Param(a, x) =>
      (match q
       case Static(_, _) => false
       case Param(b, y) => NameLess(a, b) || (a == b && Before(x, y))
       case _ => true)
    case Wild(a) => (match q case Wild(b) => NameLess(a, b) case End => true case _ => false)
    case End => false
  }

  lemma {:induction false} NameLessTotal(a: bytes, b: bytes)
    ensures a == b || NameLess(a, b) || NameLess(b, a)
  {
    if a != [] && b != [] {
      NameLessTotal(a[1..], b[1..]);
      assert a == [a[0]] + a[1..] && b == [b[0]] + b[1..];
    }
  }

  lemma {:induction false} NameLessTransitive(a: bytes, b: bytes, c: bytes)
    requires NameLess(a, b) && NameLess(b, c)
    ensures NameLess(a, c)
  {
    if a != [] && b[0] == c[0] && a[0] == b[0] {
      NameLessTransitive(a[1..], b[1..], c[1..]);
    }
  }

  lemma {:induction false} NameLessIrreflexive(a: bytes)
    ensures !NameLess(a, a)
  {
    if a != [] {
      NameLessIrreflexive(a[1..]);
    }
  }

  // ---------------------------------------------------------------- the tree

  type Entry = map<Method, Handler>

  datatype Tree = Tree(entry: Entry, statics: Kids, params: Kids, wilds: Kids)

  /** Children by name, in the order of a std::map. */
  datatype Kids = Nil | Cons(name: bytes, tree: Tree, more: Kids)

  const EmptyTree := Tree(map[], Nil, Nil, Nil)

  /** addMethodToEntry: GET answers HEAD too, unless HEAD has a handler. */
  function AddMethod(e: Entry, m: Method, h: Handler): Entry {
    var f := e[m := h];
    if m == Get && Head !in f then f[Head := h] else f
  }

  function AddMethods(e: Entry, methods: seq<Method>, h: Handler): Entry
    decreases |methods|
  {
    if methods == [] then e else AddMethods(AddMethod(e, methods[0], h), methods[1..], h)
  }

  /** insertRadix. */
  function Insert(t: Tree, p: Pattern, methods: seq<Method>, h: Handler): Tree
    decreases Size(p), 0
  {
    match p
    case End => t.(entry := AddMethods(t.entry, methods, h))
    case Wild(name) => t.(wilds := InsertKid(t.wilds, name, End, methods, h))
    case Static(text, rest) => t.(statics := InsertKid(t.statics, text, rest, methods, h))
    case Param(name, rest) => t.(params := InsertKid(t.params, name, rest, methods, h))
  }

  function InsertKid(k: Kids, name: bytes, rest: Pattern, methods: seq<Method>, h: Handler): Kids
    decreases Size(rest), 1, k
  {
    match k
    case Nil => Cons(name, Insert(EmptyTree, rest, methods, h), Nil)
    case Cons(n, t, more) =>
      if n == name then Cons(n, Insert(t, rest, methods, h), more)
      else if NameLess(name, n) then Cons(name, Insert(EmptyTree, rest, methods, h), k)
      else Cons(n, t, InsertKid(more, name, rest, methods, h))
  }

  /** What is registered under a pattern: no methods if nothing is. */
  function Lookup(t: Tree, p: Pattern): Entry
    decreases Size(p), 0
  {
    match p
    case End => t.entry
    case Wild(name) => LookupKid(t.wilds, name, End)
    case Static(text, rest) => LookupKid(t.statics, text, rest)
    case Param(name, rest) => LookupKid(t.params, name, rest)
  }

  function LookupKid(k: Kids, name: bytes, rest: Pattern): Entry
    decreases Size(rest), 1, k
  {
    match k
    case Nil => map[]
    case Cons(n, t, more) => if n == name then Lookup(t, rest) else LookupKid(more, name, rest)
  }

  // ---------------------------------------------------------------- insertion

  /** Names strictly increase along a list, as in a std::map. */
  predicate Sorted(t: Tree) {
    SortedKids(t.statics) && SortedKids(t.params) && SortedKids(t.wilds)
  }

  predicate SortedKids(k: Kids) {
    k.Cons? ==> AllAbove(k.name, k.more) && Sorted(k.tree) && SortedKids(k.more)
  }

  predicate AllAbove(n: bytes, k: Kids) {
    k.Cons? ==> NameLess(n, k.name) && AllAbove(n, k.more)
  }

  lemma {:induction false} AboveTransitive(a: bytes, b: bytes, k: Kids)
    requires NameLess(a, b) && AllAbove(b, k)
    ensures AllAbove(a, k)
  {
    if k.Cons? {
      NameLessTransitive(a, b, k.name);
      AboveTransitive(a, b, k.more);
    }
  }

  lemma {:induction false} NotAmongAbove(n: bytes, k: Kids, rest: Pattern)
    requires AllAbove(n, k)
    ensures LookupKid(k, n, rest) == map[]
    decreases k
  {
    if k.Cons? {
      NameLessIrreflexive(n);
      NotAmongAbove(n, k.more, rest);
    }
  }

  lemma LookupEmpty(p: Pattern)
    ensures Lookup(EmptyTree, p) == map[]
  {
  }

  /** Inserting under a pattern changes what that pattern finds, and nothing else. */
  lemma {:induction false} LookupInsert(t: Tree, p: Pattern, methods: seq<Method>, h: Handler, q: Pattern)
    requires Sorted(t)
    ensures Lookup(Insert(t, p, methods, h), q) == if p == q then AddMethods(Lookup(t, q), methods, h) else Lookup(t, q)
    decreases Size(p), 0
  {
    match p
    case End =>
    case Wild(name) => if q.Wild? { LookupInsertKid(t.wilds, name, End, methods, h, q.name, End); }
    case Static(text, rest) => if q.Static? { LookupInsertKid(t.statics, text, rest, methods, h, q.text, q.rest); }
    case Param(name, rest) => if q.Param? { LookupInsertKid(t.params, name, rest, methods, h, q.name, q.rest); }
  }

  lemma {:induction false} LookupInsertKid(
    k: Kids, name: bytes, rest: Pattern, methods: seq<Method>, h: Handler, n: bytes, r: Pattern)
    requires SortedKids(k)
    ensures LookupKid(InsertKid(k, name, rest, methods, h), n, r) ==
      if n == name && r == rest then AddMethods(LookupKid(k, n, r), methods, h) else LookupKid(k, n, r)
    decreases Size(rest), 1, k
  {
    LookupEmpty(r);
    if k.Nil? {
      LookupInsert(EmptyTree, rest, methods, h, r);
    } else if k.name == name {
      LookupInsert(k.tree, rest, methods, h, r);
    } else if NameLess(name, k.name) {
      LookupInsert(EmptyTree, rest, methods, h, r);
      AboveTransitive(name, k.name, k.more);
      NotAmongAbove(name, k, r);
    } else {
      LookupInsertKid(k.more, name, rest, methods, h, n, r);
    }
  }

  lemma {:induction false} InsertKeepsSorted(t: Tree, p: Pattern, methods: seq<Method>, h: Handler)
    requires Sorted(t)
    ensures Sorted(Insert(t, p, methods, h))
    decreases Size(p), 0
  {
    match p
    case End =>
    case Wild(name) => InsertKidKeepsSorted(t.wilds, name, End, methods, h);
    case Static(text, rest) => InsertKidKeepsSorted(t.statics, text, rest, methods, h);
    case Param(name, rest) => InsertKidKeepsSorted(t.params, name, rest, methods, h);
  }

  lemma {:induction false} InsertKidKeepsSorted(k: Kids, name: bytes, rest: Pattern, methods: seq<Method>, h: Handler)
    requires SortedKids(k)
    ensures SortedKids(InsertKid(k, name, rest, methods, h))
    decreases Size(rest), 1, k
  {
    if k.Nil? {
      InsertKeepsSorted(EmptyTree, rest, methods, h);
    } else if k.name == name {
      InsertKeepsSorted(k.tree, rest, methods, h);
    } else if NameLess(name, k.name) {
      InsertKeepsSorted(EmptyTree, rest, methods, h);
      AboveTransitive(name, k.name, k.more);
    } else {
      NameLessTotal(name, k.name);
      InsertKidKeepsSorted(k.more, name, rest, methods, h);
      InsertKidAbove(k.name, k.more, name, rest, methods, h);
    }
  }

  lemma {:induction false} InsertKidAbove(a: bytes, k: Kids, name: bytes, rest: Pattern, methods: seq<Method>, h: Handler)
    requires AllAbove(a, k) && NameLess(a, name)
    ensures AllAbove(a, InsertKid(k, name, rest, methods, h))
    decreases k
  {
    if k.Cons? && k.name != name && !NameLess(name, k.name) {
      InsertKidAbove(a, k.more, name, rest, methods, h);
    }
  }

  // ---------------------------------------------------------------- the search as a function

  datatype Found = Found(pattern: Pattern, entry: Entry)

  function FirstWild(k: Kids): Option<Found> {
    match k
    case Nil => None
    case Cons(n, t, more) => if t.entry != map[] then Some(Found(Wild(n), t.entry)) else FirstWild(more)
  }

  function FindStatic(k: Kids, seg: bytes, rest: bytes, depth: nat): Option<Found>
    decreases k
  {
    match k
    case Nil => None
    case Cons(n, t, more) =>
      if n != seg then FindStatic(more, seg, rest, depth) else
      match Find(t, rest, depth)
      case None => None
      case Some(f) => Some(Found(Static(n, f.pattern), f.entry))
  }

  function FindParam(k: Kids, rest: bytes, depth: nat): Option<Found>
    decreases k
  {
    match k
    case Nil => None
    case Cons(n, t, more) =>
      match Find(t, rest, depth)
      case None => FindParam(more, rest, depth)
      case Some(f) => Some(Found(Param(n, f.pattern), f.entry))
  }

  /** What matchRadix returns, and under which pattern. */
  function Find(t: Tree, s: bytes, depth: nat): Option<Found>
    decreases t
  {
    if depth > MaxPathSegments then None
    else if Segment(s) == [] then
      match FirstWild(t.wilds)
      case Some(f) => Some(f)
      case None => if t.entry == map[] then None else Some(Found(End, t.entry))
    else
      match FindStatic(t.statics, Segment(s), AfterSegment(s), depth + 1)
      case Some(f) => Some(f)
      case None =>
        match FindParam(t.params, AfterSegment(s), depth + 1)
        case Some(f) => Some(f)
        case None => FirstWild(t.wilds)
  }

  /** Registered with some method, matching, and within the depth the search goes to. */
  predicate Candidate(t: Tree, q: Pattern, s: bytes, depth: nat) {
    Lookup(t, q) != map[] && Bind(q, s).Some? && depth + Depth(q) <= MaxPathSegments
  }

  lemma {:induction false} FirstWildSound(k: Kids)
    requires SortedKids(k)
    ensures match FirstWild(k)
      case Some(f) => f.pattern.Wild? && f.entry != map[] && LookupKid(k, f.pattern.name, End) == f.entry
      case None => true
  {
    if k.Cons? && k.tree.entry == map[] {
      FirstWildSound(k.more);
      if FirstWild(k.more).Some? {
        AboveIsOther(k.name, k.more, FirstWild(k.more).value.pattern.name, End);
      }
    }
  }

  /** A name with something under it in the later part of a list is another name. */
  lemma AboveIsOther(n: bytes, k: Kids, name: bytes, rest: Pattern)
    requires AllAbove(n, k) && LookupKid(k, name, rest) != map[]
    ensures n != name
  {
    if n == name {
      NotAmongAbove(n, k, rest);
    }
  }

  /** What the search returns is registered, matches, and is within the depth. */
  lemma {:induction false} FindSound(t: Tree, s: bytes, depth: nat)
    requires Sorted(t)
    ensures match Find(t, s, depth)
      case Some(f) => Candidate(t, f.pattern, s, depth) && Lookup(t, f.pattern) == f.entry
      case None => true
    decreases t
  {
    if depth <= MaxPathSegments {
      FirstWildSound(t.wilds);
      if Segment(s) != [] {
        FindStaticSound(t.statics, Segment(s), AfterSegment(s), depth + 1);
        FindParamSound(t.params, AfterSegment(s), depth + 1);
      }
    }
  }

  lemma {:induction false} FindStaticSound(k: Kids, seg: bytes, rest: bytes, depth: nat)
    requires SortedKids(k)
    ensures match FindStatic(k, seg, rest, depth)
      case Some(f) =>
        && f.pattern.Static? && f.pattern.text == seg && f.entry != map[] && LookupKid(k, seg, f.pattern.rest) == f.entry
        && Bind(f.pattern.rest, rest).Some? && depth + Depth(f.pattern.rest) <= MaxPathSegments
      case None => true
    decreases k
  {
    if k.Cons? {
      FindSound(k.tree, rest, depth);
      FindStaticSound(k.more, seg, rest, depth);
    }
  }

  lemma {:induction false} FindParamSound(k: Kids, rest: bytes, depth: nat)
    requires SortedKids(k)
    ensures match FindParam(k, rest, depth)
      case Some(f) =>
        && f.pattern.Param? && f.entry != map[] && LookupKid(k, f.pattern.name, f.pattern.rest) == f.entry
        && Bind(f.pattern.rest, rest).Some? && depth + Depth(f.pattern.rest) <= MaxPathSegments
      case None => true
    decreases k
  {
    if k.Cons? {
      FindSound(k.tree, rest, depth);
      FindParamSound(k.more, rest, depth);
      var f := FindParam(k.more, rest, depth);
      if f.Some? {
        AboveIsOther(k.name, k.more, f.value.pattern.name, f.value.pattern.rest);
      }
    }
  }

  /** Whatever else would do comes later in the order than what the search returns. */
  lemma {:induction false} FindFirst(t: Tree, s: bytes, depth: nat, q: Pattern)
    requires Sorted(t) && Candidate(t, q, s, depth)
    ensures Find(t, s, depth).Some? && (Find(t, s, depth).value.pattern == q || Before(Find(t, s, depth).value.pattern, q))
    decreases t
  {
    var seg, rest := Segment(s), AfterSegment(s);
    if seg != [] {
      FindStaticSound(t.statics, seg, rest, depth + 1);
      FindParamSound(t.params, rest, depth + 1);
    }
    FirstWildSound(t.wilds);
    match q
    case End =>
    case Wild(name) => FirstWildFirst(t.wilds, name);
    case Static(text, r) => FindStaticFirst(t.statics, seg, rest, depth + 1, r);
    case Param(name, r) => FindParamFirst(t.params, name, rest, depth + 1, r);
  }

  lemma {:induction false} FirstWildFirst(k: Kids, name: bytes)
    requires SortedKids(k) && LookupKid(k, name, End) != map[]
    ensures FirstWild(k).Some? && (FirstWild(k).value.pattern == Wild(name) || Before(FirstWild(k).value.pattern, Wild(name)))
    decreases k
  {
    if k.name != name {
      FirstWildFirst(k.more, name);
      AboveMeans(k.name, k.more, name, End);
    }
  }

  lemma {:induction false} AboveMeans(n: bytes, k: Kids, name: bytes, rest: Pattern)
    requires AllAbove(n, k) && LookupKid(k, name, rest) != map[]
    ensures NameLess(n, name)
    decreases k
  {
    if k.name != name {
      AboveMeans(n, k.more, name, rest);
    }
  }

  lemma {:induction false} FindStaticFirst(k: Kids, seg: bytes, rest: bytes, depth: nat, r: Pattern)
    requires SortedKids(k) && LookupKid(k, seg, r) != map[] && Bind(r, rest).Some? && depth + Depth(r) <= MaxPathSegments
    ensures
      var f := FindStatic(k, seg, rest, depth);
      f.Some? && (f.value.pattern == Static(seg, r) || Before(f.value.pattern, Static(seg, r)))
    decreases k
  {
    if k.name == seg {
      FindFirst(k.tree, rest, depth, r);
    } else {
      FindStaticFirst(k.more, seg, rest, depth, r);
    }
  }

  lemma {:induction false} FindParamFirst(k: Kids, name: bytes, rest: bytes, depth: nat, r: Pattern)
    requires SortedKids(k) && LookupKid(k, name, r) != map[] && Bind(r, rest).Some? && depth + Depth(r) <= MaxPathSegments
    ensures
      var f := FindParam(k, rest, depth);
      f.Some? && (f.value.pattern == Param(name, r) || Before(f.value.pattern, Param(name, r)))
    decreases k
  {
    if k.name == name {
      FindFirst(k.tree, rest, depth, r);
    } else {
      FindParamFirst(k.more, name, rest, depth, r);
      AboveMeans(k.name, k.more, name, r);
    }
  }

  // ---------------------------------------------------------------- the search with its bindings

  type Params = map<bytes, bytes>

  datatype Answer = Answer(entry: Option<Entry>, params: Params)

  function SearchWild(k: Kids, value: bytes, params: Params): Answer {
    match k
    case Nil => Answer(None, params)
    case Cons(n, t, more) =>
      if t.entry != map[] then Answer(Some(t.entry), params[n := value]) else SearchWild(more, value, params)
  }

  function SearchStatic(k: Kids, seg: bytes, rest: bytes, params: Params, depth: nat): Answer
    decreases k
  {
    match k
    case Nil => Answer(None, params)
    case Cons(n, t, more) =>
      if n == seg then Search(t, rest, params, depth) else SearchStatic(more, seg, rest, params, depth)
  }

  /** Each branch is tried with its binding, which is erased again if the branch fails. */
  function SearchParam(k: Kids, seg: bytes, rest: bytes, params: Params, depth: nat): Answer
    decreases k
  {
    match k
    case Nil => Answer(None, params)
    case Cons(n, t, more) =>
      var a := Search(t, rest, params[n := seg], depth);
      if a.entry.Some? then a else SearchParam(more, seg, rest, a.params - {n}, depth)
  }

  /** matchRadix as a function of the bindings it is given. */
  function Search(t: Tree, s: bytes, params: Params, depth: nat): Answer
    decreases t
  {
    var seg, rest := Segment(s), AfterSegment(s);
    if depth > MaxPathSegments then Answer(None, params)
    else if seg == [] then
      var w := SearchWild(t.wilds, [], params);
      if w.entry.Some? then w else if t.entry == map[] then Answer(None, params) else Answer(Some(t.entry), params)
    else
      var a := SearchStatic(t.statics, seg, rest, params, depth + 1);
      if a.entry.Some? then a else
      var b := SearchParam(t.params, seg, rest, a.params, depth + 1);
      if b.entry.Some? then b else SearchWild(t.wilds, Raw(s), b.params)
  }

  /** No parameter name is used twice on the way down, nor one of those already bound. */
  predicate Clean(t: Tree, used: set<bytes>) {
    CleanStatics(t.statics, used) && CleanParams(t.params, used)
  }

  predicate CleanStatics(k: Kids, used: set<bytes>) {
    k.Cons? ==> Clean(k.tree, used) && CleanStatics(k.more, used)
  }

  predicate CleanParams(k: Kids, used: set<bytes>) {
    k.Cons? ==> k.name !in used && Clean(k.tree, used + {k.name}) && CleanParams(k.more, used)
  }

  function EntryOf(f: Option<Found>): Option<Entry> {
    if f.None? then None else Some(f.value.entry)
  }

  lemma {:induction false} SearchWildIs(k: Kids, value: bytes, params: Params)
    ensures SearchWild(k, value, params) ==
      match FirstWild(k)
      case None => Answer(None, params)
      case Some(f) => Answer(Some(f.entry), params + WildBinding(k, value))
  {
    if k.Cons? {
      if k.tree.entry == map[] {
        SearchWildIs(k.more, value, params);
      } else {
        assert params[k.name := value] == params + map[k.name := value];
      }
    }
  }

  function WildBinding(k: Kids, value: bytes): Params {
    match FirstWild(k)
    case Some(Found(Wild(name), _)) => map[name := value]
    case _ => map[]
  }

  lemma FirstWildIsWild(k: Kids)
    ensures FirstWild(k).Some? ==> FirstWild(k).value.pattern.Wild?
  {
  }

  /** The search finds what Find finds, whatever the bindings. */
  lemma {:induction false} SearchIs(t: Tree, s: bytes, params: Params, depth: nat)
    ensures Search(t, s, params, depth).entry == EntryOf(Find(t, s, depth))
    decreases t
  {
    if depth <= MaxPathSegments {
      var seg, rest := Segment(s), AfterSegment(s);
      if seg == [] {
        SearchWildIs(t.wilds, [], params);
      } else {
        var a := SearchStatic(t.statics, seg, rest, params, depth + 1);
        SearchStaticIs(t.statics, seg, rest, params, depth + 1);
        if a.entry.None? {
          var b := SearchParam(t.params, seg, rest, a.params, depth + 1);
          SearchParamIs(t.params, seg, rest, a.params, depth + 1);
          if b.entry.None? {
            SearchWildIs(t.wilds, Raw(s), b.params);
          }
        }
      }
    }
  }

  lemma {:induction false} SearchStaticIs(k: Kids, seg: bytes, rest: bytes, params: Params, depth: nat)
    ensures SearchStatic(k, seg, rest, params, depth).entry == EntryOf(FindStatic(k, seg, rest, depth))
    decreases k
  {
    if k.Cons? {
      SearchIs(k.tree, rest, params, depth);
      SearchStaticIs(k.more, seg, rest, params, depth);
    }
  }

  lemma {:induction false} SearchParamIs(k: Kids, seg: bytes, rest: bytes, params: Params, depth: nat)
    ensures SearchParam(k, seg, rest, params, depth).entry == EntryOf(FindParam(k, rest, depth))
    decreases k
  {
    if k.Cons? {
      SearchIs(k.tree, rest, params[k.name := seg], depth);
      SearchParamIs(k.more, seg, rest, Search(k.tree, rest, params[k.name := seg], depth).params - {k.name}, depth);
    }
  }

  // ---------------------------------------------------------------- which bindings survive

  /** The names of the parameter branches that the search tries in vain, up to the one that answers. */
  function Erased(t: Tree, s: bytes, depth: nat): set<bytes>
    decreases t
  {
    var seg, rest := Segment(s), AfterSegment(s);
    if depth > MaxPathSegments || seg == [] then {}
    else if FindStatic(t.statics, seg, rest, depth + 1).Some? then ErasedStatic(t.statics, seg, rest, depth + 1)
    else ErasedStatic(t.statics, seg, rest, depth + 1) + ErasedParam(t.params, rest, depth + 1)
  }

  function ErasedStatic(k: Kids, seg: bytes, rest: bytes, depth: nat): set<bytes>
    decreases k
  {
    match k
    case Nil => {}
    case Cons(n, t, more) => if n == seg then Erased(t, rest, depth) else ErasedStatic(more, seg, rest, depth)
  }

  function ErasedParam(k: Kids, rest: bytes, depth: nat): set<bytes>
    decreases k
  {
    match k
    case Nil => {}
    case Cons(n, t, more) =>
      if Find(t, rest, depth).Some? then Erased(t, rest, depth)
      else Erased(t, rest, depth) + {n} + ErasedParam(more, rest, depth)
  }

  /** The bindings made on the way to the answer that nothing erases afterwards. */
  function Left(t: Tree, s: bytes, depth: nat): Params
    decreases t
  {
    var seg, rest := Segment(s), AfterSegment(s);
    if depth > MaxPathSegments then map[]
    else if seg == [] then WildBinding(t.wilds, [])
    else if FindStatic(t.statics, seg, rest, depth + 1).Some? then LeftStatic(t.statics, seg, rest, depth + 1)
    else if FindParam(t.params, rest, depth + 1).Some? then LeftParam(t.params, seg, rest, depth + 1)
    else WildBinding(t.wilds, Raw(s))
  }

  function LeftStatic(k: Kids, seg: bytes, rest: bytes, depth: nat): Params
    decreases k
  {
    match k
    case Nil => map[]
    case Cons(n, t, more) => if n == seg then Left(t, rest, depth) else LeftStatic(more, seg, rest, depth)
  }

  function LeftParam(k: Kids, seg: bytes, rest: bytes, depth: nat): Params
    decreases k
  {
    match k
    case Nil => map[]
    case Cons(n, t, more) =>
      if Find(t, rest, depth).Some? then OneLeft(n, seg, Erased(t, rest, depth)) + Left(t, rest, depth)
      else LeftParam(more, seg, rest, depth)
  }

  function OneLeft(n: bytes, seg: bytes, erased: set<bytes>): Params {
    if n in erased then map[] else map[n := seg]
  }

  lemma {:induction false} NothingLeft(t: Tree, s: bytes, depth: nat)
    ensures Find(t, s, depth).None? ==> Left(t, s, depth) == map[]
    decreases t
  {
  }

  /** What the search does to the bindings it is given. */
  lemma {:induction false} SearchLeaves(t: Tree, s: bytes, params: Params, depth: nat)
    ensures Search(t, s, params, depth).params == (params - Erased(t, s, depth)) + Left(t, s, depth)
    decreases t, 1
  {
    var seg, rest := Segment(s), AfterSegment(s);
    if depth > MaxPathSegments || seg == [] {
      SearchWildIs(t.wilds, [], params);
      assert params - {} == params && params + map[] == params;
    } else {
      SearchInside(t, s, params, depth);
    }
  }

  lemma {:induction false} SearchInside(t: Tree, s: bytes, params: Params, depth: nat)
    requires depth <= MaxPathSegments && Segment(s) != []
    ensures Search(t, s, params, depth).params == (params - Erased(t, s, depth)) + Left(t, s, depth)
    decreases t, 0
  {
    var seg, rest := Segment(s), AfterSegment(s);
    var a := SearchStatic(t.statics, seg, rest, params, depth + 1);
    SearchStaticIs(t.statics, seg, rest, params, depth + 1);
    SearchStaticLeaves(t.statics, seg, rest, params, depth + 1);
    if FindStatic(t.statics, seg, rest, depth + 1).None? {
      var gone := ErasedStatic(t.statics, seg, rest, depth + 1);
      var b := SearchParam(t.params, seg, rest, a.params, depth + 1);
      SearchParamIs(t.params, seg, rest, a.params, depth + 1);
      SearchParamLeaves(t.params, seg, rest, a.params, depth + 1);
      SearchWildIs(t.wilds, Raw(s), b.params);
      Remove2(params, gone, ErasedParam(t.params, rest, depth + 1));
    }
  }

  lemma {:induction false} SearchStaticLeaves(k: Kids, seg: bytes, rest: bytes, params: Params, depth: nat)
    ensures SearchStatic(k, seg, rest, params, depth).params ==
      if FindStatic(k, seg, rest, depth).Some? then (params - ErasedStatic(k, seg, rest, depth)) + LeftStatic(k, seg, rest, depth)
      else params - ErasedStatic(k, seg, rest, depth)
    decreases k, 0
  {
    match k
    case Nil => assert params - {} == params;
    case Cons(n, t, more) =>
      if n == seg {
        SearchLeaves(t, rest, params, depth);
        NothingLeft(t, rest, depth);
      } else {
        SearchStaticLeaves(more, seg, rest, params, depth);
      }
  }

  lemma {:induction false} SearchParamLeaves(k: Kids, seg: bytes, rest: bytes, params: Params, depth: nat)
    ensures SearchParam(k, seg, rest, params, depth).params ==
      if FindParam(k, rest, depth).Some? then (params - ErasedParam(k, rest, depth)) + LeftParam(k, seg, rest, depth)
      else params - ErasedParam(k, rest, depth)
    decreases k, 0
  {
    match k
    case Nil => assert params - {} == params;
    case Cons(n, t, more) =>
      var tried, gone := params[n := seg], Erased(t, rest, depth);
      SearchIs(t, rest, tried, depth);
      SearchLeaves(t, rest, tried, depth);
      if Find(t, rest, depth).Some? {
        BindThenErase(params, n, seg, gone, Left(t, rest, depth));
      } else {
        NothingLeft(t, rest, depth);
        var back := params - (gone + {n});
        assert (tried - gone) + map[] - {n} == back;
        SearchParamLeaves(more, seg, rest, back, depth);
        Remove2(params, gone + {n}, ErasedParam(more, rest, depth));
      }
  }

  lemma Remove2(m: Params, a: set<bytes>, b: set<bytes>)
    ensures (m - a) - b == m - (a + b)
  {
  }

  lemma BindThenErase(params: Params, n: bytes, seg: bytes, gone: set<bytes>, left: Params)
    ensures (params[n := seg] - gone) + left == (params - gone) + (OneLeft(n, seg, gone) + left)
  {
  }

  // ---------------------------------------------------------------- when they are the pattern's own

  function Names(p: Pattern): set<bytes> {
    match p
    case End => {}
    case Wild(name) => {name}
    case Static(_, rest) => Names(rest)
    case Param(name, rest) => {name} + Names(rest)
  }

  lemma {:induction false} BindNames(p: Pattern, s: bytes)
    ensures Bind(p, s).Some? ==> Bind(p, s).value.Keys == Names(p)
  {
    match p
    case Static(_, rest) => BindNames(rest, AfterSegment(s));
    case Param(_, rest) => BindNames(rest, AfterSegment(s));
    case _ =>
  }

  /**
   * On the way to the answer, no parameter's name is erased by a branch that is tried in vain
   * below it, unless the answering pattern binds that name again below.
   */
  predicate Kept(t: Tree, s: bytes, depth: nat)
    decreases t
  {
    var seg, rest := Segment(s), AfterSegment(s);
    if depth > MaxPathSegments || seg == [] then true
    else if FindStatic(t.statics, seg, rest, depth + 1).Some? then KeptStatic(t.statics, seg, rest, depth + 1)
    else KeptParam(t.params, rest, depth + 1)
  }

  predicate KeptStatic(k: Kids, seg: bytes, rest: bytes, depth: nat)
    decreases k
  {
    k.Cons? ==> if k.name == seg then Kept(k.tree, rest, depth) else KeptStatic(k.more, seg, rest, depth)
  }

  predicate KeptParam(k: Kids, rest: bytes, depth: nat)
    decreases k
  {
    k.Cons? ==>
      match Find(k.tree, rest, depth)
      case None => KeptParam(k.more, rest, depth)
      case Some(f) => Kept(k.tree, rest, depth) && (k.name in Erased(k.tree, rest, depth) ==> k.name in Names(f.pattern))
  }

  /** What is left of the pattern's bindings: none is changed, and what is missing was erased. */
  ghost predicate LeftOf(left: Params, own: Option<Params>, erased: set<bytes>, kept: bool) {
    && own.Some? && left.Keys <= own.value.Keys && own.value.Keys - left.Keys <= erased
    && (forall x :: x in left ==> left[x] == own.value[x])
    && (left == own.value <==> kept)
  }

  lemma {:induction false} LeftIs(t: Tree, s: bytes, depth: nat)
    requires Sorted(t) && Find(t, s, depth).Some?
    ensures LeftOf(Left(t, s, depth), Bind(Find(t, s, depth).value.pattern, s), Erased(t, s, depth), Kept(t, s, depth))
    decreases t
  {
    var seg, rest := Segment(s), AfterSegment(s);
    FirstWildIsWild(t.wilds);
    if seg != [] {
      if FindStatic(t.statics, seg, rest, depth + 1).Some? {
        LeftStaticIs(t.statics, seg, rest, depth + 1);
      } else if FindParam(t.params, rest, depth + 1).Some? {
        LeftParamIs(t.params, s, depth + 1);
      } else {
        KeptIfNoneFound(t.params, rest, depth + 1);
      }
    }
  }

  lemma {:induction false} KeptIfNoneFound(k: Kids, rest: bytes, depth: nat)
    ensures FindParam(k, rest, depth).None? ==> KeptParam(k, rest, depth)
    decreases k
  {
    if k.Cons? {
      KeptIfNoneFound(k.more, rest, depth);
    }
  }

  lemma {:induction false} LeftStaticIs(k: Kids, seg: bytes, rest: bytes, depth: nat)
    requires SortedKids(k) && FindStatic(k, seg, rest, depth).Some?
    ensures
      var f := FindStatic(k, seg, rest, depth).value.pattern;
      && f.Static? && f.text == seg
      && LeftOf(LeftStatic(k, seg, rest, depth), Bind(f.rest, rest), ErasedStatic(k, seg, rest, depth), KeptStatic(k, seg, rest, depth))
    decreases k
  {
    if k.name == seg {
      LeftIs(k.tree, rest, depth);
    } else {
      LeftStaticIs(k.more, seg, rest, depth);
    }
  }

  lemma {:induction false} LeftParamIs(k: Kids, s: bytes, depth: nat)
    requires SortedKids(k) && FindParam(k, AfterSegment(s), depth).Some? && Segment(s) != []
    ensures
      var seg, rest := Segment(s), AfterSegment(s);
      LeftOf(LeftParam(k, seg, rest, depth), Bind(FindParam(k, rest, depth).value.pattern, s), ErasedParam(k, rest, depth), KeptParam(k, rest, depth))
    decreases k
  {
    var seg, rest := Segment(s), AfterSegment(s);
    if Find(k.tree, rest, depth).Some? {
      var f := Find(k.tree, rest, depth).value.pattern;
      LeftIs(k.tree, rest, depth);
      BindNames(f, rest);
      LeftWithParam(Left(k.tree, rest, depth), Bind(f, rest), Erased(k.tree, rest, depth), Kept(k.tree, rest, depth), k.name, seg);
    } else {
      LeftParamIs(k.more, s, depth);
    }
  }

  lemma LeftWithParam(left: Params, own: Option<Params>, erased: set<bytes>, kept: bool, n: bytes, seg: bytes)
    requires LeftOf(left, own, erased, kept)
    ensures LeftOf(OneLeft(n, seg, erased) + left, Some(map[n := seg] + own.value), erased, kept && (n in erased ==> n in own.value))
  {
    var more, all := OneLeft(n, seg, erased) + left, map[n := seg] + own.value;
    assert n in own.value && n !in left ==> n in erased;
    assert all.Keys == own.value.Keys + {n} && n in all;
    if more == all {
      assert forall x :: x in own.value ==> x in all;
      assert forall x :: x in own.value ==> x in left;
      assert left == own.value;
    }
    if left == own.value && (n in erased ==> n in own.value) {
      assert more == all;
    }
  }

  /** Where no name is used twice on the way down, nothing is lost. */
  lemma {:induction false} CleanKeeps(t: Tree, s: bytes, depth: nat, used: set<bytes>)
    requires Clean(t, used)
    ensures Kept(t, s, depth) && Erased(t, s, depth) !! used
    decreases t
  {
    var seg, rest := Segment(s), AfterSegment(s);
    CleanStaticKeeps(t.statics, seg, rest, depth + 1, used);
    CleanParamKeeps(t.params, rest, depth + 1, used);
  }

  lemma {:induction false} CleanStaticKeeps(k: Kids, seg: bytes, rest: bytes, depth: nat, used: set<bytes>)
    requires CleanStatics(k, used)
    ensures KeptStatic(k, seg, rest, depth) && ErasedStatic(k, seg, rest, depth) !! used
    decreases k
  {
    if k.Cons? {
      CleanKeeps(k.tree, rest, depth, used);
      CleanStaticKeeps(k.more, seg, rest, depth, used);
    }
  }

  lemma {:induction false} CleanParamKeeps(k: Kids, rest: bytes, depth: nat, used: set<bytes>)
    requires CleanParams(k, used)
    ensures KeptParam(k, rest, depth) && ErasedParam(k, rest, depth) !! used
    decreases k
  {
    if k.Cons? {
      CleanKeeps(k.tree, rest, depth, used + {k.name});
      CleanParamKeeps(k.more, rest, depth, used);
      assert k.name !in Erased(k.tree, rest, depth);
    }
  }

  // ---------------------------------------------------------------- matchRadix

  function TreeSize(t: Tree): nat {
    1 + KidsSize(t.statics) + KidsSize(t.params) + KidsSize(t.wilds)
  }

  function KidsSize(k: Kids): nat {
    if k.Nil? then 0 else 1 + TreeSize(k.tree) + KidsSize(k.more)
  }

  /** The first wildcard child with a handler takes what is left of the path. */
  method MatchWild(kids: Kids, value: bytes, params: Params) returns (a: Answer)
    ensures a == SearchWild(kids, value, params)
  {
    var k := kids;
    while k.Cons?
      invariant SearchWild(k, value, params) == SearchWild(kids, value, params)
      decreases k
    {
      if k.tree.entry != map[] {
        return Answer(Some(k.tree.entry), params[k.name := value]);
      }
      k := k.more;
    }
    a := Answer(None, params);
  }

  method MatchRadix(t: Tree, path: bytes, params: Params, depth: nat) returns (a: Answer)
    ensures a == Search(t, path, params, depth)
    decreases TreeSize(t)
  {
    if depth > MaxPathSegments {
      return Answer(None, params);
    }
    var seg, pos := NextSegment(path, 0);
    assert path[0..] == path;
    if seg == [] {
      var w := MatchWild(t.wilds, [], params);
      if w.entry.Some? {
        return w;
      }
      return Answer(if t.entry == map[] then None else Some(t.entry), params);
    }

    var k := t.statics;
    while k.Cons? && k.name != seg
      invariant KidsSize(k) < TreeSize(t)
      invariant SearchStatic(k, seg, path[pos..], params, depth + 1) == SearchStatic(t.statics, seg, path[pos..], params, depth + 1)
      decreases k
    {
      k := k.more;
    }
    a := Answer(None, params);
    if k.Cons? {
      a := MatchRadix(k.tree, path[pos..], params, depth + 1);
      if a.entry.Some? {
        return a;
      }
    }

    ghost var all := SearchParam(t.params, seg, path[pos..], a.params, depth + 1);
    k := t.params;
    while k.Cons?
      invariant KidsSize(k) < TreeSize(t)
      invariant SearchParam(k, seg, path[pos..], a.params, depth + 1) == all
      decreases k
    {
      a := MatchRadix(k.tree, path[pos..], a.params[k.name := seg], depth + 1);
      if a.entry.Some? {
        return a;
      }
      a := Answer(None, a.params - {k.name});
      k := k.more;
    }

    a := MatchWild(t.wilds, path[pos - |seg|..], a.params);
  }

  // ---------------------------------------------------------------- the router

  datatype Route = Route(pattern: Pattern, methods: seq<Method>, handler: Handler)

  /** A scan of all registrations: what they add up to for one pattern. */
  function Registered(routes: seq<Route>, p: Pattern): Entry {
    if routes == [] then map[] else
    var e, r := Registered(routes[..|routes| - 1], p), routes[|routes| - 1];
    if r.pattern == p then AddMethods(e, r.methods, r.handler) else e
  }

  /** A pattern the search may return: it has a handler, it matches, and it is not too deep. */
  predicate Serves(routes: seq<Route>, q: Pattern, path: bytes) {
    Registered(routes, q) != map[] && Bind(q, path).Some? && Depth(q) <= MaxPathSegments
  }

  /** Parameter names occur once in a pattern. */
  predicate NamesOnce(p: Pattern, used: set<bytes>) {
    match p
    case Static(_, rest) => NamesOnce(rest, used)
    case Param(name, rest) => name !in used && NamesOnce(rest, used + {name})
    case _ => true
  }

  predicate AllNamesOnce(routes: seq<Route>) {
    forall i {:trigger routes[i]} :: 0 <= i < |routes| ==> NamesOnce(routes[i].pattern, {})
  }

  lemma {:induction false} InsertKeepsClean(t: Tree, p: Pattern, methods: seq<Method>, h: Handler, used: set<bytes>)
    requires Clean(t, used) && NamesOnce(p, used)
    ensures Clean(Insert(t, p, methods, h), used)
    decreases Size(p), 0
  {
    match p
    case Static(text, rest) => InsertStaticKeepsClean(t.statics, text, rest, methods, h, used);
    case Param(name, rest) => InsertParamKeepsClean(t.params, name, rest, methods, h, used);
    case _ =>
  }

  lemma {:induction false} InsertStaticKeepsClean(k: Kids, name: bytes, rest: Pattern, methods: seq<Method>, h: Handler, used: set<bytes>)
    requires CleanStatics(k, used) && NamesOnce(rest, used)
    ensures CleanStatics(InsertKid(k, name, rest, methods, h), used)
    decreases Size(rest), 1, k
  {
    InsertKeepsClean(EmptyTree, rest, methods, h, used);
    if k.Cons? {
      if k.name == name {
        InsertKeepsClean(k.tree, rest, methods, h, used);
      } else {
        InsertStaticKeepsClean(k.more, name, rest, methods, h, used);
      }
    }
  }

  lemma {:induction false} InsertParamKeepsClean(k: Kids, name: bytes, rest: Pattern, methods: seq<Method>, h: Handler, used: set<bytes>)
    requires CleanParams(k, used) && name !in used && NamesOnce(rest, used + {name})
    ensures CleanParams(InsertKid(k, name, rest, methods, h), used)
    decreases Size(rest), 1, k
  {
    InsertKeepsClean(EmptyTree, rest, methods, h, used + {name});
    if k.Cons? {
      if k.name == name {
        InsertKeepsClean(k.tree, rest, methods, h, used + {name});
      } else {
        InsertParamKeepsClean(k.more, name, rest, methods, h, used);
      }
    }
  }

  /** The tree holds exactly what a scan of the registrations says. */
  ghost predicate Holds(t: Tree, routes: seq<Route>) {
    && Sorted(t) && (AllNamesOnce(routes) ==> Clean(t, {}))
    && forall p {:trigger Lookup(t, p)} :: Lookup(t, p) == Registered(routes, p)
  }

  lemma InsertHolds(t: Tree, routes: seq<Route>, r: Route)
    requires Holds(t, routes)
    ensures Holds(Insert(t, r.pattern, r.methods, r.handler), routes + [r])
  {
    var u, all := Insert(t, r.pattern, r.methods, r.handler), routes + [r];
    assert all[..|routes|] == routes && all[|routes|] == r;
    InsertKeepsSorted(t, r.pattern, r.methods, r.handler);
    forall p {:trigger Lookup(u, p)} ensures Lookup(u, p) == Registered(all, p) {
      LookupInsert(t, r.pattern, r.methods, r.handler, p);
    }
    if AllNamesOnce(all) {
      assert forall i {:trigger routes[i]} :: 0 <= i < |routes| ==> all[i] == routes[i];
      InsertKeepsClean(t, r.pattern, r.methods, r.handler, {});
    }
  }

  /**
   * The tree search is the scan: it finds an entry exactly if some registered pattern of at
   * most 32 segments matches, and it is the first such pattern in the order.
   */
  lemma SearchIsScan(t: Tree, routes: seq<Route>, path: bytes, q: Pattern)
    requires Holds(t, routes)
    ensures Find(t, path, 0).Some? ==>
      Serves(routes, Find(t, path, 0).value.pattern, path)
      && Find(t, path, 0).value.entry == Registered(routes, Find(t, path, 0).value.pattern)
    ensures Serves(routes, q, path) ==>
      Find(t, path, 0).Some? && (Find(t, path, 0).value.pattern == q || Before(Find(t, path, 0).value.pattern, q))
  {
    FindSound(t, path, 0);
    assert Lookup(t, q) == Registered(routes, q);
    if Serves(routes, q, path) {
      FindFirst(t, path, 0, q);
    }
  }

  /**
   * For every path: the bindings are those of the pattern that answers, and no others, exactly
   * if no branch tried in vain erased one of them that the pattern does not bind again below.
   */
  lemma BindingsExactIff(t: Tree, path: bytes)
    requires Sorted(t) && Find(t, path, 0).Some?
    ensures Search(t, path, map[], 0).entry == Some(Find(t, path, 0).value.entry)
    ensures Bind(Find(t, path, 0).value.pattern, path) == Some(Search(t, path, map[], 0).params) <==> Kept(t, path, 0)
  {
    SearchIs(t, path, map[], 0);
    SearchLeaves(t, path, map[], 0);
    LeftIs(t, path, 0);
    var none, left: Params := map[], Left(t, path, 0);
    assert none - Erased(t, path, 0) == none && none + left == left;
  }

  /** Where no pattern repeats a name, they always are. */
  lemma BindingsAreExact(t: Tree, routes: seq<Route>, path: bytes)
    requires Holds(t, routes) && AllNamesOnce(routes) && Find(t, path, 0).Some?
    ensures Bind(Find(t, path, 0).value.pattern, path) == Some(Search(t, path, map[], 0).params)
  {
    CleanKeeps(t, path, 0, {});
    BindingsExactIff(t, path);
  }

  /** c at the start of the path or after a slash. */
  ghost predicate Marked(path: bytes, c: byte) {
    exists i {:trigger path[i]} :: 0 <= i < |path| && path[i] == c && (i == 0 || path[i - 1] == Slash)
  }

  method IsParamOrWild(path: bytes, c: byte) returns (r: bool)
    ensures r == Marked(path, c)
  {
    if path != [] && path[0] == c {
      return true;
    }
    var i := 1;
    while i < |path|
      invariant 1 <= i && forall j {:trigger path[j]} :: 0 <= j < i && j < |path| ==> !(path[j] == c && (j == 0 || path[j - 1] == Slash))
    {
      if path[i] == c && path[i - 1] == Slash {
        return true;
      }
      i := i + 1;
    }
    r := false;
  }

  datatype Reason = Routed | NotFound | MethodNotAllowed

  datatype RouteResult = RouteResult(handler: Option<Handler>, params: Params, reason: Reason, allowed: set<Method>)

  const NoRoute := RouteResult(None, map[], NotFound, {})

  function LookupMethod(e: Entry, m: Method, params: Params): RouteResult {
    if m in e then RouteResult(Some(e[m]), params, Routed, {})
    else RouteResult(None, params, MethodNotAllowed, e.Keys)
  }

  class Router {
    var exactRoutes: map<bytes, Entry>
    var root: Tree
    ghost var routes: seq<Route>  // every registration that went into the tree

    ghost predicate Valid()
      reads this
    {
      Holds(root, routes)
    }

    constructor ()
      ensures Valid() && exactRoutes == map[] && routes == []
    {
      exactRoutes, root, routes := map[], EmptyTree, [];
      new;
      forall p ensures Lookup(root, p) == map[] { LookupEmpty(p); }
    }

    /** addRouteImpl: paths without parameters and wildcards are kept apart. */
    method AddRoute(path: bytes, methods: seq<Method>, handler: Handler)
      requires Valid()
      modifies this
      ensures Valid()
      ensures Marked(path, ColonChar) || Marked(path, Star) ==>
        exactRoutes == old(exactRoutes) && routes == old(routes) + [Route(ParsePattern(path), methods, handler)]
      ensures !Marked(path, ColonChar) && !Marked(path, Star) ==>
        && routes == old(routes) && (forall q :: q != path ==> (q in exactRoutes <==> q in old(exactRoutes)))
        && (forall q :: q != path && q in exactRoutes ==> exactRoutes[q] == old(exactRoutes)[q])
      ensures !Marked(path, ColonChar) && !Marked(path, Star) && methods != [] ==>
        path in exactRoutes &&
        exactRoutes[path] == AddMethods(if path in old(exactRoutes) then old(exactRoutes)[path] else map[], methods, handler)
    {
      var hasParam := IsParamOrWild(path, ColonChar);
      var hasWild := IsParamOrWild(path, Star);
      if !hasParam && !hasWild {
        if methods != [] {
          var e := if path in exactRoutes then exactRoutes[path] else map[];
          exactRoutes := exactRoutes[path := AddMethods(e, methods, handler)];
        }
      } else {
        var r := Route(ParsePattern(path), methods, handler);
        InsertHolds(root, routes, r);
        root := Insert(root, r.pattern, methods, handler);
        routes := routes + [r];
      }
    }

    /** route: exact paths first, then the first registered pattern that matches. */
    method FindRoute(m: Method, path: bytes) returns (r: RouteResult, ghost p: Option<Pattern>)
      requires Valid()
      ensures |path| > 2048 ==> r == NoRoute
      ensures |path| <= 2048 && path in exactRoutes ==> r == LookupMethod(exactRoutes[path], m, map[])
      ensures |path| <= 2048 && path !in exactRoutes && p.None? ==>
        r == NoRoute && forall q {:trigger Serves(routes, q, path)} :: !Serves(routes, q, path)
      ensures |path| <= 2048 && path !in exactRoutes && p.Some? ==>
        && Serves(routes, p.value, path) && r == LookupMethod(Registered(routes, p.value), m, r.params)
        && (forall q {:trigger Serves(routes, q, path)} :: Serves(routes, q, path) && q != p.value ==> Before(p.value, q))
        && (Bind(p.value, path) == Some(r.params) <==> Kept(root, path, 0))
        && (AllNamesOnce(routes) ==> Bind(p.value, path) == Some(r.params))
    {
      p := None;
      if |path| > MaxPathLength {
        return NoRoute, p;
      }
      if path in exactRoutes {
        return LookupMethod(exactRoutes[path], m, map[]), p;
      }
      var a := MatchRadix(root, path, map[], 0);
      ghost var f := Find(root, path, 0);
      SearchIs(root, path, map[], 0);
      forall q {:trigger Serves(routes, q, path)}
        ensures Serves(routes, q, path) ==> f.Some? && (f.value.pattern == q || Before(f.value.pattern, q))
      {
        SearchIsScan(root, routes, path, q);
      }
      if a.entry.None? {
        return NoRoute, p;
      }
      SearchIsScan(root, routes, path, f.value.pattern);
      BindingsExactIff(root, path);
      if AllNamesOnce(routes) {
        BindingsAreExact(root, routes, path);
      }
      p := Some(f.value.pattern);
      r := LookupMethod(a.entry.value, m, a.params);
    }
  }

  // ---------------------------------------------------------------- repeated names

  /** A node with one static child that the path does not take. */
  lemma FailsInside(x: bytes, leaf: Tree, c: byte, params: Params, depth: nat)
    requires c != Slash && x != [c] && depth <= MaxPathSegments
    ensures
      var t := Tree(map[], Cons(x, leaf, Nil), Nil, Nil);
      Find(t, [Slash, c] + [], depth) == None && Search(t, [Slash, c] + [], params, depth) == Answer(None, params)
  {
    var t := Tree(map[], Cons(x, leaf, Nil), Nil, Nil);
    Cut(c, []);
    assert FindStatic(t.statics, [c], [], depth + 1) == FindStatic(Nil, [c], [], depth + 1) == None;
    assert SearchStatic(t.statics, [c], [], params, depth + 1) == SearchStatic(Nil, [c], [], params, depth + 1);
  }

  /** A parameter branch that fails erases its name, even one bound further up; then a wildcard matches. */
  lemma ErasesOuter(a: bytes, w: bytes, inner: Tree, e: Entry, c: byte, rest: bytes, params: Params, depth: nat)
    requires c != Slash && (rest != [] ==> rest[0] == Slash) && e != map[] && depth < MaxPathSegments
    requires Find(inner, rest, depth + 1) == None
    requires Search(inner, rest, params[a := [c]], depth + 1) == Answer(None, params[a := [c]])
    ensures
      var t := Tree(map[], Nil, Cons(a, inner, Nil), Cons(w, Tree(e, Nil, Nil, Nil), Nil));
      && Find(t, [Slash, c] + rest, depth) == Some(Found(Wild(w), e))
      && Search(t, [Slash, c] + rest, params, depth) == Answer(Some(e), (params - {a})[w := [c] + rest])
  {
    var leaf := Tree(e, Nil, Nil, Nil);
    var t := Tree(map[], Nil, Cons(a, inner, Nil), Cons(w, leaf, Nil));
    Cut(c, rest);
    assert params[a := [c]] - {a} == params - {a};
    assert FindParam(t.params, rest, depth + 1) == FindParam(Nil, rest, depth + 1) == None;
    assert SearchParam(t.params, [c], rest, params, depth + 1) == SearchParam(Nil, [c], rest, params - {a}, depth + 1);
  }

  // Registrations ":a/:a/x" and ":a/*w", any request "/b/c/d" with d other than x: the second
  // registration answers, but the binding of a that belongs to it is gone.
  lemma RepeatedNameLosesBinding(a: bytes, w: bytes, x: bytes, b: byte, c: byte, d: byte, h: Handler, g: Handler)
    requires a != w && b != Slash && c != Slash && d != Slash && x != [d]
    ensures
      var deep, wide := Param(a, Param(a, Static(x, End))), Param(a, Wild(w));
      var t := Insert(Insert(EmptyTree, deep, [Get], h), wide, [Get], g);
      var tail := [c] + ([Slash, d] + []);
      var path := [Slash, b] + ([Slash, c] + ([Slash, d] + []));
      && Find(t, path, 0).Some? && Find(t, path, 0).value.pattern == wide
      && Bind(wide, path) == Some(map[a := [b], w := tail])
      && Search(t, path, map[], 0).params == map[w := tail]
  {
    var deep, wide := Param(a, Param(a, Static(x, End))), Param(a, Wild(w));
    OneGet(h);
    OneGet(g);
    var eh: Entry, eg: Entry := map[Get := h, Head := h], map[Get := g, Head := g];
    var inner := Tree(map[], Cons(x, Tree(eh, Nil, Nil, Nil), Nil), Nil, Nil);
    var outer := Tree(map[], Nil, Cons(a, inner, Nil), Cons(w, Tree(eg, Nil, Nil, Nil), Nil));
    var t := Tree(map[], Nil, Cons(a, outer, Nil), Nil);
    assert Insert(Insert(EmptyTree, deep, [Get], h), wide, [Get], g) == t by { BuildsTree(a, w, x, h, g); }
    var p2: bytes := [Slash, d] + [];
    var p1 := [Slash, c] + p2;
    var one: Params := map[a := [b]];
    FailsInside(x, Tree(eh, Nil, Nil, Nil), d, one[a := [c]], 2);
    ErasesOuter(a, w, inner, eg, c, p2, one, 1);
    var none: Params := map[];
    assert one - {a} == none && none[a := [b]] == one;
    TakesParam(a, outer, b, p1, none, 0);
    BindsBoth(a, w, b, c, p2);
  }

  lemma BindsBoth(a: bytes, w: bytes, b: byte, c: byte, rest: bytes)
    requires b != Slash && c != Slash && (rest != [] ==> rest[0] == Slash)
    ensures Bind(Param(a, Wild(w)), [Slash, b] + ([Slash, c] + rest)) == Some(map[a := [b], w := [c] + rest])
  {
    Cut(b, [Slash, c] + rest);
    Cut(c, rest);
    assert map[a := [b]] + map[w := [c] + rest] == map[a := [b], w := [c] + rest];
  }

  lemma BuildsTree(a: bytes, w: bytes, x: bytes, h: Handler, g: Handler)
    ensures
      var eh: Entry, eg: Entry := map[Get := h, Head := h], map[Get := g, Head := g];
      var inner := Tree(map[], Cons(x, Tree(eh, Nil, Nil, Nil), Nil), Nil, Nil);
      Insert(Insert(EmptyTree, Param(a, Param(a, Static(x, End))), [Get], h), Param(a, Wild(w)), [Get], g)
        == Tree(map[], Nil, Cons(a, Tree(map[], Nil, Cons(a, inner, Nil), Cons(w, Tree(eg, Nil, Nil, Nil), Nil)), Nil), Nil)
  {
    OneGet(h);
    OneGet(g);
    var eh: Entry, eg: Entry := map[Get := h, Head := h], map[Get := g, Head := g];
    var inner := Tree(map[], Cons(x, Tree(eh, Nil, Nil, Nil), Nil), Nil, Nil);
    assert Insert(EmptyTree, End, [Get], h) == Tree(eh, Nil, Nil, Nil) && Insert(EmptyTree, End, [Get], g) == Tree(eg, Nil, Nil, Nil);
    assert Insert(EmptyTree, Static(x, End), [Get], h) == inner;
    var mid := Tree(map[], Nil, Cons(a, inner, Nil), Nil);
    assert Insert(EmptyTree, Param(a, Static(x, End)), [Get], h) == mid;
    assert Insert(mid, Wild(w), [Get], g) == mid.(wilds := Cons(w, Tree(eg, Nil, Nil, Nil), Nil));
  }

  /** A node with one parameter child that the rest of the path matches. */
  lemma TakesParam(a: bytes, sub: Tree, c: byte, rest: bytes, params: Params, depth: nat)
    requires c != Slash && (rest != [] ==> rest[0] == Slash) && depth < MaxPathSegments
    requires Find(sub, rest, depth + 1).Some? && Search(sub, rest, params[a := [c]], depth + 1).entry.Some?
    ensures
      var t, f := Tree(map[], Nil, Cons(a, sub, Nil), Nil), Find(sub, rest, depth + 1).value;
      && Find(t, [Slash, c] + rest, depth) == Some(Found(Param(a, f.pattern), f.entry))
      && Search(t, [Slash, c] + rest, params, depth) == Search(sub, rest, params[a := [c]], depth + 1)
  {
    Cut(c, rest);
  }

  lemma OneGet(h: Handler)
    ensures AddMethods(map[], [Get], h) == map[Get := h, Head := h]
  {
    assert [Get][1..] == [];
    assert AddMethods(map[], [Get], h) == AddMethods(AddMethod(map[], Get, h), [], h);
  }

  lemma Cut(c: byte, rest: bytes)
    requires c != Slash && (rest != [] ==> rest[0] == Slash)
    ensures Segment([Slash, c] + rest) == [c] && AfterSegment([Slash, c] + rest) == rest && Raw([Slash, c] + rest) == [c] + rest
  {
    var s := [Slash, c] + rest;
    assert s[1..] == [c] + rest;
    assert ([c] + rest)[1..] == rest;
    assert UpToSlash([c] + rest) == 1 + UpToSlash(rest);
  }
}
