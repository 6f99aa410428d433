/**
  Paths, path templates and the declared routes of an OpenAPI document, as the control plane's
  attack-surface inventory reads them (inventory.rs).
*/
module Routes {
  import opened Prelude
  import opened StableSort

  // ── segments ──────────────────────────────────────────────────────────────────────────────────

  /** The path up to the first `?` or `#`. */
  function Cut(path: string): string {
    if |path| == 0 || path[0] == '?' || path[0] == '#' then [] else [path[0]] + Cut(path[1..])
  }

  /** The pieces between slashes, empty ones included. */
  function Pieces(s: string): (ps: seq<string>)
    ensures |ps| > 0
  {
    if |s| == 0 then [[]]
    else
      var rest := Pieces(s[1..]);
      if s[0] == '/' then [[]] + rest else [[s[0]] + rest[0]] + rest[1..]
  }

  function NonEmpty(ps: seq<string>): seq<string> {
    if |ps| == 0 then [] else (if |ps[0]| == 0 then [] else [ps[0]]) + NonEmpty(ps[1..])
  }

  function SplitSegments(path: string): seq<string> { NonEmpty(Pieces(Cut(path))) }

  predicate Plain(s: string) { forall i :: 0 <= i < |s| ==> s[i] != '/' && s[i] != '?' && s[i] != '#' }
  predicate Clean(segs: seq<string>) { forall i :: 0 <= i < |segs| ==> |segs[i]| > 0 && Plain(segs[i]) }

  function Joined(segs: seq<string>): string {
    if |segs| == 0 then [] else ['/'] + segs[0] + Joined(segs[1..])
  }

  predicate NoMark(s: string) { forall i :: 0 <= i < |s| ==> s[i] != '?' && s[i] != '#' }

  lemma {:induction false} CutHasNoMark(path: string)
    ensures NoMark(Cut(path))
    ensures NoMark(path) ==> Cut(path) == path
    decreases |path|
  {
    if |path| > 0 {
      CutHasNoMark(path[1..]);
    }
  }

  lemma {:induction false} PiecesArePlain(s: string)
    requires NoMark(s)
    ensures forall i :: 0 <= i < |Pieces(s)| ==> Plain(Pieces(s)[i])
    decreases |s|
  {
    if |s| > 0 {
      PiecesArePlain(s[1..]);
    }
  }

  lemma {:induction false} NonEmptyIsClean(ps: seq<string>)
    requires forall i :: 0 <= i < |ps| ==> Plain(ps[i])
    ensures Clean(NonEmpty(ps))
    decreases |ps|
  {
    if |ps| > 0 {
      NonEmptyIsClean(ps[1..]);
    }
  }

  lemma SegmentsAreClean(path: string)
    ensures Clean(SplitSegments(path))
  {
    CutHasNoMark(path);
    PiecesArePlain(Cut(path));
    NonEmptyIsClean(Pieces(Cut(path)));
  }

  lemma {:induction false} PiecesAfterPlain(p: string, t: string)
    requires Plain(p) && (|t| == 0 || t[0] == '/')
    ensures Pieces(p + t) == [p] + Pieces(t)[1..]
    decreases |p|
  {
    if |p| == 0 {
      assert p + t == t;
    } else {
      assert (p + t)[1..] == p[1..] + t;
      PiecesAfterPlain(p[1..], t);
      assert [p[0]] + p[1..] == p;
    }
  }

  lemma {:induction false} PiecesOfJoined(segs: seq<string>)
    requires Clean(segs)
    ensures NoMark(Joined(segs))
    ensures Pieces(Joined(segs)) == [[]] + segs
    decreases |segs|
  {
    if |segs| > 0 {
      PiecesOfJoined(segs[1..]);
      var t := Joined(segs[1..]);
      assert Joined(segs)[1..] == segs[0] + t;
      PiecesAfterPlain(segs[0], t);
      assert Pieces(t)[1..] == segs[1..];
    }
  }

  lemma {:induction false} NonEmptyOfClean(segs: seq<string>)
    requires Clean(segs)
    ensures NonEmpty(segs) == segs
    decreases |segs|
  {
    if |segs| > 0 {
      NonEmptyOfClean(segs[1..]);
    }
  }

  /** Joining and splitting are inverse on segment lists. */
  lemma SplitOfJoined(segs: seq<string>)
    requires Clean(segs)
    ensures SplitSegments(Joined(segs)) == segs
  {
    PiecesOfJoined(segs);
    CutHasNoMark(Joined(segs));
    NonEmptyOfClean(segs);
    assert ([[]] + segs)[1..] == segs;
  }

  // ── observed paths ────────────────────────────────────────────────────────────────────────────

  predicate IsDigit(c: char) { '0' <= c <= '9' }
  predicate IsHex(c: char) { IsDigit(c) || 'a' <= c <= 'f' || 'A' <= c <= 'F' }

  predicate IsUuid(s: string) {
    && |s| == 36
    && forall i :: 0 <= i < |s| ==> if i == 8 || i == 13 || i == 18 || i == 23 then s[i] == '-' else IsHex(s[i])
  }

  predicate IsVariableSegment(s: string) {
    && |s| > 0
    && (|| (forall i :: 0 <= i < |s| ==> IsDigit(s[i]))
        || (|s| >= 16 && forall i :: 0 <= i < |s| ==> IsHex(s[i]))
        || IsUuid(s))
  }

  const DIGITS := "0123456789"
  const HEX_DIGITS := "0123456789abcdefABCDEF"

  /** Written in characters of `alphabet` only. */
  predicate WrittenIn(s: string, alphabet: string) { forall i :: 0 <= i < |s| ==> s[i] in alphabet }

  predicate HexGroup(s: string, n: nat) { |s| == n && WrittenIn(s, HEX_DIGITS) }

  /** The shape `8-4-4-4-12` of section 3 of RFC 4122. */
  predicate UuidShape(s: string, a: string, b: string, c: string, d: string, e: string) {
    && HexGroup(a, 8) && HexGroup(b, 4) && HexGroup(c, 4) && HexGroup(d, 4) && HexGroup(e, 12)
    && s == a + ['-'] + b + ['-'] + c + ['-'] + d + ['-'] + e
  }

  lemma DigitIff(c: char)
    ensures IsDigit(c) <==> c in DIGITS
  {
    if IsDigit(c) {
      assert DIGITS[c as int - '0' as int] == c;
    }
  }

  lemma HexIff(c: char)
    ensures IsHex(c) <==> c in HEX_DIGITS
  {
    if IsDigit(c) {
      assert HEX_DIGITS[c as int - '0' as int] == c;
    } else if 'a' <= c <= 'f' {
      assert HEX_DIGITS[c as int - 'a' as int + 10] == c;
    } else if 'A' <= c <= 'F' {
      assert HEX_DIGITS[c as int - 'A' as int + 16] == c;
    }
  }

  lemma AllHexIff(s: string)
    ensures (forall i :: 0 <= i < |s| ==> IsHex(s[i])) <==> WrittenIn(s, HEX_DIGITS)
  {
    forall i | 0 <= i < |s| ensures IsHex(s[i]) <==> s[i] in HEX_DIGITS {
      HexIff(s[i]);
    }
  }

  lemma UuidHasShape(s: string)
    requires IsUuid(s)
    ensures UuidShape(s, s[..8], s[9..13], s[14..18], s[19..23], s[24..])
  {
    HexSlice(s, 0, 8);
    HexSlice(s, 9, 13);
    HexSlice(s, 14, 18);
    HexSlice(s, 19, 23);
    HexSlice(s, 24, 36);
    assert s[0..8] == s[..8] && s[24..36] == s[24..];
    Regrouped(s);
  }

  lemma HexSlice(s: string, lo: nat, hi: nat)
    requires lo <= hi <= |s| && forall i :: lo <= i < hi ==> IsHex(s[i])
    ensures HexGroup(s[lo..hi], hi - lo)
  {
    AllHexIff(s[lo..hi]);
  }

  lemma Regrouped(s: string)
    requires |s| == 36 && s[8] == s[13] == s[18] == s[23] == '-'
    ensures s == s[..8] + ['-'] + s[9..13] + ['-'] + s[14..18] + ['-'] + s[19..23] + ['-'] + s[24..]
  {}

  lemma ShapeIsUuid(s: string, a: string, b: string, c: string, d: string, e: string)
    requires UuidShape(s, a, b, c, d, e)
    ensures IsUuid(s)
  {
    AllHexIff(a);
    AllHexIff(b);
    AllHexIff(c);
    AllHexIff(d);
    AllHexIff(e);
  }

  /** A segment counts as an identifier exactly when it is a number, a long hex token or a UUID. */
  lemma VariableSegmentIff(s: string)
    ensures IsVariableSegment(s)
            <==> || (|s| > 0 && WrittenIn(s, DIGITS))
                 || (|s| >= 16 && WrittenIn(s, HEX_DIGITS))
                 || exists a, b, c, d, e :: UuidShape(s, a, b, c, d, e)
  {
    forall i | 0 <= i < |s| ensures IsDigit(s[i]) <==> s[i] in DIGITS {
      DigitIff(s[i]);
    }
    AllHexIff(s);
    if IsUuid(s) {
      UuidHasShape(s);
    }
    if a, b, c, d, e :| UuidShape(s, a, b, c, d, e) {
      ShapeIsUuid(s, a, b, c, d, e);
    }
  }

  const HOLE: string := "{}"

  function Collapse(s: string): string { if IsVariableSegment(s) then HOLE else s }

  function CollapseAll(segs: seq<string>): (r: seq<string>)
    ensures |r| == |segs| && forall i :: 0 <= i < |r| ==> r[i] == Collapse(segs[i])
  {
    if |segs| == 0 then [] else [Collapse(segs[0])] + CollapseAll(segs[1..])
  }

  function Template(path: string): string {
    var segs := SplitSegments(path);
    if |segs| == 0 then "/" else Joined(CollapseAll(segs))
  }

  lemma {:induction false} JoinedSnoc(segs: seq<string>, last: string)
    ensures Joined(segs + [last]) == Joined(segs) + (['/'] + last)
    decreases |segs|
  {
    if |segs| == 0 {
      assert segs + [last] == [last];
      assert Joined([last][1..]) == [];
    } else {
      JoinedSnoc(segs[1..], last);
      assert (segs + [last])[1..] == segs[1..] + [last];
    }
  }

  lemma JoinedOneMore(segs: seq<string>, i: nat, out: string)
    requires i < |segs| && out == Joined(segs[..i])
    ensures Joined(segs[..i + 1]) == out + ['/'] + segs[i]
  {
    assert segs[..i + 1] == segs[..i] + [segs[i]];
    JoinedSnoc(segs[..i], segs[i]);
  }

  method Templatize(path: string) returns (out: string)
    ensures out == Template(path)
  {
    var parts := SplitSegments(path);
    if |parts| == 0 {
      return "/";
    }
    out := "";
    ghost var all := CollapseAll(parts);
    for i := 0 to |parts|
      invariant out == Joined(all[..i])
    {
      JoinedOneMore(all, i, out);
      out := out + ['/'];
      if IsVariableSegment(parts[i]) {
        out := out + HOLE;
      } else {
        out := out + parts[i];
      }
    }
    assert all[..|parts|] == all;
  }

  lemma HoleIsFixed()
    ensures Collapse(HOLE) == HOLE && Plain(HOLE) && |HOLE| == 2
  {
    assert HOLE[0] == '{' && !IsHex(HOLE[0]);
  }

  /** A template reads back as the collapsed segments of the path. */
  lemma TemplateReadsBack(path: string)
    ensures SplitSegments(Template(path)) == CollapseAll(SplitSegments(path))
  {
    var segs := SplitSegments(path);
    SegmentsAreClean(path);
    HoleIsFixed();
    if |segs| == 0 {
      assert Template(path) == Joined([[]]);
      assert Cut("/") == "/" && Pieces("/") == [[], []] && NonEmpty([[], []]) == [];
    } else {
      SplitOfJoined(CollapseAll(segs));
    }
  }

  /** Two paths share a template exactly when they agree segment by segment once variables are collapsed. */
  lemma TemplatesAgreeIff(p: string, q: string)
    ensures Template(p) == Template(q) <==> CollapseAll(SplitSegments(p)) == CollapseAll(SplitSegments(q))
  {
    TemplateReadsBack(p);
    TemplateReadsBack(q);
  }

  /** Looks like an identifier, or is the placeholder itself. */
  predicate Open(s: string) { IsVariableSegment(s) || s == "{}" }

  predicate SameOrOpen(x: string, y: string) { x == y || (Open(x) && Open(y)) }

  /** So two paths share a template exactly when each pair of segments is equal or looks like identifiers. */
  lemma TemplatesAgreeSegmentwise(p: string, q: string)
    ensures var s, t := SplitSegments(p), SplitSegments(q);
            Template(p) == Template(q)
            <==> |s| == |t| && forall i :: 0 <= i < |s| ==> SameOrOpen(s[i], t[i])
  {
    TemplatesAgreeIff(p, q);
    CollapsedAlikeIff(SplitSegments(p), SplitSegments(q));
  }

  lemma CollapseAgrees(x: string, y: string)
    ensures Collapse(x) == Collapse(y) <==> SameOrOpen(x, y)
  {
    HoleIsFixed();
  }

  lemma {:induction false} CollapsedAlikeIff(s: seq<string>, t: seq<string>)
    ensures CollapseAll(s) == CollapseAll(t) <==> |s| == |t| && forall i :: 0 <= i < |s| ==> SameOrOpen(s[i], t[i])
  {
    var a, b := CollapseAll(s), CollapseAll(t);
    if a == b {
      forall i | 0 <= i < |s| ensures SameOrOpen(s[i], t[i]) {
        CollapsedAt(s, i, a);
        CollapsedAt(t, i, b);
        CollapseAgrees(s[i], t[i]);
      }
    } else if |s| == |t| {
      var i :| 0 <= i < |a| && a[i] != b[i];
      CollapsedAt(s, i, a);
      CollapsedAt(t, i, b);
      CollapseAgrees(s[i], t[i]);
    }
  }

  lemma CollapsedAt(s: seq<string>, i: nat, a: seq<string>)
    requires i < |s| && a == CollapseAll(s)
    ensures a[i] == Collapse(s[i])
  {}

  lemma TemplateIsIdempotent(path: string)
    ensures Template(Template(path)) == Template(path)
  {
    var once := CollapseAll(SplitSegments(path));
    TemplateReadsBack(path);
    HoleIsFixed();
    forall i | 0 <= i < |once|
      ensures Collapse(once[i]) == once[i]
    {
    }
    assert CollapseAll(once) == once;
    TemplatesAgreeIff(Template(path), path);
  }

  // ── declared routes ───────────────────────────────────────────────────────────────────────────

  datatype Seg = Static(name: string) | Param
  datatype Route = Route(segments: seq<Seg>, methods: set<string>)

  predicate IsHttpMethod(m: string) {
    || m == "get" || m == "put" || m == "post" || m == "delete"
    || m == "options" || m == "head" || m == "patch" || m == "trace"
  }

  function MethodsOf(keys: set<string>): set<string> { set m | m in keys && IsHttpMethod(m) }

  /** A path item declares exactly those of the eight methods of OpenAPI that it has as keys. */
  lemma DeclaredMethods(keys: set<string>)
    ensures MethodsOf(keys) == keys * {"get", "put", "post", "delete", "options", "head", "patch", "trace"}
  {}

  function ParseSegment(s: string): Seg {
    if |s| > 2 && s[0] == '{' && s[|s| - 1] == '}' then Param else Static(s)
  }

  /** A segment is a parameter exactly when it is a name in braces. */
  lemma ParseSegmentIff(s: string)
    ensures if exists name :: |name| > 0 && s == ['{'] + name + ['}'] then ParseSegment(s) == Param
            else ParseSegment(s) == Static(s)
  {
    if ParseSegment(s) == Param {
      var name := s[1..|s| - 1];
      assert s == ['{'] + name + ['}'];
    }
  }

  function ParseSegments(segs: seq<string>): (r: seq<Seg>)
    ensures |r| == |segs| && forall i :: 0 <= i < |r| ==> r[i] == ParseSegment(segs[i])
  {
    if |segs| == 0 then [] else [ParseSegment(segs[0])] + ParseSegments(segs[1..])
  }

  predicate SegMatches(seg: Seg, val: string) {
    match seg
    case Static(name) => name == val
    case Param => |val| > 0
  }

  predicate Matches(segs: seq<Seg>, req: seq<string>) {
    |segs| == |req| && forall i :: 0 <= i < |segs| ==> SegMatches(segs[i], req[i])
  }

  function Specificity(segs: seq<Seg>): (r: seq<int>)
    ensures |r| == |segs| && forall i :: 0 <= i < |r| ==> r[i] == if segs[i].Param? then 1 else 0
  {
    if |segs| == 0 then [] else [if segs[0].Param? then 1 else 0] + Specificity(segs[1..])
  }

  predicate AsSpecific(a: Route, b: Route) { LexLeq(Specificity(a.segments), Specificity(b.segments)) }

  /** One entry of the document's `paths`: the template and the item's keys, absent when it is not an object. */
  datatype PathItem = PathItem(template: string, keys: Option<set<string>>)

  function ItemRoutes(item: PathItem): seq<Route> {
    if item.keys.None? then []
    else
      var methods := MethodsOf(item.keys.value);
      if methods == {} then [] else [Route(ParseSegments(SplitSegments(item.template)), methods)]
  }

  function Gathered(items: seq<PathItem>, routesOf: PathItem -> seq<Route>): seq<Route>
    decreases |items|
  {
    if |items| == 0 then [] else Gathered(items[..|items| - 1], routesOf) + routesOf(items[|items| - 1])
  }

  function Declared(items: seq<PathItem>): seq<Route> { Gathered(items, ItemRoutes) }

  /** The route table of the `paths` entries, in the order the library's map yields them: most specific first. */
  method FromSpec(paths: seq<PathItem>) returns (routes: seq<Route>)
    ensures routes == Sort(Declared(paths), AsSpecific)
  {
    routes := [];
    for i := 0 to |paths|
      invariant routes == Declared(paths[..i])
    {
      assert paths[..i + 1][..i] == paths[..i];
      if paths[i].keys.Some? {
        var methods := MethodsOf(paths[i].keys.value);
        if methods == {} {
          continue;
        }
        routes := routes + [Route(ParseSegments(SplitSegments(paths[i].template)), methods)];
      }
    }
    assert paths[..|paths|] == paths;
    routes := Sort(routes, AsSpecific);
  }

  datatype Classification = Documented | Shadow | Unclassified

  function FirstMatch(routes: seq<Route>, req: seq<string>): Option<Route> {
    if |routes| == 0 then None
    else if Matches(routes[0].segments, req) then Some(routes[0])
    else FirstMatch(routes[1..], req)
  }

  function Verdict(route: Option<Route>, m: string): Classification {
    if route.Some? && m in route.value.methods then Documented else Shadow
  }

  function Classify(routes: seq<Route>, method_: string, path: string): Classification {
    Verdict(FirstMatch(routes, SplitSegments(path)), Lower(method_))
  }

  // ── which route answers ───────────────────────────────────────────────────────────────────────

  /** The table `FromSpec` builds from the declared routes. */
  function Table(declared: seq<Route>): seq<Route> { Sort(declared, AsSpecific) }

  /** Route `i` matches, nothing matching is more specific, and no earlier match is as specific. */
  ghost predicate MostSpecific(declared: seq<Route>, req: seq<string>, i: nat) {
    && i < |declared|
    && Matches(declared[i].segments, req)
    && forall j :: 0 <= j < |declared| && Matches(declared[j].segments, req) ==>
         && AsSpecific(declared[i], declared[j])
         && (j < i ==> Specificity(declared[j].segments) != Specificity(declared[i].segments))
  }

  lemma AsSpecificIsTotal()
    ensures TotalPreorder(AsSpecific)
  {
    forall a: Route, b: Route
      ensures AsSpecific(a, b) || AsSpecific(b, a)
    {
      LexTrichotomy(Specificity(a.segments), Specificity(b.segments));
    }
    forall a: Route, b: Route, c: Route | AsSpecific(a, b) && AsSpecific(b, c)
      ensures AsSpecific(a, c)
    {
      LexLeqTransitive(Specificity(a.segments), Specificity(b.segments), Specificity(c.segments));
    }
  }

  lemma {:induction false} FirstMatchAppend(a: seq<Route>, b: seq<Route>, req: seq<string>)
    ensures FirstMatch(a + b, req) == if FirstMatch(a, req).Some? then FirstMatch(a, req) else FirstMatch(b, req)
    decreases |a|
  {
    if |a| == 0 {
      assert a + b == b;
    } else {
      assert (a + b)[1..] == a[1..] + b;
      FirstMatchAppend(a[1..], b, req);
    }
  }

  lemma {:induction false} FirstMatchIsIn(routes: seq<Route>, req: seq<string>)
    ensures var f := FirstMatch(routes, req);
            f.Some? ==> f.value in routes && Matches(f.value.segments, req)
    decreases |routes|
  {
    if |routes| > 0 {
      FirstMatchIsIn(routes[1..], req);
    }
  }

  predicate AnyOrder(a: Route, b: Route) { true }

  /** Inserting `x` changes the answer only if `x` matches and is strictly more specific. */
  lemma {:induction false} InsertFirstMatch(ys: seq<Route>, x: Route, req: seq<string>)
    requires OrderedBy(ys, AsSpecific, AnyOrder)
    ensures var f := FirstMatch(ys, req);
            FirstMatch(Insert(ys, x, AsSpecific), req)
            == if Matches(x.segments, req) && (f.None? || !AsSpecific(f.value, x)) then Some(x) else f
    decreases |ys|
  {
    var n := |ys| - 1;
    if n < 0 || AsSpecific(ys[n], x) {
      FirstMatchAppend(ys, [x], req);
      FirstMatchIsIn(ys, req);
      AsSpecificIsTotal();
      assert FirstMatch([x][1..], req) == None;
    } else {
      var front := Insert(ys[..n], x, AsSpecific);
      InsertFirstMatch(ys[..n], x, req);
      FirstMatchAppend(front, [ys[n]], req);
      FirstMatchAppend(ys[..n], [ys[n]], req);
      assert ys == ys[..n] + [ys[n]];
      assert FirstMatch([ys[n]][1..], req) == None;
    }
  }

  /** The first match of the sorted table is the most specific declared match. */
  lemma {:induction false} TableAnswersMostSpecific(declared: seq<Route>, req: seq<string>) returns (i: nat)
    ensures var f := FirstMatch(Table(declared), req);
            if f.Some? then MostSpecific(declared, req, i) && declared[i] == f.value
            else forall j :: 0 <= j < |declared| ==> !Matches(declared[j].segments, req)
    decreases |declared|
  {
    i := 0;
    if |declared| > 0 {
      var n := |declared| - 1;
      var k := TableAnswersMostSpecific(declared[..n], req);
      AsSpecificIsTotal();
      SortIsStable(declared[..n], AsSpecific, AnyOrder);
      InsertFirstMatch(Table(declared[..n]), declared[n], req);
      var f := FirstMatch(Table(declared[..n]), req);
      if Matches(declared[n].segments, req) && (f.None? || !AsSpecific(f.value, declared[n])) {
        i := n;
        forall j | 0 <= j < |declared| && Matches(declared[j].segments, req)
          ensures AsSpecific(declared[n], declared[j])
          ensures j < n ==> Specificity(declared[j].segments) != Specificity(declared[n].segments)
        {
          if j < n {
            assert declared[..n][j] == declared[j];
            assert AsSpecific(f.value, declared[j]);
          }
        }
      } else {
        i := k;
        if f.Some? {
          forall j | 0 <= j < |declared| && Matches(declared[j].segments, req)
            ensures AsSpecific(declared[i], declared[j])
            ensures j < i ==> Specificity(declared[j].segments) != Specificity(declared[i].segments)
          {
            if j < n {
              assert declared[..n][j] == declared[j];
            }
          }
        } else {
          forall j | 0 <= j < |declared|
            ensures !Matches(declared[j].segments, req)
          {
            if j < n {
              assert declared[..n][j] == declared[j];
            }
          }
        }
      }
    }
  }

  lemma MostSpecificIsUnique(declared: seq<Route>, req: seq<string>, i: nat, j: nat)
    requires MostSpecific(declared, req, i) && MostSpecific(declared, req, j)
    ensures i == j
  {
    LexTrichotomy(Specificity(declared[i].segments), Specificity(declared[j].segments));
  }

  /** Route `i` is the most specific match and declares the method. */
  ghost predicate Answers(declared: seq<Route>, method_: string, path: string, i: nat) {
    MostSpecific(declared, SplitSegments(path), i) && Lower(method_) in declared[i].methods
  }

  /** `documented` means that the most specific matching path declares the method; the rest is `shadow`. */
  lemma ClassifyExact(declared: seq<Route>, method_: string, path: string)
    ensures Classify(Table(declared), method_, path)
            == if exists i: nat :: Answers(declared, method_, path, i) then Documented else Shadow
  {
    var req := SplitSegments(path);
    var k := TableAnswersMostSpecific(declared, req);
    if i: nat :| Answers(declared, method_, path, i) {
      if FirstMatch(Table(declared), req).Some? {
        MostSpecificIsUnique(declared, req, i, k);
      }
    }
    if Classify(Table(declared), method_, path) == Documented {
      assert Answers(declared, method_, path, k);
    }
  }

  // ── declaration order ─────────────────────────────────────────────────────────────────────────

  /** Templates that parse alike declare the same methods; distinct templates always do. */
  ghost predicate Unambiguous(declared: seq<Route>) {
    forall a, b :: a in declared && b in declared && a.segments == b.segments ==> a.methods == b.methods
  }

  lemma TwinRoutes(a: seq<Seg>, b: seq<Seg>, req: seq<string>)
    requires Matches(a, req) && Matches(b, req) && Specificity(a) == Specificity(b)
    ensures a == b
  {
    forall i | 0 <= i < |a|
      ensures a[i] == b[i]
    {
      assert Specificity(a)[i] == Specificity(b)[i];
      assert SegMatches(a[i], req[i]) && SegMatches(b[i], req[i]);
    }
  }

  /** A match among other routes is also a match here, so the answer here is at least as specific. */
  lemma AnswerIsAsSpecific(d1: seq<Route>, d2: seq<Route>, req: seq<string>, i: nat, r: Route)
    requires (forall x :: x in d2 ==> x in d1) && r in d2 && Matches(r.segments, req)
    requires var f := FirstMatch(Table(d1), req);
             if f.Some? then MostSpecific(d1, req, i) && d1[i] == f.value
             else forall j :: 0 <= j < |d1| ==> !Matches(d1[j].segments, req)
    ensures FirstMatch(Table(d1), req).Some? && AsSpecific(FirstMatch(Table(d1), req).value, r)
  {
    var k :| 0 <= k < |d1| && d1[k] == r;
  }

  /** Without clashes the answer depends on which routes are declared, not on how often or in what order. */
  lemma RoutesDecide(d1: seq<Route>, d2: seq<Route>, method_: string, path: string)
    requires Unambiguous(d1) && forall r :: r in d1 <==> r in d2
    ensures Classify(Table(d1), method_, path) == Classify(Table(d2), method_, path)
  {
    var req := SplitSegments(path);
    var i := TableAnswersMostSpecific(d1, req);
    var j := TableAnswersMostSpecific(d2, req);
    var f, g := FirstMatch(Table(d1), req), FirstMatch(Table(d2), req);
    if f.Some? {
      AnswerIsAsSpecific(d2, d1, req, j, f.value);
    }
    if g.Some? {
      AnswerIsAsSpecific(d1, d2, req, i, g.value);
      LexTrichotomy(Specificity(f.value.segments), Specificity(g.value.segments));
      TwinRoutes(f.value.segments, g.value.segments, req);
    }
  }

  /** What parsing guarantees of a declared route. */
  ghost predicate Spelled(route: Route) {
    && (forall k :: 0 <= k < |route.segments| && route.segments[k].Static? ==> ProperName(route.segments[k].name))
    && (forall m :: m in route.methods ==> IsHttpMethod(m) && Lower(m) == m)
    && route.methods != {}
  }

  predicate ProperName(name: string) { |name| > 0 && Plain(name) && ParseSegment(name) == Static(name) }

  lemma {:induction false} LowerFixed(s: string)
    requires forall i :: 0 <= i < |s| ==> 'a' <= s[i] <= 'z'
    ensures Lower(s) == s
    decreases |s|
  {
    if |s| > 0 {
      LowerFixed(s[1..]);
    }
  }

  lemma MethodsAreLower(m: string)
    requires IsHttpMethod(m)
    ensures Lower(m) == m
  {
    LowerFixed(m);
  }

  lemma ParsedAreSpelled(segs: seq<string>, methods: set<string>)
    requires Clean(segs) && methods != {} && forall m :: m in methods ==> IsHttpMethod(m)
    ensures Spelled(Route(ParseSegments(segs), methods))
  {
    forall m | m in methods
      ensures Lower(m) == m
    {
      MethodsAreLower(m);
    }
  }

  lemma {:induction false} DeclaredAreSpelled(items: seq<PathItem>)
    ensures forall r :: r in Declared(items) ==> Spelled(r)
    decreases |items|
  {
    if |items| > 0 {
      var item := items[|items| - 1];
      DeclaredAreSpelled(items[..|items| - 1]);
      SegmentsAreClean(item.template);
      if item.keys.Some? && MethodsOf(item.keys.value) != {} {
        ParsedAreSpelled(SplitSegments(item.template), MethodsOf(item.keys.value));
      }
    }
  }

  // A segment longer than every declared name fills a parameter and matches no name.

  function LongestName(segs: seq<Seg>): (n: nat)
    ensures forall k :: 0 <= k < |segs| && segs[k].Static? ==> |segs[k].name| <= n
  {
    if |segs| == 0 then 0
    else
      var rest := LongestName(segs[1..]);
      if segs[0].Static? && |segs[0].name| > rest then |segs[0].name| else rest
  }

  function Longest(routes: seq<Route>): (n: nat)
    ensures forall r :: r in routes ==> LongestName(r.segments) <= n
  {
    if |routes| == 0 then 0
    else
      var rest := Longest(routes[1..]);
      if LongestName(routes[0].segments) > rest then LongestName(routes[0].segments) else rest
  }

  function Filler(n: nat): string { seq(n + 1, _ => 'x') }

  function Fill(segs: seq<Seg>, w: string): (req: seq<string>)
    ensures |req| == |segs| && forall k :: 0 <= k < |req| ==> req[k] == if segs[k].Param? then w else segs[k].name
  {
    if |segs| == 0 then [] else [if segs[0].Param? then w else segs[0].name] + Fill(segs[1..], w)
  }

  lemma {:induction false} PointwiseLeq(a: seq<int>, b: seq<int>)
    requires |a| == |b| && forall k :: 0 <= k < |a| ==> a[k] <= b[k]
    ensures LexLeq(a, b)
    decreases |a|
  {
    if |a| > 0 {
      PointwiseLeq(a[1..], b[1..]);
    }
  }

  ghost predicate NamesNot(segs: seq<Seg>, w: string) { forall k :: 0 <= k < |segs| ==> segs[k] != Static(w) }

  lemma FilledIsTightest(segs: seq<Seg>, other: seq<Seg>, w: string)
    requires NamesNot(other, w) && Matches(other, Fill(segs, w))
    ensures LexLeq(Specificity(segs), Specificity(other))
  {
    forall k | 0 <= k < |segs|
      ensures Specificity(segs)[k] <= Specificity(other)[k]
    {
      assert SegMatches(other[k], Fill(segs, w)[k]);
    }
    PointwiseLeq(Specificity(segs), Specificity(other));
  }

  lemma FilledMatches(segs: seq<Seg>, w: string)
    requires |w| > 0
    ensures Matches(segs, Fill(segs, w))
  {}

  /** A filled template is answered by the first route that carries the template. */
  lemma FilledIsAnsweredBy(declared: seq<Route>, i: nat, w: string)
    requires i < |declared| && |w| > 0
    requires forall r :: r in declared ==> NamesNot(r.segments, w)
    requires forall j :: 0 <= j < i ==> declared[j].segments != declared[i].segments
    ensures MostSpecific(declared, Fill(declared[i].segments, w), i)
  {
    var segs := declared[i].segments;
    var req := Fill(segs, w);
    FilledMatches(segs, w);
    forall j | 0 <= j < |declared| && Matches(declared[j].segments, req)
      ensures AsSpecific(declared[i], declared[j])
      ensures j < i ==> Specificity(declared[j].segments) != Specificity(segs)
    {
      FilledIsTightest(segs, declared[j].segments, w);
      if j < i && Specificity(declared[j].segments) == Specificity(segs) {
        TwinRoutes(declared[j].segments, segs, req);
      }
    }
  }

  lemma FillerIsFresh(declared: seq<Route>, w: string)
    requires w == Filler(Longest(declared))
    ensures |w| > 0 && Plain(w) && forall r :: r in declared ==> NamesNot(r.segments, w)
  {
  }

  lemma FilledIsClean(segs: seq<Seg>, methods: set<string>, w: string)
    requires Spelled(Route(segs, methods)) && |w| > 0 && Plain(w)
    ensures Clean(Fill(segs, w))
  {
  }

  /** The path of a filled template is classified by the methods of the first route that carries it. */
  lemma FilledVerdict(declared: seq<Route>, i: nat, w: string, m: string)
    requires i < |declared| && |w| > 0 && Plain(w) && Spelled(declared[i]) && Lower(m) == m
    requires forall r :: r in declared ==> NamesNot(r.segments, w)
    requires forall j :: 0 <= j < i ==> declared[j].segments != declared[i].segments
    ensures Classify(Table(declared), m, Joined(Fill(declared[i].segments, w)))
            == if m in declared[i].methods then Documented else Shadow
  {
    var req := Fill(declared[i].segments, w);
    FilledIsClean(declared[i].segments, declared[i].methods, w);
    SplitOfJoined(req);
    FilledIsAnsweredBy(declared, i, w);
    var k := TableAnswersMostSpecific(declared, req);
    if FirstMatch(Table(declared), req).Some? {
      MostSpecificIsUnique(declared, req, i, k);
    }
  }

  lemma FirstTwin(declared: seq<Route>, segs: seq<Seg>, k: nat) returns (i: nat)
    requires k < |declared| && declared[k].segments == segs
    ensures i <= k && declared[i].segments == segs
    ensures forall j :: 0 <= j < i ==> declared[j].segments != segs
  {
    i := 0;
    while declared[i].segments != segs
      invariant i <= k && forall j :: 0 <= j < i ==> declared[j].segments != segs
      decreases k - i
    {
      i := i + 1;
    }
  }

  lemma MethodsDiffer(a: set<string>, b: set<string>) returns (m: string)
    requires a != b
    ensures (m in a) != (m in b)
  {
    if m' :| m' in a && m' !in b {
      m := m';
    } else {
      assert a <= b;
      m :| m in b && m !in a;
    }
  }
}
