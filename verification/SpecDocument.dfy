/**
  The `paths` object of an OpenAPI document as the control plane receives it (from_spec_json in
  inventory.rs). The JSON library's map keeps one entry per template and yields them in text order.
*/
module SpecDocument {
  import opened Prelude
  import opened StableSort
  import opened Routes

  type Paths = map<string, Option<set<string>>>

  /** Entries in document order; a repeated template keeps the last entry. */
  function Parsed(document: seq<PathItem>): Paths
    decreases |document|
  {
    if |document| == 0 then map[]
    else
      var last := document[|document| - 1];
      Parsed(document[..|document| - 1])[last.template := last.keys]
  }

  lemma LeastExists(ts: set<string>) returns (t: string)
    requires ts != {}
    ensures t in ts && forall u :: u in ts && u != t ==> TextLess(t, u)
    decreases |ts|
  {
    t :| t in ts;
    var rest := ts - {t};
    assert forall u :: u in ts ==> u == t || u in rest;
    if rest != {} {
      var l := LeastExists(rest);
      TextTrichotomy(t, l);
      if TextLess(l, t) {
        t := l;
      } else {
        forall u | u in ts && u != t
          ensures TextLess(t, u)
        {
          if u != l {
            TextTransitive(t, l, u);
          }
        }
      }
    }
  }

  lemma HasLeast(ts: set<string>)
    requires ts != {}
    ensures exists t :: t in ts && forall u :: u in ts && u != t ==> TextLess(t, u)
  {
    var t := LeastExists(ts);
  }

  ghost function LeastText(ts: set<string>): (t: string)
    requires ts != {}
    ensures t in ts && forall u :: u in ts && u != t ==> TextLess(t, u)
  {
    HasLeast(ts);
    var t :| t in ts && forall u :: u in ts && u != t ==> TextLess(t, u);
    t
  }

  /** The entries of `paths` under the templates `ts`, in text order. */
  ghost function InOrder(paths: Paths, ts: set<string>): seq<PathItem>
    requires ts <= paths.Keys
    decreases |ts|
  {
    if ts == {} then []
    else
      var t := LeastText(ts);
      [PathItem(t, paths[t])] + InOrder(paths, ts - {t})
  }

  /** The declared routes of a document, in the order the code pushes them. */
  ghost function DeclaredBy(document: seq<PathItem>): seq<Route> {
    Declared(InOrder(Parsed(document), Parsed(document).Keys))
  }

  method Parse(document: seq<PathItem>) returns (paths: Paths)
    ensures paths == Parsed(document)
  {
    paths := map[];
    for i := 0 to |document|
      invariant paths == Parsed(document[..i])
    {
      assert document[..i + 1][..i] == document[..i];
      paths := paths[document[i].template := document[i].keys];
    }
    assert document[..|document|] == document;
  }

  lemma NextInOrder(paths: Paths, ts: set<string>, t: string, items: seq<PathItem>)
    requires ts <= paths.Keys && t in ts && forall u :: u in ts && u != t ==> TextLess(t, u)
    ensures items + InOrder(paths, ts) == items + [PathItem(t, paths[t])] + InOrder(paths, ts - {t})
  {
    TextTrichotomy(t, LeastText(ts));
  }

  /** The map's iteration: ascending by template text. */
  method Iterate(paths: Paths) returns (items: seq<PathItem>)
    ensures items == InOrder(paths, paths.Keys)
  {
    items := [];
    var rest := paths.Keys;
    while rest != {}
      invariant rest <= paths.Keys && items + InOrder(paths, rest) == InOrder(paths, paths.Keys)
      decreases |rest|
    {
      HasLeast(rest);
      var t :| t in rest && forall u :: u in rest && u != t ==> TextLess(t, u);
      NextInOrder(paths, rest, t, items);
      items := items + [PathItem(t, paths[t])];
      rest := rest - {t};
    }
    assert items + InOrder(paths, rest) == items;
  }

  method FromSpecJson(document: seq<PathItem>) returns (routes: seq<Route>)
    ensures routes == Table(DeclaredBy(document))
  {
    var paths := Parse(document);
    var items := Iterate(paths);
    routes := FromSpec(items);
  }

  // ── the order of the document ─────────────────────────────────────────────────────────────────

  /** Entries under one template agree; JSON objects without repeated keys always do. */
  predicate Consistent(document: seq<PathItem>) {
    forall x, y :: x in document && y in document && x.template == y.template ==> x == y
  }

  lemma {:induction false} ParsedExact(document: seq<PathItem>)
    requires Consistent(document)
    ensures forall x :: x in document <==> x.template in Parsed(document) && Parsed(document)[x.template] == x.keys
    decreases |document|
  {
    if |document| > 0 {
      var n := |document| - 1;
      assert document == document[..n] + [document[n]];
      ParsedExact(document[..n]);
      forall x | x in document[..n]
        ensures x.template == document[n].template ==> x == document[n]
      {
      }
    }
  }

  lemma SameEntriesParseAlike(d1: seq<PathItem>, d2: seq<PathItem>)
    requires Consistent(d1) && forall x :: x in d1 <==> x in d2
    ensures Parsed(d1) == Parsed(d2)
  {
    ParsedExact(d1);
    ParsedExact(d2);
    var a, b := Parsed(d1), Parsed(d2);
    forall t | t in a
      ensures t in b && b[t] == a[t]
    {
      assert PathItem(t, a[t]) in d1;
    }
    forall t | t in b
      ensures t in a
    {
      assert PathItem(t, b[t]) in d2;
    }
  }

  function MovedLast(document: seq<PathItem>, k: nat): seq<PathItem>
    requires k < |document|
  {
    document[..k] + document[k + 1..] + [document[k]]
  }

  lemma MovedLastPermutes(document: seq<PathItem>, k: nat)
    requires k < |document|
    ensures multiset(MovedLast(document, k)) == multiset(document)
  {
    assert document == document[..k] + [document[k]] + document[k + 1..];
  }

  lemma {:induction false} ParsedHasTemplates(document: seq<PathItem>, x: PathItem)
    requires x in document
    ensures x.template in Parsed(document)
    decreases |document|
  {
    var n := |document| - 1;
    if x != document[n] {
      assert document == document[..n] + [document[n]];
      ParsedHasTemplates(document[..n], x);
    }
  }

  lemma PermutedParsesAlike(d1: seq<PathItem>, d2: seq<PathItem>)
    requires Consistent(d1) && multiset(d1) == multiset(d2)
    ensures Parsed(d1) == Parsed(d2)
  {
    assert forall x :: x in d1 <==> x in multiset(d1);
    assert forall x :: x in d2 <==> x in multiset(d2);
    SameEntriesParseAlike(d1, d2);
  }

  lemma LastEntryWins(document: seq<PathItem>, k: nat)
    requires k < |document|
    ensures document[k].template in Parsed(MovedLast(document, k))
    ensures Parsed(MovedLast(document, k))[document[k].template] == document[k].keys
  {
    var other := MovedLast(document, k);
    assert other[|other| - 1] == document[k];
  }

  lemma RepeatShows(document: seq<PathItem>, x: PathItem, y: PathItem) returns (other: seq<PathItem>)
    requires x in document && y in document && x.template == y.template && x != y
    ensures multiset(other) == multiset(document) && Parsed(other) != Parsed(document)
  {
    ParsedHasTemplates(document, x);
    var z := if Parsed(document)[x.template] == x.keys then y else x;
    var k :| 0 <= k < |document| && document[k] == z;
    other := MovedLast(document, k);
    MovedLastPermutes(document, k);
    LastEntryWins(document, k);
  }

  /** The order of a document never changes what is parsed exactly when no template is repeated with another entry. */
  lemma OrderParsesAlikeIff(document: seq<PathItem>)
    ensures (forall other :: multiset(other) == multiset(document) ==> Parsed(other) == Parsed(document))
            <==> Consistent(document)
  {
    if Consistent(document) {
      forall other | multiset(other) == multiset(document)
        ensures Parsed(other) == Parsed(document)
      {
        PermutedParsesAlike(document, other);
      }
    } else {
      var x, y :| x in document && y in document && x.template == y.template && x != y;
      var other := RepeatShows(document, x, y);
      assert Parsed(other) != Parsed(document);
    }
  }

  /** So the order in which a document without such repeats lists its paths never changes a classification. */
  lemma DocumentOrderIrrelevant(d1: seq<PathItem>, d2: seq<PathItem>, method_: string, path: string)
    requires Consistent(d1) && multiset(d1) == multiset(d2)
    ensures Classify(Table(DeclaredBy(d1)), method_, path) == Classify(Table(DeclaredBy(d2)), method_, path)
  {
    PermutedParsesAlike(d1, d2);
  }

  // ── which template settles a clash ────────────────────────────────────────────────────────────

  ghost predicate Ascending(items: seq<PathItem>) {
    forall i, j :: 0 <= i < j < |items| ==> TextLess(items[i].template, items[j].template)
  }

  lemma {:induction false} InOrderExact(paths: Paths, ts: set<string>)
    requires ts <= paths.Keys
    ensures Ascending(InOrder(paths, ts))
    ensures forall x :: x in InOrder(paths, ts) <==> x.template in ts && x.keys == paths[x.template]
    decreases |ts|
  {
    if ts != {} {
      var t := LeastText(ts);
      var rest := InOrder(paths, ts - {t});
      InOrderExact(paths, ts - {t});
      forall j | 0 <= j < |rest|
        ensures TextLess(t, rest[j].template)
      {
        assert rest[j] in rest;
      }
    }
  }

  /** The entries that declare a route, in order. */
  ghost function Sources(items: seq<PathItem>, routesOf: PathItem -> seq<Route>): seq<PathItem>
    decreases |items|
  {
    if |items| == 0 then []
    else
      var last := items[|items| - 1];
      Sources(items[..|items| - 1], routesOf) + if routesOf(last) == [] then [] else [last]
  }

  lemma {:induction false} SourcesMembers(items: seq<PathItem>, routesOf: PathItem -> seq<Route>)
    ensures forall x :: x in Sources(items, routesOf) <==> x in items && routesOf(x) != []
    decreases |items|
  {
    if |items| > 0 {
      var n := |items| - 1;
      SourcesMembers(items[..n], routesOf);
      assert items == items[..n] + [items[n]];
    }
  }

  lemma {:induction false} SourcesMatch(items: seq<PathItem>, routesOf: PathItem -> seq<Route>)
    requires forall x :: x in items ==> |routesOf(x)| <= 1
    ensures |Sources(items, routesOf)| == |Gathered(items, routesOf)|
    ensures forall i :: 0 <= i < |Sources(items, routesOf)| ==>
              routesOf(Sources(items, routesOf)[i]) == [Gathered(items, routesOf)[i]]
    decreases |items|
  {
    if |items| > 0 {
      var n := |items| - 1;
      assert items[n] in items;
      SourcesMatch(items[..n], routesOf);
    }
  }

  lemma {:induction false} SourcesAscend(items: seq<PathItem>, routesOf: PathItem -> seq<Route>)
    requires Ascending(items)
    ensures Ascending(Sources(items, routesOf))
    decreases |items|
  {
    if |items| > 0 {
      var n := |items| - 1;
      SourcesAscend(items[..n], routesOf);
      SourcesMembers(items[..n], routesOf);
      var front := Sources(items[..n], routesOf);
      forall i | 0 <= i < |front|
        ensures TextLess(front[i].template, items[n].template)
      {
        assert front[i] in front;
        LastIsGreatest(items, front[i]);
      }
    }
  }

  lemma LastIsGreatest(items: seq<PathItem>, x: PathItem)
    requires |items| > 0 && Ascending(items) && x in items[..|items| - 1]
    ensures TextLess(x.template, items[|items| - 1].template)
  {
    var n := |items| - 1;
    var k :| 0 <= k < |items[..n]| && items[..n][k] == x;
    assert items[k] == x;
  }

  /** Template `t` of the document declares route `r`. */
  predicate Declares(document: seq<PathItem>, t: string, r: Route) {
    t in Parsed(document) && ItemRoutes(PathItem(t, Parsed(document)[t])) == [r]
  }

  /** The declared routes and the templates they come from, side by side. */
  lemma DeclaredFrom(document: seq<PathItem>) returns (ts: seq<PathItem>)
    ensures |ts| == |DeclaredBy(document)| && Ascending(ts)
    ensures forall i :: 0 <= i < |ts| ==> Declares(document, ts[i].template, DeclaredBy(document)[i])
    ensures forall t, r :: Declares(document, t, r) ==> exists i :: 0 <= i < |ts| && ts[i].template == t
  {
    var paths := Parsed(document);
    var items := InOrder(paths, paths.Keys);
    InOrderExact(paths, paths.Keys);
    SourcesMembers(items, ItemRoutes);
    SourcesMatch(items, ItemRoutes);
    SourcesAscend(items, ItemRoutes);
    ts := Sources(items, ItemRoutes);
    forall i | 0 <= i < |ts|
      ensures Declares(document, ts[i].template, DeclaredBy(document)[i])
    {
      assert ts[i] in ts;
    }
    forall t, r | Declares(document, t, r)
      ensures exists i :: 0 <= i < |ts| && ts[i].template == t
    {
      assert PathItem(t, paths[t]) in ts;
    }
  }

  /**
    The answering route is the most specific match, and among templates that parse alike the one whose
    text comes first.
  */
  lemma ClashSettledByText(document: seq<PathItem>, req: seq<string>) returns (t: string)
    requires FirstMatch(Table(DeclaredBy(document)), req).Some?
    ensures var answer := FirstMatch(Table(DeclaredBy(document)), req).value;
            && Declares(document, t, answer)
            && (forall u, r :: Declares(document, u, r) && Matches(r.segments, req) ==>
                  AsSpecific(answer, r) && (r.segments == answer.segments ==> u == t || TextLess(t, u)))
  {
    var ts := DeclaredFrom(document);
    var routes := DeclaredBy(document);
    var i := TableAnswersMostSpecific(routes, req);
    t := ts[i].template;
    forall u, r | Declares(document, u, r) && Matches(r.segments, req)
      ensures AsSpecific(routes[i], r) && (r.segments == routes[i].segments ==> u == t || TextLess(t, u))
    {
      var j :| 0 <= j < |ts| && ts[j].template == u;
      assert routes[j] == r;
    }
  }

  // ── spelling ──────────────────────────────────────────────────────────────────────────────────

  // Any declared routes can be written down in any order of text: parameters are all called `x`, and
  // trailing slashes, which parsing drops, tell equal templates apart.

  function Slashes(n: nat): string { if n == 0 then [] else Slashes(n - 1) + ['/'] }

  function SegText(seg: Seg): string { if seg.Param? then "{x}" else seg.name }

  function SegTexts(segs: seq<Seg>): (r: seq<string>)
    ensures |r| == |segs| && forall i :: 0 <= i < |r| ==> r[i] == SegText(segs[i])
  {
    if |segs| == 0 then [] else [SegText(segs[0])] + SegTexts(segs[1..])
  }

  function Spell(segs: seq<Seg>, n: nat): string { Joined(SegTexts(segs)) + Slashes(n) }

  ghost predicate ProperNames(segs: seq<Seg>) {
    forall k :: 0 <= k < |segs| && segs[k].Static? ==> ProperName(segs[k].name)
  }

  lemma {:induction false} PiecesBeforeSlash(s: string)
    ensures Pieces(s + ['/']) == Pieces(s) + [[]]
    decreases |s|
  {
    if |s| == 0 {
      assert s + ['/'] == ['/'] && ['/'][1..] == [];
      assert Pieces([]) == [[]];
    } else {
      assert (s + ['/'])[1..] == s[1..] + ['/'];
      PiecesBeforeSlash(s[1..]);
    }
  }

  lemma {:induction false} NonEmptyDropsLast(ps: seq<string>)
    ensures NonEmpty(ps + [[]]) == NonEmpty(ps)
    decreases |ps|
  {
    if |ps| == 0 {
      assert ps + [[]] == [[]];
      assert NonEmpty([[]][1..]) == [];
    } else {
      assert (ps + [[]])[1..] == ps[1..] + [[]];
      NonEmptyDropsLast(ps[1..]);
    }
  }

  lemma {:induction false} TrailingSlashes(s: string, n: nat)
    requires NoMark(s)
    ensures NoMark(s + Slashes(n)) && SplitSegments(s + Slashes(n)) == SplitSegments(s)
    decreases n
  {
    if n == 0 {
      assert s + Slashes(n) == s;
    } else {
      var shorter := s + Slashes(n - 1);
      TrailingSlashes(s, n - 1);
      assert s + Slashes(n) == shorter + ['/'];
      CutHasNoMark(shorter);
      CutHasNoMark(shorter + ['/']);
      PiecesBeforeSlash(shorter);
      NonEmptyDropsLast(Pieces(shorter));
    }
  }

  lemma ParamText()
    ensures |"{x}"| == 3 && Plain("{x}") && ParseSegment("{x}") == Param
  {}

  lemma SegTextsParse(segs: seq<Seg>)
    requires ProperNames(segs)
    ensures Clean(SegTexts(segs)) && ParseSegments(SegTexts(segs)) == segs
  {
    ParamText();
  }

  lemma SpellParses(segs: seq<Seg>, n: nat)
    requires ProperNames(segs)
    ensures ParseSegments(SplitSegments(Spell(segs, n))) == segs
  {
    SegTextsParse(segs);
    PiecesOfJoined(SegTexts(segs));
    TrailingSlashes(Joined(SegTexts(segs)), n);
    SplitOfJoined(SegTexts(segs));
  }

  lemma {:induction false} SlashesLength(n: nat)
    ensures |Slashes(n)| == n
    decreases n
  {
    if n > 0 {
      SlashesLength(n - 1);
    }
  }

  lemma SpellIsExact(s1: seq<Seg>, n1: nat, s2: seq<Seg>, n2: nat)
    requires ProperNames(s1) && ProperNames(s2) && Spell(s1, n1) == Spell(s2, n2)
    ensures s1 == s2 && n1 == n2
  {
    SpellParses(s1, n1);
    SpellParses(s2, n2);
    SlashesLength(n1);
    SlashesLength(n2);
  }

  lemma {:induction false} PrefixIsLess(a: seq<int>, b: seq<int>)
    requires |b| > 0
    ensures LexLess(a, a + b)
    decreases |a|
  {
    if |a| > 0 {
      assert (a + b)[1..] == a[1..] + b;
      PrefixIsLess(a[1..], b);
    }
  }

  lemma SpellLess(segs: seq<Seg>, n: nat)
    requires n > 0
    ensures TextLess(Spell(segs, 0), Spell(segs, n))
  {
    var base := Joined(SegTexts(segs));
    SlashesLength(n);
    assert Spell(segs, 0) == base;
    assert Codes(Spell(segs, n)) == Codes(base) + Codes(Slashes(n));
    PrefixIsLess(Codes(base), Codes(Slashes(n)));
  }

  /** A document for the given routes in which route `j` has the first spelling of its template. */
  function Respelled(routes: seq<Route>, j: nat): (d: seq<PathItem>)
    ensures |d| == |routes|
    ensures forall k :: 0 <= k < |d| ==> d[k] == PathItem(Spell(routes[k].segments, Tag(k, j)), Some(routes[k].methods))
  {
    seq(|routes|, k requires 0 <= k < |routes| =>
        PathItem(Spell(routes[k].segments, Tag(k, j)), Some(routes[k].methods)))
  }

  function Tag(k: nat, j: nat): nat { if k == j then 0 else k + 1 }

  ghost predicate AllSpelled(routes: seq<Route>) { forall r :: r in routes ==> Spelled(r) }

  lemma RespelledItem(routes: seq<Route>, j: nat, k: nat)
    requires AllSpelled(routes) && k < |routes|
    ensures ItemRoutes(Respelled(routes, j)[k]) == [routes[k]]
  {
    var r := routes[k];
    assert r in routes;
    assert ProperNames(r.segments);
    SpellParses(r.segments, Tag(k, j));
    assert MethodsOf(r.methods) == r.methods;
  }

  lemma RespelledIsConsistent(routes: seq<Route>, j: nat)
    requires AllSpelled(routes)
    ensures Consistent(Respelled(routes, j))
  {
    var d := Respelled(routes, j);
    forall x, y | x in d && y in d && x.template == y.template
      ensures x == y
    {
      var k :| 0 <= k < |d| && d[k] == x;
      var l :| 0 <= l < |d| && d[l] == y;
      assert routes[k] in routes && routes[l] in routes;
      SpellIsExact(routes[k].segments, Tag(k, j), routes[l].segments, Tag(l, j));
    }
  }

  /** The respelled document declares route `k` under its spelling, and nothing else. */
  lemma RespelledDeclares(routes: seq<Route>, j: nat, t: string, r: Route) returns (k: nat)
    requires AllSpelled(routes) && Declares(Respelled(routes, j), t, r)
    ensures k < |routes| && routes[k] == r && t == Spell(routes[k].segments, Tag(k, j))
  {
    var d := Respelled(routes, j);
    RespelledIsConsistent(routes, j);
    ParsedExact(d);
    assert PathItem(t, Parsed(d)[t]) in d;
    k :| 0 <= k < |d| && d[k] == PathItem(t, Parsed(d)[t]);
    RespelledItem(routes, j, k);
  }

  lemma RespelledKeeps(routes: seq<Route>, j: nat, k: nat)
    requires AllSpelled(routes) && k < |routes|
    ensures Declares(Respelled(routes, j), Spell(routes[k].segments, Tag(k, j)), routes[k])
  {
    RespelledIsConsistent(routes, j);
    ParsedExact(Respelled(routes, j));
    assert Respelled(routes, j)[k] in Respelled(routes, j);
    RespelledItem(routes, j, k);
  }

  ghost predicate SameRoutes(a: seq<Route>, b: seq<Route>) { forall r :: r in a <==> r in b }

  lemma RespelledHasRoutes(routes: seq<Route>, j: nat)
    requires AllSpelled(routes)
    ensures SameRoutes(DeclaredBy(Respelled(routes, j)), routes)
  {
    var d := Respelled(routes, j);
    var ts := DeclaredFrom(d);
    forall r | r in DeclaredBy(d)
      ensures r in routes
    {
      var i :| 0 <= i < |DeclaredBy(d)| && DeclaredBy(d)[i] == r;
      var k := RespelledDeclares(routes, j, ts[i].template, r);
    }
    forall r | r in routes
      ensures r in DeclaredBy(d)
    {
      var k :| 0 <= k < |routes| && routes[k] == r;
      RespelledKeeps(routes, j, k);
      var i :| 0 <= i < |ts| && ts[i].template == Spell(routes[k].segments, Tag(k, j));
      assert Declares(d, ts[i].template, DeclaredBy(d)[i]);
    }
  }

  /** The first route with the segments of route `j` is route `j`. */
  lemma RespelledFirstTwin(routes: seq<Route>, j: nat, i: nat)
    requires AllSpelled(routes) && j < |routes|
    requires var declared := DeclaredBy(Respelled(routes, j));
             && i < |declared| && declared[i].segments == routes[j].segments
             && forall l :: 0 <= l < i ==> declared[l].segments != routes[j].segments
    ensures DeclaredBy(Respelled(routes, j))[i] == routes[j]
  {
    var d := Respelled(routes, j);
    var ts := DeclaredFrom(d);
    var k := RespelledDeclares(routes, j, ts[i].template, DeclaredBy(d)[i]);
    RespelledKeeps(routes, j, j);
    var q :| 0 <= q < |ts| && ts[q].template == Spell(routes[j].segments, Tag(j, j));
    assert Declares(d, ts[q].template, DeclaredBy(d)[q]);
    if k != j {
      SpellLess(routes[j].segments, Tag(k, j));
      TextTrichotomy(ts[q].template, ts[i].template);
      assert false;
    }
  }

  /** Two clashing templates make some answer depend on how the routes are spelled. */
  lemma ClashShows(document: seq<PathItem>) returns (other: seq<PathItem>, m: string, path: string)
    requires !Unambiguous(DeclaredBy(document))
    ensures SameRoutes(DeclaredBy(other), DeclaredBy(document))
    ensures Classify(Table(DeclaredBy(other)), m, path) != Classify(Table(DeclaredBy(document)), m, path)
  {
    var routes := DeclaredBy(document);
    DeclaredAreSpelled(InOrder(Parsed(document), Parsed(document).Keys));
    var i, j := ClashingPair(routes);
    m := MethodsDiffer(routes[i].methods, routes[j].methods);
    other := Respelled(routes, j);
    RespelledHasRoutes(routes, j);
    path := Joined(Fill(routes[i].segments, Filler(Longest(routes))));
    RespelledVerdict(routes, i, j, m, Filler(Longest(routes)));
  }

  lemma ClashingPair(routes: seq<Route>) returns (i: nat, j: nat)
    requires !Unambiguous(routes)
    ensures i < |routes| && j < |routes| && routes[i].segments == routes[j].segments
            && routes[i].methods != routes[j].methods
    ensures forall l :: 0 <= l < i ==> routes[l].segments != routes[i].segments
  {
    var a, b :| a in routes && b in routes && a.segments == b.segments && a.methods != b.methods;
    var ka :| 0 <= ka < |routes| && routes[ka] == a;
    var kb :| 0 <= kb < |routes| && routes[kb] == b;
    i := FirstTwin(routes, a.segments, ka);
    j := if routes[i].methods == a.methods then kb else ka;
  }

  lemma RespelledVerdict(routes: seq<Route>, i: nat, j: nat, m: string, w: string)
    requires AllSpelled(routes) && i < |routes| && j < |routes| && routes[i].segments == routes[j].segments
    requires forall l :: 0 <= l < i ==> routes[l].segments != routes[i].segments
    requires (m in routes[i].methods) != (m in routes[j].methods) && w == Filler(Longest(routes))
    ensures var path := Joined(Fill(routes[i].segments, w));
            Classify(Table(DeclaredBy(Respelled(routes, j))), m, path) != Classify(Table(routes), m, path)
  {
    FillerIsFresh(routes, w);
    assert routes[i] in routes;
    FilledVerdict(routes, i, w, m);
    RespelledAnswer(routes, j, m, w);
  }

  lemma RespelledAnswer(routes: seq<Route>, j: nat, m: string, w: string)
    requires AllSpelled(routes) && j < |routes| && Lower(m) == m && |w| > 0 && Plain(w)
    requires forall r :: r in routes ==> NamesNot(r.segments, w)
    ensures Classify(Table(DeclaredBy(Respelled(routes, j))), m, Joined(Fill(routes[j].segments, w)))
            == if m in routes[j].methods then Documented else Shadow
  {
    var other := DeclaredBy(Respelled(routes, j));
    RespelledHasRoutes(routes, j);
    assert routes[j] in routes;
    var q :| 0 <= q < |other| && other[q] == routes[j];
    var first := FirstTwin(other, routes[j].segments, q);
    RespelledFirstTwin(routes, j, first);
    FilledVerdict(other, first, w, m);
  }

  /**
    The declared routes alone decide every classification, however the document spells and orders them,
    exactly when no two templates parse alike with different methods.
  */
  lemma SpellingIrrelevantIff(document: seq<PathItem>)
    ensures (forall other, m, path :: SameRoutes(DeclaredBy(other), DeclaredBy(document)) ==>
               Classify(Table(DeclaredBy(other)), m, path) == Classify(Table(DeclaredBy(document)), m, path))
            <==> Unambiguous(DeclaredBy(document))
  {
    if Unambiguous(DeclaredBy(document)) {
      forall other, m, path | SameRoutes(DeclaredBy(other), DeclaredBy(document))
        ensures Classify(Table(DeclaredBy(other)), m, path) == Classify(Table(DeclaredBy(document)), m, path)
      {
        RoutesDecide(DeclaredBy(document), DeclaredBy(other), m, path);
      }
    } else {
      var other, m, path := ClashShows(document);
    }
  }

  // ── a clash ───────────────────────────────────────────────────────────────────────────────────

  const BY_X: string := "/a/{x}"
  const BY_Y: string := "/a/{y}"
  const ITEM_SEGS: seq<Seg> := [Static("a"), Param]

  function GetItem(): PathItem { PathItem(BY_X, Some({"get"})) }
  function PutItem(): PathItem { PathItem(BY_Y, Some({"put"})) }
  function ClashingDocument(): seq<PathItem> { [PutItem(), GetItem()] }

  lemma SplitTwo(a: string, b: string, path: string)
    requires |a| > 0 && |b| > 0 && Plain(a) && Plain(b) && path == "/" + a + "/" + b
    ensures SplitSegments(path) == [a, b]
  {
    var segs := [a, b];
    assert Joined(segs[1..]) == ['/'] + b by {
      assert segs[1..] == [b] && Joined([b][1..]) == [];
    }
    assert Joined(segs) == path;
    SplitOfJoined(segs);
  }

  lemma ItemDeclares(a: string, b: string, template: string, m: string)
    requires |a| > 0 && |b| > 0 && Plain(a) && Plain(b) && template == "/" + a + "/" + b && IsHttpMethod(m)
    ensures ItemRoutes(PathItem(template, Some({m}))) == [Route([ParseSegment(a), ParseSegment(b)], {m})]
  {
    SplitTwo(a, b, template);
    assert ParseSegments([a, b]) == [ParseSegment(a), ParseSegment(b)];
    assert m in MethodsOf({m}) && MethodsOf({m}) == {m};
  }

  lemma TwoEntries(x: PathItem, y: PathItem, a: Route, b: Route)
    requires x.template != y.template && ItemRoutes(x) == [a] && ItemRoutes(y) == [b]
    ensures Declares([y, x], x.template, a) && Declares([y, x], y.template, b)
    ensures forall t, r :: Declares([y, x], t, r) ==> t == x.template || t == y.template
  {
    var d := [y, x];
    ParsedExact(d);
    assert d[0] in d && d[1] in d;
    forall t, r | Declares(d, t, r)
      ensures t == x.template || t == y.template
    {
      assert PathItem(t, Parsed(d)[t]) in d;
    }
  }

  lemma GetItemDeclares()
    ensures ItemRoutes(GetItem()) == [Route(ITEM_SEGS, {"get"})]
  {
    assert BY_X == "/" + "a" + "/" + "{x}";
    ItemDeclares("a", "{x}", BY_X, "get");
  }

  lemma PutItemDeclares()
    ensures ItemRoutes(PutItem()) == [Route(ITEM_SEGS, {"put"})]
  {
    assert BY_Y == "/" + "a" + "/" + "{y}";
    ItemDeclares("a", "{y}", BY_Y, "put");
  }

  lemma ClashingDeclares()
    ensures Declares(ClashingDocument(), BY_X, Route(ITEM_SEGS, {"get"}))
    ensures Declares(ClashingDocument(), BY_Y, Route(ITEM_SEGS, {"put"}))
    ensures forall t, r :: Declares(ClashingDocument(), t, r) ==> t == BY_X || t == BY_Y
  {
    var x, y := GetItem(), PutItem();
    assert x.template != y.template by {
      assert x.template[4] == 'x' && y.template[4] == 'y';
    }
    GetItemDeclares();
    PutItemDeclares();
    TwoEntries(x, y, Route(ITEM_SEGS, {"get"}), Route(ITEM_SEGS, {"put"}));
  }

  lemma TwinsClash(d: seq<PathItem>, t: string, u: string, a: Route, b: Route)
    requires Declares(d, t, a) && Declares(d, u, b) && a.segments == b.segments && a.methods != b.methods
    ensures !Unambiguous(DeclaredBy(d))
  {
    var ts := DeclaredFrom(d);
    var k :| 0 <= k < |ts| && ts[k].template == t;
    var l :| 0 <= l < |ts| && ts[l].template == u;
    assert Declares(d, t, DeclaredBy(d)[k]) && Declares(d, u, DeclaredBy(d)[l]);
    assert a in DeclaredBy(d) && b in DeclaredBy(d);
  }

  lemma XBeforeY()
    ensures TextLess(BY_X, BY_Y)
  {
    var p, x, y := Codes("/a/{"), Codes("x}"), Codes("y}");
    assert Codes(BY_X) == p + x && Codes(BY_Y) == p + y;
    PrefixKeepsLess(p, x, y);
  }

  lemma {:induction false} PrefixKeepsLess(p: seq<int>, x: seq<int>, y: seq<int>)
    requires LexLess(x, y)
    ensures LexLess(p + x, p + y)
    decreases |p|
  {
    if |p| == 0 {
      assert p + x == x && p + y == y;
    } else {
      assert (p + x)[1..] == p[1..] + x && (p + y)[1..] == p[1..] + y;
      PrefixKeepsLess(p[1..], x, y);
    }
  }

  lemma ClashAnswer(req: seq<string>)
    requires Matches(ITEM_SEGS, req)
    ensures FirstMatch(Table(DeclaredBy(ClashingDocument())), req) == Some(Route(ITEM_SEGS, {"get"}))
  {
    var d := ClashingDocument();
    ClashingDeclares();
    var ts := DeclaredFrom(d);
    var k :| 0 <= k < |ts| && ts[k].template == BY_X;
    assert Declares(d, BY_X, DeclaredBy(d)[k]);
    var i := TableAnswersMostSpecific(DeclaredBy(d), req);
    var t := ClashSettledByText(d, req);
    XBeforeY();
    TextTrichotomy(BY_X, BY_Y);
    assert t != BY_Y;
  }

  /**
    Templates that differ only in a parameter name clash. The one whose text comes first answers for
    both, so the operation declared by the other is reported as undeclared.
  */
  lemma ParameterNamesClash()
    ensures !Unambiguous(DeclaredBy(ClashingDocument()))
    ensures Classify(Table(DeclaredBy(ClashingDocument())), "GET", "/a/1") == Documented
    ensures Classify(Table(DeclaredBy(ClashingDocument())), "PUT", "/a/1") == Shadow
  {
    ClashingDeclares();
    assert "get" in {"get"} && "get" !in {"put"};
    TwinsClash(ClashingDocument(), BY_X, BY_Y, Route(ITEM_SEGS, {"get"}), Route(ITEM_SEGS, {"put"}));
    ClashVerdicts(DeclaredBy(ClashingDocument()));
  }

  lemma ClashVerdicts(declared: seq<Route>)
    requires declared == DeclaredBy(ClashingDocument())
    ensures Classify(Table(declared), "GET", "/a/1") == Documented && Classify(Table(declared), "PUT", "/a/1") == Shadow
  {
    SplitItemPath();
    ClashAnswer(["a", "1"]);
    LowerLiterals();
    assert "put" !in {"get"};
  }

  lemma SplitItemPath()
    ensures SplitSegments("/a/1") == ["a", "1"] && Matches(ITEM_SEGS, ["a", "1"])
  {
    assert "/a/1" == "/" + "a" + "/" + "1";
    SplitTwo("a", "1", "/a/1");
  }

  lemma LowerLiterals()
    ensures Lower("GET") == "get" && Lower("PUT") == "put"
  {
    assert "GET"[1..] == "ET" && "ET"[1..] == "T" && "T"[1..] == "";
    assert Lower("T") == "t" && Lower("ET") == "et";
    assert "PUT"[1..] == "UT" && "UT"[1..] == "T";
    assert Lower("UT") == "ut";
  }
}
