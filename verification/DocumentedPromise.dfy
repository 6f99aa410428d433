/**
  When an endpoint is reported as documented (inventory.rs). The promise is that it is exactly when some
  declared operation matches it; the code asks only the most specific matching template.
*/
module DocumentedPromise {
  import opened Prelude
  import opened StableSort
  import opened Routes
  import opened SpecDocument

  /** Some declared operation matches the request. */
  ghost predicate OperationMatches(d: seq<Route>, m: string, path: string) {
    exists r :: r in d && Matches(r.segments, SplitSegments(path)) && Lower(m) in r.methods
  }

  /** Some declared operation matches it under a template that no other matching template is more specific than. */
  ghost predicate OperationMatchesBest(d: seq<Route>, m: string, path: string) {
    exists r :: r in d && Matches(r.segments, SplitSegments(path)) && Lower(m) in r.methods
        && Best(d, r, SplitSegments(path))
  }

  ghost predicate Best(d: seq<Route>, r: Route, req: seq<string>) {
    forall x :: x in d && Matches(x.segments, req) ==> AsSpecific(r, x)
  }

  /** What is reported as documented is declared. */
  lemma DocumentedIsDeclared(d: seq<Route>, m: string, path: string)
    requires Classify(Table(d), m, path) == Documented
    ensures OperationMatches(d, m, path) && OperationMatchesBest(d, m, path)
  {
    var req := SplitSegments(path);
    var i := TableAnswersMostSpecific(d, req);
    assert d[i] in d;
    forall x | x in d && Matches(x.segments, req)
      ensures AsSpecific(d[i], x)
    {
      var k :| 0 <= k < |d| && d[k] == x;
    }
  }

  // ── templates that share paths ────────────────────────────────────────────────────────────────

  /** Two templates match a common path. */
  predicate Overlap(a: seq<Seg>, b: seq<Seg>) {
    |a| == |b| && forall k :: 0 <= k < |a| ==> a[k].Param? || b[k].Param? || a[k] == b[k]
  }

  /** The template of the paths two overlapping templates share. */
  function Meet(a: seq<Seg>, b: seq<Seg>): (s: seq<Seg>)
    requires |a| == |b|
    ensures |s| == |a| && forall k :: 0 <= k < |s| ==> s[k] == if a[k].Param? then b[k] else a[k]
  {
    if |a| == 0 then [] else [if a[0].Param? then b[0] else a[0]] + Meet(a[1..], b[1..])
  }

  /** Template `a` matches every path of template `s`. */
  predicate Covers(a: seq<Seg>, s: seq<Seg>) {
    |a| == |s| && forall k :: 0 <= k < |a| ==> a[k].Param? || a[k] == s[k]
  }

  /** Route `i` answers for template `s`: the first of the most specific ones that cover it. */
  predicate AnswersFor(d: seq<Route>, s: seq<Seg>, i: nat) {
    && i < |d| && Covers(d[i].segments, s)
    && forall l :: 0 <= l < |d| && Covers(d[l].segments, s) ==>
         && AsSpecific(d[i], d[l])
         && (l < i ==> Specificity(d[l].segments) != Specificity(d[i].segments))
  }

  /** Wherever two templates overlap and one answers for what they share, it declares the other's methods too. */
  predicate Settled(d: seq<Route>) {
    forall i: nat, j: nat :: i < |d| && j < |d| && Overlap(d[i].segments, d[j].segments)
                             && AnswersFor(d, Meet(d[i].segments, d[j].segments), i) ==>
                               d[j].methods <= d[i].methods
  }

  lemma MatchesOverlap(a: seq<Seg>, b: seq<Seg>, req: seq<string>)
    requires Matches(a, req) && Matches(b, req)
    ensures Overlap(a, b)
  {
    forall k | 0 <= k < |a|
      ensures a[k].Param? || b[k].Param? || a[k] == b[k]
    {
      assert SegMatches(a[k], req[k]) && SegMatches(b[k], req[k]);
    }
  }

  lemma MeetIsCovered(a: seq<Seg>, b: seq<Seg>)
    requires Overlap(a, b)
    ensures Covers(a, Meet(a, b)) && Covers(b, Meet(a, b))
  {}

  /** What covers the common template of two matches is a match. */
  lemma CoversMeetMatches(a: seq<Seg>, b: seq<Seg>, x: seq<Seg>, req: seq<string>)
    requires Matches(a, req) && Matches(b, req) && Covers(x, Meet(a, b)) && forall k :: 0 <= k < |req| ==> |req[k]| > 0
    ensures Matches(x, req)
  {
    forall k | 0 <= k < |x|
      ensures SegMatches(x[k], req[k])
    {
      assert SegMatches(a[k], req[k]) && SegMatches(b[k], req[k]);
    }
  }

  /** The answer to a request also answers for what its template shares with any other match. */
  lemma AnswerAnswersForMeet(d: seq<Route>, req: seq<string>, i: nat, j: nat)
    requires MostSpecific(d, req, i) && j < |d| && Matches(d[j].segments, req)
    requires forall k :: 0 <= k < |req| ==> |req[k]| > 0
    ensures Overlap(d[i].segments, d[j].segments) && AnswersFor(d, Meet(d[i].segments, d[j].segments), i)
  {
    var a, b := d[i].segments, d[j].segments;
    MatchesOverlap(a, b, req);
    MeetIsCovered(a, b);
    forall l | 0 <= l < |d| && Covers(d[l].segments, Meet(a, b))
      ensures AsSpecific(d[i], d[l])
      ensures l < i ==> Specificity(d[l].segments) != Specificity(a)
    {
      CoversMeetMatches(a, b, d[l].segments, req);
    }
  }

  lemma SettledKeepsPromise(d: seq<Route>, m: string, path: string)
    ensures Settled(d) && OperationMatches(d, m, path) ==> Classify(Table(d), m, path) == Documented
  {
    if Settled(d) && OperationMatches(d, m, path) {
      var req := SplitSegments(path);
      SegmentsAreClean(path);
      var r :| r in d && Matches(r.segments, req) && Lower(m) in r.methods;
      var j :| 0 <= j < |d| && d[j] == r;
      var i := TableAnswersMostSpecific(d, req);
      AnswerAnswersForMeet(d, req, i, j);
    }
  }

  // ── a request that shows an unsettled pair ────────────────────────────────────────────────────

  /** A fresh filler is matched by parameters only. */
  lemma FilledIffCovers(x: seq<Seg>, s: seq<Seg>, w: string)
    requires NamesNot(x, w) && |w| > 0 && forall k :: 0 <= k < |s| && s[k].Static? ==> |s[k].name| > 0
    ensures Matches(x, Fill(s, w)) <==> Covers(x, s)
  {
    var req := Fill(s, w);
    if Matches(x, req) {
      forall k | 0 <= k < |x|
        ensures x[k].Param? || x[k] == s[k]
      {
        assert SegMatches(x[k], req[k]);
      }
    }
  }

  lemma AnswersForFilled(d: seq<Route>, s: seq<Seg>, i: nat, w: string)
    requires AnswersFor(d, s, i) && |w| > 0 && forall r :: r in d ==> NamesNot(r.segments, w)
    requires forall k :: 0 <= k < |s| && s[k].Static? ==> |s[k].name| > 0
    ensures MostSpecific(d, Fill(s, w), i)
  {
    forall l | 0 <= l < |d|
      ensures Matches(d[l].segments, Fill(s, w)) <==> Covers(d[l].segments, s)
    {
      assert d[l] in d;
      FilledIffCovers(d[l].segments, s, w);
    }
  }

  lemma MeetIsSpelled(a: Route, b: Route)
    requires Spelled(a) && Spelled(b) && |a.segments| == |b.segments|
    ensures Spelled(Route(Meet(a.segments, b.segments), a.methods))
  {}

  /** An operation declared under `j` that the answering route `i` lacks is reported as shadow. */
  lemma UnsettledShows(d: seq<Route>, i: nat, j: nat, m: string) returns (path: string)
    requires AllSpelled(d) && i < |d| && j < |d| && Overlap(d[i].segments, d[j].segments)
    requires AnswersFor(d, Meet(d[i].segments, d[j].segments), i)
    requires m in d[j].methods && m !in d[i].methods
    ensures OperationMatches(d, m, path) && Classify(Table(d), m, path) == Shadow
  {
    var s, w := Meet(d[i].segments, d[j].segments), Filler(Longest(d));
    assert d[i] in d && d[j] in d;
    FillerIsFresh(d, w);
    MeetIsSpelled(d[i], d[j]);
    path := Joined(Fill(s, w));
    FilledPathParts(s, d[i].methods, w);
    AnswersForFilled(d, s, i, w);
    MeetIsCovered(d[i].segments, d[j].segments);
    FilledIffCovers(d[j].segments, s, w);
    AnswerIs(d, Fill(s, w), i);
  }

  lemma FilledPathParts(s: seq<Seg>, methods: set<string>, w: string)
    requires Spelled(Route(s, methods)) && |w| > 0 && Plain(w)
    ensures SplitSegments(Joined(Fill(s, w))) == Fill(s, w)
    ensures forall k :: 0 <= k < |s| && s[k].Static? ==> |s[k].name| > 0
  {
    FilledIsClean(s, methods, w);
    SplitOfJoined(Fill(s, w));
  }

  lemma AnswerIs(d: seq<Route>, req: seq<string>, i: nat)
    requires MostSpecific(d, req, i)
    ensures FirstMatch(Table(d), req) == Some(d[i])
  {
    var k := TableAnswersMostSpecific(d, req);
    if FirstMatch(Table(d), req).Some? {
      MostSpecificIsUnique(d, req, i, k);
    }
  }

  ghost predicate KeepsPromise(d: seq<Route>, m: string, path: string) {
    Classify(Table(d), m, path) == Documented <==> OperationMatches(d, m, path)
  }

  /**
    Documented means declared, for every method and path, exactly when every overlap of two templates
    is settled: the one that answers for the shared paths declares the methods of the other.
  */
  lemma DocumentedIffDeclaredIff(document: seq<PathItem>)
    ensures (forall m, path :: KeepsPromise(DeclaredBy(document), m, path)) <==> Settled(DeclaredBy(document))
  {
    var d := DeclaredBy(document);
    DeclaredAreSpelled(InOrder(Parsed(document), Parsed(document).Keys));
    if Settled(d) {
      forall m, path
        ensures KeepsPromise(d, m, path)
      {
        if Classify(Table(d), m, path) == Documented {
          DocumentedIsDeclared(d, m, path);
        }
        if OperationMatches(d, m, path) {
          SettledKeepsPromise(d, m, path);
        }
      }
    } else {
      var i: nat, j: nat :| i < |d| && j < |d| && Overlap(d[i].segments, d[j].segments)
                            && AnswersFor(d, Meet(d[i].segments, d[j].segments), i)
                            && !(d[j].methods <= d[i].methods);
      var m :| m in d[j].methods && m !in d[i].methods;
      var path := UnsettledShows(d, i, j, m);
      assert !KeepsPromise(d, m, path);
    }
  }

  // ── the reading where only the most specific template counts ──────────────────────────────────

  /** Among templates that parse alike, the first declares the methods of all. */
  predicate FirstDeclaresAll(d: seq<Route>) {
    forall i: nat, j: nat :: i < |d| && j < |d| && d[i].segments == d[j].segments
                             && (forall l :: 0 <= l < i ==> d[l].segments != d[i].segments) ==>
                               d[j].methods <= d[i].methods
  }

  ghost predicate KeepsBestPromise(d: seq<Route>, m: string, path: string) {
    Classify(Table(d), m, path) == Documented <==> OperationMatchesBest(d, m, path)
  }

  lemma FirstDeclaresKeepsPromise(d: seq<Route>, m: string, path: string)
    ensures FirstDeclaresAll(d) && OperationMatchesBest(d, m, path) ==> Classify(Table(d), m, path) == Documented
  {
    if FirstDeclaresAll(d) && OperationMatchesBest(d, m, path) {
      var req := SplitSegments(path);
      var r :| r in d && Matches(r.segments, req) && Lower(m) in r.methods && Best(d, r, req);
      var j :| 0 <= j < |d| && d[j] == r;
      var i := TableAnswersMostSpecific(d, req);
      assert d[i] in d && AsSpecific(r, d[i]) && AsSpecific(d[i], r);
      LexTrichotomy(Specificity(d[i].segments), Specificity(r.segments));
      TwinRoutes(d[i].segments, r.segments, req);
    }
  }

  /** An operation that only a later one of equal templates declares is reported as shadow. */
  lemma LaterTwinShows(d: seq<Route>, i: nat, j: nat, m: string) returns (path: string)
    requires AllSpelled(d) && i < |d| && j < |d| && d[i].segments == d[j].segments
    requires forall l :: 0 <= l < i ==> d[l].segments != d[i].segments
    requires m in d[j].methods && m !in d[i].methods
    ensures OperationMatchesBest(d, m, path) && Classify(Table(d), m, path) == Shadow
  {
    var s, w := d[i].segments, Filler(Longest(d));
    assert d[i] in d && d[j] in d;
    FillerIsFresh(d, w);
    path := Joined(Fill(s, w));
    FilledPathParts(s, d[i].methods, w);
    FilledIsAnsweredBy(d, i, w);
    AnswerIs(d, Fill(s, w), i);
    forall x | x in d && Matches(x.segments, Fill(s, w))
      ensures AsSpecific(d[j], x)
    {
      var k :| 0 <= k < |d| && d[k] == x;
      assert AsSpecific(d[i], d[k]);
    }
  }

  /**
    If only the most specific matching templates count, documented means declared exactly when, among
    templates that parse alike, the one whose text comes first declares the methods of all.
  */
  lemma DocumentedIffDeclaredBestIff(document: seq<PathItem>)
    ensures (forall m, path :: KeepsBestPromise(DeclaredBy(document), m, path))
            <==> FirstDeclaresAll(DeclaredBy(document))
  {
    var d := DeclaredBy(document);
    DeclaredAreSpelled(InOrder(Parsed(document), Parsed(document).Keys));
    if FirstDeclaresAll(d) {
      forall m, path
        ensures KeepsBestPromise(d, m, path)
      {
        if Classify(Table(d), m, path) == Documented {
          DocumentedIsDeclared(d, m, path);
        }
        if OperationMatchesBest(d, m, path) {
          FirstDeclaresKeepsPromise(d, m, path);
        }
      }
    } else {
      var i: nat, j: nat :| i < |d| && j < |d| && d[i].segments == d[j].segments
                            && (forall l :: 0 <= l < i ==> d[l].segments != d[i].segments)
                            && !(d[j].methods <= d[i].methods);
      var m :| m in d[j].methods && m !in d[i].methods;
      var path := LaterTwinShows(d, i, j, m);
      assert !KeepsBestPromise(d, m, path);
    }
  }

  // ── a declared operation reported as shadow without any clash ─────────────────────────────────

  const ME_SEGS: seq<Seg> := [Static("u"), Static("me")]
  const ID_SEGS: seq<Seg> := [Static("u"), Param]

  const ME_PATH: string := "/u/me"
  const ID_PATH: string := "/u/{id}"
  const DELETE: string := "delete"

  function MeItem(): PathItem { PathItem(ME_PATH, Some({"get"})) }
  function IdItem(): PathItem { PathItem(ID_PATH, Some({DELETE})) }
  function UserDocument(): seq<PathItem> { [IdItem(), MeItem()] }

  lemma MeItemDeclares()
    ensures ItemRoutes(MeItem()) == [Route(ME_SEGS, {"get"})] && SplitSegments(ME_PATH) == ["u", "me"]
  {
    assert ME_PATH == "/" + "u" + "/" + "me";
    SplitTwo("u", "me", ME_PATH);
    ItemDeclares("u", "me", ME_PATH, "get");
  }

  lemma IdItemDeclares()
    ensures ItemRoutes(IdItem()) == [Route(ID_SEGS, {DELETE})]
  {
    assert ID_PATH == "/" + "u" + "/" + "{id}";
    ItemDeclares("u", "{id}", ID_PATH, DELETE);
  }

  lemma UserRoutes(me: Route, id: Route)
    requires me == Route(ME_SEGS, {"get"}) && id == Route(ID_SEGS, {DELETE})
    ensures forall r :: r in DeclaredBy(UserDocument()) <==> r == me || r == id
  {
    var d := UserDocument();
    MeItemDeclares();
    IdItemDeclares();
    assert |MeItem().template| != |IdItem().template|;
    TwoEntries(MeItem(), IdItem(), me, id);
    DeclaredExactly(d, MeItem().template, IdItem().template, me, id);
  }

  lemma DeclaredExactly(d: seq<PathItem>, t: string, u: string, a: Route, b: Route)
    requires Declares(d, t, a) && Declares(d, u, b) && forall x, r :: Declares(d, x, r) ==> x == t || x == u
    ensures forall r :: r in DeclaredBy(d) <==> r == a || r == b
  {
    var ts := DeclaredFrom(d);
    var k :| 0 <= k < |ts| && ts[k].template == t;
    var l :| 0 <= l < |ts| && ts[l].template == u;
    assert Declares(d, t, DeclaredBy(d)[k]) && Declares(d, u, DeclaredBy(d)[l]);
    forall r | r in DeclaredBy(d)
      ensures r == a || r == b
    {
      var i :| 0 <= i < |ts| && DeclaredBy(d)[i] == r;
      assert Declares(d, ts[i].template, r);
    }
  }

  lemma MeIsMoreSpecific(me: Route, id: Route)
    requires me.segments == ME_SEGS && id.segments == ID_SEGS
    ensures !AsSpecific(id, me)
  {
    var a, b := Specificity(ME_SEGS), Specificity(ID_SEGS);
    assert a == [0, 0] && b == [0, 1];
    assert LexLess(a[1..], b[1..]) by {
      assert a[1..] == [0] && b[1..] == [1];
    }
  }

  lemma MeAnswers(d: seq<Route>, me: Route, id: Route)
    requires me == Route(ME_SEGS, {"get"}) && id == Route(ID_SEGS, {DELETE})
    requires forall r :: r in d <==> r == me || r == id
    ensures FirstMatch(Table(d), ["u", "me"]) == Some(me)
  {
    var req := ["u", "me"];
    assert Matches(ME_SEGS, req) && Matches(ID_SEGS, req);
    var i := TableAnswersMostSpecific(d, req);
    assert me in d;
    var k :| 0 <= k < |d| && d[k] == me;
    MeIsMoreSpecific(me, id);
    assert d[i] in d;
  }

  /**
    `/u/{id}` declares DELETE and the more specific `/u/me` does not. No templates clash, and the declared
    operation is still reported as shadow on `/u/me`.
  */
  lemma SpecificTemplateHidesOperation()
    ensures Unambiguous(DeclaredBy(UserDocument())) && OperationMatches(DeclaredBy(UserDocument()), DELETE, ME_PATH)
    ensures Classify(Table(DeclaredBy(UserDocument())), DELETE, ME_PATH) == Shadow
  {
    var d, me, id := DeclaredBy(UserDocument()), Route(ME_SEGS, {"get"}), Route(ID_SEGS, {DELETE});
    UserRoutes(me, id);
    UserRoutesApart(d, me, id);
    UserVerdict(d, me, id);
  }

  lemma UserRoutesApart(d: seq<Route>, me: Route, id: Route)
    requires me.segments == ME_SEGS && id.segments == ID_SEGS && forall r :: r in d <==> r == me || r == id
    ensures Unambiguous(d)
  {
    assert ME_SEGS[1] != ID_SEGS[1];
  }

  lemma UserVerdict(d: seq<Route>, me: Route, id: Route)
    requires me == Route(ME_SEGS, {"get"}) && id == Route(ID_SEGS, {DELETE})
    requires forall r :: r in d <==> r == me || r == id
    ensures OperationMatches(d, DELETE, ME_PATH) && Classify(Table(d), DELETE, ME_PATH) == Shadow
  {
    MeItemDeclares();
    MethodsAreLower(DELETE);
    MeAnswers(d, me, id);
    assert Matches(ID_SEGS, ["u", "me"]) && id in d && DELETE in id.methods;
    assert DELETE !in {"get"};
  }
}
