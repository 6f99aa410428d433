/**
  The attack-surface inventory (build_inventory in inventory.rs): observed rows are folded into one
  entry per method and path template, then listed most-hit first. Timestamps are integers.
*/
module Inventory {
  import opened Prelude
  import opened StableSort
  import opened Routes

  datatype ObservedPath = ObservedPath(verb: string, path: string, hits: int, firstSeen: int, lastSeen: int)
  datatype EndpointEntry = EndpointEntry(
    verb: string, path: string, classification: Classification, hits: int, firstSeen: int, lastSeen: int)

  /** (method, template) */
  type Key = (string, string)

  function KeyOf(o: ObservedPath): Key { (o.verb, Template(o.path)) }
  function EntryKey(e: EndpointEntry): Key { (e.verb, e.path) }

  function ClassOf(o: ObservedPath, routes: Option<seq<Route>>): Classification {
    if routes.Some? then Classify(routes.value, o.verb, o.path) else Unclassified
  }

  function Merge(a: Classification, b: Classification): Classification {
    if a == Documented || b == Documented then Documented
    else if a == Shadow || b == Shadow then Shadow
    else Unclassified
  }

  // ── orders ────────────────────────────────────────────────────────────────────────────────────

  /** The map's key order. */
  predicate KeyLess(a: Key, b: Key) { TextLess(a.0, b.0) || (a.0 == b.0 && TextLess(a.1, b.1)) }

  lemma KeyTrichotomy(a: Key, b: Key)
    ensures KeyLess(a, b) || a == b || KeyLess(b, a)
    ensures !(KeyLess(a, b) && KeyLess(b, a)) && !KeyLess(a, a)
  {
    TextTrichotomy(a.0, b.0);
    TextTrichotomy(a.1, b.1);
  }

  lemma KeyTransitive(a: Key, b: Key, c: Key)
    requires KeyLess(a, b) && KeyLess(b, c)
    ensures KeyLess(a, c)
  {
    if TextLess(a.0, b.0) && TextLess(b.0, c.0) {
      TextTransitive(a.0, b.0, c.0);
    } else if a.0 == b.0 == c.0 {
      TextTransitive(a.1, b.1, c.1);
    }
  }

  predicate EntryKeyLess(a: EndpointEntry, b: EndpointEntry) { KeyLess(EntryKey(a), EntryKey(b)) }

  /** The comparator of the final sort: most hits first, then the path. */
  predicate AtLeastAsHit(a: EndpointEntry, b: EndpointEntry) {
    a.hits > b.hits || (a.hits == b.hits && !TextLess(b.path, a.path))
  }

  /** The order the list ends up in: most hits first, then path, then method. */
  predicate RanksBefore(a: EndpointEntry, b: EndpointEntry) {
    a.hits > b.hits || (a.hits == b.hits
        && (TextLess(a.path, b.path) || (a.path == b.path && TextLess(a.verb, b.verb))))
  }

  lemma AtLeastAsHitIsTotal()
    ensures TotalPreorder(AtLeastAsHit)
  {
    forall a: EndpointEntry, b: EndpointEntry
      ensures AtLeastAsHit(a, b) || AtLeastAsHit(b, a)
    {
      TextTrichotomy(a.path, b.path);
    }
    forall a: EndpointEntry, b: EndpointEntry, c: EndpointEntry | AtLeastAsHit(a, b) && AtLeastAsHit(b, c)
      ensures AtLeastAsHit(a, c)
    {
      if a.hits == b.hits == c.hits {
        LexLeqTransitive(Codes(a.path), Codes(b.path), Codes(c.path));
      }
    }
  }

  lemma StableTiesRank(a: EndpointEntry, b: EndpointEntry)
    requires AtLeastAsHit(a, b) && (AtLeastAsHit(b, a) ==> EntryKeyLess(a, b))
    ensures RanksBefore(a, b)
  {
    TextTrichotomy(a.path, b.path);
  }

  // ── what an inventory is ──────────────────────────────────────────────────────────────────────

  function SumBy(rows: seq<ObservedPath>, weight: ObservedPath -> int): int
    decreases |rows|
  {
    if |rows| == 0 then 0 else SumBy(rows[..|rows| - 1], weight) + weight(rows[|rows| - 1])
  }

  function HitsFor(k: Key): ObservedPath -> int { (r: ObservedPath) => if KeyOf(r) == k then r.hits else 0 }

  function HitsOf(rows: seq<ObservedPath>, k: Key): int { SumBy(rows, HitsFor(k)) }

  predicate Has(rows: seq<ObservedPath>, k: Key) { exists r :: r in rows && KeyOf(r) == k }

  /** Some row of the endpoint has class `c`. */
  predicate HasClass(rows: seq<ObservedPath>, routes: Option<seq<Route>>, k: Key, c: Classification) {
    exists r :: r in rows && KeyOf(r) == k && ClassOf(r, routes) == c
  }

  predicate Joins(rows: seq<ObservedPath>, routes: Option<seq<Route>>, k: Key, c: Classification) {
    c == if HasClass(rows, routes, k, Documented) then Documented
         else if HasClass(rows, routes, k, Shadow) then Shadow
         else Unclassified
  }

  predicate Earliest(rows: seq<ObservedPath>, k: Key, t: int) {
    && (exists r :: r in rows && KeyOf(r) == k && r.firstSeen == t)
    && forall r :: r in rows && KeyOf(r) == k ==> t <= r.firstSeen
  }

  predicate Latest(rows: seq<ObservedPath>, k: Key, t: int) {
    && (exists r :: r in rows && KeyOf(r) == k && r.lastSeen == t)
    && forall r :: r in rows && KeyOf(r) == k ==> r.lastSeen <= t
  }

  /** `e` sums up exactly the rows of endpoint `k`. */
  predicate Summary(rows: seq<ObservedPath>, routes: Option<seq<Route>>, k: Key, e: EndpointEntry) {
    && EntryKey(e) == k
    && e.hits == HitsOf(rows, k)
    && Joins(rows, routes, k, e.classification)
    && Earliest(rows, k, e.firstSeen)
    && Latest(rows, k, e.lastSeen)
  }

  /** Some entry of the list is for endpoint `k`. */
  predicate Lists(out: seq<EndpointEntry>, k: Key) {
    |out| > 0 && (EntryKey(out[0]) == k || Lists(out[1..], k))
  }

  lemma {:induction false} ListsEntry(out: seq<EndpointEntry>, k: Key) returns (e: EndpointEntry)
    requires Lists(out, k)
    ensures e in out && EntryKey(e) == k
    decreases |out|
  {
    if EntryKey(out[0]) == k {
      e := out[0];
    } else {
      e := ListsEntry(out[1..], k);
    }
  }

  lemma {:induction false} EntryIsListed(out: seq<EndpointEntry>, e: EndpointEntry)
    requires e in out
    ensures Lists(out, EntryKey(e))
    decreases |out|
  {
    if e != out[0] {
      EntryIsListed(out[1..], e);
    }
  }

  ghost predicate Ranked(out: seq<EndpointEntry>) {
    forall i, j :: 0 <= i < j < |out| ==> RanksBefore(out[i], out[j])
  }

  ghost predicate IsInventory(rows: seq<ObservedPath>, routes: Option<seq<Route>>, out: seq<EndpointEntry>) {
    && Ranked(out)
    && (forall e :: e in out ==> Summary(rows, routes, EntryKey(e), e))
    && (forall r :: r in rows ==> Lists(out, KeyOf(r)))
  }

  // ── building it ───────────────────────────────────────────────────────────────────────────────

  type Folded = map<Key, EndpointEntry>

  predicate FoldedExactly(rows: seq<ObservedPath>, routes: Option<seq<Route>>, m: Folded) {
    && (forall k :: k in m ==> Summary(rows, routes, k, m[k]))
    && (forall r :: r in rows ==> KeyOf(r) in m)
  }

  function Fresh(o: ObservedPath, template: string, c: Classification): EndpointEntry {
    EndpointEntry(o.verb, template, c, 0, o.firstSeen, o.lastSeen)
  }

  function Absorb(e: EndpointEntry, o: ObservedPath, c: Classification): EndpointEntry {
    e.(hits := e.hits + o.hits,
       classification := Merge(e.classification, c),
       firstSeen := if o.firstSeen < e.firstSeen then o.firstSeen else e.firstSeen,
       lastSeen := if o.lastSeen > e.lastSeen then o.lastSeen else e.lastSeen)
  }

  lemma {:induction false} NoRowsNoHits(rows: seq<ObservedPath>, k: Key)
    requires !Has(rows, k)
    ensures HitsOf(rows, k) == 0
    decreases |rows|
  {
    if |rows| > 0 {
      assert rows[|rows| - 1] in rows;
      NoRowsNoHits(rows[..|rows| - 1], k);
    }
  }

  lemma HitsStep(rows: seq<ObservedPath>, o: ObservedPath, k: Key)
    ensures HitsOf(rows + [o], k) == HitsOf(rows, k) + if KeyOf(o) == k then o.hits else 0
  {
    assert (rows + [o])[..|rows|] == rows;
  }

  lemma JoinsStep(rows: seq<ObservedPath>, routes: Option<seq<Route>>, o: ObservedPath, k: Key, c: Classification)
    requires KeyOf(o) == k
    ensures Joins(rows, routes, k, c) ==> Joins(rows + [o], routes, k, Merge(c, ClassOf(o, routes)))
    ensures !Has(rows, k) ==> Joins(rows + [o], routes, k, ClassOf(o, routes))
  {
    var more := rows + [o];
    assert o in more && forall r :: r in more <==> r in rows || r == o;
    forall d | HasClass(rows, routes, k, d)
      ensures HasClass(more, routes, k, d)
    {
      var r :| r in rows && KeyOf(r) == k && ClassOf(r, routes) == d;
      assert r in more;
    }
  }

  lemma EarliestStep(rows: seq<ObservedPath>, o: ObservedPath, k: Key, t: int)
    requires KeyOf(o) == k
    ensures Earliest(rows, k, t) ==> Earliest(rows + [o], k, if o.firstSeen < t then o.firstSeen else t)
    ensures !Has(rows, k) ==> Earliest(rows + [o], k, o.firstSeen)
  {
    var more := rows + [o];
    assert o in more && forall r :: r in more <==> r in rows || r == o;
  }

  lemma LatestStep(rows: seq<ObservedPath>, o: ObservedPath, k: Key, t: int)
    requires KeyOf(o) == k
    ensures Latest(rows, k, t) ==> Latest(rows + [o], k, if o.lastSeen > t then o.lastSeen else t)
    ensures !Has(rows, k) ==> Latest(rows + [o], k, o.lastSeen)
  {
    var more := rows + [o];
    assert o in more && forall r :: r in more <==> r in rows || r == o;
  }

  lemma AbsorbSummary(rows: seq<ObservedPath>, routes: Option<seq<Route>>, o: ObservedPath, e: EndpointEntry)
    requires Summary(rows, routes, KeyOf(o), e)
    ensures Summary(rows + [o], routes, KeyOf(o), Absorb(e, o, ClassOf(o, routes)))
  {
    HitsStep(rows, o, KeyOf(o));
    JoinsStep(rows, routes, o, KeyOf(o), e.classification);
    EarliestStep(rows, o, KeyOf(o), e.firstSeen);
    LatestStep(rows, o, KeyOf(o), e.lastSeen);
  }

  lemma FreshSummary(rows: seq<ObservedPath>, routes: Option<seq<Route>>, o: ObservedPath)
    requires !Has(rows, KeyOf(o))
    ensures var c := ClassOf(o, routes);
            Summary(rows + [o], routes, KeyOf(o), Absorb(Fresh(o, Template(o.path), c), o, c))
  {
    HitsStep(rows, o, KeyOf(o));
    NoRowsNoHits(rows, KeyOf(o));
    JoinsStep(rows, routes, o, KeyOf(o), Unclassified);
    EarliestStep(rows, o, KeyOf(o), 0);
    LatestStep(rows, o, KeyOf(o), 0);
  }

  lemma OtherSummary(rows: seq<ObservedPath>, routes: Option<seq<Route>>, o: ObservedPath, k: Key, e: EndpointEntry)
    requires Summary(rows, routes, k, e) && KeyOf(o) != k
    ensures Summary(rows + [o], routes, k, e)
  {
    var more := rows + [o];
    HitsStep(rows, o, k);
    assert forall r :: r in more <==> r in rows || r == o;
    forall d
      ensures HasClass(more, routes, k, d) <==> HasClass(rows, routes, k, d)
    {
      if HasClass(rows, routes, k, d) {
        var r :| r in rows && KeyOf(r) == k && ClassOf(r, routes) == d;
        assert r in more;
      }
    }
  }

  lemma PutSummary(rows: seq<ObservedPath>, routes: Option<seq<Route>>, o: ObservedPath, m: Folded, e: EndpointEntry)
    requires FoldedExactly(rows, routes, m) && Summary(rows + [o], routes, KeyOf(o), e)
    ensures FoldedExactly(rows + [o], routes, m[KeyOf(o) := e])
  {
    var put := m[KeyOf(o) := e];
    forall k | k in put
      ensures Summary(rows + [o], routes, k, put[k])
    {
      if k != KeyOf(o) {
        OtherSummary(rows, routes, o, k, m[k]);
      }
    }
    forall r | r in rows + [o]
      ensures KeyOf(r) in put
    {
    }
  }

  lemma NotFolded(rows: seq<ObservedPath>, routes: Option<seq<Route>>, m: Folded, k: Key)
    requires FoldedExactly(rows, routes, m) && k !in m
    ensures !Has(rows, k)
  {
  }

  /** Where one loop step takes the map. */
  function PutAs(m: Folded, o: ObservedPath, template: string, c: Classification): Folded {
    var k := (o.verb, template);
    m[k := Absorb(if k in m then m[k] else Fresh(o, template, c), o, c)]
  }

  function Put(m: Folded, routes: Option<seq<Route>>, o: ObservedPath): Folded {
    PutAs(m, o, Template(o.path), ClassOf(o, routes))
  }

  lemma FoldStep(rows: seq<ObservedPath>, routes: Option<seq<Route>>, o: ObservedPath, m: Folded)
    requires FoldedExactly(rows, routes, m)
    ensures FoldedExactly(rows + [o], routes, Put(m, routes, o))
  {
    var k, c := KeyOf(o), ClassOf(o, routes);
    if k in m {
      AbsorbSummary(rows, routes, o, m[k]);
      PutSummary(rows, routes, o, m, Absorb(m[k], o, c));
    } else {
      NotFolded(rows, routes, m, k);
      FreshSummary(rows, routes, o);
      PutSummary(rows, routes, o, m, Absorb(Fresh(o, Template(o.path), c), o, c));
    }
  }

  method FoldRow(m: Folded, o: ObservedPath, template: string, c: Classification) returns (r: Folded)
    ensures r == PutAs(m, o, template, c)
  {
    var key := (o.verb, template);
    r := m;
    if key !in r {
      r := r[key := EndpointEntry(o.verb, template, c, 0, o.firstSeen, o.lastSeen)];
    }
    var e := r[key];
    e := e.(hits := e.hits + o.hits, classification := Merge(e.classification, c));
    if o.firstSeen < e.firstSeen {
      e := e.(firstSeen := o.firstSeen);
    }
    if o.lastSeen > e.lastSeen {
      e := e.(lastSeen := o.lastSeen);
    }
    r := r[key := e];
  }

  function Folding(rows: seq<ObservedPath>, routes: Option<seq<Route>>): Folded
    decreases |rows|
  {
    if |rows| == 0 then map[] else Put(Folding(rows[..|rows| - 1], routes), routes, rows[|rows| - 1])
  }

  lemma {:induction false} FoldingIsExact(rows: seq<ObservedPath>, routes: Option<seq<Route>>)
    ensures FoldedExactly(rows, routes, Folding(rows, routes))
    decreases |rows|
  {
    if |rows| > 0 {
      var front, last := rows[..|rows| - 1], rows[|rows| - 1];
      assert rows == front + [last];
      assert FoldedExactly(front + [last], routes, Put(Folding(front, routes), routes, last)) by {
        FoldingIsExact(front, routes);
        FoldStep(front, routes, last, Folding(front, routes));
      }
    }
  }

  method Fold(observed: seq<ObservedPath>, routes: Option<seq<Route>>) returns (m: Folded)
    ensures m == Folding(observed, routes)
  {
    m := map[];
    for i := 0 to |observed|
      invariant m == Folding(observed[..i], routes)
    {
      assert observed[..i + 1][..i] == observed[..i];
      var template := Templatize(observed[i].path);
      m := FoldRow(m, observed[i], template, ClassOf(observed[i], routes));
    }
    assert observed[..|observed|] == observed;
  }

  // ── listing it ────────────────────────────────────────────────────────────────────────────────

  lemma LeastKey(keys: set<Key>) returns (k: Key)
    requires keys != {}
    ensures k in keys && forall j :: j in keys && j != k ==> KeyLess(k, j)
    decreases |keys|
  {
    k :| k in keys;
    var rest := keys - {k};
    assert forall j :: j in keys ==> j == k || j in rest;
    if rest != {} {
      var l := LeastKey(rest);
      KeyTrichotomy(k, l);
      if KeyLess(l, k) {
        k := l;
      } else {
        forall j | j in keys && j != k
          ensures KeyLess(k, j)
        {
          if j != l {
            KeyTransitive(k, l, j);
          }
        }
      }
    }
  }

  /** The values of the map in ascending key order. */
  method IntoValues(m: Folded) returns (values: seq<EndpointEntry>)
    requires forall k :: k in m ==> EntryKey(m[k]) == k
    ensures Pairwise(values, EntryKeyLess)
    ensures forall e :: e in values <==> EntryKey(e) in m && m[EntryKey(e)] == e
  {
    values := [];
    var rest := m.Keys;
    while rest != {}
      invariant rest <= m.Keys
      invariant Pairwise(values, EntryKeyLess)
      invariant forall e :: e in values <==> EntryKey(e) in m && EntryKey(e) !in rest && m[EntryKey(e)] == e
      invariant forall e, k :: e in values && k in rest ==> KeyLess(EntryKey(e), k)
      decreases |rest|
    {
      ghost var least := LeastKey(rest);
      var k :| k in rest && forall j :: j in rest && j != k ==> KeyLess(k, j);
      values := values + [m[k]];
      rest := rest - {k};
    }
  }

  lemma SortedIsRanked(values: seq<EndpointEntry>)
    requires Pairwise(values, EntryKeyLess)
    ensures Ranked(Sort(values, AtLeastAsHit))
  {
    AtLeastAsHitIsTotal();
    SortIsStable(values, AtLeastAsHit, EntryKeyLess);
    var out := Sort(values, AtLeastAsHit);
    forall i, j | 0 <= i < j < |out|
      ensures RanksBefore(out[i], out[j])
    {
      StableTiesRank(out[i], out[j]);
    }
  }

  lemma SortKeepsMembers(values: seq<EndpointEntry>)
    ensures forall e :: e in Sort(values, AtLeastAsHit) <==> e in values
  {
    SortPermutes(values, AtLeastAsHit);
    assert forall e :: e in Sort(values, AtLeastAsHit) <==> e in multiset(Sort(values, AtLeastAsHit));
    assert forall e :: e in values <==> e in multiset(values);
  }

  method BuildInventory(observed: seq<ObservedPath>, routes: Option<seq<Route>>) returns (out: seq<EndpointEntry>)
    ensures IsInventory(observed, routes, out)
  {
    var m := Fold(observed, routes);
    FoldingIsExact(observed, routes);
    var values := IntoValues(m);
    SortedIsRanked(values);
    SortKeepsMembers(values);
    out := Sort(values, AtLeastAsHit);
    forall r | r in observed
      ensures Lists(out, KeyOf(r))
    {
      EntryIsListed(out, m[KeyOf(r)]);
    }
  }

  // ── what follows ──────────────────────────────────────────────────────────────────────────────

  lemma RankIsAsymmetric(a: EndpointEntry, b: EndpointEntry)
    requires RanksBefore(a, b)
    ensures !RanksBefore(b, a) && a != b
  {
    TextTrichotomy(a.path, b.path);
    TextTrichotomy(a.verb, b.verb);
  }

  lemma BothEmptyOrNot(a: seq<EndpointEntry>, b: seq<EndpointEntry>)
    requires forall e :: e in a <==> e in b
    ensures |a| == 0 <==> |b| == 0
  {
    if |a| > 0 {
      assert a[0] in b;
    }
    if |b| > 0 {
      assert b[0] in a;
    }
  }

  lemma {:induction false} RankedIsUnique(a: seq<EndpointEntry>, b: seq<EndpointEntry>)
    requires Ranked(a) && Ranked(b) && forall e :: e in a <==> e in b
    ensures a == b
    decreases |a|
  {
    BothEmptyOrNot(a, b);
    if |a| > 0 {
      assert a[0] in b && b[0] in a;
      var i :| 0 <= i < |a| && a[i] == b[0];
      var j :| 0 <= j < |b| && b[j] == a[0];
      if i > 0 && j > 0 {
        RankIsAsymmetric(a[0], b[0]);
      }
      TailMembers(a, b);
      RankedIsUnique(a[1..], b[1..]);
      assert a == [a[0]] + a[1..] && b == [b[0]] + b[1..];
    }
  }

  lemma TailMembers(a: seq<EndpointEntry>, b: seq<EndpointEntry>)
    requires Ranked(a) && Ranked(b) && |a| > 0 && |b| > 0 && a[0] == b[0]
    requires forall e :: e in a <==> e in b
    ensures forall e :: e in a[1..] <==> e in b[1..]
  {
    HeadNotInTail(a);
    HeadNotInTail(b);
    assert forall e :: e in a <==> e == a[0] || e in a[1..];
    assert forall e :: e in b <==> e == b[0] || e in b[1..];
  }

  lemma HeadNotInTail(a: seq<EndpointEntry>)
    requires Ranked(a) && |a| > 0
    ensures a[0] !in a[1..]
  {
    if a[0] in a[1..] {
      var i :| 0 <= i < |a[1..]| && a[1..][i] == a[0];
      RankIsAsymmetric(a[0], a[i + 1]);
    }
  }

  lemma RestOfFront(rows: seq<ObservedPath>, i: nat, rest: seq<ObservedPath>)
    requires i < |rows| - 1 && rest == rows[..i] + rows[i + 1..]
    ensures var n := |rows| - 1;
            |rest| == n && rest[..n - 1] == rows[..n][..i] + rows[..n][i + 1..] && rest[n - 1] == rows[n]
  {}

  lemma {:induction false} SumWithout(
    rows: seq<ObservedPath>, i: nat, rest: seq<ObservedPath>, weight: ObservedPath -> int)
    requires i < |rows| && rest == rows[..i] + rows[i + 1..]
    ensures SumBy(rows, weight) == SumBy(rest, weight) + weight(rows[i])
    decreases |rows|
  {
    var n := |rows| - 1;
    if i == n {
      assert rest == rows[..n];
    } else {
      RestOfFront(rows, i, rest);
      SumWithout(rows[..n], i, rest[..n - 1], weight);
    }
  }

  lemma MultisetWithout(s: seq<ObservedPath>, i: nat)
    requires i < |s|
    ensures multiset(s[..i] + s[i + 1..]) == multiset(s) - multiset{s[i]}
  {
    assert s == s[..i] + [s[i]] + s[i + 1..];
    assert multiset(s) == multiset(s[..i]) + multiset{s[i]} + multiset(s[i + 1..]);
  }

  lemma SameAfterRemoval(a: seq<ObservedPath>, b: seq<ObservedPath>, i: nat)
    requires multiset(a) == multiset(b) && |a| > 0 && i < |b| && b[i] == a[|a| - 1]
    ensures multiset(a[..|a| - 1]) == multiset(b[..i] + b[i + 1..])
  {
    var n := |a| - 1;
    MultisetWithout(a, n);
    assert a[..n] + a[n + 1..] == a[..n];
    MultisetWithout(b, i);
  }

  lemma SameMembers(a: seq<ObservedPath>, b: seq<ObservedPath>)
    requires multiset(a) == multiset(b)
    ensures forall r :: r in a <==> r in b
  {
    assert forall r :: r in a <==> r in multiset(a);
    assert forall r :: r in b <==> r in multiset(b);
  }

  lemma {:induction false} SumIgnoresOrder(a: seq<ObservedPath>, b: seq<ObservedPath>, weight: ObservedPath -> int)
    requires multiset(a) == multiset(b)
    ensures SumBy(a, weight) == SumBy(b, weight)
    decreases |a|
  {
    if |a| == 0 {
      assert |multiset(b)| == 0;
    } else {
      SameMembers(a, b);
      assert a[|a| - 1] in b;
      var i :| 0 <= i < |b| && b[i] == a[|a| - 1];
      SameAfterRemoval(a, b, i);
      SumIgnoresOrder(a[..|a| - 1], b[..i] + b[i + 1..], weight);
      SumWithout(b, i, b[..i] + b[i + 1..], weight);
    }
  }

  lemma JoinsIgnoresOrder(
    a: seq<ObservedPath>, b: seq<ObservedPath>, routes: Option<seq<Route>>, k: Key, c: Classification,
    d: Classification)
    requires (forall r :: r in a <==> r in b) && Joins(a, routes, k, c) && Joins(b, routes, k, d)
    ensures c == d
  {
    assert HasClass(a, routes, k, Documented) <==> HasClass(b, routes, k, Documented);
    assert HasClass(a, routes, k, Shadow) <==> HasClass(b, routes, k, Shadow);
  }

  lemma TimesIgnoreOrder(a: seq<ObservedPath>, b: seq<ObservedPath>, k: Key, s: int, t: int)
    requires forall r :: r in a <==> r in b
    ensures Earliest(a, k, s) && Earliest(b, k, t) ==> s == t
    ensures Latest(a, k, s) && Latest(b, k, t) ==> s == t
  {
  }

  lemma SummaryIgnoresOrder(
    a: seq<ObservedPath>, b: seq<ObservedPath>, routes: Option<seq<Route>>, k: Key, d: EndpointEntry, e: EndpointEntry)
    requires multiset(a) == multiset(b) && Summary(a, routes, k, d) && Summary(b, routes, k, e)
    ensures d == e
  {
    SumIgnoresOrder(a, b, HitsFor(k));
    SameMembers(a, b);
    JoinsIgnoresOrder(a, b, routes, k, d.classification, e.classification);
    TimesIgnoreOrder(a, b, k, d.firstSeen, e.firstSeen);
    TimesIgnoreOrder(a, b, k, d.lastSeen, e.lastSeen);
  }

  lemma SummaryHasRow(
    rows: seq<ObservedPath>, routes: Option<seq<Route>>, k: Key, e: EndpointEntry) returns (r: ObservedPath)
    requires Summary(rows, routes, k, e)
    ensures r in rows && KeyOf(r) == k
  {
    r :| r in rows && KeyOf(r) == k && r.firstSeen == e.firstSeen;
  }

  lemma SameEntry(
    a: seq<ObservedPath>, b: seq<ObservedPath>, routes: Option<seq<Route>>, e: EndpointEntry, y: seq<EndpointEntry>)
    requires multiset(a) == multiset(b) && Summary(a, routes, EntryKey(e), e) && IsInventory(b, routes, y)
    ensures e in y
  {
    var r := SummaryHasRow(a, routes, EntryKey(e), e);
    SameMembers(a, b);
    var d := ListsEntry(y, KeyOf(r));
    SummaryIgnoresOrder(a, b, routes, EntryKey(e), e, d);
  }

  lemma SameEntries(
    a: seq<ObservedPath>, b: seq<ObservedPath>, routes: Option<seq<Route>>, x: seq<EndpointEntry>,
    y: seq<EndpointEntry>)
    requires multiset(a) == multiset(b) && IsInventory(a, routes, x) && IsInventory(b, routes, y)
    ensures forall e :: e in x ==> e in y
  {
    forall e | e in x
      ensures e in y
    {
      SameEntry(a, b, routes, e, y);
    }
  }

  /** The list does not depend on the order of the rows. */
  lemma InventoryIgnoresOrder(
    a: seq<ObservedPath>, b: seq<ObservedPath>, routes: Option<seq<Route>>, x: seq<EndpointEntry>,
    y: seq<EndpointEntry>)
    requires multiset(a) == multiset(b) && IsInventory(a, routes, x) && IsInventory(b, routes, y)
    ensures x == y
  {
    SameEntries(a, b, routes, x, y);
    SameEntries(b, a, routes, y, x);
    RankedIsUnique(x, y);
  }

  ghost predicate DistinctKeys(out: seq<EndpointEntry>) {
    forall i, j :: 0 <= i < j < |out| ==> EntryKey(out[i]) != EntryKey(out[j])
  }

  lemma RanksApart(rows: seq<ObservedPath>, routes: Option<seq<Route>>, d: EndpointEntry, e: EndpointEntry)
    requires Summary(rows, routes, EntryKey(d), d) && Summary(rows, routes, EntryKey(e), e) && RanksBefore(d, e)
    ensures EntryKey(d) != EntryKey(e)
  {
    RankIsAsymmetric(d, e);
    if EntryKey(d) == EntryKey(e) {
      SummaryIgnoresOrder(rows, rows, routes, EntryKey(d), d, e);
    }
  }

  lemma OneEntryPerEndpoint(rows: seq<ObservedPath>, routes: Option<seq<Route>>, out: seq<EndpointEntry>)
    requires IsInventory(rows, routes, out)
    ensures DistinctKeys(out)
  {
    forall i, j | 0 <= i < j < |out|
      ensures EntryKey(out[i]) != EntryKey(out[j])
    {
      assert out[i] in out && out[j] in out;
      RanksApart(rows, routes, out[i], out[j]);
    }
  }

  function TotalObserved(rows: seq<ObservedPath>): int { SumBy(rows, (r: ObservedPath) => r.hits) }

  function TotalListed(out: seq<EndpointEntry>): int {
    if |out| == 0 then 0 else out[0].hits + TotalListed(out[1..])
  }

  function TotalByKey(rows: seq<ObservedPath>, out: seq<EndpointEntry>): int
    decreases |out|
  {
    if |out| == 0 then 0 else HitsOf(rows, EntryKey(out[0])) + TotalByKey(rows, out[1..])
  }

  /** One more row raises exactly one of the listed sums. */
  lemma {:induction false} TotalByKeyStep(rows: seq<ObservedPath>, o: ObservedPath, out: seq<EndpointEntry>)
    requires DistinctKeys(out)
    ensures TotalByKey(rows + [o], out)
            == TotalByKey(rows, out) + if Lists(out, KeyOf(o)) then o.hits else 0
    decreases |out|
  {
    if |out| > 0 {
      TotalByKeyStep(rows, o, out[1..]);
      HitsStep(rows, o, EntryKey(out[0]));
      if Lists(out[1..], KeyOf(o)) {
        var e := ListsEntry(out[1..], KeyOf(o));
      }
    }
  }

  lemma {:induction false} TotalByKeyIsTotal(rows: seq<ObservedPath>, out: seq<EndpointEntry>)
    requires DistinctKeys(out) && forall r :: r in rows ==> Lists(out, KeyOf(r))
    ensures TotalByKey(rows, out) == TotalObserved(rows)
    decreases |rows|
  {
    if |rows| == 0 {
      TotalByKeyOfNone(out);
    } else {
      var front, last := rows[..|rows| - 1], rows[|rows| - 1];
      assert rows == front + [last] && last in rows;
      TotalByKeyStep(front, last, out);
      TotalByKeyIsTotal(front, out);
    }
  }

  lemma {:induction false} TotalByKeyOfNone(out: seq<EndpointEntry>)
    ensures TotalByKey([], out) == 0
    decreases |out|
  {
    if |out| > 0 {
      TotalByKeyOfNone(out[1..]);
    }
  }

  lemma {:induction false} ListedIsByKey(rows: seq<ObservedPath>, out: seq<EndpointEntry>)
    requires forall e :: e in out ==> e.hits == HitsOf(rows, EntryKey(e))
    ensures TotalListed(out) == TotalByKey(rows, out)
    decreases |out|
  {
    if |out| > 0 {
      ListedIsByKey(rows, out[1..]);
    }
  }

  /** No hit is lost or counted twice. */
  lemma HitsConserved(rows: seq<ObservedPath>, routes: Option<seq<Route>>, out: seq<EndpointEntry>)
    requires IsInventory(rows, routes, out)
    ensures TotalListed(out) == TotalObserved(rows)
  {
    OneEntryPerEndpoint(rows, routes, out);
    ListedIsByKey(rows, out);
    TotalByKeyIsTotal(rows, out);
  }
}
