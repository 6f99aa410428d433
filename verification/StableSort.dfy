/** Lexicographic order and a stable sort, as the standard library supplies them. */
module StableSort {

  /** Lexicographic order; a proper prefix comes first. */
  predicate LexLess(a: seq<int>, b: seq<int>) {
    |b| > 0 && (|a| == 0 || a[0] < b[0] || (a[0] == b[0] && LexLess(a[1..], b[1..])))
  }

  lemma {:induction false} LexTrichotomy(a: seq<int>, b: seq<int>)
    ensures LexLess(a, b) || a == b || LexLess(b, a)
    ensures !(LexLess(a, b) && LexLess(b, a)) && !LexLess(a, a)
    decreases |a|
  {
    if |a| > 0 {
      LexTrichotomy(a[1..], a[1..]);
      if |b| > 0 {
        LexTrichotomy(a[1..], b[1..]);
        if a[0] == b[0] && a[1..] == b[1..] {
          assert a == [a[0]] + a[1..] && b == [b[0]] + b[1..];
        }
      }
    }
  }

  lemma {:induction false} LexTransitive(a: seq<int>, b: seq<int>, c: seq<int>)
    requires LexLess(a, b) && LexLess(b, c)
    ensures LexLess(a, c)
    decreases |a|
  {
    if |a| > 0 && a[0] == b[0] && b[0] == c[0] {
      LexTransitive(a[1..], b[1..], c[1..]);
    }
  }

  predicate LexLeq(a: seq<int>, b: seq<int>) { !LexLess(b, a) }

  lemma LexLeqTransitive(a: seq<int>, b: seq<int>, c: seq<int>)
    requires LexLeq(a, b) && LexLeq(b, c)
    ensures LexLeq(a, c)
  {
    LexTrichotomy(a, b);
    LexTrichotomy(b, c);
    LexTrichotomy(a, c);
    if LexLess(a, b) && LexLess(b, c) {
      LexTransitive(a, b, c);
    }
  }

  // ── text ──────────────────────────────────────────────────────────────────────────────────────

  function Codes(s: string): (r: seq<int>)
    ensures |r| == |s| && forall i :: 0 <= i < |r| ==> r[i] == s[i] as int
  {
    seq(|s|, i requires 0 <= i < |s| => s[i] as int)
  }

  lemma CodesAreExact(a: string, b: string)
    requires Codes(a) == Codes(b)
    ensures a == b
  {
    forall i | 0 <= i < |a|
      ensures a[i] == b[i]
    {
      assert Codes(a)[i] == Codes(b)[i];
    }
  }

  /** `str` order: by code point, a proper prefix first. */
  predicate TextLess(a: string, b: string) { LexLess(Codes(a), Codes(b)) }

  lemma TextTrichotomy(a: string, b: string)
    ensures TextLess(a, b) || a == b || TextLess(b, a)
    ensures !(TextLess(a, b) && TextLess(b, a)) && !TextLess(a, a)
  {
    LexTrichotomy(Codes(a), Codes(b));
    if Codes(a) == Codes(b) {
      CodesAreExact(a, b);
    }
  }

  lemma TextTransitive(a: string, b: string, c: string)
    requires TextLess(a, b) && TextLess(b, c)
    ensures TextLess(a, c)
  {
    LexTransitive(Codes(a), Codes(b), Codes(c));
  }

  // ── sorting ───────────────────────────────────────────────────────────────────────────────────

  ghost predicate TotalPreorder<T(!new)>(le: (T, T) -> bool) {
    && (forall a, b :: le(a, b) || le(b, a))
    && (forall a, b, c :: le(a, b) && le(b, c) ==> le(a, c))
  }

  /** Sorted by `le`, and elements that `le` cannot tell apart are in `tie` order. */
  ghost predicate OrderedBy<T(!new)>(ys: seq<T>, le: (T, T) -> bool, tie: (T, T) -> bool) {
    forall i, j :: 0 <= i < j < |ys| ==> le(ys[i], ys[j]) && (le(ys[j], ys[i]) ==> tie(ys[i], ys[j]))
  }

  ghost predicate Pairwise<T(!new)>(xs: seq<T>, rel: (T, T) -> bool) {
    forall i, j :: 0 <= i < j < |xs| ==> rel(xs[i], xs[j])
  }

  /** `x` goes after everything not greater than it. */
  function Insert<T>(ys: seq<T>, x: T, le: (T, T) -> bool): seq<T>
    decreases |ys|
  {
    var n := |ys| - 1;
    if n < 0 || le(ys[n], x) then ys + [x] else Insert(ys[..n], x, le) + [ys[n]]
  }

  function Sort<T>(xs: seq<T>, le: (T, T) -> bool): seq<T>
    decreases |xs|
  {
    if |xs| == 0 then [] else Insert(Sort(xs[..|xs| - 1], le), xs[|xs| - 1], le)
  }

  lemma MultisetSnoc<T>(xs: seq<T>, x: T)
    ensures multiset(xs + [x]) == multiset(xs) + multiset{x}
  {}

  lemma {:induction false} InsertPermutes<T>(ys: seq<T>, x: T, le: (T, T) -> bool)
    ensures multiset(Insert(ys, x, le)) == multiset(ys) + multiset{x}
    decreases |ys|
  {
    var n := |ys| - 1;
    if n >= 0 && !le(ys[n], x) {
      InsertPermutes(ys[..n], x, le);
      assert ys == ys[..n] + [ys[n]];
    }
  }

  lemma {:induction false} SortPermutes<T>(xs: seq<T>, le: (T, T) -> bool)
    ensures multiset(Sort(xs, le)) == multiset(xs)
    decreases |xs|
  {
    if |xs| > 0 {
      var n := |xs| - 1;
      assert multiset(xs) == multiset(xs[..n]) + multiset{xs[n]} by {
        MultisetSnoc(xs[..n], xs[n]);
        assert xs == xs[..n] + [xs[n]];
      }
      SortPermutes(xs[..n], le);
      InsertPermutes(Sort(xs[..n], le), xs[n], le);
    }
  }

  lemma PushKeepsOrder<T(!new)>(ys: seq<T>, x: T, le: (T, T) -> bool, tie: (T, T) -> bool)
    requires OrderedBy(ys, le, tie)
    requires forall y :: y in ys ==> le(y, x) && (le(x, y) ==> tie(y, x))
    ensures OrderedBy(ys + [x], le, tie)
  {}

  lemma {:induction false} InsertKeepsOrder<T(!new)>(ys: seq<T>, x: T, le: (T, T) -> bool, tie: (T, T) -> bool)
    requires TotalPreorder(le) && OrderedBy(ys, le, tie)
    requires forall y :: y in ys ==> tie(y, x)
    ensures OrderedBy(Insert(ys, x, le), le, tie)
    decreases |ys|
  {
    var n := |ys| - 1;
    if n >= 0 && !le(ys[n], x) {
      var front := Insert(ys[..n], x, le);
      InsertKeepsOrder(ys[..n], x, le, tie);
      InsertPermutes(ys[..n], x, le);
      forall y | y in front
        ensures le(y, ys[n]) && (le(ys[n], y) ==> tie(y, ys[n]))
      {
        assert y in multiset(front);
        if y != x {
          assert y in multiset(ys[..n]);
        }
      }
      PushKeepsOrder(front, ys[n], le, tie);
    } else {
      PushKeepsOrder(ys, x, le, tie);
    }
  }

  /** The sort is stable: any order the input already had breaks the ties of the output. */
  lemma {:induction false} SortIsStable<T(!new)>(xs: seq<T>, le: (T, T) -> bool, tie: (T, T) -> bool)
    requires TotalPreorder(le) && Pairwise(xs, tie)
    ensures OrderedBy(Sort(xs, le), le, tie)
    decreases |xs|
  {
    if |xs| > 0 {
      var n := |xs| - 1;
      SortIsStable(xs[..n], le, tie);
      SortPermutes(xs[..n], le);
      forall y | y in Sort(xs[..n], le)
        ensures tie(y, xs[n])
      {
        assert y in multiset(Sort(xs[..n], le));
        assert y in xs[..n];
      }
      InsertKeepsOrder(Sort(xs[..n], le), xs[n], le, tie);
    }
  }
}
