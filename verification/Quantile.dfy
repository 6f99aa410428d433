/** Quantiles over a cumulative latency histogram (prometheus.rs); `f64` is `real`. */
module Quantile {
  import opened Prelude
  import opened Counters

  datatype LatencyBucket = LatencyBucket(le: Bound, count: int)

  predicate AtMost(a: Bound, b: Bound) { b.PlusInf? || (a.Finite? && a.seconds <= b.seconds) }

  /** Sorted by `le`, as the parser and the store return them; a bound may repeat. */
  predicate Sorted(buckets: seq<LatencyBucket>) {
    forall i, j :: 0 <= i < j < |buckets| ==> AtMost(buckets[i].le, buckets[j].le)
  }

  function Clamp(q: real): real { if q < 0.0 then 0.0 else if q > 1.0 then 1.0 else q }

  function Count(b: LatencyBucket): real { b.count as real }

  /** The rank looked for. */
  function Rank(buckets: seq<LatencyBucket>, q: real): real
    requires buckets != []
  {
    Clamp(q) * Count(buckets[|buckets| - 1])
  }

  /** The first bucket whose count reaches `rank`. */
  function Chosen(buckets: seq<LatencyBucket>, rank: real, from: nat): (i: nat)
    requires from < |buckets| && Count(buckets[|buckets| - 1]) >= rank
    ensures from <= i < |buckets| && Count(buckets[i]) >= rank
    ensures forall k :: from <= k < i ==> Count(buckets[k]) < rank
    decreases |buckets| - from
  {
    if Count(buckets[from]) >= rank then from else Chosen(buckets, rank, from + 1)
  }

  /** The lower edge of bucket `i` and the count below it. */
  function LowerEdge(buckets: seq<LatencyBucket>, i: nat): Bound
    requires i < |buckets|
  {
    if i == 0 then Finite(0.0) else buckets[i - 1].le
  }

  function CountBelow(buckets: seq<LatencyBucket>, i: nat): real
    requires i < |buckets|
  {
    if i == 0 then 0.0 else Count(buckets[i - 1])
  }

  /** The part of `span` that `part` is of `whole`. */
  function Share(span: real, part: real, whole: real): real
    requires whole != 0.0
  {
    span * part / whole
  }

  /** Linear interpolation of `rank` inside bucket `i`. */
  function Interpolated(buckets: seq<LatencyBucket>, i: nat, rank: real): Bound
    requires Sorted(buckets) && i < |buckets|
  {
    var b, lower, below := buckets[i], LowerEdge(buckets, i), CountBelow(buckets, i);
    if b.le.PlusInf? then lower
    else if Count(b) - below <= 0.0 then b.le
    else Finite(lower.seconds + Share(b.le.seconds - lower.seconds, rank - below, Count(b) - below))
  }

  /** The bucket quantile `q` falls in. */
  function BucketOf(buckets: seq<LatencyBucket>, q: real): (i: nat)
    requires buckets != [] && Count(buckets[|buckets| - 1]) > 0.0
    ensures i < |buckets| && Count(buckets[i]) >= Rank(buckets, q)
    ensures forall k :: 0 <= k < i ==> Count(buckets[k]) < Rank(buckets, q)
  {
    RankWithinTotal(buckets, q);
    Chosen(buckets, Rank(buckets, q), 0)
  }

  function QuantileOf(buckets: seq<LatencyBucket>, q: real): Option<Bound>
    requires Sorted(buckets)
  {
    if buckets == [] || Count(buckets[|buckets| - 1]) <= 0.0 then None
    else Some(Interpolated(buckets, BucketOf(buckets, q), Rank(buckets, q)))
  }

  lemma RankWithinTotal(buckets: seq<LatencyBucket>, q: real)
    requires buckets != [] && Count(buckets[|buckets| - 1]) > 0.0
    ensures 0.0 <= Rank(buckets, q) <= Count(buckets[|buckets| - 1])
  {
    var total := Count(buckets[|buckets| - 1]);
    assert (1.0 - Clamp(q)) * total >= 0.0;
  }

  /** The loop always returns: the last bucket reaches every rank. */
  method HistogramQuantile(buckets: seq<LatencyBucket>, q: real) returns (r: Option<Bound>)
    requires Sorted(buckets)
    ensures r == QuantileOf(buckets, q)
  {
    if buckets == [] {
      return None;
    }
    if Count(buckets[|buckets| - 1]) <= 0.0 {
      return None;
    }
    var rank := Rank(buckets, q);
    RankWithinTotal(buckets, q);
    var prevLe, prevCount := Finite(0.0), 0.0;
    for i := 0 to |buckets|
      invariant forall k :: 0 <= k < i ==> Count(buckets[k]) < rank
      invariant i < |buckets| ==> prevLe == LowerEdge(buckets, i) && prevCount == CountBelow(buckets, i)
    {
      var b := buckets[i];
      var count := Count(b);
      if count >= rank {
        assert i == BucketOf(buckets, q);
        if b.le.PlusInf? {
          return Some(prevLe);
        }
        var span := b.le.seconds - prevLe.seconds;
        var inBucket := count - prevCount;
        if inBucket <= 0.0 {
          return Some(b.le);
        }
        return Some(Finite(prevLe.seconds + Share(span, rank - prevCount, inBucket)));
      }
      prevLe := b.le;
      prevCount := count;
    }
    assert false;
  }

  // ── what the number means ─────────────────────────────────────────────────────────────────────

  /** Nonnegative bounds in order, nondecreasing nonnegative counts, something counted. */
  predicate Proper(buckets: seq<LatencyBucket>) {
    && buckets != [] && Sorted(buckets) && buckets[|buckets| - 1].count > 0
    && (buckets[0].le.Finite? ==> buckets[0].le.seconds >= 0.0) && buckets[0].count >= 0
    && (forall i, j :: 0 <= i <= j < |buckets| ==> buckets[i].count <= buckets[j].count)
  }

  lemma QuotientMonotone(x: real, y: real, w: real)
    requires x <= y && w > 0.0
    ensures x / w <= y / w
  {}

  lemma ShareMonotone(span: real, p1: real, p2: real, whole: real)
    requires span >= 0.0 && p1 <= p2 && whole > 0.0
    ensures Share(span, p1, whole) <= Share(span, p2, whole)
  {
    assert span * (p2 - p1) >= 0.0;
    QuotientMonotone(span * p1, span * p2, whole);
  }

  lemma ShareExact(span: real, part: real, whole: real)
    requires whole > 0.0
    ensures Share(span, part, whole) * whole == span * part
  {}

  lemma ShareOfWhole(span: real, whole: real)
    requires whole > 0.0
    ensures Share(span, 0.0, whole) == 0.0 && Share(span, whole, whole) == span
  {
    ShareExact(span, whole, whole);
    assert (Share(span, whole, whole) - span) * whole == 0.0;
  }

  lemma ShareWithin(span: real, part: real, whole: real)
    requires span >= 0.0 && 0.0 <= part <= whole && whole > 0.0
    ensures 0.0 <= Share(span, part, whole) <= span
  {
    ShareOfWhole(span, whole);
    ShareMonotone(span, 0.0, part, whole);
    ShareMonotone(span, part, whole, whole);
  }

  lemma EdgesOrdered(buckets: seq<LatencyBucket>, i: nat)
    requires Proper(buckets) && i < |buckets|
    ensures AtMost(Finite(0.0), LowerEdge(buckets, i)) && AtMost(LowerEdge(buckets, i), buckets[i].le)
    ensures 0.0 <= CountBelow(buckets, i) <= Count(buckets[i])
  {
    if i > 0 {
      assert AtMost(buckets[i - 1].le, buckets[i].le);
      assert buckets[0].count <= buckets[i - 1].count <= buckets[i].count;
      if i > 1 {
        assert AtMost(buckets[0].le, buckets[i - 1].le);
      }
    }
  }

  /** The rank looked for is share `q` of all that was counted, none below zero and all above one. */
  lemma RankExact(buckets: seq<LatencyBucket>, q: real)
    requires buckets != []
    ensures var total := buckets[|buckets| - 1].count as real;
            Rank(buckets, q) == if q <= 0.0 then 0.0 else if q >= 1.0 then total else q * total
  {}

  /** The bucket is the first whose count reaches that rank. */
  lemma BucketExact(buckets: seq<LatencyBucket>, q: real, i: nat)
    requires Proper(buckets) && i < |buckets|
    ensures i == BucketOf(buckets, q)
            <==> Count(buckets[i]) >= Rank(buckets, q) && (i == 0 || Count(buckets[i - 1]) < Rank(buckets, q))
  {
    if Count(buckets[i]) >= Rank(buckets, q) && (i == 0 || Count(buckets[i - 1]) < Rank(buckets, q)) {
      assert forall k :: 0 <= k < i ==> buckets[k].count <= buckets[i - 1].count;
    }
  }

  /** `r` lies between `lower` and the bound of `b`, at the point where linear growth attains `rank`. */
  predicate AtRank(b: LatencyBucket, lower: Bound, below: real, rank: real, r: Bound) {
    && b.le.Finite? && lower.Finite? && r.Finite? && lower.seconds <= r.seconds <= b.le.seconds
    && (r.seconds - lower.seconds) * (Count(b) - below) == (b.le.seconds - lower.seconds) * (rank - below)
  }

  /** Interpolation finds that point. */
  lemma RankInBucket(b: LatencyBucket, lower: Bound, below: real, rank: real, r: Bound)
    requires b.le.Finite? && lower.Finite? && lower.seconds <= b.le.seconds && below <= rank <= Count(b)
    requires r == if Count(b) - below <= 0.0 then b.le
                  else Finite(lower.seconds + Share(b.le.seconds - lower.seconds, rank - below, Count(b) - below))
    ensures AtRank(b, lower, below, rank, r)
  {
    var span, part, whole := b.le.seconds - lower.seconds, rank - below, Count(b) - below;
    if whole > 0.0 {
      ShareWithin(span, part, whole);
      ShareExact(span, part, whole);
      assert r.seconds - lower.seconds == Share(span, part, whole);
    } else {
      assert whole == 0.0 && part == 0.0;
    }
  }

  lemma RankAboveBelow(buckets: seq<LatencyBucket>, q: real)
    requires Proper(buckets)
    ensures CountBelow(buckets, BucketOf(buckets, q)) <= Rank(buckets, q)
  {
    RankWithinTotal(buckets, q);
  }

  /**
    The quantile lies in the first bucket whose count reaches the rank (or at the bound below when that
    is an infinite bucket), at the point where linear growth attains the rank.
  */
  lemma QuantileInBucket(buckets: seq<LatencyBucket>, q: real)
    requires Proper(buckets)
    ensures QuantileOf(buckets, q).Some?
    ensures var rank, i, r := Rank(buckets, q), BucketOf(buckets, q), QuantileOf(buckets, q).value;
            var lower := if i == 0 then Finite(0.0) else buckets[i - 1].le;
            var below := if i == 0 then 0.0 else Count(buckets[i - 1]);
            if buckets[i].le.PlusInf? then r == lower else AtRank(buckets[i], lower, below, rank, r)
  {
    var i := BucketOf(buckets, q);
    EdgesOrdered(buckets, i);
    if buckets[i].le.Finite? {
      RankAboveBelow(buckets, q);
      RankInBucket(buckets[i], LowerEdge(buckets, i), CountBelow(buckets, i), Rank(buckets, q),
                   QuantileOf(buckets, q).value);
    }
  }

  lemma InterpolationMonotone(buckets: seq<LatencyBucket>, i: nat, rank1: real, rank2: real)
    requires Proper(buckets) && i < |buckets| && CountBelow(buckets, i) <= rank1 <= rank2 <= Count(buckets[i])
    ensures AtMost(Interpolated(buckets, i, rank1), Interpolated(buckets, i, rank2))
  {
    EdgesOrdered(buckets, i);
    var b, lower, below := buckets[i], LowerEdge(buckets, i), CountBelow(buckets, i);
    if b.le.Finite? && Count(b) - below > 0.0 {
      ShareMonotone(b.le.seconds - lower.seconds, rank1 - below, rank2 - below, Count(b) - below);
    }
  }

  lemma ChosenMonotone(buckets: seq<LatencyBucket>, rank1: real, rank2: real)
    requires buckets != [] && rank1 <= rank2 <= Count(buckets[|buckets| - 1])
    ensures Chosen(buckets, rank1, 0) <= Chosen(buckets, rank2, 0)
  {}

  /** A higher quantile is never a lower latency. */
  lemma QuantileMonotone(buckets: seq<LatencyBucket>, q1: real, q2: real)
    requires Proper(buckets) && q1 <= q2
    ensures QuantileOf(buckets, q1).Some? && QuantileOf(buckets, q2).Some?
    ensures AtMost(QuantileOf(buckets, q1).value, QuantileOf(buckets, q2).value)
  {
    RankWithinTotal(buckets, q1);
    RankWithinTotal(buckets, q2);
    var rank1, rank2 := Rank(buckets, q1), Rank(buckets, q2);
    assert (Clamp(q2) - Clamp(q1)) * Count(buckets[|buckets| - 1]) >= 0.0;
    ChosenMonotone(buckets, rank1, rank2);
    var i, j := BucketOf(buckets, q1), BucketOf(buckets, q2);
    if i == j {
      InterpolationMonotone(buckets, i, rank1, rank2);
    } else {
      QuantileInBucket(buckets, q1);
      QuantileInBucket(buckets, q2);
      EdgesOrdered(buckets, i);
      EdgeBeyond(buckets, i, j);
    }
  }

  /** A later bucket starts no lower than an earlier one ends. */
  lemma EdgeBeyond(buckets: seq<LatencyBucket>, i: nat, j: nat)
    requires Proper(buckets) && i < j < |buckets|
    ensures AtMost(buckets[i].le, LowerEdge(buckets, j))
  {
    if i < j - 1 {
      assert AtMost(buckets[i].le, buckets[j - 1].le);
    }
  }

  /** The lifetime histogram of a node, as the percentile endpoint reads it. */
  function LifetimeBuckets(les: seq<Bound>, h: Histogram): seq<LatencyBucket>
    requires |h.cumulative| == |les|
  {
    seq(|les|, i requires 0 <= i < |les| => LatencyBucket(les[i], h.cumulative[i]))
  }

  /** Across restarts, an orderly scrape history always yields ordered lifetime percentiles. */
  lemma LifetimePercentilesOrdered(les: seq<Bound>, first: seq<int>, scrapes: seq<seq<int>>, q1: real, q2: real)
    requires |les| == |first| > 0 && OrderlyHistory(first, scrapes) && q1 <= q2
    requires forall i, j :: 0 <= i < j < |les| ==> AtMost(les[i], les[j])
    requires les[0].Finite? ==> les[0].seconds >= 0.0
    requires Lifetime(first, scrapes).cumulative[|les| - 1] > 0
    ensures var buckets := LifetimeBuckets(les, Lifetime(first, scrapes));
            && QuantileOf(buckets, q1).Some? && QuantileOf(buckets, q2).Some?
            && AtMost(QuantileOf(buckets, q1).value, QuantileOf(buckets, q2).value)
  {
    LifetimeStaysCumulative(first, scrapes);
    var h := Lifetime(first, scrapes);
    assert Past(h, 0) >= 0;
    QuantileMonotone(LifetimeBuckets(les, h), q1, q2);
  }
}
