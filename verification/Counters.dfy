/** The reset-aware running totals of the control-plane store (store.rs). */
module Counters {
  import opened Prelude

  datatype Total = Total(cumulative: int, lastRaw: int)
  datatype Bound = Finite(seconds: real) | PlusInf
  /** What a row is kept per, besides the node: a decision or a histogram bound. */
  datatype Key = Decision(name: string) | Bucket(le: Bound)
  type Rows = map<(string, Key), Total>

  /** What one raw reading adds: the growth since the last one, or all of it after a reset. */
  function Gain(lastRaw: int, raw: int): int { if raw >= lastRaw then raw - lastRaw else raw }

  /** The upsert of one sample. */
  function Upserted(row: Option<Total>, raw: int): Total {
    match row
    case None => Total(raw, raw)
    case Some(t) => Total(t.cumulative + Gain(t.lastRaw, raw), raw)
  }

  function Row(rows: Rows, node: string, key: Key): Option<Total> {
    if (node, key) in rows then Some(rows[(node, key)]) else None
  }

  /** One scrape of one node, sample by sample. */
  function Folded(rows: Rows, node: string, samples: seq<(Key, int)>): Rows {
    if samples == [] then rows
    else
      var before := Folded(rows, node, samples[..|samples| - 1]);
      var (key, raw) := samples[|samples| - 1];
      before[(node, key) := Upserted(Row(before, node, key), raw)]
  }

  /** `metric_totals` (keyed by decision) or `latency_totals` (keyed by bucket bound). */
  class TotalsTable {
    var rows: Rows

    constructor ()
      ensures rows == map[]
    {
      rows := map[];
    }

    method Accumulate(node: string, samples: seq<(Key, int)>)
      modifies this
      ensures rows == Folded(old(rows), node, samples)
    {
      for i := 0 to |samples|
        invariant rows == Folded(old(rows), node, samples[..i])
      {
        assert samples[..i + 1][..i] == samples[..i];
        var (key, raw) := samples[i];
        if (node, key) in rows {
          var t := rows[(node, key)];
          var gain := if raw >= t.lastRaw then raw - t.lastRaw else raw;
          rows := rows[(node, key) := Total(t.cumulative + gain, raw)];
        } else {
          rows := rows[(node, key) := Total(raw, raw)];
        }
      }
      assert samples[..|samples|] == samples;
    }
  }

  ghost predicate DistinctKeys(samples: seq<(Key, int)>) {
    forall i, j :: 0 <= i < j < |samples| ==> samples[i].0 != samples[j].0
  }

  /** A scrape with distinct keys updates each row once and touches no other. */
  lemma {:induction false} FoldedRows(rows: Rows, node: string, samples: seq<(Key, int)>, n: string, k: Key)
    requires DistinctKeys(samples)
    ensures (forall i :: 0 <= i < |samples| ==> (node, samples[i].0) != (n, k)) ==>
              Row(Folded(rows, node, samples), n, k) == Row(rows, n, k)
    ensures forall i :: 0 <= i < |samples| && (node, samples[i].0) == (n, k) ==>
              Row(Folded(rows, node, samples), n, k) == Some(Upserted(Row(rows, n, k), samples[i].1))
    decreases |samples|
  {
    if samples != [] {
      var init, last := samples[..|samples| - 1], samples[|samples| - 1];
      assert DistinctKeys(init);
      FoldedRows(rows, node, init, n, k);
      if (node, last.0) == (n, k) {
        assert forall i :: 0 <= i < |init| ==> (node, init[i].0) != (n, k);
      }
    }
  }

  // ── nothing is counted twice ──────────────────────────────────────────────────────────────────

  /**
    One counter: all events ever, those of the running process, the stored row, and whether this process
    was scraped.
  */
  datatype World = World(total: nat, raw: nat, row: Option<Total>, scraped: bool)
  datatype Event = Count(n: nat) | Restart | Scrape

  const START := World(0, 0, None, false)

  function Step(w: World, e: Event): World {
    match e
    case Count(n) => w.(total := w.total + n, raw := w.raw + n)
    case Restart => w.(raw := 0, scraped := false)
    case Scrape => w.(row := Some(Upserted(w.row, w.raw)), scraped := true)
  }

  function Run(w: World, events: seq<Event>): World
    decreases |events|
  {
    if events == [] then w else Run(Step(w, events[0]), events[1..])
  }

  function Cumulative(w: World): int { if w.row.Some? then w.row.value.cumulative else 0 }

  /** Events of the running process that no scrape has seen yet. */
  function Unseen(w: World): int { if w.scraped && w.row.Some? then w.raw - w.row.value.lastRaw else w.raw }

  /**
    What a step loses for good: the events since the last scrape when the process restarts, and the
    last reading of the old process when the new one has already overtaken it at its first scrape.
  */
  function LostBy(w: World, e: Event): int {
    match e
    case Count(_) => 0
    case Restart => Unseen(w)
    case Scrape => if !w.scraped && w.row.Some? && w.raw >= w.row.value.lastRaw then w.row.value.lastRaw else 0
  }

  function Lost(w: World, events: seq<Event>): int
    decreases |events|
  {
    if events == [] then 0 else LostBy(w, events[0]) + Lost(Step(w, events[0]), events[1..])
  }

  predicate Coherent(w: World) {
    && (w.row.Some? ==> 0 <= w.row.value.lastRaw <= w.row.value.cumulative)
    && (w.scraped ==> w.row.Some? && w.row.value.lastRaw <= w.raw)
  }

  lemma StepConserves(w: World, e: Event)
    requires Coherent(w)
    ensures Coherent(Step(w, e)) && LostBy(w, e) >= 0 && Cumulative(Step(w, e)) >= Cumulative(w)
    ensures Step(w, e).total - Cumulative(Step(w, e)) - Unseen(Step(w, e))
            == w.total - Cumulative(w) - Unseen(w) + LostBy(w, e)
  {}

  lemma {:induction false} RunConserves(w: World, events: seq<Event>)
    requires Coherent(w)
    ensures var end := Run(w, events);
            && Coherent(end) && Lost(w, events) >= 0 && Cumulative(end) >= Cumulative(w)
            && end.total - Cumulative(end) - Unseen(end) == w.total - Cumulative(w) - Unseen(w) + Lost(w, events)
    decreases |events|
  {
    if events != [] {
      StepConserves(w, events[0]);
      RunConserves(Step(w, events[0]), events[1..]);
    }
  }

  /**
    Over every history of events, restarts and scrapes, the running total plus what was lost plus
    what is still unseen is the true count, and the total never decreases.
  */
  lemma TotalsAccounted(events: seq<Event>, more: seq<Event>)
    ensures var w := Run(START, events);
            && w.total == Cumulative(w) + Lost(START, events) + Unseen(w)
            && 0 <= Cumulative(w) <= w.total
            && Cumulative(w) <= Cumulative(Run(w, more))
  {
    RunConserves(START, events);
    RunConserves(Run(START, events), more);
  }

  // ── lifetime buckets stay cumulative ──────────────────────────────────────────────────────────

  /** The rows of one node's latency histogram, in `le` order. */
  datatype Histogram = Histogram(cumulative: seq<int>, lastRaw: seq<int>)

  predicate Nondecreasing(s: seq<int>) { forall i, j :: 0 <= i <= j < |s| ==> s[i] <= s[j] }

  /** A cumulative histogram as a process reports it. */
  predicate Reading(raw: seq<int>, n: nat) {
    |raw| == n && Nondecreasing(raw) && (forall i :: 0 <= i < n ==> raw[i] >= 0)
  }

  function Scraped(h: Histogram, raw: seq<int>): (r: Histogram)
    requires |h.cumulative| == |h.lastRaw| == |raw|
    ensures |r.cumulative| == |r.lastRaw| == |raw|
  {
    Histogram(seq(|raw|, i requires 0 <= i < |raw| => h.cumulative[i] + Gain(h.lastRaw[i], raw[i])), raw)
  }

  /** What earlier processes contributed to bucket `i`. */
  function Past(h: Histogram, i: nat): int
    requires i < |h.cumulative| == |h.lastRaw|
  {
    h.cumulative[i] - h.lastRaw[i]
  }

  predicate PastOrdered(h: Histogram)
    requires |h.cumulative| == |h.lastRaw|
  {
    forall i, j :: 0 <= i <= j < |h.lastRaw| ==> Past(h, i) <= Past(h, j)
  }

  /** The last reading was a histogram and the past contributions are one too. */
  predicate Sane(h: Histogram, n: nat) {
    && |h.cumulative| == n && Reading(h.lastRaw, n) && PastOrdered(h)
    && (forall i :: 0 <= i < n ==> Past(h, i) >= 0)
  }

  predicate DropsInAllOrNone(h: Histogram, raw: seq<int>)
    requires |h.lastRaw| == |raw|
  {
    || (forall i :: 0 <= i < |raw| ==> raw[i] < h.lastRaw[i])
    || (forall i :: 0 <= i < |raw| ==> raw[i] >= h.lastRaw[i])
  }

  /** A bucket that is seen to drop holds no more than the past of any higher bucket that is not. */
  predicate ResetHarmless(h: Histogram, raw: seq<int>)
    requires |h.cumulative| == |h.lastRaw| == |raw|
  {
    forall i, j :: 0 <= i < j < |raw| && raw[i] < h.lastRaw[i] && raw[j] >= h.lastRaw[j] ==>
        h.cumulative[i] <= Past(h, j)
  }

  /** A reset seen in every bucket, or in none, is harmless. */
  lemma WholeResetIsHarmless(h: Histogram, raw: seq<int>)
    requires |h.cumulative| == |h.lastRaw| == |raw| && DropsInAllOrNone(h, raw)
    ensures ResetHarmless(h, raw)
  {}

  lemma SaneIsCumulative(h: Histogram, n: nat)
    requires Sane(h, n)
    ensures Nondecreasing(h.cumulative)
  {
    forall i, j | 0 <= i <= j < n ensures h.cumulative[i] <= h.cumulative[j] {
      assert Past(h, i) <= Past(h, j);
    }
  }

  lemma HarmlessKeepsSane(h: Histogram, raw: seq<int>, n: nat)
    requires Sane(h, n) && Reading(raw, n)
    ensures ResetHarmless(h, raw) <==> Sane(Scraped(h, raw), n)
  {
    var r := Scraped(h, raw);
    assert forall i :: 0 <= i < n ==> Past(r, i) == if raw[i] < h.lastRaw[i] then h.cumulative[i] else Past(h, i);
    SaneIsCumulative(h, n);
    if ResetHarmless(h, raw) {
      forall i, j | 0 <= i <= j < n ensures Past(r, i) <= Past(r, j) {
        assert Past(h, i) <= Past(h, j);
      }
      assert PastOrdered(r);
      forall i | 0 <= i < n ensures Past(r, i) >= 0 {
        assert Past(h, i) >= 0;
      }
    } else {
      var i, j :| 0 <= i < j < n && raw[i] < h.lastRaw[i] && raw[j] >= h.lastRaw[j] && h.cumulative[i] > Past(h, j);
      assert Past(r, i) > Past(r, j);
    }
  }

  /**
    The lifetime histogram is nondecreasing in `le` after this scrape and after any next reading
    without a reset exactly when the resets this scrape sees are harmless.
  */
  lemma OrderSurvivesIff(h: Histogram, raw: seq<int>, n: nat)
    requires Sane(h, n) && Reading(raw, n)
    ensures (forall next: seq<int> :: Reading(next, n) && (forall i :: 0 <= i < n ==> next[i] >= raw[i]) ==>
               Nondecreasing(Scraped(Scraped(h, raw), next).cumulative))
            <==> ResetHarmless(h, raw)
  {
    var r := Scraped(h, raw);
    HarmlessKeepsSane(h, raw, n);
    if ResetHarmless(h, raw) {
      forall next: seq<int> | Reading(next, n) && (forall i :: 0 <= i < n ==> next[i] >= raw[i])
        ensures Nondecreasing(Scraped(r, next).cumulative)
      {
        HarmlessKeepsSane(r, next, n);
        SaneIsCumulative(Scraped(r, next), n);
      }
    } else {
      LevelReadingExposes(h, raw, n);
    }
  }

  /** After a harmful reset, a reading with equal counts everywhere shows the disorder. */
  lemma LevelReadingExposes(h: Histogram, raw: seq<int>, n: nat)
    requires Sane(h, n) && Reading(raw, n) && !ResetHarmless(h, raw)
    ensures exists next: seq<int> :: Reading(next, n) && (forall i :: 0 <= i < n ==> next[i] >= raw[i])
                                     && !Nondecreasing(Scraped(Scraped(h, raw), next).cumulative)
  {
    var r := Scraped(h, raw);
    var next := seq(n, _ => raw[n - 1]);
    var i, j :| 0 <= i < j < n && raw[i] < h.lastRaw[i] && raw[j] >= h.lastRaw[j] && h.cumulative[i] > Past(h, j);
    assert Past(r, i) == h.cumulative[i] && Past(r, j) == Past(h, j);
    var c := Scraped(r, next).cumulative;
    assert c[i] == Past(r, i) + raw[n - 1] && c[j] == Past(r, j) + raw[n - 1];
  }

  /** A restarted process that has overtaken some buckets but not others breaks the order. */
  lemma PartialResetBreaksOrder()
    ensures Scraped(Histogram([5, 5], [5, 5]), [4, 5]).cumulative == [9, 5]
  {}

  /** The histogram after a first reading and further scrapes. */
  function Lifetime(first: seq<int>, scrapes: seq<seq<int>>): (h: Histogram)
    requires forall i :: 0 <= i < |scrapes| ==> |scrapes[i]| == |first|
    ensures |h.cumulative| == |h.lastRaw| == |first|
  {
    if scrapes == [] then Histogram(first, first)
    else Scraped(Lifetime(first, scrapes[..|scrapes| - 1]), scrapes[|scrapes| - 1])
  }

  /** Every reset a history sees is harmless. */
  predicate OrderlyHistory(first: seq<int>, scrapes: seq<seq<int>>) {
    && Reading(first, |first|)
    && (forall i :: 0 <= i < |scrapes| ==> Reading(scrapes[i], |first|))
    && (forall k :: 0 <= k < |scrapes| ==>
          var h := Lifetime(first, scrapes[..k]);
          ResetHarmless(h, scrapes[k]))
  }

  /** Over every orderly history, lifetime buckets stay nondecreasing in `le`. */
  lemma {:induction false} LifetimeStaysCumulative(first: seq<int>, scrapes: seq<seq<int>>)
    requires OrderlyHistory(first, scrapes)
    ensures Sane(Lifetime(first, scrapes), |first|) && Nondecreasing(Lifetime(first, scrapes).cumulative)
    decreases |scrapes|
  {
    if scrapes != [] {
      var init, raw := scrapes[..|scrapes| - 1], scrapes[|scrapes| - 1];
      forall k | 0 <= k < |init| ensures init[..k] == scrapes[..k] {}
      LifetimeStaysCumulative(first, init);
      assert scrapes[..|scrapes| - 1] == init;
      HarmlessKeepsSane(Lifetime(first, init), raw, |first|);
    }
    SaneIsCumulative(Lifetime(first, scrapes), |first|);
  }

  // ── the rows hold that histogram ──────────────────────────────────────────────────────────────

  function Samples(les: seq<Key>, raw: seq<int>): (r: seq<(Key, int)>)
    requires |les| == |raw|
    ensures |r| == |raw|
  {
    seq(|raw|, i requires 0 <= i < |raw| => (les[i], raw[i]))
  }

  /** The stored rows of `node` are the histogram `h` over the bounds `les`. */
  predicate Holds(rows: Rows, node: string, les: seq<Key>, h: Histogram) {
    && |h.cumulative| == |h.lastRaw| == |les|
    && forall i :: 0 <= i < |les| ==> Row(rows, node, les[i]) == Some(Total(h.cumulative[i], h.lastRaw[i]))
  }

  ghost predicate DistinctBounds(les: seq<Key>) { forall i, j :: 0 <= i < j < |les| ==> les[i] != les[j] }

  /** Folding a scrape into the rows is scraping the histogram they hold. */
  lemma FoldedHolds(rows: Rows, node: string, les: seq<Key>, h: Histogram, raw: seq<int>)
    requires Holds(rows, node, les, h) && |raw| == |les| && DistinctBounds(les)
    ensures Holds(Folded(rows, node, Samples(les, raw)), node, les, Scraped(h, raw))
  {
    var samples := Samples(les, raw);
    forall i | 0 <= i < |les|
      ensures Row(Folded(rows, node, samples), node, les[i])
              == Some(Total(Scraped(h, raw).cumulative[i], Scraped(h, raw).lastRaw[i]))
    {
      FoldedRows(rows, node, samples, node, les[i]);
      assert (node, samples[i].0) == (node, les[i]);
    }
  }

  /** A first scrape of a node nothing is stored for. */
  lemma FirstScrapeHolds(rows: Rows, node: string, les: seq<Key>, first: seq<int>)
    requires |first| == |les| && DistinctBounds(les) && forall i :: 0 <= i < |les| ==> Row(rows, node, les[i]).None?
    ensures Holds(Folded(rows, node, Samples(les, first)), node, les, Lifetime(first, []))
  {
    var samples := Samples(les, first);
    forall i | 0 <= i < |les|
      ensures Row(Folded(rows, node, samples), node, les[i]) == Some(Total(first[i], first[i]))
    {
      FoldedRows(rows, node, samples, node, les[i]);
      assert (node, samples[i].0) == (node, les[i]);
    }
  }

  /** The table after a first scrape of `node` and further ones. */
  function Accumulated(rows: Rows, node: string, les: seq<Key>, first: seq<int>, scrapes: seq<seq<int>>): Rows
    requires |first| == |les| && forall i :: 0 <= i < |scrapes| ==> |scrapes[i]| == |les|
    decreases |scrapes|
  {
    if scrapes == [] then Folded(rows, node, Samples(les, first))
    else
      var n := |scrapes| - 1;
      Folded(Accumulated(rows, node, les, first, scrapes[..n]), node, Samples(les, scrapes[n]))
  }

  /** After any run of scrapes from an empty table on, the rows of the node are its lifetime histogram. */
  lemma {:induction false} RowsHoldLifetime(
    rows: Rows, node: string, les: seq<Key>, first: seq<int>, scrapes: seq<seq<int>>)
    requires |first| == |les| && (forall i :: 0 <= i < |scrapes| ==> |scrapes[i]| == |les|)
    requires DistinctBounds(les) && forall i :: 0 <= i < |les| ==> Row(rows, node, les[i]).None?
    ensures Holds(Accumulated(rows, node, les, first, scrapes), node, les, Lifetime(first, scrapes))
    decreases |scrapes|
  {
    if scrapes == [] {
      FirstScrapeHolds(rows, node, les, first);
    } else {
      var n := |scrapes| - 1;
      RowsHoldLifetime(rows, node, les, first, scrapes[..n]);
      FoldedHolds(Accumulated(rows, node, les, first, scrapes[..n]), node, les, Lifetime(first, scrapes[..n]),
          scrapes[n]);
    }
  }
}
