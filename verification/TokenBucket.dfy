/**
  The in-memory token-bucket store of waf-core (state.rs). Instants are reals in seconds, `f64` is
  `real`, and the clock reading of a call is a parameter of the call.
*/
module TokenBucket {
  datatype BucketParams = BucketParams(capacity: real, refillPerSec: real)
  datatype Acquired = Acquired(allowed: bool, tokensRemaining: real)
  datatype Bucket = Bucket(tokens: real, last: real)
  datatype Call = Call(key: string, cost: real, now: real)
  type Buckets = map<string, Bucket>

  function Min(x: real, y: real): real { if x <= y then x else y }

  /** `Instant::duration_since` saturates at zero. */
  function Elapsed(now: real, last: real): real { if now >= last then now - last else 0.0 }

  /** Tokens earned in `dt` seconds. */
  function Accrued(dt: real, p: BucketParams): real { dt * p.refillPerSec }

  function Refilled(b: Bucket, now: real, p: BucketParams): real {
    Min(b.tokens + Accrued(Elapsed(now, b.last), p), p.capacity)
  }

  /** What the memory sweep keeps: the buckets younger than a full refill. */
  function Swept(bs: Buckets, now: real, p: BucketParams): Buckets {
    if p.refillPerSec <= 0.0 then bs
    else map k | k in bs && Elapsed(now, bs[k].last) < p.capacity / p.refillPerSec :: bs[k]
  }

  /** Refill-then-consume on one key, with no sweep: the reference store. */
  function Acquire(bs: Buckets, c: Call, p: BucketParams): (Buckets, Acquired) {
    var b := if c.key in bs then bs[c.key] else Bucket(p.capacity, c.now);
    var tokens := Refilled(b, c.now, p);
    var left := if tokens >= c.cost then tokens - c.cost else tokens;
    (bs[c.key := Bucket(left, c.now)], Acquired(tokens >= c.cost, left))
  }

  /** The shipped store: a brand-new key at the cap sweeps first. */
  function CappedAcquire(bs: Buckets, c: Call, p: BucketParams, cap: nat): (Buckets, Acquired) {
    Acquire(if c.key !in bs && |bs| >= cap then Swept(bs, c.now, p) else bs, c, p)
  }

  class InMemoryStateStore {
    const maxTrackedKeys: nat
    var buckets: Buckets

    constructor (cap: nat)
      ensures buckets == map[] && maxTrackedKeys == if cap == 0 then 1 else cap
    {
      maxTrackedKeys := if cap == 0 then 1 else cap;
      buckets := map[];
    }

    method SweepFullBuckets(now: real, p: BucketParams)
      requires p.refillPerSec > 0.0 ==> p.capacity >= 0.0 // `Duration::from_secs_f64` panics on a negative argument
      modifies this
      ensures buckets == Swept(old(buckets), now, p)
    {
      if p.refillPerSec <= 0.0 {
        return;
      }
      var fullRefill := p.capacity / p.refillPerSec;
      buckets := map k | k in buckets && Elapsed(now, buckets[k].last) < fullRefill :: buckets[k];
    }

    method TryAcquire(key: string, cost: real, p: BucketParams, now: real) returns (a: Acquired)
      requires key !in buckets && |buckets| >= maxTrackedKeys && p.refillPerSec > 0.0 ==> p.capacity >= 0.0
      modifies this
      ensures (buckets, a) == CappedAcquire(old(buckets), Call(key, cost, now), p, maxTrackedKeys)
    {
      if key !in buckets && |buckets| >= maxTrackedKeys {
        SweepFullBuckets(now, p);
      }
      var bucket := if key in buckets then buckets[key] else Bucket(p.capacity, now);
      var elapsed := Elapsed(now, bucket.last);
      var tokens := Min(bucket.tokens + Accrued(elapsed, p), p.capacity);
      if tokens >= cost {
        tokens := tokens - cost;
        buckets := buckets[key := Bucket(tokens, now)];
        a := Acquired(true, tokens);
      } else {
        buckets := buckets[key := Bucket(tokens, now)];
        a := Acquired(false, tokens);
      }
    }
  }

  // ── runs ──────────────────────────────────────────────────────────────────────────────────────

  function RunStore(bs: Buckets, calls: seq<Call>, p: BucketParams, cap: nat): Buckets
    decreases |calls|
  {
    if calls == [] then bs else RunStore(CappedAcquire(bs, calls[0], p, cap).0, calls[1..], p, cap)
  }

  function RunAnswers(bs: Buckets, calls: seq<Call>, p: BucketParams, cap: nat): seq<Acquired>
    decreases |calls|
  {
    if calls == [] then []
    else
      var (next, a) := CappedAcquire(bs, calls[0], p, cap);
      [a] + RunAnswers(next, calls[1..], p, cap)
  }

  /** The same run on a store that never evicts. */
  function ReferenceAnswers(bs: Buckets, calls: seq<Call>, p: BucketParams): seq<Acquired>
    decreases |calls|
  {
    if calls == [] then []
    else
      var (next, a) := Acquire(bs, calls[0], p);
      [a] + ReferenceAnswers(next, calls[1..], p)
  }

  /** Parameters the rate limiter can configure. */
  predicate ValidParams(p: BucketParams) { p.capacity >= 0.0 && p.refillPerSec >= 0.0 }

  /** A monotonic clock, read from `from` on, and non-negative costs. */
  predicate WellTimed(calls: seq<Call>, from: real) {
    calls == [] || (from <= calls[0].now && calls[0].cost >= 0.0 && WellTimed(calls[1..], calls[0].now))
  }

  /** Store invariant at time `t`. */
  predicate Good(bs: Buckets, t: real, p: BucketParams) {
    forall k :: k in bs ==> 0.0 <= bs[k].tokens <= p.capacity && bs[k].last <= t
  }

  /** Tokens `key` would find at `t`; an untracked key finds a full bucket. */
  function Level(bs: Buckets, key: string, t: real, p: BucketParams): real {
    if key in bs then Refilled(bs[key], t, p) else p.capacity
  }

  lemma AccruedIsMonotone(x: real, y: real, p: BucketParams)
    requires x <= y && p.refillPerSec >= 0.0
    ensures Accrued(x, p) <= Accrued(y, p) && (0.0 <= x ==> 0.0 <= Accrued(x, p))
  {
    assert (y - x) * p.refillPerSec >= 0.0;
  }

  lemma AccruedAdds(x: real, y: real, p: BucketParams)
    ensures Accrued(x + y, p) == Accrued(x, p) + Accrued(y, p)
  {}

  /** A clock reading before the last one earns nothing. */
  lemma EarlierReadingEarnsNothing(b: Bucket, now: real, p: BucketParams)
    requires now <= b.last && b.tokens <= p.capacity
    ensures Refilled(b, now, p) == b.tokens
  {
    assert Elapsed(now, b.last) == 0.0;
  }

  lemma RefillGrows(b: Bucket, t: real, u: real, p: BucketParams)
    requires ValidParams(p) && b.last <= t <= u
    ensures Refilled(b, t, p) <= Refilled(b, u, p) <= Refilled(b, t, p) + Accrued(u - t, p)
  {
    AccruedIsMonotone(t - b.last, u - b.last, p);
    assert Accrued(u - b.last, p) == Accrued(t - b.last, p) + Accrued(u - t, p);
    AccruedIsMonotone(0.0, u - t, p);
  }

  /** A bucket the sweep drops is full then and at every later time. */
  lemma EvictedBucketIsFull(b: Bucket, now: real, u: real, p: BucketParams)
    requires ValidParams(p) && p.refillPerSec > 0.0
    requires 0.0 <= b.tokens && b.last <= now <= u
    requires Elapsed(now, b.last) >= p.capacity / p.refillPerSec
    ensures Refilled(b, u, p) == p.capacity
  {
    AccruedIsMonotone(p.capacity / p.refillPerSec, u - b.last, p);
    assert p.capacity / p.refillPerSec * p.refillPerSec == p.capacity;
  }

  lemma CallKeepsGood(bs: Buckets, c: Call, t: real, p: BucketParams, cap: nat)
    requires ValidParams(p) && Good(bs, t, p) && t <= c.now && c.cost >= 0.0
    ensures Good(CappedAcquire(bs, c, p, cap).0, c.now, p)
    ensures Good(Acquire(bs, c, p).0, c.now, p)
  {
    var b := if c.key in bs then bs[c.key] else Bucket(p.capacity, c.now);
    AccruedIsMonotone(0.0, Elapsed(c.now, b.last), p);
  }

  /** No sweep changes what any other key would find. */
  lemma CallKeepsOtherLevels(bs: Buckets, c: Call, t: real, key: string, u: real, p: BucketParams, cap: nat)
    requires ValidParams(p) && Good(bs, t, p) && t <= c.now <= u && key != c.key
    ensures Level(CappedAcquire(bs, c, p, cap).0, key, u, p) == Level(bs, key, u, p)
  {
    if c.key !in bs && |bs| >= cap && key in bs && key !in Swept(bs, c.now, p) {
      EvictedBucketIsFull(bs[key], c.now, u, p);
    }
  }

  // ── a sweep is invisible ──────────────────────────────────────────────────────────────────────

  /** A call together with the parameters in force, which a reload may have changed. */
  datatype Use = Use(call: Call, params: BucketParams)

  function UseAnswers(bs: Buckets, uses: seq<Use>, cap: nat): seq<Acquired>
    decreases |uses|
  {
    if uses == [] then []
    else
      var (next, a) := CappedAcquire(bs, uses[0].call, uses[0].params, cap);
      [a] + UseAnswers(next, uses[1..], cap)
  }

  /** The same run on a store that never evicts. */
  function UseReference(bs: Buckets, uses: seq<Use>): seq<Acquired>
    decreases |uses|
  {
    if uses == [] then []
    else
      var (next, a) := Acquire(bs, uses[0].call, uses[0].params);
      [a] + UseReference(next, uses[1..])
  }

  predicate WellTimedUses(uses: seq<Use>, from: real) {
    uses == [] || (from <= uses[0].call.now && uses[0].call.cost >= 0.0 && ValidParams(uses[0].params)
                   && WellTimedUses(uses[1..], uses[0].call.now))
  }

  /** The time after which `p` sweeps an idle bucket is enough to fill one under `q`. */
  predicate SweptIsFull(p: BucketParams, q: BucketParams) {
    p.refillPerSec <= 0.0 || q.capacity <= Accrued(p.capacity / p.refillPerSec, q)
  }

  /** No reload in the run lengthens the time to a full bucket. */
  predicate NeverSlower(uses: seq<Use>) {
    forall i, j :: 0 <= i < j < |uses| ==> SweptIsFull(uses[i].params, uses[j].params)
  }

  /** What the store keeps whatever the parameters were. */
  predicate Timely(bs: Buckets, t: real) { forall k :: k in bs ==> 0.0 <= bs[k].tokens && bs[k].last <= t }

  /** `b` looks like a fresh bucket from `t` on. */
  ghost predicate FullFrom(b: Bucket, t: real, q: BucketParams) {
    forall u: real :: t <= u ==> Refilled(b, u, q) == q.capacity
  }

  /** The capped store agrees with the reference except on buckets that every coming use finds full. */
  ghost predicate Simulates(capped: Buckets, full: Buckets, t: real, uses: seq<Use>) {
    && Timely(full, t)
    && (forall k :: k in capped ==> k in full && capped[k] == full[k])
    && (forall k, i :: k in full && k !in capped && 0 <= i < |uses| ==> FullFrom(full[k], t, uses[i].params))
  }

  lemma AcquireKeepsTimely(bs: Buckets, c: Call, t: real, p: BucketParams)
    requires ValidParams(p) && Timely(bs, t) && t <= c.now && c.cost >= 0.0
    ensures Timely(Acquire(bs, c, p).0, c.now)
  {
    var b := if c.key in bs then bs[c.key] else Bucket(p.capacity, c.now);
    AccruedIsMonotone(0.0, Elapsed(c.now, b.last), p);
  }

  /** A bucket swept under `p` is full under `q` from then on if `p` waits long enough for `q`. */
  lemma SweptBucketIsFull(b: Bucket, now: real, p: BucketParams, q: BucketParams)
    requires ValidParams(p) && ValidParams(q) && p.refillPerSec > 0.0 && SweptIsFull(p, q)
    requires 0.0 <= b.tokens && b.last <= now && Elapsed(now, b.last) >= p.capacity / p.refillPerSec
    ensures FullFrom(b, now, q)
  {
    forall u: real | now <= u
      ensures Refilled(b, u, q) == q.capacity
    {
      AccruedIsMonotone(p.capacity / p.refillPerSec, u - b.last, q);
    }
  }

  /** With fixed parameters the sweep always waits long enough. */
  lemma SweptIsFullUnchanged(p: BucketParams)
    requires ValidParams(p)
    ensures SweptIsFull(p, p)
  {
    if p.refillPerSec > 0.0 {
      assert p.capacity / p.refillPerSec * p.refillPerSec == p.capacity;
    }
  }

  /** What the capped store lacks after a call, every later use finds full. */
  lemma MissingStayFull(capped: Buckets, full: Buckets, uses: seq<Use>, t: real, cap: nat, k: string, q: BucketParams)
    requires uses != [] && Timely(full, t) && t <= uses[0].call.now && ValidParams(uses[0].params) && ValidParams(q)
    requires k in capped ==> k in full && capped[k] == full[k]
    requires k in full && k !in capped ==> FullFrom(full[k], t, q)
    requires SweptIsFull(uses[0].params, q)
    ensures var c, p := uses[0].call, uses[0].params;
            var capped', full' := CappedAcquire(capped, c, p, cap).0, Acquire(full, c, p).0;
            k in full' && k !in capped' ==> FullFrom(full'[k], c.now, q)
  {
    var c, p := uses[0].call, uses[0].params;
    var capped', full' := CappedAcquire(capped, c, p, cap).0, Acquire(full, c, p).0;
    if k in full' && k !in capped' {
      assert k != c.key && full'[k] == full[k];
      if k in capped {
        assert k !in Swept(capped, c.now, p);
        SweptBucketIsFull(full[k], c.now, p, q);
      }
    }
  }

  /** A bucket that looks full answers like a missing one. */
  lemma SameAnswer(capped: Buckets, full: Buckets, c: Call, t: real, p: BucketParams, cap: nat)
    requires ValidParams(p) && t <= c.now
    requires c.key in capped ==> c.key in full && capped[c.key] == full[c.key]
    requires c.key in full && c.key !in capped ==> FullFrom(full[c.key], t, p)
    ensures var (capped', a) := CappedAcquire(capped, c, p, cap);
            var (full', b) := Acquire(full, c, p);
            a == b && capped'[c.key] == full'[c.key]
  {
    assert Refilled(Bucket(p.capacity, c.now), c.now, p) == p.capacity;
  }

  lemma CallKeepsSimulation(capped: Buckets, full: Buckets, uses: seq<Use>, t: real, cap: nat)
    requires uses != [] && Simulates(capped, full, t, uses) && WellTimedUses(uses, t) && NeverSlower(uses)
    requires forall i :: 0 <= i < |uses| ==> ValidParams(uses[i].params)
    ensures var c, p := uses[0].call, uses[0].params;
            && CappedAcquire(capped, c, p, cap).1 == Acquire(full, c, p).1
            && Simulates(CappedAcquire(capped, c, p, cap).0, Acquire(full, c, p).0, c.now, uses[1..])
  {
    var c, p := uses[0].call, uses[0].params;
    AcquireKeepsTimely(full, c, t, p);
    SameAnswer(capped, full, c, t, p, cap);
    var capped', full' := CappedAcquire(capped, c, p, cap).0, Acquire(full, c, p).0;
    forall k, i | k in full' && k !in capped' && 0 <= i < |uses[1..]|
      ensures FullFrom(full'[k], c.now, uses[1..][i].params)
    {
      assert uses[1..][i] == uses[i + 1];
      MissingStayFull(capped, full, uses, t, cap, k, uses[i + 1].params);
    }
  }

  lemma {:induction false} SimulationAnswers(capped: Buckets, full: Buckets, uses: seq<Use>, t: real, cap: nat)
    requires Simulates(capped, full, t, uses) && WellTimedUses(uses, t) && NeverSlower(uses)
    requires forall i :: 0 <= i < |uses| ==> ValidParams(uses[i].params)
    ensures UseAnswers(capped, uses, cap) == UseReference(full, uses)
    decreases |uses|
  {
    if uses != [] {
      CallKeepsSimulation(capped, full, uses, t, cap);
      var (c, p) := (uses[0].call, uses[0].params);
      SimulationAnswers(CappedAcquire(capped, c, p, cap).0, Acquire(full, c, p).0, uses[1..], c.now, cap);
    }
  }

  lemma {:induction false} UsesAreValid(uses: seq<Use>, t: real)
    requires WellTimedUses(uses, t)
    ensures forall i :: 0 <= i < |uses| ==> ValidParams(uses[i].params)
    decreases |uses|
  {
    if uses != [] {
      UsesAreValid(uses[1..], uses[0].call.now);
    }
  }

  /** Through any reloads that never lengthen the refill time, every answer is that of an unswept store. */
  lemma SweepIsInvisibleAcrossReloads(uses: seq<Use>, t: real, cap: nat)
    requires WellTimedUses(uses, t) && NeverSlower(uses)
    ensures UseAnswers(map[], uses, cap) == UseReference(map[], uses)
  {
    UsesAreValid(uses, t);
    SimulationAnswers(map[], map[], uses, t, cap);
  }

  function Under(calls: seq<Call>, p: BucketParams): (uses: seq<Use>)
    ensures |uses| == |calls| && forall i :: 0 <= i < |uses| ==> uses[i] == Use(calls[i], p)
  {
    if calls == [] then [] else [Use(calls[0], p)] + Under(calls[1..], p)
  }

  lemma {:induction false} UnderAnswers(bs: Buckets, full: Buckets, calls: seq<Call>, p: BucketParams, cap: nat)
    ensures UseAnswers(bs, Under(calls, p), cap) == RunAnswers(bs, calls, p, cap)
    ensures UseReference(full, Under(calls, p)) == ReferenceAnswers(full, calls, p)
    decreases |calls|
  {
    if calls != [] {
      UnderAnswers(CappedAcquire(bs, calls[0], p, cap).0, Acquire(full, calls[0], p).0, calls[1..], p, cap);
      assert Under(calls, p)[1..] == Under(calls[1..], p);
    }
  }

  lemma {:induction false} UnderIsWellTimed(calls: seq<Call>, p: BucketParams, t: real)
    requires WellTimed(calls, t) && ValidParams(p)
    ensures WellTimedUses(Under(calls, p), t)
    decreases |calls|
  {
    if calls != [] {
      UnderIsWellTimed(calls[1..], p, calls[0].now);
      assert Under(calls, p)[1..] == Under(calls[1..], p);
    }
  }

  /** Every answer of every run equals that of a store that never evicts a bucket. */
  lemma SweepIsInvisible(calls: seq<Call>, t: real, p: BucketParams, cap: nat)
    requires ValidParams(p) && WellTimed(calls, t)
    ensures RunAnswers(map[], calls, p, cap) == ReferenceAnswers(map[], calls, p)
  {
    UnderIsWellTimed(calls, p, t);
    SweptIsFullUnchanged(p);
    SweepIsInvisibleAcrossReloads(Under(calls, p), t, cap);
    UnderAnswers(map[], map[], calls, p, cap);
  }

  /** Calls under `p`, a reload, then calls under `q`. */
  function Reloaded(before: seq<Call>, after: seq<Call>, p: BucketParams, q: BucketParams): seq<Use> {
    Under(before, p) + Under(after, q)
  }

  lemma {:induction false} ReloadedIsWellTimed(
    before: seq<Call>, after: seq<Call>, p: BucketParams, q: BucketParams, t: real)
    requires WellTimed(before + after, t) && ValidParams(p) && ValidParams(q)
    ensures WellTimedUses(Reloaded(before, after, p, q), t)
    decreases |before|
  {
    if before == [] {
      assert before + after == after && Reloaded(before, after, p, q) == Under(after, q);
      UnderIsWellTimed(after, q, t);
    } else {
      var uses, rest := Reloaded(before, after, p, q), Reloaded(before[1..], after, p, q);
      assert (before + after)[0] == before[0] && (before + after)[1..] == before[1..] + after;
      ReloadedIsWellTimed(before[1..], after, p, q, before[0].now);
      assert uses == [Use(before[0], p)] + rest;
      ConsIsWellTimed(Use(before[0], p), rest, t);
    }
  }

  lemma ConsIsWellTimed(u: Use, rest: seq<Use>, t: real)
    requires t <= u.call.now && u.call.cost >= 0.0 && ValidParams(u.params) && WellTimedUses(rest, u.call.now)
    ensures WellTimedUses([u] + rest, t)
  {
    assert ([u] + rest)[1..] == rest;
  }

  /** Capped store and reference answer the run alike. */
  predicate SameAnswers(uses: seq<Use>, cap: nat) { UseAnswers(map[], uses, cap) == UseReference(map[], uses) }

  /** A well-timed run through a reload from `p` to `q` shows no sweep. */
  predicate HidesSweep(before: seq<Call>, after: seq<Call>, t: real, cap: nat, p: BucketParams, q: BucketParams) {
    WellTimed(before + after, t) ==> SameAnswers(Reloaded(before, after, p, q), cap)
  }

  lemma ThreeAnswers(bs: Buckets, x: Use, y: Use, z: Use, cap: nat)
    ensures var (b1, a1) := CappedAcquire(bs, x.call, x.params, cap);
            var (b2, a2) := CappedAcquire(b1, y.call, y.params, cap);
            UseAnswers(bs, [x, y, z], cap) == [a1, a2, CappedAcquire(b2, z.call, z.params, cap).1]
  {
    assert [x, y, z][1..] == [y, z] && [y, z][1..] == [z] && [z][1..] == [];
    var b1 := CappedAcquire(bs, x.call, x.params, cap).0;
    var b2, a2 := CappedAcquire(b1, y.call, y.params, cap).0, CappedAcquire(b1, y.call, y.params, cap).1;
    assert UseAnswers(b2, [z], cap) == [CappedAcquire(b2, z.call, z.params, cap).1];
    assert UseAnswers(b1, [y, z], cap) == [a2] + UseAnswers(b2, [z], cap);
  }

  lemma ThreeReferences(bs: Buckets, x: Use, y: Use, z: Use)
    ensures var (b1, a1) := Acquire(bs, x.call, x.params);
            var (b2, a2) := Acquire(b1, y.call, y.params);
            UseReference(bs, [x, y, z]) == [a1, a2, Acquire(b2, z.call, z.params).1]
  {
    assert [x, y, z][1..] == [y, z] && [y, z][1..] == [z] && [z][1..] == [];
    var b1 := Acquire(bs, x.call, x.params).0;
    var b2, a2 := Acquire(b1, y.call, y.params).0, Acquire(b1, y.call, y.params).1;
    assert UseReference(b2, [z]) == [Acquire(b2, z.call, z.params).1];
    assert UseReference(b1, [y, z]) == [a2] + UseReference(b2, [z]);
  }

  /** Drain one bucket, then let another key sweep it as soon as `p` allows. */
  function DrainThenSweep(p: BucketParams): seq<Call>
    requires p.refillPerSec > 0.0
  {
    [Call("a", p.capacity, 0.0), Call("b", 0.0, p.capacity / p.refillPerSec)]
  }

  /** Ask for a full bucket under `q` at that moment. */
  function AskInFull(p: BucketParams, q: BucketParams): seq<Call>
    requires p.refillPerSec > 0.0
  {
    [Call("a", q.capacity, p.capacity / p.refillPerSec)]
  }

  /** A reload that lengthens the refill time is shown by a bucket swept too soon for it. */
  lemma SlowerReloadShows(p: BucketParams, q: BucketParams)
    requires ValidParams(p) && ValidParams(q) && !SweptIsFull(p, q)
    ensures !HidesSweep(DrainThenSweep(p), AskInFull(p, q), 0.0, 1, p, q)
  {
    var wait := p.capacity / p.refillPerSec;
    assert wait >= 0.0;
    AccruedIsMonotone(0.0, wait, q);
    var drain, sweep, ask := Call("a", p.capacity, 0.0), Call("b", 0.0, wait), Call("a", q.capacity, wait);
    assert DrainThenSweep(p) + AskInFull(p, q) == [drain, sweep, ask];
    assert WellTimed([ask], wait) && WellTimed([sweep, ask], 0.0) by {
      assert [sweep, ask][1..] == [ask] && [ask][1..] == [];
    }
    assert [drain, sweep, ask][1..] == [sweep, ask];
    var x, y, z := Use(drain, p), Use(sweep, p), Use(ask, q);
    assert Reloaded(DrainThenSweep(p), AskInFull(p, q), p, q) == [x, y, z];
    DrainLeavesNothing(p);
    ThreeAnswers(map[], x, y, z, 1);
    SweepDropsDrained(sweep, p);
    MissingAllows(CappedAcquire(DRAINED, sweep, p, 1).0, wait, q);
    ThreeReferences(map[], x, y, z);
    OthersLeaveDrained(sweep, p);
    DrainedDenies(Acquire(DRAINED, sweep, p).0, wait, q);
  }

  const DRAINED: Buckets := map["a" := Bucket(0.0, 0.0)]

  /** Asking for everything leaves nothing. */
  lemma DrainLeavesNothing(p: BucketParams)
    requires ValidParams(p)
    ensures Acquire(map[], Call("a", p.capacity, 0.0), p).0 == DRAINED
  {
    assert Refilled(Bucket(p.capacity, 0.0), 0.0, p) == p.capacity;
  }

  lemma OthersLeaveDrained(c: Call, p: BucketParams)
    requires c.key == "b"
    ensures "a" in Acquire(DRAINED, c, p).0 && Acquire(DRAINED, c, p).0["a"] == Bucket(0.0, 0.0)
  {}

  lemma SweepDropsDrained(c: Call, p: BucketParams)
    requires p.refillPerSec > 0.0 && c.key == "b" && c.now >= 0.0 && c.now >= p.capacity / p.refillPerSec
    ensures "a" !in CappedAcquire(DRAINED, c, p, 1).0
  {
    assert |DRAINED| == 1 && Swept(DRAINED, c.now, p) == map[];
  }

  /** A drained bucket denies what its refill does not reach. */
  lemma DrainedDenies(bs: Buckets, now: real, q: BucketParams)
    requires "a" in bs && bs["a"] == Bucket(0.0, 0.0) && now >= 0.0 && Accrued(now, q) < q.capacity
    ensures !Acquire(bs, Call("a", q.capacity, now), q).1.allowed
  {
    assert Elapsed(now, 0.0) == now;
  }

  lemma MissingAllows(bs: Buckets, now: real, q: BucketParams)
    requires "a" !in bs
    ensures CappedAcquire(bs, Call("a", q.capacity, now), q, 1).1.allowed
  {
    assert Refilled(Bucket(q.capacity, now), now, q) == q.capacity;
  }

  /** A reload from `p` to `q` never reveals a sweep exactly when it does not lengthen the refill time. */
  lemma ReloadHidesSweepIff(p: BucketParams, q: BucketParams)
    requires ValidParams(p) && ValidParams(q)
    ensures (forall before: seq<Call>, after: seq<Call>, t: real, cap: nat :: HidesSweep(before, after, t, cap, p, q))
            <==> SweptIsFull(p, q)
  {
    if SweptIsFull(p, q) {
      SweptIsFullUnchanged(p);
      SweptIsFullUnchanged(q);
      forall before: seq<Call>, after: seq<Call>, t: real, cap: nat
        ensures HidesSweep(before, after, t, cap, p, q)
      {
        if WellTimed(before + after, t) {
          ReloadedIsWellTimed(before, after, p, q, t);
          SweepIsInvisibleAcrossReloads(Reloaded(before, after, p, q), t, cap);
        }
      }
    } else {
      SlowerReloadShows(p, q);
    }
  }

  /**
    The failing case at the rate limiter's cost of one: a store of one key, a burst of one refilled in a
    tenth of a second, then a reload to a burst of ten at one a second.
  */
  lemma ReloadRevealsSweep()
    ensures var fast, slow := BucketParams(1.0, 10.0), BucketParams(10.0, 1.0);
            var uses := Reloaded([Call("a", 1.0, 0.0), Call("b", 1.0, 0.1)], [Call("a", 1.0, 0.1)], fast, slow);
            && UseAnswers(map[], uses, 1) == [Acquired(true, 0.0), Acquired(true, 0.0), Acquired(true, 9.0)]
            && UseReference(map[], uses) == [Acquired(true, 0.0), Acquired(true, 0.0), Acquired(false, 0.1)]
  {
    var fast, slow := BucketParams(1.0, 10.0), BucketParams(10.0, 1.0);
    var x, y, z := Use(Call("a", 1.0, 0.0), fast), Use(Call("b", 1.0, 0.1), fast), Use(Call("a", 1.0, 0.1), slow);
    assert Reloaded([Call("a", 1.0, 0.0), Call("b", 1.0, 0.1)], [Call("a", 1.0, 0.1)], fast, slow) == [x, y, z];
    RevealedAnswers(x, y, z, fast, slow);
    HiddenAnswers(x, y, z, fast, slow);
  }

  lemma RevealedAnswers(x: Use, y: Use, z: Use, fast: BucketParams, slow: BucketParams)
    requires fast == BucketParams(1.0, 10.0) && slow == BucketParams(10.0, 1.0) && x == Use(Call("a", 1.0, 0.0), fast)
    requires y == Use(Call("b", 1.0, 0.1), fast) && z == Use(Call("a", 1.0, 0.1), slow)
    ensures UseAnswers(map[], [x, y, z], 1) == [Acquired(true, 0.0), Acquired(true, 0.0), Acquired(true, 9.0)]
  {
    ThreeAnswers(map[], x, y, z, 1);
    var one: Buckets, swept: Buckets := map["a" := Bucket(0.0, 0.0)], map["b" := Bucket(0.0, 0.1)];
    assert CappedAcquire(map[], x.call, fast, 1) == (one, Acquired(true, 0.0));
    assert |one| == 1 && Swept(one, 0.1, fast) == map[];
    assert CappedAcquire(one, y.call, fast, 1) == (swept, Acquired(true, 0.0));
  }

  lemma HiddenAnswers(x: Use, y: Use, z: Use, fast: BucketParams, slow: BucketParams)
    requires fast == BucketParams(1.0, 10.0) && slow == BucketParams(10.0, 1.0) && x == Use(Call("a", 1.0, 0.0), fast)
    requires y == Use(Call("b", 1.0, 0.1), fast) && z == Use(Call("a", 1.0, 0.1), slow)
    ensures UseReference(map[], [x, y, z]) == [Acquired(true, 0.0), Acquired(true, 0.0), Acquired(false, 0.1)]
  {
    ThreeReferences(map[], x, y, z);
    var one: Buckets := map["a" := Bucket(0.0, 0.0)];
    assert Acquire(map[], x.call, fast) == (one, Acquired(true, 0.0));
    assert Acquire(one, y.call, fast) == (one["b" := Bucket(0.0, 0.1)], Acquired(true, 0.0));
  }

  // ── the rate bound ────────────────────────────────────────────────────────────────────────────

  /** Total cost granted to `key` by the calls of a run made in `[t1, t2]`. */
  function Granted(calls: seq<Call>, answers: seq<Acquired>, key: string, t1: real, t2: real): real
    requires |calls| == |answers|
  {
    if calls == [] then 0.0
    else (if calls[0].key == key && t1 <= calls[0].now <= t2 && answers[0].allowed then calls[0].cost else 0.0)
         + Granted(calls[1..], answers[1..], key, t1, t2)
  }

  lemma {:induction false} NothingGrantedLate(
    calls: seq<Call>, answers: seq<Acquired>, key: string, t: real, t1: real, t2: real)
    requires |calls| == |answers| && WellTimed(calls, t) && t2 < t
    ensures Granted(calls, answers, key, t1, t2) == 0.0
    decreases |calls|
  {
    if calls != [] {
      NothingGrantedLate(calls[1..], answers[1..], key, calls[0].now, t1, t2);
    }
  }

  /** What `key` can be granted from `t` up to `t2`: its level now plus the refill until then. */
  function Budget(bs: Buckets, key: string, t: real, t2: real, p: BucketParams): real {
    Level(bs, key, t, p) + Accrued(t2 - t, p)
  }

  lemma BudgetNonNegative(bs: Buckets, key: string, t: real, t2: real, p: BucketParams)
    requires ValidParams(p) && Good(bs, t, p) && t <= t2
    ensures Budget(bs, key, t, t2, p) >= 0.0
  {
    AccruedIsMonotone(0.0, t2 - t, p);
    if key in bs { AccruedIsMonotone(0.0, t - bs[key].last, p); }
  }

  lemma BudgetWithinCapacity(bs: Buckets, key: string, t: real, t1: real, t2: real, p: BucketParams)
    requires ValidParams(p) && t1 <= t
    ensures Budget(bs, key, t, t2, p) <= p.capacity + Accrued(t2 - t1, p)
  {
    AccruedIsMonotone(t2 - t, t2 - t1, p);
  }

  lemma LevelGrows(bs: Buckets, key: string, t: real, u: real, p: BucketParams)
    requires ValidParams(p) && Good(bs, t, p) && t <= u
    ensures Level(bs, key, u, p) <= Level(bs, key, t, p) + Accrued(u - t, p)
  {
    AccruedIsMonotone(0.0, u - t, p);
    if key in bs { RefillGrows(bs[key], t, u, p); }
  }

  /** The caller's level drops by exactly what was granted. */
  lemma LevelOfCaller(bs: Buckets, c: Call, t: real, p: BucketParams, cap: nat)
    requires ValidParams(p) && Good(bs, t, p) && t <= c.now && c.cost >= 0.0
    ensures var (next, a) := CappedAcquire(bs, c, p, cap);
            && a.allowed == (Level(bs, c.key, c.now, p) >= c.cost)
            && a.tokensRemaining == Level(bs, c.key, c.now, p) - (if a.allowed then c.cost else 0.0)
            && Level(next, c.key, c.now, p) == a.tokensRemaining
  {
    CallKeepsGood(bs, c, t, p, cap);
    var next := CappedAcquire(bs, c, p, cap).0;
    assert Elapsed(c.now, next[c.key].last) * p.refillPerSec == 0.0;
  }

  /** `top` has the capacity and the rate of `p` at least. */
  predicate Within(p: BucketParams, top: BucketParams) {
    ValidParams(p) && p.capacity <= top.capacity && p.refillPerSec <= top.refillPerSec
  }

  function CallsOf(uses: seq<Use>): (calls: seq<Call>)
    ensures |calls| == |uses|
  {
    if uses == [] then [] else [uses[0].call] + CallsOf(uses[1..])
  }

  lemma {:induction false} CallsAreWellTimed(uses: seq<Use>, t: real)
    requires WellTimedUses(uses, t)
    ensures WellTimed(CallsOf(uses), t)
    decreases |uses|
  {
    if uses != [] {
      CallsAreWellTimed(uses[1..], uses[0].call.now);
      assert CallsOf(uses)[1..] == CallsOf(uses[1..]);
    }
  }

  lemma {:induction false} ReferenceLength(bs: Buckets, uses: seq<Use>)
    ensures |UseReference(bs, uses)| == |uses|
    decreases |uses|
  {
    if uses != [] {
      ReferenceLength(Acquire(bs, uses[0].call, uses[0].params).0, uses[1..]);
    }
  }

  lemma RefillWithin(b: Bucket, now: real, p: BucketParams, top: BucketParams)
    requires Within(p, top) && b.last <= now
    ensures Refilled(b, now, p) <= Refilled(b, now, top)
  {
    assert (now - b.last) * (top.refillPerSec - p.refillPerSec) >= 0.0;
    assert Accrued(now - b.last, p) <= Accrued(now - b.last, top);
  }

  /** Under parameters within `top`, a call leaves no more than `top` would account for. */
  lemma LevelAfterUse(bs: Buckets, c: Call, t: real, key: string, p: BucketParams, top: BucketParams)
    requires Within(p, top) && Good(bs, t, top) && t <= c.now && c.cost >= 0.0
    ensures var (next, a) := Acquire(bs, c, p);
            && Good(next, c.now, top)
            && (if c.key == key && a.allowed then c.cost else 0.0) + Level(next, key, c.now, top)
               <= Level(bs, key, c.now, top)
  {
    var b := if c.key in bs then bs[c.key] else Bucket(p.capacity, c.now);
    AccruedIsMonotone(0.0, c.now - b.last, p);
    RefillWithin(b, c.now, p, top);
    var (next, a) := Acquire(bs, c, p);
    assert Refilled(next[c.key], c.now, top) == next[c.key].tokens;
  }

  /** What one call grants to `key` comes out of the budget `top` allows it. */
  lemma BudgetAfterUse(bs: Buckets, c: Call, t: real, t2: real, key: string, p: BucketParams, top: BucketParams)
    requires Within(p, top) && Good(bs, t, top) && t <= c.now && c.cost >= 0.0
    ensures var (next, a) := Acquire(bs, c, p);
            (if c.key == key && a.allowed then c.cost else 0.0) + Budget(next, key, c.now, t2, top)
            <= Budget(bs, key, t, t2, top)
  {
    LevelAfterUse(bs, c, t, key, p, top);
    LevelGrows(bs, key, t, c.now, top);
    AccruedAdds(t2 - c.now, c.now - t, top);
    assert t2 - c.now + (c.now - t) == t2 - t;
  }

  predicate AllWithin(uses: seq<Use>, top: BucketParams) { forall i :: 0 <= i < |uses| ==> Within(uses[i].params, top) }

  /** From any good state on, the unswept store grants within the budget of `top`. */
  lemma {:induction false} UseGrantsWithinBudget(
    bs: Buckets, uses: seq<Use>, key: string, t: real, t1: real, t2: real, top: BucketParams)
    requires Good(bs, t, top) && WellTimedUses(uses, t) && AllWithin(uses, top) && ValidParams(top) && t <= t2
    requires |UseReference(bs, uses)| == |uses|
    ensures Granted(CallsOf(uses), UseReference(bs, uses), key, t1, t2) <= Budget(bs, key, t, t2, top)
    decreases |uses|
  {
    BudgetNonNegative(bs, key, t, t2, top);
    if uses != [] {
      var c, p, answers := uses[0].call, uses[0].params, UseReference(bs, uses);
      var next, rest := Acquire(bs, c, p).0, CallsOf(uses[1..]);
      assert answers[1..] == UseReference(next, uses[1..]) && CallsOf(uses)[1..] == rest;
      CallsAreWellTimed(uses[1..], c.now);
      if c.now > t2 {
        NothingGrantedLate(rest, answers[1..], key, c.now, t1, t2);
      } else {
        LevelAfterUse(bs, c, t, key, p, top);
        UseGrantsWithinBudget(next, uses[1..], key, c.now, t1, t2, top);
        BudgetNonNegative(next, key, c.now, t2, top);
        BudgetAfterUse(bs, c, t, t2, key, p, top);
      }
    }
  }

  lemma {:induction false} UseRateBoundFrom(
    bs: Buckets, uses: seq<Use>, key: string, t: real, t1: real, t2: real, top: BucketParams)
    requires Good(bs, t, top) && WellTimedUses(uses, t) && AllWithin(uses, top) && ValidParams(top) && t1 <= t2
    requires |UseReference(bs, uses)| == |uses|
    ensures Granted(CallsOf(uses), UseReference(bs, uses), key, t1, t2) <= top.capacity + Accrued(t2 - t1, top)
    decreases |uses|
  {
    AccruedIsMonotone(0.0, t2 - t1, top);
    if uses == [] {
    } else if uses[0].call.now < t1 {
      var c, p := uses[0].call, uses[0].params;
      var next := Acquire(bs, c, p).0;
      LevelAfterUse(bs, c, t, key, p, top);
      assert UseReference(bs, uses)[1..] == UseReference(next, uses[1..]) && CallsOf(uses)[1..] == CallsOf(uses[1..]);
      UseRateBoundFrom(next, uses[1..], key, c.now, t1, t2, top);
    } else if t2 < t {
      CallsAreWellTimed(uses, t);
      NothingGrantedLate(CallsOf(uses), UseReference(bs, uses), key, t, t1, t2);
    } else {
      var start := if t <= t1 then t1 else t;
      UseGrantsWithinBudget(bs, uses, key, start, t1, t2, top);
      BudgetWithinCapacity(bs, key, start, t1, t2, top);
    }
  }

  /**
    Through any reloads that never lengthen the refill time, what one key is granted in an interval is at
    most the largest capacity plus the largest rate over the interval.
  */
  lemma RateBoundAcrossReloads(uses: seq<Use>, key: string, t: real, t1: real, t2: real, top: BucketParams, cap: nat)
    requires WellTimedUses(uses, t) && NeverSlower(uses) && AllWithin(uses, top) && ValidParams(top) && t1 <= t2
    ensures |UseAnswers(map[], uses, cap)| == |uses|
    ensures Granted(CallsOf(uses), UseAnswers(map[], uses, cap), key, t1, t2) <= top.capacity + Accrued(t2 - t1, top)
  {
    SweepIsInvisibleAcrossReloads(uses, t, cap);
    ReferenceLength(map[], uses);
    UseRateBoundFrom(map[], uses, key, t, t1, t2, top);
  }

  lemma {:induction false} CallsOfUnder(calls: seq<Call>, p: BucketParams)
    ensures CallsOf(Under(calls, p)) == calls
    decreases |calls|
  {
    if calls != [] {
      CallsOfUnder(calls[1..], p);
      assert Under(calls, p)[1..] == Under(calls[1..], p);
    }
  }

  /** Whatever the other keys do and whenever sweeps happen, one key never beats its budget. */
  lemma RateBound(calls: seq<Call>, key: string, t: real, t1: real, t2: real, p: BucketParams, cap: nat)
    requires ValidParams(p) && WellTimed(calls, t) && t1 <= t2
    ensures |RunAnswers(map[], calls, p, cap)| == |calls|
    ensures Granted(calls, RunAnswers(map[], calls, p, cap), key, t1, t2)
            <= p.capacity + Accrued(t2 - t1, p)
  {
    UnderIsWellTimed(calls, p, t);
    SweptIsFullUnchanged(p);
    UnderAnswers(map[], map[], calls, p, cap);
    CallsOfUnder(calls, p);
    RateBoundAcrossReloads(Under(calls, p), key, t, t1, t2, p, cap);
  }
}
