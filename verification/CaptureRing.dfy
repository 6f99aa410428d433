/** The bounded ring of captured requests of waf-capture (ring.rs). Instants are integers. */
module CaptureRing {
  import opened Prelude

  datatype CapturedRequest = CapturedRequest(
    requestId: string, verb: string, path: string, query: Option<string>,
    headers: seq<(string, string)>, cookies: seq<(string, string)>, bodyB64: string)
  datatype Entry = Entry(req: CapturedRequest, inserted: int, bytes: nat)

  function PairBytes(ps: seq<(string, string)>): nat {
    if ps == [] then 0 else |ps[0].0| + |ps[0].1| + PairBytes(ps[1..])
  }

  function EstimatedBytes(r: CapturedRequest): nat {
    |r.bodyB64| + PairBytes(r.headers) + PairBytes(r.cookies) + |r.requestId| + |r.verb| + |r.path|
    + if r.query.Some? then |r.query.value| else 0
  }

  // ── the ring as a list, oldest capture first ──────────────────────────────────────────────────

  function PairText(ps: seq<(string, string)>): string {
    if ps == [] then "" else ps[0].0 + ps[0].1 + PairText(ps[1..])
  }

  /** All the text a capture holds. */
  function TextOf(r: CapturedRequest): string {
    r.requestId + r.verb + r.path + (if r.query.Some? then r.query.value else "") + PairText(r.headers)
    + PairText(r.cookies) + r.bodyB64
  }

  /** All the text the ring holds. */
  function Stored(es: seq<Entry>): string { if es == [] then "" else TextOf(es[0].req) + Stored(es[1..]) }

  function Held(req: CapturedRequest, stamp: int): Entry { Entry(req, stamp, |TextOf(req)|) }

  function Filter(es: seq<Entry>, keep: Entry -> bool): seq<Entry> {
    if es == [] then [] else (if keep(es[0]) then [es[0]] else []) + Filter(es[1..], keep)
  }

  datatype Limits = Limits(capacity: nat, maxBytes: nat, ttl: nat)

  function Live(es: seq<Entry>, now: int, lim: Limits): seq<Entry> {
    Filter(es, (e: Entry) => now - e.inserted <= lim.ttl)
  }

  function Without(es: seq<Entry>, id: string): seq<Entry> { Filter(es, (e: Entry) => e.req.requestId != id) }

  /** Within both budgets, or down to a single capture. */
  predicate Fits(es: seq<Entry>, lim: Limits) { |es| <= lim.capacity && (|Stored(es)| <= lim.maxBytes || |es| <= 1) }

  function Trim(es: seq<Entry>, lim: Limits): seq<Entry> {
    if es == [] || Fits(es, lim) then es else Trim(es[1..], lim)
  }

  function Inserted(es: seq<Entry>, req: CapturedRequest, swept: int, stamp: int, lim: Limits): seq<Entry> {
    Trim(Without(Live(es, swept, lim), req.requestId) + [Held(req, stamp)], lim)
  }

  lemma {:induction false} PairBytesIsLength(ps: seq<(string, string)>)
    ensures PairBytes(ps) == |PairText(ps)|
  {
    if ps != [] {
      PairBytesIsLength(ps[1..]);
    }
  }

  /** The estimate is the length of all the text a capture holds. */
  lemma EstimateIsLength(r: CapturedRequest)
    ensures EstimatedBytes(r) == |TextOf(r)|
  {
    PairBytesIsLength(r.headers);
    PairBytesIsLength(r.cookies);
  }

  /** Distinct ids, in insertion-time order, none stamped after `now`. */
  predicate WellFormed(es: seq<Entry>, now: int) {
    && (forall i :: 0 <= i < |es| ==> es[i].inserted <= now && es[i].bytes == |TextOf(es[i].req)|)
    && (forall i, j :: 0 <= i < j < |es| ==>
          es[i].req.requestId != es[j].req.requestId && es[i].inserted <= es[j].inserted)
  }

  // ── the shipped representation ────────────────────────────────────────────────────────────────

  /** `VecDeque::retain(|k| k != key)`. */
  function WithoutKey(order: seq<string>, key: string): seq<string> {
    if order == [] then [] else (if order[0] != key then [order[0]] else []) + WithoutKey(order[1..], key)
  }

  function Ids(es: seq<Entry>): seq<string> { seq(|es|, i requires 0 <= i < |es| => es[i].req.requestId) }

  /** Map, queue and byte counter describe one list of captures. */
  ghost predicate Represents(entries: map<string, Entry>, order: seq<string>, totalBytes: int, es: seq<Entry>) {
    && order == Ids(es)
    && (forall e :: e in es ==> e.req.requestId in entries && entries[e.req.requestId] == e)
    && (forall k :: k in entries ==> k in order)
    && totalBytes == |Stored(es)|
  }

  lemma PopRepresents(entries: map<string, Entry>, order: seq<string>, totalBytes: int, es: seq<Entry>, now: int)
    requires Represents(entries, order, totalBytes, es) && WellFormed(es, now) && order != []
    ensures order[0] in entries && entries[order[0]] == es[0] && WellFormed(es[1..], now)
    ensures Represents(entries - {order[0]}, order[1..], totalBytes - es[0].bytes, es[1..])
  {
    assert es[0] in es && order[0] == es[0].req.requestId;
    assert Ids(es)[1..] == Ids(es[1..]);
    TailWellFormed(es, now);
    PopEntries(entries, es, now);
    TailMembers(order);
    assert forall k :: k in entries - {order[0]} ==> k in order[1..];
    assert |Stored(es)| == es[0].bytes + |Stored(es[1..])|;
  }

  lemma PopEntries(entries: map<string, Entry>, es: seq<Entry>, now: int)
    requires es != [] && WellFormed(es, now)
    requires forall e :: e in es ==> e.req.requestId in entries && entries[e.req.requestId] == e
    ensures var rest := entries - {es[0].req.requestId};
            forall e :: e in es[1..] ==> e.req.requestId in rest && rest[e.req.requestId] == e
  {
    var rest := entries - {es[0].req.requestId};
    forall e | e in es[1..]
      ensures e.req.requestId in rest && rest[e.req.requestId] == e
    {
      HeadIdIsUnique(es, e, now);
    }
  }

  lemma TailWellFormed(es: seq<Entry>, now: int)
    requires es != [] && WellFormed(es, now)
    ensures WellFormed(es[1..], now)
  {}

  lemma TailMembers(order: seq<string>)
    requires order != []
    ensures forall k :: k in order && k != order[0] ==> k in order[1..]
  {
    assert order == [order[0]] + order[1..];
  }

  lemma HeadIdIsUnique(es: seq<Entry>, e: Entry, now: int)
    requires es != [] && WellFormed(es, now) && e in es[1..]
    ensures e in es && e.req.requestId != es[0].req.requestId && es[0].inserted <= e.inserted
  {
    var i :| 0 <= i < |es[1..]| && es[1..][i] == e;
    assert es[i + 1] == e;
  }

  lemma RemoveRepresents(
    entries: map<string, Entry>, order: seq<string>, totalBytes: int, es: seq<Entry>, now: int, key: string)
    requires Represents(entries, order, totalBytes, es) && WellFormed(es, now) && key in entries
    ensures entries[key] in es && WellFormed(Without(es, key), now)
    ensures Represents(entries - {key}, WithoutKey(order, key), totalBytes - entries[key].bytes, Without(es, key))
  {
    var keep := (e: Entry) => e.req.requestId != key;
    var p :| 0 <= p < |order| && order[p] == key;
    assert es[p] in es;
    FilterMembers(es, keep);
    FilterKeepsWellFormed(es, keep, now);
    IdsWithout(es, key);
    KeysWithout(order, key);
    StoredWithout(es, key, entries[key], now);
  }

  lemma PushRepresents(
    entries: map<string, Entry>, order: seq<string>, totalBytes: int, es: seq<Entry>, now: int, e: Entry)
    requires Represents(entries, order, totalBytes, es) && WellFormed(es, now) && e.req.requestId !in entries
    requires e.inserted == now && e.bytes == |TextOf(e.req)|
    ensures WellFormed(es + [e], now)
    ensures Represents(entries[e.req.requestId := e], order + [e.req.requestId], totalBytes + e.bytes, es + [e])
  {
    PushKeepsWellFormed(es, e);
    StoredConcat(es, [e]);
    assert Ids(es + [e]) == Ids(es) + [e.req.requestId];
  }

  lemma CountRepresents(entries: map<string, Entry>, order: seq<string>, totalBytes: int, es: seq<Entry>, now: int)
    requires Represents(entries, order, totalBytes, es) && WellFormed(es, now)
    ensures |entries| == |order| == |es|
  {
    forall k | k in order ensures k in entries {
      var i :| 0 <= i < |order| && order[i] == k;
      assert es[i] in es;
    }
    assert entries.Keys == set k | k in order;
    DistinctCount(order);
  }

  lemma FrontRepresents(entries: map<string, Entry>, order: seq<string>, totalBytes: int, es: seq<Entry>)
    requires Represents(entries, order, totalBytes, es) && order != []
    ensures es != [] && order[0] in entries && entries[order[0]] == es[0]
  {
    assert es[0] in es;
  }

  /** `rest` is `start` without its first `k` captures, all expired. */
  ghost predicate ExpiredPrefix(start: seq<Entry>, k: nat, rest: seq<Entry>, now: int, lim: Limits) {
    k <= |start| && rest == start[k..] && forall i :: 0 <= i < k ==> now - start[i].inserted > lim.ttl
  }

  lemma ExpiredLater(start: seq<Entry>, k: nat, rest: seq<Entry>, t: int, u: int, lim: Limits)
    requires ExpiredPrefix(start, k, rest, t, lim) && t <= u
    ensures ExpiredPrefix(start, k, rest, u, lim)
  {}

  lemma ExpiredOneMore(start: seq<Entry>, k: nat, rest: seq<Entry>, now: int, lim: Limits)
    requires ExpiredPrefix(start, k, rest, now, lim) && rest != [] && now - rest[0].inserted > lim.ttl
    ensures ExpiredPrefix(start, k + 1, rest[1..], now, lim)
  {}

  /** A clock that never runs backwards; every reading may be later than the one before. */
  class Clock {
    var time: int

    method Now() returns (t: int)
      modifies this
      ensures old(time) <= time == t
    {
      t :| t >= time;
      time := t;
    }
  }

  class CaptureRing {
    const limits: Limits
    const clock: Clock
    var entries: map<string, Entry>
    var order: seq<string>
    var totalBytes: int
    ghost var contents: seq<Entry>

    ghost predicate Valid()
      reads this, clock
    {
      && limits.capacity >= 1
      && WellFormed(contents, clock.time)
      && Represents(entries, order, totalBytes, contents)
    }

    constructor (capacity: nat, maxBytes: nat, ttl: nat, clock: Clock)
      ensures Valid() && contents == [] && this.clock == clock
      ensures limits == Limits(if capacity == 0 then 1 else capacity, maxBytes, ttl)
    {
      limits := Limits(if capacity == 0 then 1 else capacity, maxBytes, ttl);
      this.clock := clock;
      entries, order, totalBytes, contents := map[], [], 0, [];
    }

    /** Drop the oldest capture. */
    method PopFront()
      requires Valid() && order != []
      modifies this
      ensures Valid() && contents == old(contents)[1..]
    {
      PopRepresents(entries, order, totalBytes, contents, clock.time);
      var oldest := order[0];
      totalBytes := totalBytes - entries[oldest].bytes;
      entries := entries - {oldest};
      order := order[1..];
      contents := contents[1..];
    }

    /** Remove the capture under a live key. */
    method RemoveKey(key: string)
      requires Valid() && key in entries
      modifies this
      ensures Valid() && contents == Without(old(contents), key) && key !in entries
    {
      var left, ids, total := entries - {key}, WithoutKey(order, key), totalBytes - entries[key].bytes;
      ghost var kept := Without(contents, key);
      assert WellFormed(kept, clock.time) && Represents(left, ids, total, kept) by {
        RemoveRepresents(entries, order, totalBytes, contents, clock.time, key);
      }
      entries, order, totalBytes := left, ids, total;
      contents := kept;
    }

    method EvictExpired()
      requires Valid()
      modifies this, clock
      ensures Valid() && old(clock.time) <= clock.time
      ensures contents == Live(old(contents), clock.time, limits)
    {
      ghost var start := contents;
      ghost var dropped := 0;
      while order != []
        invariant Valid() && old(clock.time) <= clock.time
        invariant ExpiredPrefix(start, dropped, contents, clock.time, limits)
        decreases |order|
      {
        FrontRepresents(entries, order, totalBytes, contents);
        var front := order[0];
        ghost var before := clock.time;
        var now := clock.Now();
        WellFormedLater(contents, before, now);
        ExpiredLater(start, dropped, contents, before, now, limits);
        if now - entries[front].inserted > limits.ttl {
          ExpiredOneMore(start, dropped, contents, now, limits);
          PopFront();
          dropped := dropped + 1;
        } else {
          break;
        }
      }
      LiveIsRest(start, dropped, contents, clock.time, limits);
    }

    method Insert(req: CapturedRequest) returns (ghost swept: int, ghost stamp: int)
      requires Valid()
      modifies this, clock
      ensures Valid() && old(clock.time) <= swept <= stamp == clock.time
      ensures contents == Inserted(old(contents), req, swept, stamp, limits)
    {
      var bytes := EstimatedBytes(req);
      EstimateIsLength(req);
      var key := req.requestId;
      EvictExpired();
      swept := clock.time;
      if key in entries {
        RemoveKey(key);
      } else {
        WithoutNone(entries, order, totalBytes, contents, key);
      }
      var now := clock.Now();
      stamp := now;
      WellFormedLater(contents, swept, now);
      PushBack(Entry(req, now, bytes));
      EnforceBudgets();
    }

    /** Append a capture stamped now under an id that is not held. */
    method PushBack(e: Entry)
      requires Valid() && e.req.requestId !in entries && e.inserted == clock.time && e.bytes == |TextOf(e.req)|
      modifies this
      ensures Valid() && contents == old(contents) + [e]
    {
      PushRepresents(entries, order, totalBytes, contents, clock.time, e);
      totalBytes := totalBytes + e.bytes;
      entries := entries[e.req.requestId := e];
      order := order + [e.req.requestId];
      contents := contents + [e];
    }

    /** Evict from the front while over the count or byte budget. */
    method EnforceBudgets()
      requires Valid()
      modifies this
      ensures Valid() && contents == Trim(old(contents), limits)
    {
      while |entries| > limits.capacity || (totalBytes > limits.maxBytes && |entries| > 1)
        invariant Valid()
        invariant Trim(contents, limits) == Trim(old(contents), limits)
        decreases |order|
      {
        CountRepresents(entries, order, totalBytes, contents, clock.time);
        if order == [] {
          break;
        }
        PopFront();
      }
      CountRepresents(entries, order, totalBytes, contents, clock.time);
    }

    method Take(id: string) returns (r: Option<CapturedRequest>)
      requires Valid()
      modifies this, clock
      ensures Valid() && old(clock.time) <= clock.time
      ensures contents == Without(Live(old(contents), clock.time, limits), id)
      ensures r == Found(Live(old(contents), clock.time, limits), id)
    {
      EvictExpired();
      FoundRepresents(entries, order, totalBytes, contents, id);
      if id !in entries {
        WithoutNone(entries, order, totalBytes, contents, id);
        return None;
      }
      r := Some(entries[id].req);
      RemoveKey(id);
    }
  }

  /** The request held under `id`. */
  function Found(es: seq<Entry>, id: string): Option<CapturedRequest> {
    if es == [] then None else if es[0].req.requestId == id then Some(es[0].req) else Found(es[1..], id)
  }

  lemma {:induction false} FoundExact(es: seq<Entry>, id: string)
    ensures match Found(es, id)
            case None => forall e :: e in es ==> e.req.requestId != id
            case Some(req) => req.requestId == id && exists e :: e in es && e.req == req
  {
    if es != [] {
      FoundExact(es[1..], id);
    }
  }

  lemma FoundRepresents(entries: map<string, Entry>, order: seq<string>, totalBytes: int, es: seq<Entry>, id: string)
    requires Represents(entries, order, totalBytes, es)
    ensures Found(es, id) == if id in entries then Some(entries[id].req) else None
  {
    FoundExact(es, id);
    if id in entries {
      var i :| 0 <= i < |order| && order[i] == id;
      assert es[i] in es;
    }
  }

  lemma {:induction false} DistinctCount(order: seq<string>)
    requires forall i, j :: 0 <= i < j < |order| ==> order[i] != order[j]
    ensures |set k | k in order| == |order|
  {
    if order != [] {
      DistinctCount(order[1..]);
      assert (set k | k in order) == (set k | k in order[1..]) + {order[0]};
    }
  }

  // ── filters and sums ──────────────────────────────────────────────────────────────────────────

  lemma {:induction false} FilterAll(es: seq<Entry>, keep: Entry -> bool)
    requires forall i :: 0 <= i < |es| ==> keep(es[i])
    ensures Filter(es, keep) == es
  {
    if es != [] {
      FilterAll(es[1..], keep);
    }
  }

  lemma {:induction false} FilterDropsPrefix(es: seq<Entry>, k: nat, keep: Entry -> bool)
    requires k <= |es| && forall i :: 0 <= i < k ==> !keep(es[i])
    ensures Filter(es, keep) == Filter(es[k..], keep)
  {
    if k > 0 {
      FilterDropsPrefix(es[1..], k - 1, keep);
      assert es[1..][k - 1..] == es[k..];
    } else {
      assert es[0..] == es;
    }
  }

  lemma {:induction false} FilterSplit(
    es: seq<Entry>, p: nat, before: seq<Entry>, after: seq<Entry>, keep: Entry -> bool)
    requires p <= |es| && before == es[..p] && after == es[p..]
    ensures Filter(es, keep) == Filter(before, keep) + Filter(after, keep)
    decreases p
  {
    if p == 0 {
      assert after == es;
    } else {
      assert before[1..] == es[1..][..p - 1] && after == es[1..][p - 1..];
      FilterSplit(es[1..], p - 1, before[1..], after, keep);
    }
  }

  lemma {:induction false} FilterMembers(es: seq<Entry>, keep: Entry -> bool)
    ensures forall e :: e in Filter(es, keep) <==> e in es && keep(e)
  {
    if es != [] {
      FilterMembers(es[1..], keep);
    }
  }

  lemma {:induction false} FilterShrinks(es: seq<Entry>, keep: Entry -> bool)
    ensures |Filter(es, keep)| <= |es| && |Stored(Filter(es, keep))| <= |Stored(es)|
  {
    if es != [] {
      FilterShrinks(es[1..], keep);
      StoredConcat(if keep(es[0]) then [es[0]] else [], Filter(es[1..], keep));
    }
  }

  lemma {:induction false} StoredConcat(a: seq<Entry>, b: seq<Entry>)
    ensures |Stored(a + b)| == |Stored(a)| + |Stored(b)|
  {
    if a == [] {
      assert a + b == b;
    } else {
      StoredConcat(a[1..], b);
      assert (a + b)[1..] == a[1..] + b;
    }
  }

  /** Insertion order is age order, so the expired captures are exactly a prefix. */
  lemma LiveIsSuffix(es: seq<Entry>, k: nat, now: int, lim: Limits)
    requires WellFormed(es, now) && k <= |es|
    requires forall i :: 0 <= i < k ==> now - es[i].inserted > lim.ttl
    requires k < |es| ==> now - es[k].inserted <= lim.ttl
    ensures Live(es, now, lim) == es[k..]
  {
    var keep := (e: Entry) => now - e.inserted <= lim.ttl;
    FilterDropsPrefix(es, k, keep);
    FilterAll(es[k..], keep);
  }

  lemma LiveIsRest(start: seq<Entry>, k: nat, rest: seq<Entry>, now: int, lim: Limits)
    requires ExpiredPrefix(start, k, rest, now, lim) && WellFormed(start, now)
    requires rest != [] ==> now - rest[0].inserted <= lim.ttl
    ensures Live(start, now, lim) == rest
  {
    LiveIsSuffix(start, k, now, lim);
  }

  lemma LiveMembers(es: seq<Entry>, now: int, lim: Limits)
    ensures forall e :: e in Live(es, now, lim) <==> e in es && now - e.inserted <= lim.ttl
  {
    FilterMembers(es, (e: Entry) => now - e.inserted <= lim.ttl);
  }

  lemma WithoutNone(entries: map<string, Entry>, order: seq<string>, totalBytes: int, es: seq<Entry>, id: string)
    requires Represents(entries, order, totalBytes, es) && id !in entries
    ensures Without(es, id) == es
  {
    forall i | 0 <= i < |es| ensures es[i].req.requestId != id {
      assert es[i] in es;
    }
    FilterAll(es, (e: Entry) => e.req.requestId != id);
  }

  lemma {:induction false} FilterKeepsWellFormed(es: seq<Entry>, keep: Entry -> bool, now: int)
    requires WellFormed(es, now)
    ensures WellFormed(Filter(es, keep), now)
  {
    if es != [] {
      var rest := Filter(es[1..], keep);
      FilterKeepsWellFormed(es[1..], keep, now);
      FilterMembers(es[1..], keep);
      forall e | e in rest
        ensures es[0].req.requestId != e.req.requestId && es[0].inserted <= e.inserted
      {
        HeadIdIsUnique(es, e, now);
      }
      ConsKeepsWellFormed(es[0], rest, now);
    }
  }

  lemma ConsKeepsWellFormed(e: Entry, rest: seq<Entry>, now: int)
    requires WellFormed(rest, now) && e.inserted <= now && e.bytes == |TextOf(e.req)|
    requires forall x :: x in rest ==> e.req.requestId != x.req.requestId && e.inserted <= x.inserted
    ensures WellFormed([e] + rest, now)
  {}

  lemma {:induction false} IdsWithout(es: seq<Entry>, key: string)
    ensures WithoutKey(Ids(es), key) == Ids(Without(es, key))
  {
    if es != [] {
      IdsWithout(es[1..], key);
      assert Ids(es)[1..] == Ids(es[1..]);
    }
  }

  lemma {:induction false} KeysWithout(order: seq<string>, key: string)
    ensures forall k :: k in WithoutKey(order, key) <==> k in order && k != key
  {
    if order != [] {
      KeysWithout(order[1..], key);
    }
  }

  lemma {:induction false} StoredWithout(es: seq<Entry>, key: string, gone: Entry, now: int)
    requires WellFormed(es, now) && gone in es && gone.req.requestId == key
    ensures |Stored(Without(es, key))| + gone.bytes == |Stored(es)|
  {
    var keep := (e: Entry) => e.req.requestId != key;
    if es[0] == gone {
      FilterAll(es[1..], keep);
      assert Without(es, key) == Without(es[1..], key);
    } else {
      StoredWithout(es[1..], key, gone, now);
      assert Without(es, key) == [es[0]] + Without(es[1..], key);
    }
  }

  // ── what the budgets keep ─────────────────────────────────────────────────────────────────────

  /** The run of newest captures from index `j` on is within the budgets. */
  predicate FitsFrom(es: seq<Entry>, j: nat, lim: Limits) { j <= |es| && Fits(es[j..], lim) }

  lemma FitsFromTail(es: seq<Entry>, j: nat, lim: Limits)
    requires j < |es|
    ensures FitsFrom(es[1..], j, lim) <==> FitsFrom(es, j + 1, lim)
    ensures es[1..][j..] == es[j + 1..]
  {}

  /** The captures kept are the longest run of newest ones within the budgets. */
  lemma {:induction false} TrimIsLongestFit(es: seq<Entry>, lim: Limits) returns (k: nat)
    requires lim.capacity >= 1
    ensures k <= |es| && Trim(es, lim) == es[k..] && FitsFrom(es, k, lim)
    ensures forall j: nat :: j < k ==> !FitsFrom(es, j, lim)
    ensures es != [] ==> k < |es|
    decreases |es|
  {
    assert es[0..] == es;
    if es == [] || Fits(es, lim) {
      k := 0;
    } else {
      var k' := TrimIsLongestFit(es[1..], lim);
      k := k' + 1;
      FitsFromTail(es, k', lim);
      forall j: nat | j < k
        ensures !FitsFrom(es, j, lim)
      {
        if j > 0 {
          FitsFromTail(es, j - 1, lim);
        }
      }
    }
  }

  /** Every insert leaves the ring within its budgets with the new capture last. */
  lemma InsertKeepsBudgets(es: seq<Entry>, req: CapturedRequest, swept: int, stamp: int, lim: Limits)
    requires lim.capacity >= 1
    ensures var after := Inserted(es, req, swept, stamp, lim);
            Fits(after, lim) && after != [] && after[|after| - 1] == Held(req, stamp)
  {
    var full := Without(Live(es, swept, lim), req.requestId) + [Held(req, stamp)];
    var k := TrimIsLongestFit(full, lim);
  }

  // ── a capture waits for its verdict ───────────────────────────────────────────────────────────

  datatype Op = Insert(req: CapturedRequest, swept: int, stamp: int) | Take(id: string, at: int)

  function Step(es: seq<Entry>, op: Op, lim: Limits): seq<Entry> {
    match op
    case Insert(req, swept, stamp) => Inserted(es, req, swept, stamp, lim)
    case Take(id, at) => Without(Live(es, at, lim), id)
  }

  function Run(es: seq<Entry>, ops: seq<Op>, lim: Limits): seq<Entry>
    decreases |ops|
  {
    if ops == [] then es else Run(Step(es, ops[0], lim), ops[1..], lim)
  }

  /** Captures and bytes that `ops` push into the ring. */
  function Pushed(ops: seq<Op>): nat {
    if ops == [] then 0 else (if ops[0].Insert? then 1 else 0) + Pushed(ops[1..])
  }

  function PushedBytes(ops: seq<Op>): nat {
    if ops == [] then 0 else (if ops[0].Insert? then |TextOf(ops[0].req)| else 0) + PushedBytes(ops[1..])
  }

  /** Clock readings of a run never go back. */
  predicate Timed(ops: seq<Op>, from: int, until: int) {
    if ops == [] then from <= until
    else match ops[0]
         case Insert(_, swept, stamp) => from <= swept <= stamp && Timed(ops[1..], stamp, until)
         case Take(_, at) => from <= at && Timed(ops[1..], at, until)
  }

  lemma WellFormedLater(es: seq<Entry>, t: int, u: int)
    requires WellFormed(es, t) && t <= u
    ensures WellFormed(es, u)
  {}

  lemma RemainderWellFormed(es: seq<Entry>, swept: int, id: string, now: int, lim: Limits)
    requires WellFormed(es, now)
    ensures WellFormed(Without(Live(es, swept, lim), id), now)
    ensures forall e :: e in Without(Live(es, swept, lim), id) ==> e.req.requestId != id
  {
    var live := Live(es, swept, lim);
    FilterKeepsWellFormed(es, (e: Entry) => swept - e.inserted <= lim.ttl, now);
    FilterKeepsWellFormed(live, (e: Entry) => e.req.requestId != id, now);
    FilterMembers(live, (e: Entry) => e.req.requestId != id);
  }

  lemma PushKeepsWellFormed(es: seq<Entry>, e: Entry)
    requires WellFormed(es, e.inserted) && e.bytes == |TextOf(e.req)|
    requires forall x :: x in es ==> x.req.requestId != e.req.requestId
    ensures WellFormed(es + [e], e.inserted)
  {
    forall i | 0 <= i < |es| ensures es[i].req.requestId != e.req.requestId {
      assert es[i] in es;
    }
  }

  lemma StepKeepsWellFormed(es: seq<Entry>, op: Op, from: int, lim: Limits)
    requires WellFormed(es, from) && lim.capacity >= 1
    requires if op.Insert? then from <= op.swept <= op.stamp else from <= op.at
    ensures WellFormed(Step(es, op, lim), if op.Insert? then op.stamp else op.at)
  {
    match op {
      case Insert(req, swept, stamp) =>
        WellFormedLater(es, from, stamp);
        RemainderWellFormed(es, swept, req.requestId, stamp, lim);
        var kept, e := Without(Live(es, swept, lim), req.requestId), Held(req, stamp);
        PushKeepsWellFormed(kept, e);
        var k := TrimIsLongestFit(kept + [e], lim);
      case Take(id, at) =>
        WellFormedLater(es, from, at);
        RemainderWellFormed(es, at, id, at, lim);
    }
  }

  lemma {:induction false} RunKeepsWellFormed(es: seq<Entry>, ops: seq<Op>, from: int, until: int, lim: Limits)
    requires WellFormed(es, from) && Timed(ops, from, until) && lim.capacity >= 1
    ensures WellFormed(Run(es, ops, lim), until)
    decreases |ops|
  {
    if ops == [] {
      WellFormedLater(es, from, until);
    } else {
      StepKeepsWellFormed(es, ops[0], from, lim);
      var at := if ops[0].Insert? then ops[0].stamp else ops[0].at;
      RunKeepsWellFormed(Step(es, ops[0], lim), ops[1..], at, until, lim);
    }
  }

  lemma {:induction false} FoundUnique(es: seq<Entry>, e: Entry, now: int)
    requires WellFormed(es, now) && e in es
    ensures Found(es, e.req.requestId) == Some(e.req)
  {
    if es[0] != e {
      FoundUnique(es[1..], e, now);
    }
  }

  // ── exactly when a verdict finds its capture ──────────────────────────────────────────────────

  /** What lies in the ring from a capture on, after an operation that leaves the capture alone. */
  function Newer(tail: seq<Entry>, op: Op): seq<Entry> {
    match op
    case Insert(req, _, stamp) => Without(tail, req.requestId) + [Held(req, stamp)]
    case Take(id, _) => Without(tail, id)
  }

  /** A capture and everything newer fit the budgets after each operation. */
  predicate RoomFor(tail: seq<Entry>, ops: seq<Op>, lim: Limits)
    decreases |ops|
  {
    ops == [] || (Fits(Newer(tail, ops[0]), lim) && RoomFor(Newer(tail, ops[0]), ops[1..], lim))
  }

  ghost predicate EndsWith(es: seq<Entry>, tail: seq<Entry>) { |tail| <= |es| && es[|es| - |tail|..] == tail }

  lemma FilterEnd(es: seq<Entry>, tail: seq<Entry>, keep: Entry -> bool)
    requires EndsWith(es, tail)
    ensures EndsWith(Filter(es, keep), Filter(tail, keep))
  {
    var p := |es| - |tail|;
    FilterSplit(es, p, es[..p], tail, keep);
  }

  lemma EndMembers(es: seq<Entry>, tail: seq<Entry>, e: Entry)
    requires EndsWith(es, tail) && e in tail
    ensures e in es
  {
    var k :| 0 <= k < |tail| && tail[k] == e;
    assert es[|es| - |tail| + k] == e;
  }

  /** Newer captures expire later. */
  lemma TailIsLive(es: seq<Entry>, tail: seq<Entry>, now: int, at: int, lim: Limits)
    requires EndsWith(es, tail) && tail != [] && WellFormed(es, now) && at - tail[0].inserted <= lim.ttl
    ensures Live(tail, at, lim) == tail
  {
    var p := |es| - |tail|;
    forall i | 0 <= i < |tail|
      ensures at - tail[i].inserted <= lim.ttl
    {
      assert tail[i] == es[p + i] && tail[0] == es[p];
    }
    FilterAll(tail, (e: Entry) => at - e.inserted <= lim.ttl);
  }

  lemma WithoutKeepsHead(tail: seq<Entry>, id: string)
    requires tail != [] && tail[0].req.requestId != id
    ensures Without(tail, id) != [] && Without(tail, id)[0] == tail[0]
  {}

  /** A longer run of newest captures never fits when a shorter one does not. */
  lemma LongerDoesNotFit(full: seq<Entry>, p: nat, j: nat, lim: Limits)
    requires j <= p <= |full| && !FitsFrom(full, p, lim)
    ensures !FitsFrom(full, j, lim)
  {
    assert full[j..] == full[j..p] + full[p..];
    StoredConcat(full[j..p], full[p..]);
  }

  lemma TrimEnd(full: seq<Entry>, next: seq<Entry>, now: int, lim: Limits)
    requires lim.capacity >= 1 && WellFormed(full, now) && EndsWith(full, next) && next != []
    ensures Fits(next, lim) ==> EndsWith(Trim(full, lim), next)
    ensures !Fits(next, lim) ==> next[0] !in Trim(full, lim)
  {
    var p := |full| - |next|;
    var k := TrimIsLongestFit(full, lim);
    if Fits(next, lim) {
      assert FitsFrom(full, p, lim);
      assert k <= p;
      assert full[k..][p - k..] == full[p..];
    } else {
      assert !FitsFrom(full, p, lim);
      if k <= p {
        LongerDoesNotFit(full, p, k, lim);
      }
      OnlyAt(full, p, k, now);
    }
  }

  lemma OnlyAt(full: seq<Entry>, p: nat, k: nat, now: int)
    requires WellFormed(full, now) && p < k <= |full|
    ensures full[p] !in full[k..]
  {
    forall i | k <= i < |full|
      ensures full[i] != full[p]
    {
    }
  }

  predicate TimedOp(op: Op, from: int) { if op.Insert? then from <= op.swept <= op.stamp else from <= op.at }
  function SweepTime(op: Op): int { if op.Insert? then op.swept else op.at }
  function OpId(op: Op): string { if op.Insert? then op.req.requestId else op.id }

  /** What an operation leaves before the budgets are enforced ends with what it leaves of the tail. */
  lemma RemainderEnd(es: seq<Entry>, tail: seq<Entry>, at: int, id: string, now: int, lim: Limits)
    requires EndsWith(es, tail) && tail != [] && WellFormed(es, now) && at - tail[0].inserted <= lim.ttl
    ensures EndsWith(Without(Live(es, at, lim), id), Without(tail, id))
  {
    TailIsLive(es, tail, now, at, lim);
    FilterEnd(es, tail, (e: Entry) => at - e.inserted <= lim.ttl);
    FilterEnd(Live(es, at, lim), tail, (e: Entry) => e.req.requestId != id);
  }

  lemma InsertHoldsIff(es: seq<Entry>, tail: seq<Entry>, op: Op, from: int, lim: Limits)
    requires lim.capacity >= 1 && WellFormed(es, from) && TimedOp(op, from) && op.Insert?
    requires EndsWith(es, tail) && tail != [] && OpId(op) != tail[0].req.requestId
    requires op.swept - tail[0].inserted <= lim.ttl
    ensures Fits(Newer(tail, op), lim) ==> EndsWith(Step(es, op, lim), Newer(tail, op))
    ensures !Fits(Newer(tail, op), lim) ==> tail[0] !in Step(es, op, lim)
  {
    var id, e := op.req.requestId, Held(op.req, op.stamp);
    WellFormedLater(es, from, op.stamp);
    RemainderWellFormed(es, op.swept, id, op.stamp, lim);
    RemainderEnd(es, tail, op.swept, id, from, lim);
    var kept := Without(Live(es, op.swept, lim), id);
    PushKeepsWellFormed(kept, e);
    PushEnd(kept, Without(tail, id), e);
    WithoutKeepsHead(tail, id);
    TrimEnd(kept + [e], Newer(tail, op), op.stamp, lim);
  }

  lemma PushEnd(es: seq<Entry>, tail: seq<Entry>, e: Entry)
    requires EndsWith(es, tail)
    ensures EndsWith(es + [e], tail + [e])
  {}

  lemma TakeHolds(es: seq<Entry>, tail: seq<Entry>, op: Op, from: int, lim: Limits)
    requires WellFormed(es, from) && TimedOp(op, from) && op.Take? && Fits(tail, lim)
    requires EndsWith(es, tail) && tail != [] && op.at - tail[0].inserted <= lim.ttl
    ensures Fits(Newer(tail, op), lim) && EndsWith(Step(es, op, lim), Newer(tail, op))
  {
    RemainderEnd(es, tail, op.at, op.id, from, lim);
    FilterShrinks(tail, (e: Entry) => e.req.requestId != op.id);
  }

  lemma NewerKeepsHead(tail: seq<Entry>, op: Op)
    requires tail != [] && OpId(op) != tail[0].req.requestId
    ensures Newer(tail, op) != [] && Newer(tail, op)[0] == tail[0]
  {
    WithoutKeepsHead(tail, OpId(op));
  }

  /** An entry of the ring is an old one or the one just inserted. */
  lemma StepMembers(es: seq<Entry>, op: Op, lim: Limits, x: Entry)
    requires lim.capacity >= 1 && x in Step(es, op, lim)
    ensures x in es || (op.Insert? && x.req == op.req)
  {
    var at, id := SweepTime(op), OpId(op);
    LiveMembers(es, at, lim);
    FilterMembers(Live(es, at, lim), (e: Entry) => e.req.requestId != id);
    if op.Insert? {
      var full := Without(Live(es, at, lim), id) + [Held(op.req, op.stamp)];
      var k := TrimIsLongestFit(full, lim);
      assert x in full[k..];
    }
  }

  /** If `e` is the only capture of its id, no run of bystanders adds another. */
  lemma {:induction false} NoOtherCapture(es: seq<Entry>, ops: seq<Op>, e: Entry, lim: Limits)
    requires lim.capacity >= 1 && forall i :: 0 <= i < |ops| ==> OpId(ops[i]) != e.req.requestId
    requires forall x :: x in es && x.req.requestId == e.req.requestId ==> x == e
    ensures forall x :: x in Run(es, ops, lim) && x.req.requestId == e.req.requestId ==> x == e
    decreases |ops|
  {
    if ops != [] {
      var next := Step(es, ops[0], lim);
      forall x | x in next && x.req.requestId == e.req.requestId
        ensures x == e
      {
        StepMembers(es, ops[0], lim, x);
      }
      forall i | 0 <= i < |ops[1..]| ensures ops[1..][i] == ops[i + 1] {}
      NoOtherCapture(next, ops[1..], e, lim);
    }
  }

  /** As long as `tail[0]` is live, it is held exactly as long as it and everything newer fit. */
  lemma {:induction false} HeldIff(es: seq<Entry>, tail: seq<Entry>, ops: seq<Op>, from: int, until: int, lim: Limits)
    requires lim.capacity >= 1 && WellFormed(es, from) && Timed(ops, from, until)
    requires EndsWith(es, tail) && tail != [] && Fits(tail, lim) && until - tail[0].inserted <= lim.ttl
    requires forall i :: 0 <= i < |ops| ==> OpId(ops[i]) != tail[0].req.requestId
    ensures tail[0] in Run(es, ops, lim) <==> RoomFor(tail, ops, lim)
    decreases |ops|
  {
    if ops == [] {
      EndMembers(es, tail, tail[0]);
    } else {
      var op, next := ops[0], Newer(tail, ops[0]);
      var at := if op.Insert? then op.stamp else op.at;
      TimedRest(ops, from, until);
      StepKeepsWellFormed(es, op, from, lim);
      NewerKeepsHead(tail, op);
      if op.Insert? {
        InsertHoldsIff(es, tail, op, from, lim);
      } else {
        TakeHolds(es, tail, op, from, lim);
      }
      forall i | 0 <= i < |ops[1..]| ensures ops[1..][i] == ops[i + 1] {}
      if Fits(next, lim) {
        HeldIff(Step(es, op, lim), next, ops[1..], at, until, lim);
      } else {
        LostStaysLost(es, op, ops[1..], tail[0], lim);
      }
    }
  }

  lemma {:induction false} TimedRest(ops: seq<Op>, from: int, until: int)
    requires ops != [] && Timed(ops, from, until)
    ensures var at := if ops[0].Insert? then ops[0].stamp else ops[0].at;
            TimedOp(ops[0], from) && Timed(ops[1..], at, until) && SweepTime(ops[0]) <= at <= until
    decreases |ops|
  {
    if |ops| > 1 {
      TimedRest(ops[1..], if ops[0].Insert? then ops[0].stamp else ops[0].at, until);
    }
  }

  lemma {:induction false} LostStaysLost(es: seq<Entry>, op: Op, ops: seq<Op>, e: Entry, lim: Limits)
    requires lim.capacity >= 1 && e !in Step(es, op, lim)
    requires forall i :: 0 <= i < |ops| ==> OpId(ops[i]) != e.req.requestId
    ensures e !in Run(Step(es, op, lim), ops, lim)
    decreases |ops|
  {
    if ops != [] {
      var next := Step(es, op, lim);
      if e in Step(next, ops[0], lim) {
        StepMembers(next, ops[0], lim, e);
      }
      forall i | 0 <= i < |ops[1..]| ensures ops[1..][i] == ops[i + 1] {}
      LostStaysLost(next, ops[0], ops[1..], e, lim);
    }
  }

  /** The insert leaves the new capture last and alone under its id. */
  lemma InsertedIsAlone(es: seq<Entry>, req: CapturedRequest, swept: int, stamp: int, lim: Limits)
    requires lim.capacity >= 1
    ensures var after, e := Inserted(es, req, swept, stamp, lim), Held(req, stamp);
            EndsWith(after, [e]) && forall x :: x in after && x.req.requestId == req.requestId ==> x == e
  {
    var after, e := Inserted(es, req, swept, stamp, lim), Held(req, stamp);
    InsertKeepsBudgets(es, req, swept, stamp, lim);
    assert after[|after| - 1..] == [e];
    var live := Live(es, swept, lim);
    FilterMembers(live, (x: Entry) => x.req.requestId != req.requestId);
    TrimmedIsAlone(Without(live, req.requestId), e, lim);
  }

  lemma TrimmedIsAlone(kept: seq<Entry>, e: Entry, lim: Limits)
    requires lim.capacity >= 1 && forall x :: x in kept ==> x.req.requestId != e.req.requestId
    ensures forall x :: x in Trim(kept + [e], lim) && x.req.requestId == e.req.requestId ==> x == e
  {
    var k := TrimIsLongestFit(kept + [e], lim);
    assert forall x :: x in (kept + [e])[k..] ==> x in kept + [e];
  }

  /**
    After any history and among any operations on other requests, a verdict finds the request it denied
    if and only if the capture has not expired and it and everything newer fit the budgets throughout.
  */
  lemma VerdictFindsCaptureIff(
    history: seq<Op>, req: CapturedRequest, from: int, swept: int, stamp: int, ops: seq<Op>, now: int, lim: Limits)
    requires lim.capacity >= 1 && Timed(history, from, swept) && swept <= stamp && Timed(ops, stamp, now)
    requires forall i :: 0 <= i < |ops| ==> OpId(ops[i]) != req.requestId
    ensures var inserted := Step(Run([], history, lim), Insert(req, swept, stamp), lim);
            Found(Live(Run(inserted, ops, lim), now, lim), req.requestId) == Some(req)
            <==> now - stamp <= lim.ttl && RoomFor([Held(req, stamp)], ops, lim)
  {
    var before := Run([], history, lim);
    RunKeepsWellFormed([], history, from, swept, lim);
    StepKeepsWellFormed(before, Insert(req, swept, stamp), swept, lim);
    InsertedIsAlone(before, req, swept, stamp, lim);
    FoundIff(Inserted(before, req, swept, stamp, lim), Held(req, stamp), ops, now, lim);
  }

  lemma FoundIff(es: seq<Entry>, e: Entry, ops: seq<Op>, now: int, lim: Limits)
    requires lim.capacity >= 1 && WellFormed(es, e.inserted) && EndsWith(es, [e]) && Timed(ops, e.inserted, now)
    requires forall i :: 0 <= i < |ops| ==> OpId(ops[i]) != e.req.requestId
    requires forall x :: x in es && x.req.requestId == e.req.requestId ==> x == e
    ensures Found(Live(Run(es, ops, lim), now, lim), e.req.requestId) == Some(e.req)
            <==> now - e.inserted <= lim.ttl && RoomFor([e], ops, lim)
  {
    var end := Run(es, ops, lim);
    RunKeepsWellFormed(es, ops, e.inserted, now, lim);
    LiveMembers(end, now, lim);
    FoundIffHeld(end, e, now, lim, es, ops);
    if now - e.inserted <= lim.ttl {
      HeldIff(es, [e], ops, e.inserted, now, lim);
    }
  }

  lemma FoundIffHeld(end: seq<Entry>, e: Entry, now: int, lim: Limits, es: seq<Entry>, ops: seq<Op>)
    requires lim.capacity >= 1 && end == Run(es, ops, lim) && WellFormed(end, now)
    requires forall i :: 0 <= i < |ops| ==> OpId(ops[i]) != e.req.requestId
    requires forall x :: x in es && x.req.requestId == e.req.requestId ==> x == e
    ensures Found(Live(end, now, lim), e.req.requestId) == Some(e.req) <==> e in Live(end, now, lim)
  {
    var live := Live(end, now, lim);
    NoOtherCapture(es, ops, e, lim);
    LiveMembers(end, now, lim);
    FilterKeepsWellFormed(end, (x: Entry) => now - x.inserted <= lim.ttl, now);
    if e in live {
      FoundUnique(live, e, now);
    } else {
      FoundExact(live, e.req.requestId);
    }
  }

  /** Room for all captures still to come is room throughout. */
  lemma {:induction false} BudgetsGiveRoom(tail: seq<Entry>, ops: seq<Op>, lim: Limits)
    requires |tail| + Pushed(ops) <= lim.capacity && |Stored(tail)| + PushedBytes(ops) <= lim.maxBytes
    ensures RoomFor(tail, ops, lim)
    decreases |ops|
  {
    if ops != [] {
      var id := OpId(ops[0]);
      FilterShrinks(tail, (e: Entry) => e.req.requestId != id);
      if ops[0].Insert? {
        var e := Held(ops[0].req, ops[0].stamp);
        StoredConcat(Without(tail, id), [e]);
        assert Stored([e][1..]) == "";
      }
      BudgetsGiveRoom(Newer(tail, ops[0]), ops[1..], lim);
    }
  }

  /** So a verdict that comes in time, before the budgets can be used up, finds the request it denied. */
  lemma VerdictFindsCapture(
    history: seq<Op>, req: CapturedRequest, from: int, swept: int, stamp: int, ops: seq<Op>, now: int, lim: Limits)
    requires lim.capacity >= 1 && Timed(history, from, swept) && swept <= stamp && Timed(ops, stamp, now)
    requires (forall i :: 0 <= i < |ops| ==> OpId(ops[i]) != req.requestId) && now - stamp <= lim.ttl
    requires 1 + Pushed(ops) <= lim.capacity && |TextOf(req)| + PushedBytes(ops) <= lim.maxBytes
    ensures var inserted := Step(Run([], history, lim), Insert(req, swept, stamp), lim);
            Found(Live(Run(inserted, ops, lim), now, lim), req.requestId) == Some(req)
  {
    var e := Held(req, stamp);
    assert Stored([e][1..]) == "";
    BudgetsGiveRoom([e], ops, lim);
    VerdictFindsCaptureIff(history, req, from, swept, stamp, ops, now, lim);
  }

  // ── the budget in terms of the stored text ────────────────────────────────────────────────────

  lemma {:induction false} RunKeepsBudgets(es: seq<Entry>, ops: seq<Op>, lim: Limits)
    requires lim.capacity >= 1 && Fits(es, lim)
    ensures Fits(Run(es, ops, lim), lim)
    decreases |ops|
  {
    if ops != [] {
      match ops[0] {
        case Insert(req, swept, stamp) => InsertKeepsBudgets(es, req, swept, stamp, lim);
        case Take(id, at) =>
          FilterShrinks(es, (e: Entry) => at - e.inserted <= lim.ttl);
          FilterShrinks(Live(es, at, lim), (e: Entry) => e.req.requestId != id);
      }
      RunKeepsBudgets(Step(es, ops[0], lim), ops[1..], lim);
    }
  }

  /** In every run, a ring of two or more captures holds at most `maxBytes` of text, and never too many captures. */
  lemma MemoryBounded(ops: seq<Op>, lim: Limits)
    requires lim.capacity >= 1
    ensures var es := Run([], ops, lim);
            |es| <= lim.capacity && (|es| >= 2 ==> |Stored(es)| <= lim.maxBytes)
  {
    RunKeepsBudgets([], ops, lim);
  }

  /**
    After any history, an insert keeps an unexpired capture of another request exactly when that capture,
    everything newer and the new one are within both budgets.
  */
  lemma KeptIff(history: seq<Op>, req: CapturedRequest, from: int, swept: int, stamp: int, i: nat, lim: Limits)
    requires lim.capacity >= 1 && Timed(history, from, swept) && swept <= stamp
    requires var es := Run([], history, lim);
             i < |es| && es[i].req.requestId != req.requestId && swept - es[i].inserted <= lim.ttl
    ensures var es := Run([], history, lim);
            var newer := Without(es[i..], req.requestId) + [Held(req, stamp)];
            es[i] in Step(es, Insert(req, swept, stamp), lim)
            <==> |newer| <= lim.capacity && |Stored(newer)| <= lim.maxBytes
  {
    var es, op := Run([], history, lim), Insert(req, swept, stamp);
    RunKeepsWellFormed([], history, from, swept, lim);
    var tail := es[i..];
    assert EndsWith(es, tail);
    InsertHoldsIff(es, tail, op, swept, lim);
    NewerKeepsHead(tail, op);
    if Fits(Newer(tail, op), lim) {
      EndMembers(Step(es, op, lim), Newer(tail, op), es[i]);
    }
    WithoutKeepsHead(tail, req.requestId);
  }
}
