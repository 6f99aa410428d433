/** The rate-limit module of waf-detection (rate_limit.rs), driving the token-bucket store. */
module RateLimit {
  import opened Prelude
  import opened TokenBucket

  datatype Action = Block | Score
  datatype Config = Config(enabled: bool, requests: nat, windowSeconds: nat, burst: Option<nat>, action: Action,
      score: nat)
  datatype Decision =
    | Allow
    | Reject(ruleId: string, reason: string, status: nat, retryAfter: Option<nat>)
    | Points(ruleId: string, points: nat)

  function Max(x: nat, y: nat): nat { if x >= y then x else y }

  function Ceil(x: real): int { -(-x).Floor }

  /** The bucket parameters a configuration yields. */
  function ParamsOf(cfg: Config): (p: BucketParams)
    ensures p.capacity >= 1.0 && p.refillPerSec >= 0.0
    ensures p.refillPerSec > 0.0 <==> cfg.requests > 0
  {
    var window := Max(cfg.windowSeconds, 1) as real;
    var burst := if cfg.burst.Some? then cfg.burst.value else cfg.requests;
    QuotientSign(cfg.requests as real, window);
    BucketParams(Max(burst, 1) as real, cfg.requests as real / window)
  }

  lemma QuotientSign(x: real, y: real)
    requires x >= 0.0 && y > 0.0
    ensures x / y >= 0.0 && (x / y > 0.0 <==> x > 0.0)
  {}

  /** Seconds advertised in `Retry-After` when `tokens` are left. */
  function RetryAfter(tokens: real, p: BucketParams): nat {
    if p.refillPerSec <= 0.0 then 1
    else
      var wait := Ceil((1.0 - tokens) / p.refillPerSec);
      if wait <= 1 then 1 else wait
  }

  datatype Visit = Visit(client: string, now: real)

  /** What an inspection leaves in the store and decides: one token is charged to the client. */
  function Decided(bs: Buckets, v: Visit, enabled: bool, p: BucketParams, action: Action, score: nat, cap: nat)
    : (Buckets, Decision)
  {
    if !enabled then (bs, Allow)
    else
      var (next, a) := CappedAcquire(bs, Call(v.client, 1.0, v.now), p, cap);
      var over := match action
        case Block => Reject("rate-limit", "rate limit exceeded", 429, Some(RetryAfter(a.tokensRemaining, p)))
        case Score => Points("rate-limit-exceeded", score);
      (next, if a.allowed then Allow else over)
  }

  class RateLimitModule {
    var enabled: bool
    var params: BucketParams
    var action: Action
    var score: nat
    const store: InMemoryStateStore

    constructor (store: InMemoryStateStore)
      ensures this.store == store && !enabled && params == BucketParams(0.0, 0.0)
    {
      this.store := store;
      enabled, params, action, score := false, BucketParams(0.0, 0.0), Block, 0;
    }

    method Init(cfg: Config)
      modifies this
      ensures enabled == cfg.enabled && params == ParamsOf(cfg) && action == cfg.action && score == cfg.score
    {
      enabled := cfg.enabled;
      params := ParamsOf(cfg);
      action := cfg.action;
      score := cfg.score;
    }

    /** The buckets live in `store`, so a re-`Init` (hot reload) leaves them alone. */
    method Inspect(clientIp: string, now: real) returns (d: Decision)
      requires params.capacity >= 0.0
      modifies store
      ensures (store.buckets, d) == Decided(old(store.buckets), Visit(clientIp, now), enabled, params, action, score,
                                            store.maxTrackedKeys)
    {
      if !enabled {
        return Allow;
      }
      var outcome := store.TryAcquire(clientIp, 1.0, params, now);
      if outcome.allowed {
        return Allow;
      }
      match action {
        case Block =>
          d := Reject("rate-limit", "rate limit exceeded", 429, Some(RetryAfter(outcome.tokensRemaining, params)));
        case Score =>
          d := Points("rate-limit-exceeded", score);
      }
    }
  }

  // ── Retry-After is sufficient and least ───────────────────────────────────────────────────────

  /** Calls of other clients, at times from `from` up to `until`. */
  predicate OthersBetween(calls: seq<Call>, key: string, from: real, until: real) {
    && WellTimed(calls, from)
    && (forall i :: 0 <= i < |calls| ==> calls[i].key != key && calls[i].now <= until)
  }

  /** Other clients, and the sweeps they cause, do not change what `key` finds at `until`. */
  lemma {:induction false} OthersKeepLevel(
    bs: Buckets, calls: seq<Call>, key: string, from: real, until: real, p: BucketParams, cap: nat)
    requires ValidParams(p) && Good(bs, from, p) && from <= until && OthersBetween(calls, key, from, until)
    ensures Good(RunStore(bs, calls, p, cap), until, p)
    ensures Level(RunStore(bs, calls, p, cap), key, until, p) == Level(bs, key, until, p)
    decreases |calls|
  {
    if calls != [] {
      CallKeepsGood(bs, calls[0], from, p, cap);
      CallKeepsOtherLevels(bs, calls[0], from, key, until, p, cap);
      forall i | 0 <= i < |calls[1..]| ensures calls[1..][i] == calls[i + 1] {}
      OthersKeepLevel(CappedAcquire(bs, calls[0], p, cap).0, calls[1..], key, calls[0].now, until, p, cap);
    }
  }

  /** The answer `key` gets `wait` seconds after a call at `now`, others running in between. */
  function NextAnswer(
    bs: Buckets, key: string, now: real, others: seq<Call>, wait: real, p: BucketParams, cap: nat): Acquired {
    var denied := CappedAcquire(bs, Call(key, 1.0, now), p, cap).0;
    CappedAcquire(RunStore(denied, others, p, cap), Call(key, 1.0, now + wait), p, cap).1
  }

  /** After a denial, the next request passes exactly when the tokens left plus the refill reach one. */
  lemma NextAnswerAfterDenial(
    bs: Buckets, key: string, t: real, now: real, others: seq<Call>, wait: real, p: BucketParams, cap: nat)
    requires ValidParams(p) && p.capacity >= 1.0 && Good(bs, t, p) && t <= now && wait >= 0.0
    requires OthersBetween(others, key, now, now + wait)
    requires !CappedAcquire(bs, Call(key, 1.0, now), p, cap).1.allowed
    ensures var left := CappedAcquire(bs, Call(key, 1.0, now), p, cap).1.tokensRemaining;
            NextAnswer(bs, key, now, others, wait, p, cap).allowed <==> left + Accrued(wait, p) >= 1.0
  {
    var c := Call(key, 1.0, now);
    var (denied, a) := CappedAcquire(bs, c, p, cap);
    CallKeepsGood(bs, c, t, p, cap);
    OthersKeepLevel(denied, others, key, now, now + wait, p, cap);
    LevelOfCaller(RunStore(denied, others, p, cap), Call(key, 1.0, now + wait), now + wait, p, cap);
    assert denied[key] == Bucket(a.tokensRemaining, now);
    assert Elapsed(now + wait, now) == wait;
  }

  lemma CeilBounds(x: real)
    ensures (Ceil(x) as real) - 1.0 < x <= Ceil(x) as real
  {}

  lemma QuotientReached(x: real, r: real, n: real)
    requires r > 0.0
    ensures x / r <= n <==> x <= n * r
  {
    assert x == x / r * r;
    if x / r <= n {
      assert (n - x / r) * r >= 0.0;
    } else {
      assert (x / r - n) * r > 0.0;
    }
  }

  /** The whole-second waits that refill one token are exactly those from `RetryAfter` on. */
  lemma RetryAfterIsLeastWait(tokens: real, wait: nat, p: BucketParams)
    requires p.refillPerSec > 0.0 && tokens < 1.0
    ensures wait >= RetryAfter(tokens, p) <==> tokens + Accrued(wait as real, p) >= 1.0
  {
    var x := (1.0 - tokens) / p.refillPerSec;
    CeilBounds(x);
    QuotientReached(1.0 - tokens, p.refillPerSec, wait as real);
    if wait < Ceil(x) {
      assert (wait as real) <= (Ceil(x) as real) - 1.0;
    }
  }

  /** Every state a run reaches is good. */
  lemma {:induction false} RunKeepsGood(
    bs: Buckets, calls: seq<Call>, from: real, until: real, p: BucketParams, cap: nat)
    requires ValidParams(p) && Good(bs, from, p) && from <= until && WellTimed(calls, from)
    requires forall i :: 0 <= i < |calls| ==> calls[i].now <= until
    ensures Good(RunStore(bs, calls, p, cap), until, p)
    decreases |calls|
  {
    if calls != [] {
      CallKeepsGood(bs, calls[0], from, p, cap);
      forall i | 0 <= i < |calls[1..]| ensures calls[1..][i] == calls[i + 1] {}
      RunKeepsGood(CappedAcquire(bs, calls[0], p, cap).0, calls[1..], calls[0].now, until, p, cap);
    }
  }

  /** A run of the store up to `now` whose next request, by `key`, is denied. */
  predicate DeniedAfter(history: seq<Call>, key: string, from: real, now: real, p: BucketParams, cap: nat) {
    && from <= now && WellTimed(history, from) && (forall i :: 0 <= i < |history| ==> history[i].now <= now)
    && !CappedAcquire(RunStore(map[], history, p, cap), Call(key, 1.0, now), p, cap).1.allowed
  }

  /** The header sent with that denial. */
  function AdvertisedWait(history: seq<Call>, key: string, now: real, p: BucketParams, cap: nat): nat {
    RetryAfter(CappedAcquire(RunStore(map[], history, p, cap), Call(key, 1.0, now), p, cap).1.tokensRemaining, p)
  }

  /** A rejected client that waits a whole number of seconds is served exactly from `Retry-After` on. */
  lemma RetryAfterSufficientAndLeast(
    history: seq<Call>, key: string, from: real, now: real, others: seq<Call>, wait: nat, p: BucketParams, cap: nat)
    requires ValidParams(p) && p.refillPerSec > 0.0 && p.capacity >= 1.0
    requires DeniedAfter(history, key, from, now, p, cap)
    requires OthersBetween(others, key, now, now + wait as real)
    ensures NextAnswer(RunStore(map[], history, p, cap), key, now, others, wait as real, p, cap).allowed
            <==> wait >= AdvertisedWait(history, key, now, p, cap)
  {
    var bs := RunStore(map[], history, p, cap);
    RunKeepsGood(map[], history, from, now, p, cap);
    NextAnswerAfterDenial(bs, key, now, now, others, wait as real, p, cap);
    LevelOfCaller(bs, Call(key, 1.0, now), now, p, cap);
    RetryAfterIsLeastWait(CappedAcquire(bs, Call(key, 1.0, now), p, cap).1.tokensRemaining, wait, p);
  }

  /** What configuration validation demands of an enabled limiter's numbers. */
  predicate Accepted(cfg: Config) {
    cfg.enabled ==>
      && cfg.requests > 0 && cfg.windowSeconds > 0 && cfg.burst != Some(0)
      && (cfg.action == Score ==> cfg.score > 0)
  }

  /** Under every configuration that refills at all, `Retry-After` is sufficient and least. */
  lemma ConfiguredRetryAfter(
    cfg: Config, history: seq<Call>, key: string, from: real, now: real, others: seq<Call>, wait: nat, cap: nat)
    requires cfg.requests > 0 && DeniedAfter(history, key, from, now, ParamsOf(cfg), cap)
    requires OthersBetween(others, key, now, now + wait as real)
    ensures var p := ParamsOf(cfg);
            NextAnswer(RunStore(map[], history, p, cap), key, now, others, wait as real, p, cap).allowed
            <==> wait >= AdvertisedWait(history, key, now, p, cap)
  {
    RetryAfterSufficientAndLeast(history, key, from, now, others, wait, ParamsOf(cfg), cap);
  }

  /** So a client of a validated limiter that waits out the header, others running, is served. */
  lemma ValidatedLimiterHonoursRetryAfter(
    cfg: Config, history: seq<Call>, key: string, from: real, now: real, others: seq<Call>, cap: nat)
    requires cfg.enabled && Accepted(cfg) && DeniedAfter(history, key, from, now, ParamsOf(cfg), cap)
    requires OthersBetween(others, key, now, now + AdvertisedWait(history, key, now, ParamsOf(cfg), cap) as real)
    ensures var p := ParamsOf(cfg);
            var wait := AdvertisedWait(history, key, now, p, cap);
            NextAnswer(RunStore(map[], history, p, cap), key, now, others, wait as real, p, cap).allowed
  {
    var wait := AdvertisedWait(history, key, now, ParamsOf(cfg), cap);
    ConfiguredRetryAfter(cfg, history, key, from, now, others, wait, cap);
  }

  /** Without a request budget the header says one second, and no wait is ever enough. */
  lemma NoBudgetNoService(
    cfg: Config, history: seq<Call>, key: string, from: real, now: real, others: seq<Call>, wait: real, cap: nat)
    requires cfg.requests == 0 && DeniedAfter(history, key, from, now, ParamsOf(cfg), cap)
    requires wait >= 0.0 && OthersBetween(others, key, now, now + wait)
    ensures var p := ParamsOf(cfg);
            && AdvertisedWait(history, key, now, p, cap) == 1
            && !NextAnswer(RunStore(map[], history, p, cap), key, now, others, wait, p, cap).allowed
  {
    var p := ParamsOf(cfg);
    var bs := RunStore(map[], history, p, cap);
    RunKeepsGood(map[], history, from, now, p, cap);
    NextAnswerAfterDenial(bs, key, now, now, others, wait, p, cap);
    LevelOfCaller(bs, Call(key, 1.0, now), now, p, cap);
    assert p.refillPerSec == 0.0 && Accrued(wait, p) == 0.0;
  }

  // ── the limiter's law in the terms of its configuration ───────────────────────────────────────

  /** Requests a client may make at once: the burst, else the request budget, and never none. */
  function Burst(cfg: Config): nat {
    var asked := match cfg.burst case None => cfg.requests case Some(n) => n;
    if asked == 0 then 1 else asked
  }

  function Window(cfg: Config): nat { if cfg.windowSeconds == 0 then 1 else cfg.windowSeconds }

  /** The decisions of a module configured with `cfg` over a run of visits. */
  function Decisions(bs: Buckets, visits: seq<Visit>, cfg: Config, cap: nat): (ds: seq<Decision>)
    ensures |ds| == |visits|
    decreases |visits|
  {
    if visits == [] then []
    else
      var (next, d) := Decided(bs, visits[0], cfg.enabled, ParamsOf(cfg), cfg.action, cfg.score, cap);
      [d] + Decisions(next, visits[1..], cfg, cap)
  }

  /** The store after that run. */
  function After(bs: Buckets, visits: seq<Visit>, cfg: Config, cap: nat): Buckets
    decreases |visits|
  {
    if visits == [] then bs
    else After(Decided(bs, visits[0], cfg.enabled, ParamsOf(cfg), cfg.action, cfg.score, cap).0, visits[1..], cfg, cap)
  }

  function Charges(visits: seq<Visit>): (calls: seq<Call>)
    ensures |calls| == |visits|
    ensures forall i :: 0 <= i < |calls| ==> calls[i] == Call(visits[i].client, 1.0, visits[i].now)
  {
    if visits == [] then [] else [Call(visits[0].client, 1.0, visits[0].now)] + Charges(visits[1..])
  }

  /** Visits of `client` in `[t1, t2]` that were let through. */
  function Passed(visits: seq<Visit>, ds: seq<Decision>, client: string, t1: real, t2: real): nat
    requires |ds| == |visits|
  {
    if visits == [] then 0
    else
      (if visits[0].client == client && t1 <= visits[0].now <= t2 && ds[0] == Allow then 1 else 0)
      + Passed(visits[1..], ds[1..], client, t1, t2)
  }

  /** Clock readings from `from` up to `until` that never go back. */
  predicate Chronological(visits: seq<Visit>, from: real, until: real) {
    if visits == [] then from <= until
    else from <= visits[0].now && Chronological(visits[1..], visits[0].now, until)
  }

  predicate Absent(visits: seq<Visit>, client: string) { forall i :: 0 <= i < |visits| ==> visits[i].client != client }

  function Visits(visits: seq<Visit>, client: string): nat {
    if visits == [] then 0 else (if visits[0].client == client then 1 else 0) + Visits(visits[1..], client)
  }

  lemma {:induction false} ChargesAreWellTimed(visits: seq<Visit>, from: real, until: real)
    requires Chronological(visits, from, until)
    ensures WellTimed(Charges(visits), from) && from <= until
    ensures forall i :: 0 <= i < |visits| ==> visits[i].now <= until
    decreases |visits|
  {
    if visits != [] {
      ChargesAreWellTimed(visits[1..], visits[0].now, until);
      assert Charges(visits)[1..] == Charges(visits[1..]);
    }
  }

  lemma {:induction false} RunOfVisits(bs: Buckets, visits: seq<Visit>, cfg: Config, cap: nat)
    requires cfg.enabled
    ensures After(bs, visits, cfg, cap) == RunStore(bs, Charges(visits), ParamsOf(cfg), cap)
    ensures var answers := RunAnswers(bs, Charges(visits), ParamsOf(cfg), cap);
            && |answers| == |visits|
            && forall i :: 0 <= i < |visits| ==> (answers[i].allowed <==> Decisions(bs, visits, cfg, cap)[i] == Allow)
    decreases |visits|
  {
    if visits != [] {
      var next := Decided(bs, visits[0], cfg.enabled, ParamsOf(cfg), cfg.action, cfg.score, cap).0;
      RunOfVisits(next, visits[1..], cfg, cap);
      assert Charges(visits)[1..] == Charges(visits[1..]);
    }
  }

  lemma {:induction false} PassedIsGranted(
    visits: seq<Visit>, ds: seq<Decision>, answers: seq<Acquired>, client: string, t1: real, t2: real)
    requires |visits| == |ds| == |answers|
    requires forall i :: 0 <= i < |visits| ==> (answers[i].allowed <==> ds[i] == Allow)
    ensures Passed(visits, ds, client, t1, t2) as real == Granted(Charges(visits), answers, client, t1, t2)
    decreases |visits|
  {
    if visits != [] {
      PassedIsGranted(visits[1..], ds[1..], answers[1..], client, t1, t2);
      assert Charges(visits)[1..] == Charges(visits[1..]);
    }
  }

  /** A denied visit is rejected with status 429 and the wait that `AdvertisedWait` stands for, or scored. */
  lemma DenialSays(cfg: Config, visits: seq<Visit>, v: Visit, from: real, cap: nat)
    requires cfg.enabled && Chronological(visits, from, v.now)
    ensures var d := Decided(After(map[], visits, cfg, cap), v, true, ParamsOf(cfg), cfg.action, cfg.score, cap).1;
            if DeniedAfter(Charges(visits), v.client, from, v.now, ParamsOf(cfg), cap) then
              d == match cfg.action
                   case Block => Reject("rate-limit", "rate limit exceeded", 429,
                                        Some(AdvertisedWait(Charges(visits), v.client, v.now, ParamsOf(cfg), cap)))
                   case Score => Points("rate-limit-exceeded", cfg.score)
            else d == Allow
  {
    ChargesAreWellTimed(visits, from, v.now);
    RunOfVisits(map[], visits, cfg, cap);
  }

  /** What a configuration refills in `dt` seconds. */
  function RefillOver(cfg: Config, dt: real): real { cfg.requests as real * dt / Window(cfg) as real }

  lemma MovedQuotient(x: real, y: real, z: real)
    requires z > 0.0
    ensures y * (x / z) == x * y / z
  {
    var q := x / z;
    assert q * z == x;
    assert x * y == y * q * z;
  }

  lemma AccruedIsRefill(cfg: Config, dt: real)
    ensures Accrued(dt, ParamsOf(cfg)) == RefillOver(cfg, dt)
    ensures ParamsOf(cfg).capacity == Burst(cfg) as real
  {
    MovedQuotient(cfg.requests as real, dt, Window(cfg) as real);
  }

  /** In every run a client is let through at most its burst plus the refill of the interval. */
  lemma ConfiguredRateBound(
    cfg: Config, visits: seq<Visit>, client: string, from: real, until: real, t1: real, t2: real, cap: nat)
    requires cfg.enabled && Chronological(visits, from, until) && t1 <= t2
    ensures Passed(visits, Decisions(map[], visits, cfg, cap), client, t1, t2) as real
            <= Burst(cfg) as real + RefillOver(cfg, t2 - t1)
  {
    var p := ParamsOf(cfg);
    ChargesAreWellTimed(visits, from, until);
    RunOfVisits(map[], visits, cfg, cap);
    var ds, answers := Decisions(map[], visits, cfg, cap), RunAnswers(map[], Charges(visits), p, cap);
    PassedIsGranted(visits, ds, answers, client, t1, t2);
    RateBound(Charges(visits), client, from, t1, t2, p, cap);
    AccruedIsRefill(cfg, t2 - t1);
  }

  /** Visits at one instant take whole tokens until none is left. */
  lemma {:induction false} InstantLevel(
    bs: Buckets, visits: seq<Visit>, client: string, now: real, left: nat, cfg: Config, cap: nat)
    requires cfg.enabled && Good(bs, now, ParamsOf(cfg)) && Level(bs, client, now, ParamsOf(cfg)) == left as real
    requires forall i :: 0 <= i < |visits| ==> visits[i].now == now
    ensures var after, n := After(bs, visits, cfg, cap), Visits(visits, client);
            && Good(after, now, ParamsOf(cfg))
            && Level(after, client, now, ParamsOf(cfg)) == (if n <= left then left - n else 0) as real
    decreases |visits|
  {
    if visits != [] {
      var next, left' := VisitAtInstant(bs, visits[0], client, now, left, cfg, cap);
      InstantLevel(next, visits[1..], client, now, left', cfg, cap);
    }
  }

  /** So a visit passes exactly when fewer came before it than there were tokens. */
  lemma {:induction false} InstantDecision(
    bs: Buckets, visits: seq<Visit>, client: string, now: real, left: nat, cfg: Config, cap: nat, i: nat)
    requires cfg.enabled && Good(bs, now, ParamsOf(cfg)) && Level(bs, client, now, ParamsOf(cfg)) == left as real
    requires forall k :: 0 <= k < |visits| ==> visits[k].now == now
    requires i < |visits| && visits[i].client == client
    ensures Decisions(bs, visits, cfg, cap)[i] == Allow <==> Visits(visits[..i], client) < left
    decreases |visits|
  {
    var next, left' := VisitAtInstant(bs, visits[0], client, now, left, cfg, cap);
    if i > 0 {
      var rest := visits[1..];
      assert visits[..i][1..] == rest[..i - 1];
      InstantDecision(next, rest, client, now, left', cfg, cap, i - 1);
    }
  }

  lemma VisitAtInstant(bs: Buckets, v: Visit, client: string, now: real, left: nat, cfg: Config, cap: nat)
    returns (next: Buckets, left': nat)
    requires cfg.enabled && Good(bs, now, ParamsOf(cfg)) && Level(bs, client, now, ParamsOf(cfg)) == left as real
    requires v.now == now
    ensures var (after, d) := Decided(bs, v, cfg.enabled, ParamsOf(cfg), cfg.action, cfg.score, cap);
            && next == after && (v.client == client ==> (d == Allow <==> left > 0))
    ensures Good(next, now, ParamsOf(cfg)) && Level(next, client, now, ParamsOf(cfg)) == left' as real
    ensures left' == if v.client == client && left > 0 then left - 1 else left
  {
    var p, c := ParamsOf(cfg), Call(v.client, 1.0, now);
    next := CappedAcquire(bs, c, p, cap).0;
    left' := if v.client == client && left > 0 then left - 1 else left;
    CallKeepsGood(bs, c, now, p, cap);
    if v.client == client {
      LevelOfCaller(bs, c, now, p, cap);
    } else {
      CallKeepsOtherLevels(bs, c, now, client, now, p, cap);
    }
  }

  /** A client the limiter has not seen finds a full bucket. */
  lemma UnseenFindsBurst(cfg: Config, history: seq<Visit>, client: string, from: real, now: real, cap: nat)
    requires cfg.enabled && Chronological(history, from, now) && Absent(history, client)
    ensures Good(After(map[], history, cfg, cap), now, ParamsOf(cfg))
    ensures Level(After(map[], history, cfg, cap), client, now, ParamsOf(cfg)) == Burst(cfg) as real
  {
    ChargesAreWellTimed(history, from, now);
    RunOfVisits(map[], history, cfg, cap);
    OthersKeepLevel(map[], Charges(history), client, from, now, ParamsOf(cfg), cap);
    AccruedIsRefill(cfg, 0.0);
  }

  /** At one instant, whoever else visits, a new client's visits pass exactly until it has used its burst. */
  lemma NewClientGetsBurst(
    cfg: Config, history: seq<Visit>, visits: seq<Visit>, client: string, from: real, now: real, cap: nat)
    requires cfg.enabled && Chronological(history, from, now) && Absent(history, client)
    requires forall i :: 0 <= i < |visits| ==> visits[i].now == now
    ensures forall i :: 0 <= i < |visits| && visits[i].client == client ==>
              (Decisions(After(map[], history, cfg, cap), visits, cfg, cap)[i] == Allow
               <==> Visits(visits[..i], client) < Burst(cfg))
  {
    UnseenFindsBurst(cfg, history, client, from, now, cap);
    var before := After(map[], history, cfg, cap);
    forall i | 0 <= i < |visits| && visits[i].client == client
      ensures Decisions(before, visits, cfg, cap)[i] == Allow <==> Visits(visits[..i], client) < Burst(cfg)
    {
      InstantDecision(before, visits, client, now, Burst(cfg), cfg, cap, i);
    }
  }

  /** An empty bucket holds after `wait` seconds what was refilled since. */
  lemma EmptyRefills(bs: Buckets, client: string, now: real, wait: real, p: BucketParams)
    requires ValidParams(p) && p.capacity >= 1.0 && Good(bs, now, p) && wait >= 0.0 && Level(bs, client, now, p) == 0.0
    ensures Level(bs, client, now + wait, p) == Min(Accrued(wait, p), p.capacity)
  {
    var dt := now - bs[client].last;
    AccruedAdds(dt, wait, p);
    assert Elapsed(now + wait, bs[client].last) == dt + wait;
  }

  lemma RefillReachesOne(cfg: Config, wait: real)
    ensures RefillOver(cfg, wait) >= 1.0 <==> cfg.requests as real * wait >= Window(cfg) as real
  {
    var x, w := cfg.requests as real * wait, Window(cfg) as real;
    QuotientReached(-x, w, -1.0);
    assert -x / w == -(x / w);
  }

  lemma OneDecision(bs: Buckets, v: Visit, cfg: Config, cap: nat)
    requires cfg.enabled
    ensures Decisions(bs, [v], cfg, cap) == [Allow]
            <==> CappedAcquire(bs, Call(v.client, 1.0, v.now), ParamsOf(cfg), cap).1.allowed
  {
    var ds, d := Decisions(bs, [v], cfg, cap), Decided(bs, v, true, ParamsOf(cfg), cfg.action, cfg.score, cap).1;
    assert ds[0] == d && ds == [d];
  }

  /** The answer to a client with an empty bucket after `wait` seconds, others running. */
  lemma EmptyClientWaits(
    drained: Buckets, others: seq<Visit>, client: string, now: real, wait: real, cfg: Config, cap: nat)
    requires cfg.enabled && Good(drained, now, ParamsOf(cfg)) && Level(drained, client, now, ParamsOf(cfg)) == 0.0
    requires wait >= 0.0 && Chronological(others, now, now + wait) && Absent(others, client)
    ensures Decisions(After(drained, others, cfg, cap), [Visit(client, now + wait)], cfg, cap) == [Allow]
            <==> cfg.requests as real * wait >= Window(cfg) as real
  {
    var p, later := ParamsOf(cfg), After(drained, others, cfg, cap);
    ChargesAreWellTimed(others, now, now + wait);
    RunOfVisits(drained, others, cfg, cap);
    OthersKeepLevel(drained, Charges(others), client, now, now + wait, p, cap);
    EmptyRefills(drained, client, now, wait, p);
    LevelOfCaller(later, Call(client, 1.0, now + wait), now + wait, p, cap);
    AccruedIsRefill(cfg, wait);
    RefillReachesOne(cfg, wait);
    OneDecision(later, Visit(client, now + wait), cfg, cap);
  }

  /**
    A client that has used its burst is let through again once `window / requests` seconds have passed, and not
    before, whatever others do meanwhile.
  */
  lemma DrainedClientWaits(cfg: Config, history: seq<Visit>, visits: seq<Visit>, others: seq<Visit>, client: string,
                           from: real, now: real, wait: real, cap: nat)
    requires cfg.enabled && Chronological(history, from, now) && Absent(history, client)
    requires (forall i :: 0 <= i < |visits| ==> visits[i].now == now) && Visits(visits, client) >= Burst(cfg)
    requires wait >= 0.0 && Chronological(others, now, now + wait) && Absent(others, client)
    ensures var drained := After(After(map[], history, cfg, cap), visits, cfg, cap);
            Decisions(After(drained, others, cfg, cap), [Visit(client, now + wait)], cfg, cap) == [Allow]
            <==> cfg.requests as real * wait >= Window(cfg) as real
  {
    var before := After(map[], history, cfg, cap);
    UnseenFindsBurst(cfg, history, client, from, now, cap);
    InstantLevel(before, visits, client, now, Burst(cfg), cfg, cap);
    EmptyClientWaits(After(before, visits, cfg, cap), others, client, now, wait, cfg, cap);
  }
}
