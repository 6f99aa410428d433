/** The decision-log correlator of the control plane (ingest.rs). */
module Correlator {
  import opened Prelude

  datatype ReqCtx = ReqCtx(verb: Option<string>, path: Option<string>, clientIp: Option<string>)
  /** A log line that parsed as JSON; `details` stands for the fields copied through. */
  datatype LogLine = LogLine(message: string, requestId: Option<string>, ctx: ReqCtx, details: string)
  datatype DecisionEvent = DecisionEvent(requestId: string, ctx: ReqCtx, decision: string, details: string)

  const NO_CTX := ReqCtx(None, None, None)

  /** Contexts by request id, and the queue of ids in insertion order. */
  datatype Buffer = Buffer(entries: map<string, ReqCtx>, order: seq<string>)

  const EMPTY := Buffer(map[], [])

  function Evicted(b: Buffer, cap: nat): Buffer
    decreases |b.order|
  {
    if |b.order| <= cap then b else Evicted(Buffer(b.entries - {b.order[0]}, b.order[1..]), cap)
  }

  /** A known id only replaces its context; a new one takes a slot. */
  function Inserted(b: Buffer, id: string, ctx: ReqCtx, cap: nat): Buffer {
    if id in b.entries then Buffer(b.entries[id := ctx], b.order)
    else Evicted(Buffer(b.entries[id := ctx], b.order + [id]), cap)
  }

  /** The slot of a taken id stays in the queue. */
  function Taken(b: Buffer, id: string): Buffer { Buffer(b.entries - {id}, b.order) }

  function Context(b: Buffer, id: string): Option<ReqCtx> { if id in b.entries then Some(b.entries[id]) else None }

  function DecisionOf(message: string): string { if message == "request blocked" then "blocked" else "rejected" }

  class Correlator {
    const cap: nat
    var entries: map<string, ReqCtx>
    var order: seq<string>

    constructor (cap: nat)
      ensures this.cap == cap && Contents() == EMPTY
    {
      this.cap, entries, order := cap, map[], [];
    }

    function Contents(): Buffer
      reads this
    {
      Buffer(entries, order)
    }

    method Insert(id: string, ctx: ReqCtx)
      modifies this
      ensures Contents() == Inserted(old(Contents()), id, ctx, cap)
    {
      var known := id in entries;
      entries := entries[id := ctx];
      if !known {
        order := order + [id];
        while |order| > cap
          invariant Evicted(Contents(), cap) == Inserted(old(Contents()), id, ctx, cap)
          decreases |order|
        {
          entries := entries - {order[0]};
          order := order[1..];
        }
      }
    }

    method Take(id: string) returns (r: Option<ReqCtx>)
      modifies this
      ensures r == Context(old(Contents()), id) && Contents() == Taken(old(Contents()), id)
    {
      r := if id in entries then Some(entries[id]) else None;
      entries := entries - {id};
    }

    /** One log line; `None` is a line that is not JSON. */
    method CorrelateLine(line: Option<LogLine>) returns (event: Option<DecisionEvent>)
      modifies this
      ensures (Contents(), event) == Correlated(old(Contents()), line, cap)
    {
      if line.None? {
        return None;
      }
      var v := line.value;
      if v.requestId.None? {
        return None;
      }
      var id := v.requestId.value;
      if v.message == REQUEST {
        Insert(id, v.ctx);
        return None;
      }
      if v.message == "request blocked" || v.message == "request rejected" {
        var joined := Take(id);
        var ctx := if joined.Some? then joined.value else NO_CTX;
        return Some(DecisionEvent(id, ctx, DecisionOf(v.message), v.details));
      }
      return None;
    }
  }

  const REQUEST := "\U{2192} request"

  predicate IsRequest(line: Option<LogLine>) {
    line.Some? && line.value.requestId.Some? && line.value.message == REQUEST
  }

  predicate IsDecision(line: Option<LogLine>) {
    && line.Some? && line.value.requestId.Some?
    && (line.value.message == "request blocked" || line.value.message == "request rejected")
  }

  /** What one line leaves in the buffer and reports. */
  function Correlated(b: Buffer, line: Option<LogLine>, cap: nat): (Buffer, Option<DecisionEvent>) {
    if IsRequest(line) then (Inserted(b, line.value.requestId.value, line.value.ctx, cap), None)
    else if IsDecision(line) then
      var id := line.value.requestId.value;
      var joined := Context(b, id);
      (Taken(b, id), Some(DecisionEvent(id, if joined.Some? then joined.value else NO_CTX,
                                        DecisionOf(line.value.message), line.value.details)))
    else (b, None)
  }

  // ── runs ──────────────────────────────────────────────────────────────────────────────────────

  datatype Op = Insert(id: string, ctx: ReqCtx) | Take(id: string)

  function Step(b: Buffer, op: Op, cap: nat): Buffer {
    match op
    case Insert(id, ctx) => Inserted(b, id, ctx, cap)
    case Take(id) => Taken(b, id)
  }

  function Run(b: Buffer, ops: seq<Op>, cap: nat): Buffer
    decreases |ops|
  {
    if ops == [] then b else Run(Step(b, ops[0], cap), ops[1..], cap)
  }

  /** Every live id is queued and the queue is within the cap. */
  predicate Bounded(b: Buffer, cap: nat) {
    |b.order| <= cap && forall k :: k in b.entries ==> k in b.order
  }

  /** A push at the cap costs exactly the oldest slot. */
  lemma PushEvicts(b: Buffer, id: string, ctx: ReqCtx, cap: nat)
    requires Bounded(b, cap) && id !in b.entries
    ensures var full := Buffer(b.entries[id := ctx], b.order + [id]);
            Inserted(b, id, ctx, cap) ==
            if |b.order| < cap then full else Buffer(full.entries - {full.order[0]}, full.order[1..])
  {
    var full := Buffer(b.entries[id := ctx], b.order + [id]);
    var popped := Buffer(full.entries - {full.order[0]}, full.order[1..]);
    assert |b.order| == cap ==> Evicted(popped, cap) == popped;
  }

  lemma StepKeepsBounded(b: Buffer, op: Op, cap: nat)
    requires Bounded(b, cap)
    ensures Bounded(Step(b, op, cap), cap)
  {
    if op.Insert? && op.id !in b.entries {
      PushEvicts(b, op.id, op.ctx, cap);
      var full := b.order + [op.id];
      forall k | k in b.entries || k == op.id ensures k == full[0] || k in full[1..] {
        assert k in full;
      }
    }
  }

  lemma {:induction false} RunKeepsBounded(b: Buffer, ops: seq<Op>, cap: nat)
    requires Bounded(b, cap)
    ensures Bounded(Run(b, ops, cap), cap)
    decreases |ops|
  {
    if ops != [] {
      StepKeepsBounded(b, ops[0], cap);
      RunKeepsBounded(Step(b, ops[0], cap), ops[1..], cap);
    }
  }

  lemma {:induction false} SeqCoversSet(s: set<string>, order: seq<string>)
    requires forall k :: k in s ==> k in order
    ensures |s| <= |order|
    decreases |order|
  {
    if order != [] {
      SeqCoversSet(s - {order[0]}, order[1..]);
    }
  }

  /** Memory is bounded in every run: at most `cap` slots and at most `cap` contexts. */
  lemma MemoryBounded(ops: seq<Op>, cap: nat)
    ensures var b := Run(EMPTY, ops, cap);
            |b.order| <= cap && |b.entries| <= cap && forall k :: k in b.entries ==> k in b.order
  {
    RunKeepsBounded(EMPTY, ops, cap);
    var b := Run(EMPTY, ops, cap);
    SeqCoversSet(b.entries.Keys, b.order);
  }

  // ── joining ───────────────────────────────────────────────────────────────────────────────────

  /** Slots pushed by `ops`. */
  function Pushes(b: Buffer, ops: seq<Op>, cap: nat): nat
    decreases |ops|
  {
    if ops == [] then 0
    else (if ops[0].Insert? && ops[0].id !in b.entries then 1 else 0) + Pushes(Step(b, ops[0], cap), ops[1..], cap)
  }

  /** The last context inserted for `id`. */
  function Latest(ops: seq<Op>, id: string, ctx: ReqCtx): ReqCtx
    decreases |ops|
  {
    if ops == [] then ctx else Latest(ops[1..], id, if ops[0].Insert? && ops[0].id == id then ops[0].ctx else ctx)
  }

  /** `id` is live and `p` is its first slot. */
  predicate HeldAt(b: Buffer, id: string, p: nat) {
    && id in b.entries && p < |b.order| && b.order[p] == id
    && forall q :: 0 <= q < p ==> b.order[q] != id
  }

  lemma {:induction false} HeldUntilPushedOut(b: Buffer, id: string, p: nat, ops: seq<Op>, cap: nat)
    requires Bounded(b, cap) && HeldAt(b, id, p) && forall i :: 0 <= i < |ops| ==> ops[i] != Take(id)
    requires |b.order| - p + Pushes(b, ops, cap) <= cap
    ensures Context(Run(b, ops, cap), id) == Some(Latest(ops, id, b.entries[id]))
    decreases |ops|
  {
    if ops != [] {
      var op := ops[0];
      var next := Step(b, op, cap);
      StepKeepsBounded(b, op, cap);
      forall i | 0 <= i < |ops[1..]| ensures ops[1..][i] == ops[i + 1] {}
      if op.Insert? && op.id !in b.entries {
        PushEvicts(b, op.id, op.ctx, cap);
        HeldUntilPushedOut(next, id, if |b.order| < cap then p else p - 1, ops[1..], cap);
      } else {
        HeldUntilPushedOut(next, id, p, ops[1..], cap);
      }
    }
  }

  lemma FreshInsertHeld(b: Buffer, id: string, ctx: ReqCtx, cap: nat)
    requires Bounded(b, cap) && id !in b.order && cap > 0
    ensures var next := Inserted(b, id, ctx, cap);
            next.order != [] && HeldAt(next, id, |next.order| - 1) && next.entries[id] == ctx
  {
    PushEvicts(b, id, ctx, cap);
  }

  /**
    In any reachable buffer, a request id with no slot in the queue is joined to its latest context
    by the decision line, if it was not taken before and fewer than `cap` slots were pushed since.
  */
  lemma RequestIsJoined(history: seq<Op>, id: string, ctx: ReqCtx, ops: seq<Op>, cap: nat)
    requires id !in Run(EMPTY, history, cap).order && forall i :: 0 <= i < |ops| ==> ops[i] != Take(id)
    requires Pushes(Inserted(Run(EMPTY, history, cap), id, ctx, cap), ops, cap) < cap
    ensures Context(Run(Inserted(Run(EMPTY, history, cap), id, ctx, cap), ops, cap), id) == Some(Latest(ops, id, ctx))
  {
    var b := Run(EMPTY, history, cap);
    RunKeepsBounded(EMPTY, history, cap);
    FreshInsertHeld(b, id, ctx, cap);
    StepKeepsBounded(b, Insert(id, ctx), cap);
    var next := Inserted(b, id, ctx, cap);
    HeldUntilPushedOut(next, id, |next.order| - 1, ops, cap);
  }

  // ── log lines ─────────────────────────────────────────────────────────────────────────────────

  function AfterLines(b: Buffer, lines: seq<Option<LogLine>>, cap: nat): Buffer
    decreases |lines|
  {
    if lines == [] then b else AfterLines(Correlated(b, lines[0], cap).0, lines[1..], cap)
  }

  /** The buffer operations that lines come to. */
  function OpsOf(lines: seq<Option<LogLine>>): seq<Op> {
    if lines == [] then []
    else
      (if IsRequest(lines[0]) then [Insert(lines[0].value.requestId.value, lines[0].value.ctx)]
       else if IsDecision(lines[0]) then [Take(lines[0].value.requestId.value)]
       else [])
      + OpsOf(lines[1..])
  }

  lemma {:induction false} LinesAreOps(b: Buffer, lines: seq<Option<LogLine>>, cap: nat)
    ensures AfterLines(b, lines, cap) == Run(b, OpsOf(lines), cap)
    decreases |lines|
  {
    if lines != [] {
      LinesAreOps(Correlated(b, lines[0], cap).0, lines[1..], cap);
      if IsRequest(lines[0]) || IsDecision(lines[0]) {
        assert OpsOf(lines)[1..] == OpsOf(lines[1..]);
      } else {
        assert OpsOf(lines) == OpsOf(lines[1..]);
      }
    }
  }

  lemma {:induction false} OpsWithoutTake(lines: seq<Option<LogLine>>, id: string)
    requires forall i :: 0 <= i < |lines| ==> !(IsDecision(lines[i]) && lines[i].value.requestId == Some(id))
    ensures forall i :: 0 <= i < |OpsOf(lines)| ==> OpsOf(lines)[i] != Take(id)
    decreases |lines|
  {
    if lines != [] {
      forall i | 0 <= i < |lines[1..]| ensures lines[1..][i] == lines[i + 1] {}
      OpsWithoutTake(lines[1..], id);
    }
  }

  /** Exactly the decision lines with an id are reported, under that id, as what they say was decided. */
  lemma ReportedExactly(b: Buffer, line: Option<LogLine>, cap: nat)
    ensures var event := Correlated(b, line, cap).1;
            && (event.Some? <==> && line.Some? && line.value.requestId.Some?
                                 && line.value.message in ["request blocked", "request rejected"])
            && (event.Some? ==>
                  && event.value.requestId == line.value.requestId.value && event.value.details == line.value.details
                  && (line.value.message == "request blocked" ==> event.value.decision == "blocked")
                  && (line.value.message == "request rejected" ==> event.value.decision == "rejected"))
            && (event.Some? && event.value.requestId !in b.entries ==> event.value.ctx == ReqCtx(None, None, None))
  {
    assert |REQUEST| == 9;
  }

  /**
    After any lines, the decision line of a request is reported with the context of its latest request line, if
    the id had no slot in the queue, was not decided before and fewer than `cap` slots were pushed since.
  */
  lemma DecisionIsJoined(history: seq<Option<LogLine>>, request: LogLine, lines: seq<Option<LogLine>>,
                         decision: LogLine, id: string, cap: nat)
    requires request.message == "\U{2192} request" && request.requestId == Some(id)
    requires decision.message in ["request blocked", "request rejected"] && decision.requestId == Some(id)
    requires id !in AfterLines(EMPTY, history, cap).order
    requires forall i :: 0 <= i < |lines| ==> !(IsDecision(lines[i]) && lines[i].value.requestId == Some(id))
    requires Pushes(Correlated(AfterLines(EMPTY, history, cap), Some(request), cap).0, OpsOf(lines), cap) < cap
    ensures var seen := AfterLines(Correlated(AfterLines(EMPTY, history, cap), Some(request), cap).0, lines, cap);
            var event := Correlated(seen, Some(decision), cap).1;
            event.Some? && event.value.ctx == Latest(OpsOf(lines), id, request.ctx)
  {
    LinesAreOps(EMPTY, history, cap);
    LinesAreOps(Correlated(AfterLines(EMPTY, history, cap), Some(request), cap).0, lines, cap);
    OpsWithoutTake(lines, id);
    RequestIsJoined(OpsOf(history), id, request.ctx, OpsOf(lines), cap);
    assert |REQUEST| == 9;
  }

  lemma {:induction false} GoneStaysGone(b: Buffer, id: string, ops: seq<Op>, cap: nat)
    requires id !in b.entries && forall i :: 0 <= i < |ops| ==> ops[i].id != id
    ensures id !in Run(b, ops, cap).entries
    decreases |ops|
  {
    if ops != [] {
      if ops[0].Insert? {
        EvictedShrinks(Buffer(b.entries[ops[0].id := ops[0].ctx], b.order + [ops[0].id]), cap);
      }
      GoneStaysGone(Step(b, ops[0], cap), id, ops[1..], cap);
    }
  }

  lemma {:induction false} EvictedShrinks(b: Buffer, cap: nat)
    ensures forall k :: k in Evicted(b, cap).entries ==> k in b.entries
    decreases |b.order|
  {
    if |b.order| > cap {
      EvictedShrinks(Buffer(b.entries - {b.order[0]}, b.order[1..]), cap);
    }
  }

  /**
    Without further lines about it, a live id survives exactly until `cap` slots follow its first
    one. A slot left over from an earlier take counts, so a reused id can go early.
  */
  lemma {:induction false} HeldIff(b: Buffer, id: string, p: nat, ops: seq<Op>, cap: nat)
    requires Bounded(b, cap) && HeldAt(b, id, p) && forall i :: 0 <= i < |ops| ==> ops[i].id != id
    ensures id in Run(b, ops, cap).entries <==> |b.order| - p + Pushes(b, ops, cap) <= cap
    decreases |ops|
  {
    if ops != [] {
      var op := ops[0];
      var next := Step(b, op, cap);
      StepKeepsBounded(b, op, cap);
      forall i | 0 <= i < |ops[1..]| ensures ops[1..][i] == ops[i + 1] {}
      if op.Insert? && op.id !in b.entries {
        PushEvicts(b, op.id, op.ctx, cap);
        if |b.order| == cap && p == 0 {
          GoneStaysGone(next, id, ops[1..], cap);
        } else {
          HeldIff(next, id, if |b.order| < cap then p else p - 1, ops[1..], cap);
        }
      } else {
        HeldIff(next, id, p, ops[1..], cap);
      }
    }
  }

  lemma FirstInsert(ctx: ReqCtx)
    ensures Inserted(EMPTY, "a", ctx, 2) == Buffer(map["a" := ctx], ["a"])
  {
    assert EMPTY.order + ["a"] == ["a"];
  }

  lemma TakenLeavesSlot(ctx: ReqCtx)
    ensures Taken(Buffer(map["a" := ctx], ["a"]), "a") == Buffer(map[], ["a"])
  {
    assert map["a" := ctx] - {"a"} == map[];
  }

  lemma SecondInsert(ctx: ReqCtx)
    ensures Inserted(Buffer(map[], ["a"]), "a", ctx, 2) == Buffer(map["a" := ctx], ["a", "a"])
  {
    assert ["a"] + ["a"] == ["a", "a"];
  }

  lemma PushLosesReused(ctx: ReqCtx)
    ensures "a" !in Inserted(Buffer(map["a" := ctx], ["a", "a"]), "b", ctx, 2).entries
  {
    PushEvicts(Buffer(map["a" := ctx], ["a", "a"]), "b", ctx, 2);
  }

  lemma RunThree(b: Buffer, x: Op, y: Op, z: Op, cap: nat)
    ensures Run(b, [x, y, z], cap) == Step(Step(Step(b, x, cap), y, cap), z, cap)
  {
    assert [x, y, z][1..] == [y, z] && [y, z][1..] == [z] && [z][1..] == [];
    var b1 := Step(b, x, cap);
    assert Run(Step(b1, y, cap), [z], cap) == Step(Step(b1, y, cap), z, cap);
    assert Run(b1, [y, z], cap) == Run(Step(b1, y, cap), [z], cap);
  }

  /** A stale slot evicts early: taken and seen again, `a` is gone after one push in a queue of two. */
  lemma StaleSlotEvictsEarly(ctx: ReqCtx)
    ensures var reused := Run(EMPTY, [Insert("a", ctx), Take("a"), Insert("a", ctx)], 2);
            && "a" in reused.entries && reused.order == ["a", "a"]
            && "a" !in Inserted(reused, "b", ctx, 2).entries
  {
    RunThree(EMPTY, Insert("a", ctx), Take("a"), Insert("a", ctx), 2);
    FirstInsert(ctx);
    TakenLeavesSlot(ctx);
    SecondInsert(ctx);
    PushLosesReused(ctx);
  }
}
