/**
  The SIEM forwarder of the control plane (siem_forward.rs) over its event tables and cursor store
  (store.rs). Each query is one atomic step; delivery and failures are outcomes given from outside.
*/
module SiemForward {
  import opened Prelude

  datatype Stream = Decisions | Audit | Alerts
  /** An event row: its id (or audit sequence number) and its timestamp. */
  datatype Row = Row(id: int, ts: int)

  datatype Tables = Tables(decisions: seq<Row>, audit: seq<Row>, alerts: seq<Row>) {
    function Of(s: Stream): seq<Row> {
      match s
      case Decisions => decisions
      case Audit => audit
      case Alerts => alerts
    }

    function With(s: Stream, rows: seq<Row>): Tables {
      match s
      case Decisions => this.(decisions := rows)
      case Audit => this.(audit := rows)
      case Alerts => this.(alerts := rows)
    }
  }

  // ── queries ───────────────────────────────────────────────────────────────────────────────────

  predicate Ascending(rows: seq<Row>) { forall i, j :: 0 <= i < j < |rows| ==> rows[i].id < rows[j].id }

  /** Rows with `id > after`, in the table's id order. */
  function Since(rows: seq<Row>, after: int): seq<Row> {
    if rows == [] then [] else (if rows[0].id > after then [rows[0]] else []) + Since(rows[1..], after)
  }

  function Take(rows: seq<Row>, limit: nat): seq<Row> { if |rows| <= limit then rows else rows[..limit] }

  /** One export batch. */
  function Batch(rows: seq<Row>, cursor: int, limit: nat): seq<Row> { Take(Since(rows, cursor), limit) }

  /** Retention: rows older than the cutoff go; the audit log is never pruned. */
  function Pruned(rows: seq<Row>, stream: Stream, cutoff: int): seq<Row>
    decreases |rows|
  {
    if stream == Audit || rows == [] then rows
    else (if rows[0].ts < cutoff then [] else [rows[0]]) + Pruned(rows[1..], stream, cutoff)
  }

  // ── the forwarder ─────────────────────────────────────────────────────────────────────────────

  type Job = (string, Stream)
  type Cursors = map<Job, int>

  /** What the outside does to one cycle: the reads, the sink's answer, the cursor write, and why one failed. */
  datatype Outcome = Outcome(readOk: bool, acked: bool, writeOk: bool, error: string)
  datatype StreamStatus = StreamStatus(lastCursor: int, lastDelivered: nat, lastError: Option<string>)
  type Statuses = map<Job, StreamStatus>
  datatype Result = Delivered(count: nat) | Error(reason: string)

  const NO_STATUS := StreamStatus(0, 0, None)

  function CursorOf(cursors: Cursors, job: Job): int { if job in cursors then cursors[job] else 0 }

  /** The cursor one cycle leaves: it moves only when a whole batch was acked and the write succeeded. */
  function Advanced(rows: seq<Row>, cursor: int, limit: nat, o: Outcome): int {
    var batch := Batch(rows, cursor, limit);
    if o.readOk && batch != [] && o.acked && o.writeOk then batch[|batch| - 1].id else cursor
  }

  /** The cursor table after one cycle of `job`. */
  function CycleCursors(t: Tables, cursors: Cursors, job: Job, limit: nat, o: Outcome): Cursors {
    var cursor := CursorOf(cursors, job);
    if o.readOk && Batch(t.Of(job.1), cursor, limit) != [] && o.acked && o.writeOk
    then cursors[job := Advanced(t.Of(job.1), cursor, limit, o)] else cursors
  }

  /** The cursor table after a flush, job by job; `ts[i]` are the tables job `i` reads. */
  function FlushedCursors(
    ts: seq<Tables>, cursors: Cursors, jobs: seq<Job>, outcomes: seq<Outcome>, limit: nat): Cursors
    requires |jobs| == |outcomes| == |ts|
    decreases |jobs|
  {
    if jobs == [] then cursors
    else
      var n := |jobs| - 1;
      var before := FlushedCursors(ts[..n], cursors, jobs[..n], outcomes[..n], limit);
      CycleCursors(ts[n], before, jobs[n], limit, outcomes[n])
  }

  function StatusOf(status: Statuses, job: Job): StreamStatus { if job in status then status[job] else NO_STATUS }

  /** The status entry one cycle writes, if any: an ack that was stored, or a refused delivery. */
  function StatusAfter(rows: seq<Row>, cursor: int, was: StreamStatus, limit: nat, o: Outcome): Option<StreamStatus> {
    var batch := Batch(rows, cursor, limit);
    if !o.readOk || batch == [] || (o.acked && !o.writeOk) then None
    else if o.acked then Some(was.(lastCursor := batch[|batch| - 1].id, lastDelivered := |batch|))
    else Some(was.(lastError := Some(o.error)))
  }

  /** The status table after one cycle of `job`. */
  function CycleStatus(t: Tables, cursors: Cursors, status: Statuses, job: Job, limit: nat, o: Outcome): Statuses {
    match StatusAfter(t.Of(job.1), CursorOf(cursors, job), StatusOf(status, job), limit, o)
    case None => status
    case Some(s) => status[job := s]
  }

  /** The status table after a flush, job by job. */
  function FlushedStatus(
    ts: seq<Tables>, cursors: Cursors, status: Statuses, jobs: seq<Job>, outcomes: seq<Outcome>, limit: nat): Statuses
    requires |jobs| == |outcomes| == |ts|
    decreases |jobs|
  {
    if jobs == [] then status
    else
      var n := |jobs| - 1;
      CycleStatus(ts[n], FlushedCursors(ts[..n], cursors, jobs[..n], outcomes[..n], limit),
                  FlushedStatus(ts[..n], cursors, status, jobs[..n], outcomes[..n], limit), jobs[n], limit, outcomes[n])
  }

  /** What a cycle returns. */
  function ResultOf(rows: seq<Row>, cursor: int, limit: nat, o: Outcome): Result {
    var batch := Batch(rows, cursor, limit);
    if !o.readOk then Error(o.error)
    else if batch == [] then Delivered(0)
    else if o.acked && o.writeOk then Delivered(|batch|)
    else Error(o.error)
  }

  /** The rows one cycle hands to a sink that acks them. */
  function Shipped(rows: seq<Row>, cursor: int, limit: nat, o: Outcome): seq<Row> {
    if o.readOk && o.acked then Batch(rows, cursor, limit) else []
  }

  class SiemForwarder {
    const batchSize: nat
    var tables: Tables
    var cursors: Cursors
    var status: Statuses

    constructor (batchSize: nat)
      ensures this.batchSize == batchSize && tables == Tables([], [], []) && cursors == map[] && status == map[]
    {
      this.batchSize := batchSize;
      tables, cursors, status := Tables([], [], []), map[], map[];
    }

    /**
      A batch and the cursor to store once it is acked. From a table in id order it is exactly the rows
      past `after` up to the new cursor, as many as the batch size allows.
    */
    method Fetch(stream: Stream, after: int) returns (events: seq<Row>, maxId: int)
      ensures events == Batch(tables.Of(stream), after, batchSize)
      ensures events != [] ==> maxId == events[|events| - 1].id
      ensures Ascending(tables.Of(stream)) ==>
                && Ascending(events)
                && (forall r :: r in events <==> r in tables.Of(stream) && after < r.id <= maxId)
                && |events| == Least(batchSize, Remaining(tables.Of(stream), after))
                && (Remaining(tables.Of(stream), maxId) == Remaining(tables.Of(stream), after) - |events|)
    {
      events := Batch(tables.Of(stream), after, batchSize);
      maxId := if events == [] then after else events[|events| - 1].id;
      if Ascending(tables.Of(stream)) {
        FetchedExact(tables.Of(stream), after, batchSize, events, maxId);
      }
    }

    method ForwardStream(dest: string, stream: Stream, o: Outcome) returns (r: Result, ghost sent: seq<Row>)
      modifies this`cursors, this`status
      ensures cursors == CycleCursors(tables, old(cursors), (dest, stream), batchSize, o)
      ensures status == CycleStatus(tables, old(cursors), old(status), (dest, stream), batchSize, o)
      ensures r == ResultOf(tables.Of(stream), CursorOf(old(cursors), (dest, stream)), batchSize, o)
      ensures sent == Shipped(tables.Of(stream), CursorOf(old(cursors), (dest, stream)), batchSize, o)
    {
      sent := [];
      if !o.readOk {
        return Error(o.error), sent;
      }
      var cursor := CursorOf(cursors, (dest, stream));
      var events, maxId := Fetch(stream, cursor);
      if events == [] {
        return Delivered(0), sent;
      }
      var s := StatusOf(status, (dest, stream));
      if o.acked {
        sent := events;
        if !o.writeOk {
          return Error(o.error), sent;
        }
        cursors := cursors[(dest, stream) := maxId];
        status := status[(dest, stream) := s.(lastCursor := maxId, lastDelivered := |events|)];
        return Delivered(|events|), sent;
      } else {
        status := status[(dest, stream) := s.(lastError := Some(o.error))];
        return Error(o.error), sent;
      }
    }

    /** One flush cycle; a failing stream never blocks the others, and the tables may change between jobs. */
    method ForwardOnce(jobs: seq<Job>, outcomes: seq<Outcome>, seen: seq<Tables>)
      requires |jobs| == |outcomes| == |seen|
      modifies this
      ensures cursors == FlushedCursors(seen, old(cursors), jobs, outcomes, batchSize)
      ensures status == FlushedStatus(seen, old(cursors), old(status), jobs, outcomes, batchSize)
    {
      for i := 0 to |jobs|
        invariant cursors == FlushedCursors(seen[..i], old(cursors), jobs[..i], outcomes[..i], batchSize)
        invariant status == FlushedStatus(seen[..i], old(cursors), old(status), jobs[..i], outcomes[..i], batchSize)
      {
        assert jobs[..i + 1][..i] == jobs[..i] && outcomes[..i + 1][..i] == outcomes[..i]
            && seen[..i + 1][..i] == seen[..i];
        tables := seen[i];
        var r, sent := ForwardStream(jobs[i].0, jobs[i].1, outcomes[i]);
      }
      assert jobs[..|jobs|] == jobs && outcomes[..|outcomes|] == outcomes && seen[..|seen|] == seen;
    }
  }

  /** The status entry of a job, written or not. */
  function Entry(status: Statuses, job: Job): Option<StreamStatus> { if job in status then Some(status[job]) else None }

  /** The entry a job's own cycle alone would leave. */
  function EntryAfter(
    t: Tables, cursors: Cursors, status: Statuses, job: Job, limit: nat, o: Outcome): Option<StreamStatus> {
    var s := StatusAfter(t.Of(job.1), CursorOf(cursors, job), StatusOf(status, job), limit, o);
    if s.Some? then s else Entry(status, job)
  }

  lemma CycleTouchesOnlyItsCursor(t: Tables, cursors: Cursors, job: Job, limit: nat, o: Outcome, other: Job)
    ensures CursorOf(CycleCursors(t, cursors, job, limit, o), other)
            == if other == job then Advanced(t.Of(job.1), CursorOf(cursors, job), limit, o)
                else CursorOf(cursors, other)
  {}

  lemma CycleTouchesOnlyItsStatus(
    t: Tables, cursors: Cursors, status: Statuses, job: Job, limit: nat, o: Outcome, other: Job)
    ensures Entry(CycleStatus(t, cursors, status, job, limit, o), other)
            == if other == job then EntryAfter(t, cursors, status, job, limit, o) else Entry(status, other)
  {}

  predicate DistinctJobs(jobs: seq<Job>) { forall i, j :: 0 <= i < j < |jobs| ==> jobs[i] != jobs[j] }

  lemma {:induction false} FlushedCursorOther(
    ts: seq<Tables>, cursors: Cursors, jobs: seq<Job>, outcomes: seq<Outcome>, limit: nat, job: Job)
    requires |jobs| == |outcomes| == |ts| && job !in jobs
    ensures CursorOf(FlushedCursors(ts, cursors, jobs, outcomes, limit), job) == CursorOf(cursors, job)
    decreases |jobs|
  {
    if jobs != [] {
      var n := |jobs| - 1;
      var c := FlushedCursors(ts[..n], cursors, jobs[..n], outcomes[..n], limit);
      FlushedCursorOther(ts[..n], cursors, jobs[..n], outcomes[..n], limit, job);
      CycleTouchesOnlyItsCursor(ts[n], c, jobs[n], limit, outcomes[n], job);
    }
  }

  lemma {:induction false} FlushedCursorAt(
    ts: seq<Tables>, cursors: Cursors, jobs: seq<Job>, outcomes: seq<Outcome>, limit: nat, i: nat)
    requires |jobs| == |outcomes| == |ts| && DistinctJobs(jobs) && i < |jobs|
    ensures CursorOf(FlushedCursors(ts, cursors, jobs, outcomes, limit), jobs[i])
            == Advanced(ts[i].Of(jobs[i].1), CursorOf(cursors, jobs[i]), limit, outcomes[i])
    decreases |jobs|
  {
    var n := |jobs| - 1;
    var c := FlushedCursors(ts[..n], cursors, jobs[..n], outcomes[..n], limit);
    CycleTouchesOnlyItsCursor(ts[n], c, jobs[n], limit, outcomes[n], jobs[i]);
    if i < n {
      FlushedCursorAt(ts[..n], cursors, jobs[..n], outcomes[..n], limit, i);
    } else {
      FlushedCursorOther(ts[..n], cursors, jobs[..n], outcomes[..n], limit, jobs[n]);
    }
  }

  lemma {:induction false} FlushedStatusOther(
    ts: seq<Tables>, cursors: Cursors, status: Statuses, jobs: seq<Job>, outcomes: seq<Outcome>, limit: nat, job: Job)
    requires |jobs| == |outcomes| == |ts| && job !in jobs
    ensures Entry(FlushedStatus(ts, cursors, status, jobs, outcomes, limit), job) == Entry(status, job)
    decreases |jobs|
  {
    if jobs != [] {
      var n := |jobs| - 1;
      var c, s := FlushedCursors(ts[..n], cursors, jobs[..n], outcomes[..n], limit),
                  FlushedStatus(ts[..n], cursors, status, jobs[..n], outcomes[..n], limit);
      FlushedStatusOther(ts[..n], cursors, status, jobs[..n], outcomes[..n], limit, job);
      CycleTouchesOnlyItsStatus(ts[n], c, s, jobs[n], limit, outcomes[n], job);
    }
  }

  lemma {:induction false} FlushedStatusAt(
    ts: seq<Tables>, cursors: Cursors, status: Statuses, jobs: seq<Job>, outcomes: seq<Outcome>, limit: nat, i: nat)
    requires |jobs| == |outcomes| == |ts| && DistinctJobs(jobs) && i < |jobs|
    ensures Entry(FlushedStatus(ts, cursors, status, jobs, outcomes, limit), jobs[i])
            == EntryAfter(ts[i], cursors, status, jobs[i], limit, outcomes[i])
    decreases |jobs|
  {
    var n := |jobs| - 1;
    var c, s := FlushedCursors(ts[..n], cursors, jobs[..n], outcomes[..n], limit),
                FlushedStatus(ts[..n], cursors, status, jobs[..n], outcomes[..n], limit);
    CycleTouchesOnlyItsStatus(ts[n], c, s, jobs[n], limit, outcomes[n], jobs[i]);
    if i < n {
      FlushedStatusAt(ts[..n], cursors, status, jobs[..n], outcomes[..n], limit, i);
    } else {
      FlushedStatusOther(ts[..n], cursors, status, jobs[..n], outcomes[..n], limit, jobs[n]);
      FlushedCursorOther(ts[..n], cursors, jobs[..n], outcomes[..n], limit, jobs[n]);
      SameEntrySameStatus(s, status, jobs[n]);
    }
  }

  /** Jobs do not disturb one another: cursor and status end as the job's own cycle alone would leave them. */
  lemma FlushIsIndependent(
    ts: seq<Tables>, cursors: Cursors, status: Statuses, jobs: seq<Job>, outcomes: seq<Outcome>, limit: nat, i: nat)
    requires |jobs| == |outcomes| == |ts| && DistinctJobs(jobs) && i < |jobs|
    ensures CursorOf(FlushedCursors(ts, cursors, jobs, outcomes, limit), jobs[i])
            == CursorOf(CycleCursors(ts[i], cursors, jobs[i], limit, outcomes[i]), jobs[i])
    ensures Entry(FlushedStatus(ts, cursors, status, jobs, outcomes, limit), jobs[i])
            == Entry(CycleStatus(ts[i], cursors, status, jobs[i], limit, outcomes[i]), jobs[i])
    ensures forall job :: job !in jobs ==>
              && CursorOf(FlushedCursors(ts, cursors, jobs, outcomes, limit), job) == CursorOf(cursors, job)
              && Entry(FlushedStatus(ts, cursors, status, jobs, outcomes, limit), job) == Entry(status, job)
  {
    FlushedCursorAt(ts, cursors, jobs, outcomes, limit, i);
    FlushedStatusAt(ts, cursors, status, jobs, outcomes, limit, i);
    CycleTouchesOnlyItsCursor(ts[i], cursors, jobs[i], limit, outcomes[i], jobs[i]);
    CycleTouchesOnlyItsStatus(ts[i], cursors, status, jobs[i], limit, outcomes[i], jobs[i]);
    forall job | job !in jobs
      ensures CursorOf(FlushedCursors(ts, cursors, jobs, outcomes, limit), job) == CursorOf(cursors, job)
      ensures Entry(FlushedStatus(ts, cursors, status, jobs, outcomes, limit), job) == Entry(status, job)
    {
      FlushedCursorOther(ts, cursors, jobs, outcomes, limit, job);
      FlushedStatusOther(ts, cursors, status, jobs, outcomes, limit, job);
    }
  }

  lemma SameEntrySameStatus(a: Statuses, b: Statuses, job: Job)
    requires Entry(a, job) == Entry(b, job)
    ensures StatusOf(a, job) == StatusOf(b, job)
  {}

  // ── one (destination, stream) pair as a step machine ──────────────────────────────────────────

  /** A batch on its way: where the cursor stood, the rows, and every id retention had removed at the fetch. */
  datatype Flight = Flight(from: int, batch: seq<Row>, pruned: set<int>) {
    /** Where the cursor goes once the batch is acked. */
    function To(): int { if batch == [] then from else batch[|batch| - 1].id }
  }

  /**
    The table, every id ever visible, the ids retention removed, the cursor, the batch in flight, the
    ids of acked batches in order, and the flights that moved the cursor.
  */
  datatype World = World(
    rows: seq<Row>, born: set<int>, pruned: set<int>, cursor: int, flight: Option<Flight>, acked: seq<int>,
    passes: seq<Flight>)

  datatype Event =
    | Append(row: Row)
    | Prune(cutoff: int)
    | Poll
    | Fail
    | Ack
    | AckUnsaved // acked by the sink, but the cursor write failed

  const START := World([], {}, {}, 0, None, [], [])

  function Ids(rows: seq<Row>): seq<int> { seq(|rows|, i requires 0 <= i < |rows| => rows[i].id) }

  /** Ids become visible in increasing order; a cycle polls, then ends one way. */
  predicate Enabled(w: World, e: Event) {
    match e
    case Append(row) => row.id > 0 && forall i :: i in w.born ==> i < row.id
    case Prune(_) => true
    case Poll => w.flight.None?
    case _ => w.flight.Some?
  }

  /** A step that is not enabled does nothing. */
  function Step(w: World, e: Event, stream: Stream, limit: nat): World {
    if !Enabled(w, e) then w
    else
      match e
      case Append(row) => w.(rows := w.rows + [row], born := w.born + {row.id})
      case Prune(cutoff) =>
        var left := Pruned(w.rows, stream, cutoff);
        w.(rows := left, pruned := w.pruned + set i | i in Ids(w.rows) && i !in Ids(left))
      case Poll =>
        var batch := Batch(w.rows, w.cursor, limit);
        if batch == [] then w else w.(flight := Some(Flight(w.cursor, batch, w.pruned)))
      case Fail => w.(flight := None)
      case AckUnsaved => w.(flight := None, acked := w.acked + Ids(w.flight.value.batch))
      case Ack =>
        var f := w.flight.value;
        w.(flight := None, acked := w.acked + Ids(f.batch), passes := w.passes + [f], cursor := f.To())
  }

  function Run(w: World, events: seq<Event>, stream: Stream, limit: nat): World
    decreases |events|
  {
    if events == [] then w else Run(Step(w, events[0], stream, limit), events[1..], stream, limit)
  }

  /** A fetch passed `i` when its row had already been removed. */
  ghost predicate PassedPruned(w: World, i: int) { exists f :: f in w.passes && f.from < i <= f.To() && i in f.pruned }

  /** The flight takes every id it passes, except those removed before its fetch. */
  ghost predicate Complete(w: World, f: Flight) {
    && f.from == w.cursor && f.batch != [] && Ascending(f.batch)
    && (forall r :: r in f.batch ==> r.id > f.from && r.id in w.born)
    && (forall i :: i in w.born && f.from < i <= f.To() ==> i in Ids(f.batch) || i in f.pruned)
    && f.pruned <= w.pruned
  }

  /** Everything at or below the cursor is accounted for. */
  ghost predicate Sane(w: World) {
    && (w.cursor == 0 || w.cursor in w.born)
    && Ascending(w.rows)
    && (forall i :: i in w.born <==> i in Ids(w.rows) || i in w.pruned)
    && (forall i :: i in w.pruned ==> i !in Ids(w.rows))
    && (forall i :: i in w.born && i <= w.cursor ==> i in w.acked || PassedPruned(w, i))
    && (w.flight.Some? ==> Complete(w, w.flight.value))
  }

  // ── facts about the queries ───────────────────────────────────────────────────────────────────

  /** A row in front of a part of an ascending table keeps it ascending. */
  lemma ConsAscending(rows: seq<Row>, part: seq<Row>)
    requires Ascending(rows) && rows != [] && Ascending(part) && forall r :: r in part ==> r in rows[1..]
    ensures Ascending([rows[0]] + part)
  {
    forall j | 0 <= j < |part| ensures rows[0].id < part[j].id {
      assert part[j] in part;
      var k :| 0 <= k < |rows[1..]| && rows[1..][k] == part[j];
      assert rows[k + 1] == part[j];
    }
  }

  lemma {:induction false} SinceExact(rows: seq<Row>, after: int)
    requires Ascending(rows)
    ensures Ascending(Since(rows, after))
    ensures forall r :: r in Since(rows, after) <==> r in rows && r.id > after
    decreases |rows|
  {
    if rows != [] {
      SinceExact(rows[1..], after);
      ConsAscending(rows, Since(rows[1..], after));
    }
  }

  lemma {:induction false} PrunedExact(rows: seq<Row>, stream: Stream, cutoff: int)
    requires Ascending(rows)
    ensures Ascending(Pruned(rows, stream, cutoff))
    ensures forall r :: r in Pruned(rows, stream, cutoff) <==> r in rows && (stream == Audit || r.ts >= cutoff)
    decreases |rows|
  {
    if stream != Audit && rows != [] {
      PrunedExact(rows[1..], stream, cutoff);
      ConsAscending(rows, Pruned(rows[1..], stream, cutoff));
    }
  }

  lemma IdsMembers(rows: seq<Row>, i: int)
    ensures i in Ids(rows) <==> exists r :: r in rows && r.id == i
  {
    if i in Ids(rows) {
      var k :| 0 <= k < |rows| && Ids(rows)[k] == i;
      assert rows[k] in rows;
    }
    if r :| r in rows && r.id == i {
      var k :| 0 <= k < |rows| && rows[k] == r;
      assert Ids(rows)[k] == i;
    }
  }

  /** A batch holds exactly the rows past the cursor up to its last id. */
  lemma BatchExact(rows: seq<Row>, cursor: int, limit: nat)
    requires Ascending(rows) && Batch(rows, cursor, limit) != []
    ensures var batch := Batch(rows, cursor, limit);
            && Ascending(batch)
            && forall r :: r in batch <==> r in rows && cursor < r.id <= batch[|batch| - 1].id
  {
    SinceExact(rows, cursor);
    var since, batch := Since(rows, cursor), Batch(rows, cursor, limit);
    assert batch == since[..|batch|];
    PrefixByTop(since, |batch|);
  }

  lemma PrefixByTop(rows: seq<Row>, n: nat)
    requires Ascending(rows) && 0 < n <= |rows|
    ensures Ascending(rows[..n])
    ensures forall r :: r in rows[..n] <==> r in rows && r.id <= rows[n - 1].id
  {
    forall r | r in rows && r.id <= rows[n - 1].id
      ensures r in rows[..n]
    {
      var k :| 0 <= k < |rows| && rows[k] == r;
      assert rows[..n][k] == r;
    }
  }

  function Least(a: nat, b: nat): nat { if a <= b then a else b }

  /** How many rows are past a cursor. */
  function Remaining(rows: seq<Row>, after: int): nat { |Since(rows, after)| }

  lemma FetchedExact(rows: seq<Row>, after: int, limit: nat, events: seq<Row>, maxId: int)
    requires Ascending(rows) && events == Batch(rows, after, limit)
    requires maxId == if events == [] then after else events[|events| - 1].id
    ensures Ascending(events) && |events| == Least(limit, Remaining(rows, after))
    ensures forall r :: r in events <==> r in rows && after < r.id <= maxId
    ensures Remaining(rows, maxId) == Remaining(rows, after) - |events|
  {
    if events != [] {
      BatchExact(rows, after, limit);
      SinceRowOfBacklog(rows, after, |events| - 1);
    }
  }

  // ── every step keeps the account ──────────────────────────────────────────────────────────────

  lemma {:induction false} PassedPrunedStays(w: World, more: seq<Flight>, i: int)
    requires PassedPruned(w, i)
    ensures PassedPruned(w.(passes := w.passes + more), i)
  {
    var f :| f in w.passes && f.from < i <= f.To() && i in f.pruned;
    assert f in w.passes + more;
  }

  lemma AppendKeepsSane(w: World, row: Row, stream: Stream, limit: nat)
    requires Sane(w) && Enabled(w, Append(row))
    ensures Sane(Step(w, Append(row), stream, limit))
  {
    var w' := Step(w, Append(row), stream, limit);
    forall i | 0 <= i < |w.rows| ensures w.rows[i].id < row.id {
      assert Ids(w.rows)[i] in Ids(w.rows);
    }
    assert Ids(w'.rows) == Ids(w.rows) + [row.id];
    forall i | i in w'.born && i <= w'.cursor
      ensures i in w'.acked || PassedPruned(w', i)
    {
      assert PassedPruned(w, i) ==> PassedPruned(w', i);
    }
    if w.flight.Some? {
      var batch := w.flight.value.batch;
      assert batch[|batch| - 1] in batch;
    }
  }

  lemma PruneKeepsSane(w: World, cutoff: int, stream: Stream, limit: nat)
    requires Sane(w)
    ensures Sane(Step(w, Prune(cutoff), stream, limit))
  {
    var w' := Step(w, Prune(cutoff), stream, limit);
    PrunedExact(w.rows, stream, cutoff);
    forall i | i in Ids(w'.rows) ensures i in Ids(w.rows) {
      IdsMembers(w.rows, i);
      IdsMembers(w'.rows, i);
    }
    forall i | i in w'.born && i <= w'.cursor
      ensures i in w'.acked || PassedPruned(w', i)
    {
      assert PassedPruned(w, i) ==> PassedPruned(w', i);
    }
  }

  lemma PollKeepsSane(w: World, stream: Stream, limit: nat)
    requires Sane(w) && w.flight.None?
    ensures Sane(Step(w, Poll, stream, limit))
  {
    var w' := Step(w, Poll, stream, limit);
    var batch := Batch(w.rows, w.cursor, limit);
    if batch != [] {
      BatchExact(w.rows, w.cursor, limit);
      var f := w'.flight.value;
      forall i | i in w.born && f.from < i <= f.To()
        ensures i in Ids(f.batch) || i in f.pruned
      {
        IdsMembers(w.rows, i);
        IdsMembers(batch, i);
      }
      forall r | r in f.batch
        ensures r.id > f.from && r.id in w.born
      {
        IdsMembers(w.rows, r.id);
      }
      forall i | i in w'.born && i <= w'.cursor
        ensures i in w'.acked || PassedPruned(w', i)
      {
        assert PassedPruned(w, i) ==> PassedPruned(w', i);
      }
    }
  }

  lemma AckKeepsSane(w: World, stream: Stream, limit: nat)
    requires Sane(w) && w.flight.Some?
    ensures Sane(Step(w, Ack, stream, limit)) && w.cursor < Step(w, Ack, stream, limit).cursor
  {
    var f, w' := w.flight.value, Step(w, Ack, stream, limit);
    assert f.batch[|f.batch| - 1] in f.batch;
    forall i | i in w'.born && i <= w'.cursor
      ensures i in w'.acked || PassedPruned(w', i)
    {
      if i <= w.cursor {
        if PassedPruned(w, i) {
          PassedPrunedStays(w, [f], i);
          assert PassedPruned(w', i);
        }
      } else {
        assert f in w'.passes;
      }
    }
  }

  lemma AckUnsavedKeepsSane(w: World, stream: Stream, limit: nat)
    requires Sane(w) && w.flight.Some?
    ensures Sane(Step(w, AckUnsaved, stream, limit))
  {
    var w' := Step(w, AckUnsaved, stream, limit);
    forall i | i in w'.born && i <= w'.cursor
      ensures i in w'.acked || PassedPruned(w', i)
    {
      assert PassedPruned(w, i) ==> PassedPruned(w', i);
    }
  }

  lemma FailKeepsSane(w: World, stream: Stream, limit: nat)
    requires Sane(w) && w.flight.Some?
    ensures Sane(Step(w, Fail, stream, limit))
  {
    var w' := Step(w, Fail, stream, limit);
    forall i | i in w'.born && i <= w'.cursor
      ensures i in w'.acked || PassedPruned(w', i)
    {
      assert PassedPruned(w, i) ==> PassedPruned(w', i);
    }
  }

  lemma StepKeepsSane(w: World, e: Event, stream: Stream, limit: nat)
    requires Sane(w)
    ensures Sane(Step(w, e, stream, limit)) && w.cursor <= Step(w, e, stream, limit).cursor
  {
    if Enabled(w, e) {
      match e {
        case Append(row) => AppendKeepsSane(w, row, stream, limit);
        case Prune(cutoff) => PruneKeepsSane(w, cutoff, stream, limit);
        case Poll => PollKeepsSane(w, stream, limit);
        case Fail => FailKeepsSane(w, stream, limit);
        case Ack => AckKeepsSane(w, stream, limit);
        case AckUnsaved => AckUnsavedKeepsSane(w, stream, limit);
      }
    }
  }

  lemma {:induction false} RunKeepsSane(w: World, events: seq<Event>, stream: Stream, limit: nat)
    requires Sane(w)
    ensures Sane(Run(w, events, stream, limit)) && w.cursor <= Run(w, events, stream, limit).cursor
    decreases |events|
  {
    if events != [] {
      StepKeepsSane(w, events[0], stream, limit);
      RunKeepsSane(Step(w, events[0], stream, limit), events[1..], stream, limit);
    }
  }

  /**
    In every run the cursor never moves back, and every id at or below it was in an acked batch, or its
    row had been removed by retention before the fetch that passed it.
  */
  lemma AtLeastOnce(events: seq<Event>, more: seq<Event>, stream: Stream, limit: nat)
    ensures var w := Run(START, events, stream, limit);
            && w.cursor <= Run(w, more, stream, limit).cursor
            && (forall i :: i in w.born && i <= w.cursor ==> i in w.acked || PassedPruned(w, i))
  {
    RunKeepsSane(START, events, stream, limit);
    RunKeepsSane(Run(START, events, stream, limit), more, stream, limit);
  }

  // ── the audit stream misses nothing ───────────────────────────────────────────────────────────

  predicate NothingPruned(w: World) {
    && w.pruned == {} && (w.flight.Some? ==> w.flight.value.pruned == {})
    && forall f :: f in w.passes ==> f.pruned == {}
  }

  lemma AuditStepMissesNothing(w: World, e: Event, limit: nat)
    requires NothingPruned(w)
    ensures NothingPruned(Step(w, e, Audit, limit))
  {}

  lemma {:induction false} AuditRunMissesNothing(w: World, events: seq<Event>, limit: nat)
    requires NothingPruned(w)
    ensures NothingPruned(Run(w, events, Audit, limit))
    decreases |events|
  {
    if events != [] {
      AuditStepMissesNothing(w, events[0], limit);
      AuditRunMissesNothing(Step(w, events[0], Audit, limit), events[1..], limit);
    }
  }

  /** Every audit record at or below a cursor was in an acked batch, whatever retention does. */
  lemma AuditFullyDelivered(events: seq<Event>, limit: nat)
    ensures var w := Run(START, events, Audit, limit);
            forall i :: i in w.born && i <= w.cursor ==> i in w.acked
  {
    RunKeepsSane(START, events, Audit, limit);
    AuditRunMissesNothing(START, events, limit);
  }

  // ── duplicates come only from lost cursor writes ──────────────────────────────────────────────

  predicate Increasing(ids: seq<int>) { forall i, j :: 0 <= i < j < |ids| ==> ids[i] < ids[j] }

  predicate DeliveredOnce(w: World) { Increasing(w.acked) && forall i :: 0 <= i < |w.acked| ==> w.acked[i] <= w.cursor }

  lemma StepDeliversOnce(w: World, e: Event, stream: Stream, limit: nat)
    requires Sane(w) && DeliveredOnce(w) && e != AckUnsaved
    ensures DeliveredOnce(Step(w, e, stream, limit))
  {
    if e == Ack && w.flight.Some? {
      var batch := w.flight.value.batch;
      forall i | 0 <= i < |batch| ensures w.cursor < Ids(batch)[i] <= batch[|batch| - 1].id {
        assert batch[i] in batch;
      }
    }
  }

  lemma {:induction false} RunDeliversOnce(w: World, events: seq<Event>, stream: Stream, limit: nat)
    requires Sane(w) && DeliveredOnce(w) && AckUnsaved !in events
    ensures DeliveredOnce(Run(w, events, stream, limit))
    decreases |events|
  {
    if events != [] {
      assert events[0] in events;
      StepKeepsSane(w, events[0], stream, limit);
      StepDeliversOnce(w, events[0], stream, limit);
      RunDeliversOnce(Step(w, events[0], stream, limit), events[1..], stream, limit);
    }
  }

  /** If no cursor write is lost, no event is acked twice and acked ids only grow. */
  lemma ExactlyOnceWithoutLostWrites(events: seq<Event>, stream: Stream, limit: nat)
    requires AckUnsaved !in events
    ensures Increasing(Run(START, events, stream, limit).acked)
  {
    RunDeliversOnce(START, events, stream, limit);
  }

  // ── progress ──────────────────────────────────────────────────────────────────────────────────

  function Backlog(w: World): seq<Row> { Since(w.rows, w.cursor) }

  lemma {:induction false} SinceSince(rows: seq<Row>, a: int, b: int)
    requires a <= b
    ensures Since(Since(rows, a), b) == Since(rows, b)
    decreases |rows|
  {
    if rows != [] {
      SinceSince(rows[1..], a, b);
      var rest := Since(rows[1..], a);
      if rows[0].id > a {
        assert Since(rows, a) == [rows[0]] + rest && ([rows[0]] + rest)[1..] == rest;
      } else {
        assert Since(rows, a) == rest && Since(rows, b) == Since(rows[1..], b);
      }
    }
  }

  lemma {:induction false} SinceOwnRow(rows: seq<Row>, k: nat)
    requires Ascending(rows) && k < |rows|
    ensures Since(rows, rows[k].id) == rows[k + 1..]
    decreases k
  {
    if k == 0 {
      SinceAll(rows[1..], rows[0].id);
    } else {
      SinceOwnRow(rows[1..], k - 1);
      assert rows[1..][k - 1] == rows[k] && rows[1..][k..] == rows[k + 1..];
    }
  }

  lemma {:induction false} SinceAll(rows: seq<Row>, after: int)
    requires forall i :: 0 <= i < |rows| ==> rows[i].id > after
    ensures Since(rows, after) == rows
    decreases |rows|
  {
    if rows != [] {
      SinceAll(rows[1..], after);
    }
  }

  lemma SinceRowOfBacklog(rows: seq<Row>, cursor: int, k: nat)
    requires Ascending(rows) && k < |Since(rows, cursor)|
    ensures Since(rows, Since(rows, cursor)[k].id) == Since(rows, cursor)[k + 1..]
  {
    var b := Since(rows, cursor);
    SinceExact(rows, cursor);
    assert b[k] in b;
    SinceSince(rows, cursor, b[k].id);
    SinceOwnRow(b, k);
  }

  /** One successful cycle removes `min(batch size, remaining)` rows from the backlog, oldest first. */
  lemma CycleDrains(w: World, stream: Stream, limit: nat)
    requires Sane(w) && w.flight.None? && limit > 0
    ensures var next := Run(w, [Poll, Ack], stream, limit);
            && next.flight.None? && next.rows == w.rows
            && Backlog(next) == if |Backlog(w)| <= limit then [] else Backlog(w)[limit..]
  {
    CycleMatchesMachine(w, [], Outcome(true, true, true, ""), stream, limit);
    assert CycleEvents(Outcome(true, true, true, ""), []) == [Poll, Ack];
    var b := Backlog(w);
    if b != [] {
      SinceRowOfBacklog(w.rows, w.cursor, if |b| <= limit then |b| - 1 else limit - 1);
    }
  }

  function Cycles(n: nat): seq<Event> { if n == 0 then [] else [Poll, Ack] + Cycles(n - 1) }

  lemma {:induction false} RunConcat(w: World, a: seq<Event>, b: seq<Event>, stream: Stream, limit: nat)
    ensures Run(w, a + b, stream, limit) == Run(Run(w, a, stream, limit), b, stream, limit)
    decreases |a|
  {
    if a == [] {
      assert a + b == b;
    } else {
      assert (a + b)[1..] == a[1..] + b;
      RunConcat(Step(w, a[0], stream, limit), a[1..], b, stream, limit);
    }
  }

  /** What `n` batches hold. */
  function Room(n: nat, limit: nat): nat { if n == 0 then 0 else limit + Room(n - 1, limit) }

  lemma {:induction false} RoomIsProduct(n: nat, limit: nat)
    ensures Room(n, limit) == n * limit
    decreases n
  {
    if n > 0 {
      RoomIsProduct(n - 1, limit);
    }
  }

  lemma CycleThen(w: World, rest: seq<Event>, stream: Stream, limit: nat) returns (next: World)
    requires Sane(w) && w.flight.None? && limit > 0
    ensures Sane(next) && next.flight.None?
    ensures Run(w, [Poll, Ack] + rest, stream, limit) == Run(next, rest, stream, limit)
    ensures |Backlog(next)| == if |Backlog(w)| <= limit then 0 else |Backlog(w)| - limit
  {
    next := Run(w, [Poll, Ack], stream, limit);
    CycleDrains(w, stream, limit);
    RunKeepsSane(w, [Poll, Ack], stream, limit);
    RunConcat(w, [Poll, Ack], rest, stream, limit);
  }

  lemma {:induction false} CyclesDrainRoom(w: World, n: nat, stream: Stream, limit: nat)
    requires Sane(w) && w.flight.None? && limit > 0 && |Backlog(w)| <= Room(n, limit)
    ensures |Backlog(Run(w, Cycles(n), stream, limit))| == 0
    decreases n
  {
    if n > 0 {
      var next := CycleThen(w, Cycles(n - 1), stream, limit);
      CyclesDrainRoom(next, n - 1, stream, limit);
    }
  }

  /** With a responsive sink and no new events, `n` cycles clear any backlog of at most `n` batches. */
  lemma CyclesDrainBacklog(w: World, n: nat, stream: Stream, limit: nat)
    requires Sane(w) && w.flight.None? && limit > 0 && |Backlog(w)| <= n * limit
    ensures |Backlog(Run(w, Cycles(n), stream, limit))| == 0
  {
    RoomIsProduct(n, limit);
    CyclesDrainRoom(w, n, stream, limit);
  }

  // ── the forwarder takes these steps ───────────────────────────────────────────────────────────

  /** How a delivery ends. */
  function EndOf(o: Outcome): Event { if !o.acked then Fail else if o.writeOk then Ack else AckUnsaved }

  /** The events of one cycle of `ForwardStream` while the table changes underneath. */
  function CycleEvents(o: Outcome, others: seq<Event>): seq<Event> {
    if o.readOk then [Poll] + others + [EndOf(o)] else others
  }

  predicate TableEvents(events: seq<Event>) { forall e :: e in events ==> e.Append? || e.Prune? }

  lemma {:induction false} TableEventsKeep(w: World, events: seq<Event>, stream: Stream, limit: nat)
    requires TableEvents(events)
    ensures var next := Run(w, events, stream, limit);
            next.cursor == w.cursor && next.flight == w.flight && next.acked == w.acked
    ensures events == [] ==> Run(w, events, stream, limit) == w
    decreases |events|
  {
    if events != [] {
      assert events[0] in events;
      assert forall e :: e in events[1..] ==> e in events;
      TableEventsKeep(Step(w, events[0], stream, limit), events[1..], stream, limit);
    }
  }

  lemma PollThenEnd(w: World, others: seq<Event>, o: Outcome, stream: Stream, limit: nat)
    requires o.readOk
    ensures Run(w, CycleEvents(o, others), stream, limit)
            == Step(Run(Step(w, Poll, stream, limit), others, stream, limit), EndOf(o), stream, limit)
  {
    var end := [EndOf(o)];
    RunConcat(w, [Poll] + others, end, stream, limit);
    RunConcat(w, [Poll], others, stream, limit);
    var before := Run(w, [Poll] + others, stream, limit);
    assert Run(w, [Poll], stream, limit) == Step(w, Poll, stream, limit) by {
      assert [Poll][1..] == [];
    }
    assert Run(before, end, stream, limit) == Step(before, EndOf(o), stream, limit) by {
      assert end[1..] == [];
    }
  }

  /**
    A cycle of `ForwardStream` whose batch was read before any appends and prunings is a poll, those
    changes and its end: same cursor, and acked exactly the batch the sink acked.
  */
  lemma CycleMatchesMachine(w: World, others: seq<Event>, o: Outcome, stream: Stream, limit: nat)
    requires w.flight.None? && TableEvents(others)
    ensures var next := Run(w, CycleEvents(o, others), stream, limit);
            && next.cursor == Advanced(w.rows, w.cursor, limit, o) && next.flight.None?
            && next.acked == w.acked + (if o.readOk && o.acked then Ids(Batch(w.rows, w.cursor, limit)) else [])
            && (others == [] ==> next.rows == w.rows)
  {
    if o.readOk {
      TableEventsKeep(Step(w, Poll, stream, limit), others, stream, limit);
      PollThenEnd(w, others, o, stream, limit);
    } else {
      TableEventsKeep(w, others, stream, limit);
    }
  }

  /**
    What a cycle reports. A number delivered is the number of rows past the cursor that are no longer to come,
    all of them acked; an error carries its reason and leaves the cursor, so every row is still to come.
  */
  lemma ResultTells(rows: seq<Row>, cursor: int, limit: nat, o: Outcome)
    requires Ascending(rows)
    ensures match ResultOf(rows, cursor, limit, o)
            case Delivered(n) =>
              && o.readOk && n == |Batch(rows, cursor, limit)| && (n > 0 ==> |Shipped(rows, cursor, limit, o)| == n)
              && Remaining(rows, Advanced(rows, cursor, limit, o)) == Remaining(rows, cursor) - n
            case Error(reason) =>
              && reason == o.error && Advanced(rows, cursor, limit, o) == cursor
              && (o.readOk ==> Batch(rows, cursor, limit) != [] && !(o.acked && o.writeOk))
  {
    var batch := Batch(rows, cursor, limit);
    if batch != [] {
      SinceRowOfBacklog(rows, cursor, |batch| - 1);
    }
  }

  // ── the status shown ──────────────────────────────────────────────────────────────────────────

  /** One cycle of some job over the tables it finds. */
  datatype Turn = Turn(tables: Tables, job: Job, o: Outcome)

  function CursorsAfter(turns: seq<Turn>, limit: nat): Cursors {
    if turns == [] then map[]
    else
      var n := |turns| - 1;
      CycleCursors(turns[n].tables, CursorsAfter(turns[..n], limit), turns[n].job, limit, turns[n].o)
  }

  function StatusesAfter(turns: seq<Turn>, limit: nat): Statuses {
    if turns == [] then map[]
    else
      var n := |turns| - 1;
      CycleStatus(turns[n].tables, CursorsAfter(turns[..n], limit), StatusesAfter(turns[..n], limit), turns[n].job,
                  limit, turns[n].o)
  }

  /** A stored cursor is shown; without one, nothing delivered and an error; no error unless a batch was refused. */
  predicate Shows(cursors: Cursors, status: Statuses, job: Job, refused: bool) {
    && (job in cursors ==> job in status && status[job].lastCursor == cursors[job])
    && (job in status && job !in cursors ==>
          status[job].lastCursor == 0 && status[job].lastDelivered == 0 && status[job].lastError.Some?)
    && (job in status && !refused ==> status[job].lastError == None)
  }

  lemma CycleKeepsShows(t: Tables, cursors: Cursors, status: Statuses, turn: Job, limit: nat, o: Outcome, job: Job,
                        refused: bool)
    requires Shows(cursors, status, job, refused)
    ensures Shows(CycleCursors(t, cursors, turn, limit, o), CycleStatus(t, cursors, status, turn, limit, o), job,
                  refused || (turn == job && !o.acked))
  {
    CycleTouchesOnlyItsCursor(t, cursors, turn, limit, o, job);
  }

  /** Some batch of the job was refused. */
  predicate Refused(turns: seq<Turn>, job: Job) {
    turns != []
    && var last := turns[|turns| - 1];
       Refused(turns[..|turns| - 1], job) || (last.job == job && !last.o.acked)
  }

  /** From the empty tables on, after any cycles of any jobs, the status of each job shows where it stands. */
  lemma {:induction false} StatusShowsCursor(turns: seq<Turn>, limit: nat, job: Job)
    ensures Shows(CursorsAfter(turns, limit), StatusesAfter(turns, limit), job, Refused(turns, job))
  {
    if turns != [] {
      var before, last := turns[..|turns| - 1], turns[|turns| - 1];
      StatusShowsCursor(before, limit, job);
      CycleKeepsShows(last.tables, CursorsAfter(before, limit), StatusesAfter(before, limit), last.job, limit, last.o,
                      job, Refused(before, job));
    }
  }

  // ── at least once, from the forwarder's own empty cursor table on ─────────────────────────────

  /** What happens around one job: the table changes, the job has a cycle, or another job has one. */
  datatype Happening =
    | Change(event: Event)
    | Cycle(o: Outcome, during: seq<Event>, rest: Tables)
    | OtherCycle(other: Job, t: Tables, o: Outcome)

  /** The table with its past, the forwarder's cursor table, and the ids the job's sink has acked. */
  datatype System = System(world: World, cursors: Cursors, sent: seq<int>)

  /** As constructed, over an empty table. */
  const FRESH := System(START, map[], [])

  predicate MayHappen(h: Happening, job: Job) {
    match h
    case Change(event) => event.Append? || event.Prune?
    case Cycle(_, during, _) => TableEvents(during)
    case OtherCycle(other, _, _) => other != job
  }

  /** A cycle reads the table first; the changes during it come after. */
  function Happen(s: System, h: Happening, job: Job, limit: nat): System {
    match h
    case Change(event) => s.(world := Step(s.world, event, job.1, limit))
    case Cycle(o, during, rest) =>
      var rows := s.world.rows;
      System(Run(s.world, CycleEvents(o, during), job.1, limit),
             CycleCursors(rest.With(job.1, rows), s.cursors, job, limit, o),
             s.sent + Ids(Shipped(rows, CursorOf(s.cursors, job), limit, o)))
    case OtherCycle(other, t, o) => s.(cursors := CycleCursors(t, s.cursors, other, limit, o))
  }

  function Happened(s: System, hs: seq<Happening>, job: Job, limit: nat): System
    decreases |hs|
  {
    if hs == [] then s else Happened(Happen(s, hs[0], job, limit), hs[1..], job, limit)
  }

  predicate Positive(w: World) { forall i :: i in w.born ==> i > 0 }

  /** The stored cursor, or none, is where the machine stands, and the machine saw the same acks. */
  ghost predicate Linked(s: System, job: Job) {
    && Sane(s.world) && Positive(s.world) && s.world.flight.None? && s.sent == s.world.acked
    && s.world.cursor == (if job in s.cursors then s.cursors[job] else 0)
    && (job in s.cursors ==> s.cursors[job] in s.sent)
  }

  lemma StepKeepsPositive(w: World, e: Event, stream: Stream, limit: nat)
    requires Positive(w)
    ensures Positive(Step(w, e, stream, limit))
  {}

  lemma {:induction false} RunKeepsPositive(w: World, events: seq<Event>, stream: Stream, limit: nat)
    requires Positive(w)
    ensures Positive(Run(w, events, stream, limit))
    decreases |events|
  {
    if events != [] {
      StepKeepsPositive(w, events[0], stream, limit);
      RunKeepsPositive(Step(w, events[0], stream, limit), events[1..], stream, limit);
    }
  }

  lemma CycleKeepsLinked(s: System, o: Outcome, during: seq<Event>, rest: Tables, job: Job, limit: nat)
    requires Linked(s, job) && TableEvents(during)
    ensures Linked(Happen(s, Cycle(o, during, rest), job, limit), job)
  {
    var w := s.world;
    var next := Run(w, CycleEvents(o, during), job.1, limit);
    RunKeepsSane(w, CycleEvents(o, during), job.1, limit);
    RunKeepsPositive(w, CycleEvents(o, during), job.1, limit);
    CycleMatchesMachine(w, during, o, job.1, limit);
    assert rest.With(job.1, w.rows).Of(job.1) == w.rows;
    var batch := Batch(w.rows, w.cursor, limit);
    if batch != [] {
      assert Ids(batch)[|batch| - 1] == batch[|batch| - 1].id;
    }
  }

  lemma HappeningKeepsLinked(s: System, h: Happening, job: Job, limit: nat)
    requires Linked(s, job) && MayHappen(h, job)
    ensures Linked(Happen(s, h, job, limit), job)
  {
    match h {
      case Change(event) =>
        StepKeepsSane(s.world, event, job.1, limit);
        StepKeepsPositive(s.world, event, job.1, limit);
      case Cycle(o, during, rest) => CycleKeepsLinked(s, o, during, rest, job, limit);
      case OtherCycle(other, t, o) =>
    }
  }

  lemma {:induction false} HappeningsKeepLinked(s: System, hs: seq<Happening>, job: Job, limit: nat)
    requires Linked(s, job) && forall i :: 0 <= i < |hs| ==> MayHappen(hs[i], job)
    ensures Linked(Happened(s, hs, job, limit), job)
    decreases |hs|
  {
    if hs != [] {
      HappeningKeepsLinked(s, hs[0], job, limit);
      HappeningsKeepLinked(Happen(s, hs[0], job, limit), hs[1..], job, limit);
    }
  }

  lemma AllStillToCome(w: World)
    requires Sane(w) && Positive(w)
    ensures Since(w.rows, 0) == w.rows
  {
    forall i | 0 <= i < |w.rows| ensures w.rows[i].id > 0 {
      assert Ids(w.rows)[i] in Ids(w.rows);
    }
    SinceAll(w.rows, 0);
  }

  /**
    From its construction on, after any run of cycles of a job, with the table changing between and inside them
    and other jobs running too: every id ever visible at or below the stored cursor was in an acked batch, or
    retention had removed its row before the fetch that passed it. While no cursor is stored, nothing present
    has been passed: the next successful cycle sends the oldest rows there are.
  */
  lemma ForwarderAtLeastOnce(job: Job, hs: seq<Happening>, limit: nat, rest: Tables)
    requires forall i :: 0 <= i < |hs| ==> MayHappen(hs[i], job)
    ensures var s := Happened(FRESH, hs, job, limit);
            var next := Happen(s, Cycle(Outcome(true, true, true, ""), [], rest), job, limit);
            if job in s.cursors then
              && s.cursors[job] in s.sent
              && (forall i :: i in s.world.born && i <= s.cursors[job] ==> i in s.sent || PassedPruned(s.world, i))
              && next.sent == s.sent + Ids(Take(Since(s.world.rows, s.cursors[job]), limit))
            else next.sent == s.sent + Ids(Take(s.world.rows, limit))
  {
    HappeningsKeepLinked(FRESH, hs, job, limit);
    var s := Happened(FRESH, hs, job, limit);
    AllStillToCome(s.world);
  }

  lemma {:induction false} AuditHappeningsMissNothing(s: System, hs: seq<Happening>, job: Job, limit: nat)
    requires NothingPruned(s.world) && job.1 == Audit
    ensures NothingPruned(Happened(s, hs, job, limit).world)
    decreases |hs|
  {
    if hs != [] {
      match hs[0] {
        case Change(event) => AuditStepMissesNothing(s.world, event, limit);
        case Cycle(o, during, _) => AuditRunMissesNothing(s.world, CycleEvents(o, during), limit);
        case _ =>
      }
      AuditHappeningsMissNothing(Happen(s, hs[0], job, limit), hs[1..], job, limit);
    }
  }

  /** Of the audit stream the forwarder has delivered every record at or below a stored cursor. */
  lemma ForwarderDeliversAudit(dest: string, hs: seq<Happening>, limit: nat)
    requires forall i :: 0 <= i < |hs| ==> MayHappen(hs[i], (dest, Audit))
    ensures var s := Happened(FRESH, hs, (dest, Audit), limit);
            (dest, Audit) in s.cursors ==>
              forall i :: i in s.world.born && i <= s.cursors[(dest, Audit)] ==> i in s.sent
  {
    HappeningsKeepLinked(FRESH, hs, (dest, Audit), limit);
    AuditHappeningsMissNothing(FRESH, hs, (dest, Audit), limit);
  }
}
