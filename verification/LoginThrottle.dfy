/**
  The login brute-force throttle of waf-governance (throttle.rs) and the handler that consults it
  (gov_api.rs). Times are integers; attempts are handled one at a time.
*/
module LoginThrottle {
  import opened Prelude

  datatype Settings = Settings(maxFailures: nat, window: nat, lockout: nat)
  datatype Attempts = Attempts(failures: seq<int>, lockedUntil: Option<int>)
  type State = map<string, Attempts>

  /** How the credential check of an admitted attempt ends; an internal error records nothing. */
  datatype Outcome = Fails | Succeeds | Errors
  datatype Attempt = Attempt(key: string, now: int, outcome: Outcome)

  function After(times: seq<int>, cutoff: int): seq<int> {
    if times == [] then [] else (if times[0] > cutoff then [times[0]] else []) + After(times[1..], cutoff)
  }

  predicate Locked(st: State, key: string, now: int) {
    key in st && st[key].lockedUntil.Some? && st[key].lockedUntil.value > now
  }

  function Entry(st: State, key: string): Attempts { if key in st then st[key] else Attempts([], None) }

  function Failed(st: State, key: string, now: int, s: Settings): State {
    var kept := After(Entry(st, key).failures, now - s.window) + [now];
    st[key := if |kept| >= s.maxFailures then Attempts([], Some(now + s.lockout))
              else Attempts(kept, Entry(st, key).lockedUntil)]
  }

  /** One login: refused while locked, otherwise its outcome is recorded. */
  function Handled(st: State, a: Attempt, s: Settings): State {
    if Locked(st, a.key, a.now) then st
    else match a.outcome
         case Fails => Failed(st, a.key, a.now, s)
         case Succeeds => st - {a.key}
         case Errors => st
  }

  class LoginThrottle {
    const settings: Settings
    var state: State

    constructor (settings: Settings)
      ensures this.settings == settings && state == map[]
    {
      this.settings, state := settings, map[];
    }

    method Allowed(key: string, now: int) returns (ok: bool)
      ensures ok == !Locked(state, key, now)
    {
      if key in state {
        match state[key].lockedUntil {
          case Some(until) => return !(until > now);
          case None => return true;
        }
      }
      return true;
    }

    method RecordFailure(key: string, now: int)
      modifies this
      ensures state == Failed(old(state), key, now, settings)
    {
      var a := if key in state then state[key] else Attempts([], None);
      var cutoff := now - settings.window;
      var failures := After(a.failures, cutoff);
      failures := failures + [now];
      if |failures| >= settings.maxFailures {
        a := Attempts([], Some(now + settings.lockout));
      } else {
        a := Attempts(failures, a.lockedUntil);
      }
      state := state[key := a];
    }

    method RecordSuccess(key: string)
      modifies this
      ensures state == old(state) - {key}
    {
      state := state - {key};
    }

    /** The login handler's use of the throttle. */
    method Login(a: Attempt) returns (admitted: bool)
      modifies this
      ensures admitted == !Locked(old(state), a.key, a.now) && state == Handled(old(state), a, settings)
    {
      admitted := Allowed(a.key, a.now);
      if !admitted {
        return;
      }
      match a.outcome {
        case Fails => RecordFailure(a.key, a.now);
        case Succeeds => RecordSuccess(a.key);
        case Errors =>
      }
    }
  }

  // ── runs ──────────────────────────────────────────────────────────────────────────────────────

  predicate Timed(run: seq<Attempt>, from: int) {
    run == [] || (from <= run[0].now && Timed(run[1..], run[0].now))
  }

  /** Failures of `key` recorded at times in `[lo, hi)`. */
  function Recorded(st: State, run: seq<Attempt>, key: string, lo: int, hi: int, s: Settings): nat
    decreases |run|
  {
    if run == [] then 0
    else
      var a := run[0];
      (if a.key == key && a.outcome == Fails && lo <= a.now < hi && !Locked(st, key, a.now) then 1 else 0)
      + Recorded(Handled(st, a, s), run[1..], key, lo, hi, s)
  }

  /** No login of `key` succeeds in `[lo, hi)`. */
  predicate NoSuccess(st: State, run: seq<Attempt>, key: string, lo: int, hi: int, s: Settings)
    decreases |run|
  {
    run == []
    || var a := run[0];
       && !(a.key == key && a.outcome == Succeeds && lo <= a.now < hi && !Locked(st, key, a.now))
       && NoSuccess(Handled(st, a, s), run[1..], key, lo, hi, s)
  }

  function Threshold(s: Settings): nat { if s.maxFailures == 0 then 1 else s.maxFailures }

  function Seen(times: seq<int>, lo: int): nat {
    if times == [] then 0 else (if times[0] >= lo then 1 else 0) + Seen(times[1..], lo)
  }

  lemma {:induction false} SeenSurvives(times: seq<int>, cutoff: int, lo: int)
    requires cutoff < lo
    ensures Seen(After(times, cutoff), lo) == Seen(times, lo)
  {
    if times != [] {
      SeenSurvives(times[1..], cutoff, lo);
      SeenConcat(if times[0] > cutoff then [times[0]] else [], After(times[1..], cutoff), lo);
    }
  }

  lemma {:induction false} SeenConcat(a: seq<int>, b: seq<int>, lo: int)
    ensures Seen(a + b, lo) == Seen(a, lo) + Seen(b, lo)
  {
    if a == [] {
      assert a + b == b;
    } else {
      SeenConcat(a[1..], b, lo);
      assert (a + b)[1..] == a[1..] + b;
    }
  }

  lemma {:induction false} SeenBounded(times: seq<int>, lo: int)
    ensures Seen(times, lo) <= |times|
  {
    if times != [] {
      SeenBounded(times[1..], lo);
    }
  }

  lemma {:induction false} NothingRecordedLate(
    st: State, run: seq<Attempt>, key: string, t: int, lo: int, hi: int, s: Settings)
    requires Timed(run, t) && hi <= t
    ensures Recorded(st, run, key, lo, hi, s) == 0
    decreases |run|
  {
    if run != [] {
      NothingRecordedLate(Handled(st, run[0], s), run[1..], key, run[0].now, lo, hi, s);
    }
  }

  /** While the lock lasts, every attempt on the key is refused and its entry stays. */
  lemma {:induction false} LockedRecordsNothing(
    st: State, run: seq<Attempt>, key: string, t: int, lo: int, hi: int, s: Settings)
    requires Timed(run, t) && key in st && st[key].lockedUntil.Some? && st[key].lockedUntil.value >= hi
    ensures Recorded(st, run, key, lo, hi, s) == 0
    decreases |run|
  {
    if run != [] {
      var a := run[0];
      if a.now >= hi {
        NothingRecordedLate(Handled(st, a, s), run[1..], key, a.now, lo, hi, s);
      } else {
        LockedRecordsNothing(Handled(st, a, s), run[1..], key, a.now, lo, hi, s);
      }
    }
  }

  /** Every entry stays below the threshold, because reaching it locks and clears. */
  predicate BelowThreshold(st: State, s: Settings) {
    forall k :: k in st ==> |st[k].failures| < Threshold(s)
  }

  /** Inside the interval, the failures already remembered are paid for. */
  lemma {:induction false} RoomLeft(st: State, run: seq<Attempt>, key: string, t: int, lo: int, hi: int, s: Settings)
    requires BelowThreshold(st, s) && Timed(run, t) && lo <= t
    requires hi - lo <= s.window && hi - lo <= s.lockout
    requires NoSuccess(st, run, key, lo, hi, s)
    ensures Recorded(st, run, key, lo, hi, s) + Seen(Entry(st, key).failures, lo) <= Threshold(s)
    decreases |run|
  {
    SeenBounded(Entry(st, key).failures, lo);
    if run != [] {
      var a := run[0];
      var next := Handled(st, a, s);
      if a.now >= hi {
        NothingRecordedLate(next, run[1..], key, a.now, lo, hi, s);
      } else if a.key == key && a.outcome == Fails && !Locked(st, key, a.now) {
        var times := Entry(st, key).failures;
        var kept := After(times, a.now - s.window);
        SeenSurvives(times, a.now - s.window, lo);
        SeenConcat(kept, [a.now], lo);
        assert Seen([a.now], lo) == 1;
        if |kept + [a.now]| >= s.maxFailures {
          LockedRecordsNothing(next, run[1..], key, a.now, lo, hi, s);
        } else {
          RoomLeft(next, run[1..], key, a.now, lo, hi, s);
        }
      } else {
        assert Entry(next, key) == Entry(st, key);
        RoomLeft(next, run[1..], key, a.now, lo, hi, s);
      }
    }
  }

  lemma {:induction false} FailureBoundFrom(
    st: State, run: seq<Attempt>, key: string, t: int, lo: int, hi: int, s: Settings)
    requires BelowThreshold(st, s) && Timed(run, t)
    requires hi - lo <= s.window && hi - lo <= s.lockout
    requires NoSuccess(st, run, key, lo, hi, s)
    ensures Recorded(st, run, key, lo, hi, s) <= Threshold(s)
    decreases |run|
  {
    if run != [] {
      if run[0].now < lo {
        FailureBoundFrom(Handled(st, run[0], s), run[1..], key, run[0].now, lo, hi, s);
      } else if t <= lo {
        assert Timed(run, lo);
        RoomLeft(st, run, key, lo, lo, hi, s);
      } else {
        RoomLeft(st, run, key, t, lo, hi, s);
      }
    }
  }

  /**
    In every run of logins, an interval `[lo, hi)` no longer than the window and the lockout, with no
    success in it, holds at most `max(1, maxFailures)` recorded failures of any one key.
  */
  lemma FailureBound(run: seq<Attempt>, key: string, t: int, lo: int, hi: int, s: Settings)
    requires Timed(run, t) && hi - lo <= s.window && hi - lo <= s.lockout
    requires NoSuccess(map[], run, key, lo, hi, s)
    ensures Recorded(map[], run, key, lo, hi, s) <= Threshold(s)
  {
    FailureBoundFrom(map[], run, key, t, lo, hi, s);
  }

  // ── and no lock without cause ─────────────────────────────────────────────────────────────────

  function StateAfter(st: State, run: seq<Attempt>, s: Settings): State
    decreases |run|
  {
    if run == [] then st else StateAfter(Handled(st, run[0], s), run[1..], s)
  }

  lemma {:induction false} SeenAfterAtMost(times: seq<int>, cutoff: int, lo: int)
    ensures Seen(After(times, cutoff), lo) <= Seen(times, lo)
  {
    if times != [] {
      SeenAfterAtMost(times[1..], cutoff, lo);
      SeenConcat(if times[0] > cutoff then [times[0]] else [], After(times[1..], cutoff), lo);
    }
  }

  lemma {:induction false} AllAfterSeen(times: seq<int>, cutoff: int)
    ensures Seen(After(times, cutoff), cutoff + 1) == |After(times, cutoff)|
  {
    if times != [] {
      AllAfterSeen(times[1..], cutoff);
      SeenConcat(if times[0] > cutoff then [times[0]] else [], After(times[1..], cutoff), cutoff + 1);
    }
  }

  /** Every failure remembered was recorded. */
  lemma {:induction false} RememberedWasRecorded(
    st: State, run: seq<Attempt>, key: string, t: int, lo: int, hi: int, s: Settings)
    requires Timed(run, t) && forall i :: 0 <= i < |run| ==> run[i].now < hi
    ensures Seen(Entry(StateAfter(st, run, s), key).failures, lo)
            <= Seen(Entry(st, key).failures, lo) + Recorded(st, run, key, lo, hi, s)
    decreases |run|
  {
    if run != [] {
      var a := run[0];
      var times, cutoff := Entry(st, a.key).failures, a.now - s.window;
      SeenAfterAtMost(times, cutoff, lo);
      SeenConcat(After(times, cutoff), [a.now], lo);
      forall i | 0 <= i < |run[1..]| ensures run[1..][i] == run[i + 1] {}
      RememberedWasRecorded(Handled(st, a, s), run[1..], key, a.now, lo, hi, s);
    }
  }

  /** From a state that remembers nothing of the key, a lock takes a full threshold of failures from there on. */
  lemma LockIsEarnedFrom(start: State, run: seq<Attempt>, a: Attempt, t: int, s: Settings)
    requires a.key !in start && Timed(run, t) && (forall i :: 0 <= i < |run| ==> run[i].now <= a.now)
    requires a.outcome == Fails && !Locked(StateAfter(start, run, s), a.key, a.now)
    requires Locked(Handled(StateAfter(start, run, s), a, s), a.key, a.now)
    ensures Recorded(start, run, a.key, a.now - s.window + 1, a.now + 1, s) + 1 >= Threshold(s)
    ensures forall now :: Locked(Handled(StateAfter(start, run, s), a, s), a.key, now) <==> now < a.now + s.lockout
  {
    var st, lo := StateAfter(start, run, s), a.now - s.window + 1;
    RememberedWasRecorded(start, run, a.key, t, lo, a.now + 1, s);
    LockTakesSeen(st, a, lo, s);
  }

  /** A failure that locks brings the remembered ones of its window to the threshold. */
  lemma LockTakesSeen(st: State, a: Attempt, lo: int, s: Settings)
    requires a.outcome == Fails && !Locked(st, a.key, a.now) && lo == a.now - s.window + 1
    requires Locked(Handled(st, a, s), a.key, a.now)
    ensures Seen(Entry(st, a.key).failures, lo) + 1 >= Threshold(s)
    ensures Handled(st, a, s)[a.key].lockedUntil == Some(a.now + s.lockout)
  {
    var times := Entry(st, a.key).failures;
    SeenAfterAtMost(times, a.now - s.window, lo);
    AllAfterSeen(times, a.now - s.window);
  }

  /**
    A failure locks its key only as the last of `max(1, maxFailures)` or more recorded within one
    window, and then for exactly the lockout.
  */
  lemma LockIsEarned(run: seq<Attempt>, a: Attempt, t: int, s: Settings)
    requires Timed(run, t) && (forall i :: 0 <= i < |run| ==> run[i].now <= a.now) && a.outcome == Fails
    requires !Locked(StateAfter(map[], run, s), a.key, a.now)
    requires Locked(Handled(StateAfter(map[], run, s), a, s), a.key, a.now)
    ensures Recorded(map[], run, a.key, a.now - s.window + 1, a.now + 1, s) + 1 >= Threshold(s)
    ensures forall now :: Locked(Handled(StateAfter(map[], run, s), a, s), a.key, now) <==> now < a.now + s.lockout
  {
    LockIsEarnedFrom(map[], run, a, t, s);
  }

  /** A success starts over: a later lock takes a full threshold of failures recorded since it. */
  lemma SuccessStartsOver(before: seq<Attempt>, success: Attempt, run: seq<Attempt>, a: Attempt, s: Settings)
    requires success.outcome == Succeeds && success.key == a.key && a.outcome == Fails
    requires !Locked(StateAfter(map[], before, s), a.key, success.now)
    requires Timed(run, success.now) && forall i :: 0 <= i < |run| ==> run[i].now <= a.now
    requires var start := Handled(StateAfter(map[], before, s), success, s);
             && !Locked(StateAfter(start, run, s), a.key, a.now)
             && Locked(Handled(StateAfter(start, run, s), a, s), a.key, a.now)
    ensures var start := Handled(StateAfter(map[], before, s), success, s);
            Recorded(start, run, a.key, a.now - s.window + 1, a.now + 1, s) + 1 >= Threshold(s)
  {
    LockIsEarnedFrom(Handled(StateAfter(map[], before, s), success, s), run, a, success.now, s);
  }

  /** Time order of a run, seen from its end. */
  lemma {:induction false} StateAfterSnoc(st: State, run: seq<Attempt>, s: Settings)
    requires run != []
    ensures var n := |run| - 1;
            StateAfter(st, run, s) == Handled(StateAfter(st, run[..n], s), run[n], s)
    decreases |run|
  {
    if |run| > 1 {
      StateAfterSnoc(Handled(st, run[0], s), run[1..], s);
      assert run[1..][..|run| - 2] == run[..|run| - 1][1..];
    }
  }

  lemma {:induction false} TimedPrefix(run: seq<Attempt>, t: int, n: nat)
    requires Timed(run, t) && n <= |run|
    ensures Timed(run[..n], t) && forall i, j :: 0 <= i <= j < |run| ==> run[i].now <= run[j].now
    decreases |run|
  {
    if run != [] {
      TimedPrefix(run[1..], run[0].now, if n == 0 then 0 else n - 1);
      if n > 0 {
        assert run[..n][1..] == run[1..][..n - 1];
      }
      forall i, j | 0 <= i <= j < |run| ensures run[i].now <= run[j].now {
        FirstIsEarliest(run, t, j);
        if i > 0 {
          assert run[1..][i - 1].now <= run[1..][j - 1].now;
        }
      }
    }
  }

  lemma {:induction false} FirstIsEarliest(run: seq<Attempt>, t: int, j: nat)
    requires Timed(run, t) && j < |run|
    ensures t <= run[0].now <= run[j].now
    decreases |run|
  {
    if j > 0 {
      FirstIsEarliest(run[1..], run[0].now, j - 1);
    }
  }

  /** What made a key locked at `now`: failure `i`, which passed the lock check and completed a full threshold. */
  predicate EarnedBy(run: seq<Attempt>, i: nat, key: string, now: int, s: Settings) {
    && i < |run| && run[i].key == key && run[i].outcome == Fails
    && !Locked(StateAfter(map[], run[..i], s), key, run[i].now)
    && now < run[i].now + s.lockout
    && Recorded(map[], run[..i], key, run[i].now - s.window + 1, run[i].now + 1, s) + 1 >= Threshold(s)
  }

  /** In every run, a login is refused only within the lockout of a failure that completed a full threshold. */
  lemma {:induction false} RefusalIsEarned(run: seq<Attempt>, key: string, t: int, now: int, s: Settings)
    returns (i: nat)
    requires Timed(run, t) && (forall k :: 0 <= k < |run| ==> run[k].now <= now)
    requires Locked(StateAfter(map[], run, s), key, now)
    ensures EarnedBy(run, i, key, now, s)
    decreases |run|
  {
    var n := |run| - 1;
    var before, a := run[..n], run[n];
    StateAfterSnoc(map[], run, s);
    TimedPrefix(run, t, n);
    if a.key == key && a.outcome == Fails && !Locked(StateAfter(map[], before, s), key, a.now) {
      i := n;
      LockStands(StateAfter(map[], before, s), a, now, s);
      LockIsEarned(before, a, t, s);
    } else {
      i := RefusalIsEarned(before, key, t, now, s);
      assert before[..i] == run[..i];
    }
  }

  /** A lock seen after an admitted failure was set by it. */
  lemma LockStands(st: State, a: Attempt, now: int, s: Settings)
    requires a.outcome == Fails && !Locked(st, a.key, a.now) && a.now <= now && Locked(Handled(st, a, s), a.key, now)
    ensures Locked(Handled(st, a, s), a.key, a.now) && now < a.now + s.lockout
  {}

  /** Failed attempts of one key at the given times. */
  function Failures(key: string, times: seq<int>): seq<Attempt> {
    seq(|times|, i requires 0 <= i < |times| => Attempt(key, times[i], Fails))
  }

  lemma {:induction false} AllAfter(times: seq<int>, cutoff: int)
    requires forall i :: 0 <= i < |times| ==> times[i] > cutoff
    ensures After(times, cutoff) == times
  {
    if times != [] {
      AllAfter(times[1..], cutoff);
    }
  }

  lemma {:induction false} FailuresRemembered(st: State, key: string, times: seq<int>, s: Settings)
    requires key !in st && times != [] && |times| < Threshold(s)
    requires forall i, j :: 0 <= i <= j < |times| ==> times[j] - times[i] < s.window
    ensures var after := StateAfter(st, Failures(key, times), s);
            key in after && after[key] == Attempts(times, None)
    decreases |times|
  {
    var n := |times| - 1;
    var run := Failures(key, times);
    StateAfterSnoc(st, run, s);
    assert run[..n] == Failures(key, times[..n]);
    assert times == times[..n] + [times[n]];
    if n > 0 {
      FailuresRemembered(st, key, times[..n], s);
      AllAfter(times[..n], times[n] - s.window);
    }
  }

  /** A threshold of failures within one window locks the key, with the last of them and for exactly the lockout. */
  lemma ThresholdLocks(st: State, key: string, times: seq<int>, s: Settings, now: int)
    requires key !in st && |times| == Threshold(s)
    requires forall i, j :: 0 <= i <= j < |times| ==> times[j] - times[i] < s.window
    ensures Locked(StateAfter(st, Failures(key, times), s), key, now) <==> now < times[|times| - 1] + s.lockout
  {
    var n := |times| - 1;
    var run := Failures(key, times);
    StateAfterSnoc(st, run, s);
    assert run[..n] == Failures(key, times[..n]);
    if n > 0 {
      FailuresRemembered(st, key, times[..n], s);
      AllAfter(times[..n], times[n] - s.window);
    }
  }
}
