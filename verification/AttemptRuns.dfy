/** Runs of the rate limiter that count every attempt, whether or not its send is recorded. */
module AttemptRuns {
  import opened Sequences
  import opened ScopeGuard
  import opened RateRuns

  /** The times at which probes resume from `throttle`, in order. */
  function Attempts(l: Line, scope: Scope, ms: seq<Move>): seq<real>
    requires CanRun(l, scope, ms, 1)
    decreases ms
  {
    if ms == [] then [] else AttemptOf(l, scope, ms[0]) + Attempts(Moved(l, scope, ms[0]), scope, ms[1..])
  }

  function AttemptOf(l: Line, scope: Scope, m: Move): seq<real> {
    if m.Start? then [m.now + Wait(l.guard.sendTimes, scope, m.now)] else []
  }

  /** Every probe is recorded in the end, or still in flight. */
  predicate NoneFails(ms: seq<Move>) {
    forall i | 0 <= i < |ms| :: !ms[i].Drop?
  }

  // ---- When no send fails ----

  /** One attempt for each recorded send, at or before it, and one for the probe in flight. */
  ghost predicate Matched(l: Line, h: seq<real>, at: seq<real>, k: nat) {
    && |l.ready| <= 1 && |at| == |h| + |l.ready| && Spaced(at, k)
    && (forall i | 0 <= i < |h| :: at[i] <= h[i])
    && (|l.ready| == 1 ==> at[|h|] == l.ready[0])
  }

  lemma {:induction false} MoveMatched(l: Line, scope: Scope, h: seq<real>, at: seq<real>, m: Move, k: nat)
    requires 0.0 < scope.maxRequestsPerSecond <= k as real
    requires OnTime(l, h, k) && Matched(l, h, at, k) && CanMove(l, m, 1) && !m.Drop?
    ensures Matched(Moved(l, scope, m), h + SendOf(m), at + AttemptOf(l, scope, m), k)
  {
    if m.Start? {
      ProbeIsLate(l.guard, scope, h, l.clock, m.now, k);
      Associate(h, [], []);
    } else {
      Associate(at, [], []);
    }
  }

  lemma {:induction false} RunMatched(l: Line, scope: Scope, h: seq<real>, at: seq<real>, ms: seq<Move>, k: nat)
    requires 0.0 < scope.maxRequestsPerSecond <= k as real
    requires OnTime(l, h, k) && Matched(l, h, at, k) && CanRun(l, scope, ms, 1) && NoneFails(ms)
    ensures Spaced(at + Attempts(l, scope, ms), k)
    decreases ms
  {
    Associate(at, [], []);
    if ms != [] {
      var m := ms[0];
      MoveMatched(l, scope, h, at, m, k);
      MoveOnTime(l, scope, h, m, k);
      Associate(at, AttemptOf(l, scope, m), Attempts(Moved(l, scope, m), scope, ms[1..]));
      RunMatched(Moved(l, scope, m), scope, h + SendOf(m), at + AttemptOf(l, scope, m), ms[1..], k);
    }
  }

  // ---- When sends may fail ----

  /** `n` probes one after the other, all of which fail at once. */
  function Failing(clock: real, n: nat): seq<Move> {
    if n == 0 then [] else [Start(clock), Drop(0, clock)] + Failing(clock, n - 1)
  }

  lemma {:induction false} FailuresNeverWait(scope: Scope, clock: real, n: nat)
    ensures CanRun(Idle(clock), scope, Failing(clock, n), 1)
    ensures |Attempts(Idle(clock), scope, Failing(clock, n))| == n
    ensures forall t | t in Attempts(Idle(clock), scope, Failing(clock, n)) :: t == clock
  {
    if n > 0 {
      var ms, l := Failing(clock, n), Moved(Idle(clock), scope, Start(clock));
      FailuresNeverWait(scope, clock, n - 1);
      assert ms[0] == Start(clock) && ms[1..][0] == Drop(0, clock) && ms[1..][1..] == Failing(clock, n - 1);
      assert Moved(l, scope, Drop(0, clock)) == Idle(clock);
      assert Attempts(l, scope, ms[1..]) == [] + Attempts(Idle(clock), scope, Failing(clock, n - 1));
    }
  }

  // ---- The exact condition ----

  /** In a sequential run, of which no send fails unless `mayFail`, attempts that are `k` apart are a
      window apart. */
  ghost predicate KeepsApart(scope: Scope, clock: real, ms: seq<Move>, mayFail: bool, k: nat) {
    CanRun(Idle(clock), scope, ms, 1) && (mayFail || NoneFails(ms)) ==> Spaced(Attempts(Idle(clock), scope, ms), k)
  }

  ghost predicate LimitsAttempts(scope: Scope, mayFail: bool, k: nat) {
    forall clock, ms :: KeepsApart(scope, clock, ms, mayFail, k)
  }

  lemma {:induction false} FailuresBreakLimit(scope: Scope, n: nat)
    ensures !LimitsAttempts(scope, true, n)
  {
    var ms, l := Failing(0.0, n + 1), Idle(0.0);
    FailuresNeverWait(scope, 0.0, n + 1);
    var at := Attempts(l, scope, ms);
    assert at[0] in at && at[0 + n] in at;
    assert !Spaced(at, n);
    assert !KeepsApart(scope, 0.0, ms, true, n);
  }

  /** Exact: for every positive rate the limit holds of attempts iff no send may fail; once sends may
      fail, no other bound holds either. */
  lemma AttemptLimitIffNoneFails(scope: Scope, mayFail: bool)
    requires scope.maxRequestsPerSecond > 0.0
    ensures Ceil(scope.maxRequestsPerSecond) > 0
    ensures LimitsAttempts(scope, mayFail, Ceil(scope.maxRequestsPerSecond)) <==> !mayFail
    ensures (exists k: nat :: LimitsAttempts(scope, mayFail, k)) <==> !mayFail
  {
    var k := Ceil(scope.maxRequestsPerSecond);
    if mayFail {
      forall n: nat ensures !LimitsAttempts(scope, mayFail, n) {
        FailuresBreakLimit(scope, n);
      }
    } else {
      forall clock, ms ensures KeepsApart(scope, clock, ms, mayFail, k) {
        if CanRun(Idle(clock), scope, ms, 1) && NoneFails(ms) {
          RunMatched(Idle(clock), scope, [], [], ms, k);
          assert [] + Attempts(Idle(clock), scope, ms) == Attempts(Idle(clock), scope, ms);
        }
      }
    }
  }
}
