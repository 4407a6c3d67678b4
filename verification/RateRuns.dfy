/** Runs of the rate limiter: what it guarantees one probe at a time, and why only then. */
module RateRuns {
  import opened Sequences
  import opened ScopeGuard

  // ---- Runs with at most C probes between `throttle` and `record` ----

  /** The guard, the time of the last move, and when each probe in flight may resume from its sleep. */
  datatype Line = Line(guard: State, clock: real, ready: seq<real>)

  /** A probe enters `throttle`, or probe `i` is recorded, or it fails or is killed and never recorded. */
  datatype Move =
    | Start(now: real)
    | Land(i: nat, now: real, isMutating: bool)
    | Drop(i: nat, now: real)

  function Without(ready: seq<real>, i: nat): seq<real>
    requires i < |ready|
  {
    ready[..i] + ready[i + 1..]
  }

  /** The clock never goes back, and a sleep lasts at least as long as asked. */
  predicate CanMove(l: Line, m: Move, C: nat) {
    && l.clock <= m.now
    && match m
       case Start(_) => |l.ready| < C
       case Land(i, now, _) => i < |l.ready| && l.ready[i] <= now
       case Drop(i, _) => i < |l.ready|
  }

  function Moved(l: Line, scope: Scope, m: Move): Line
    requires m.Start? || m.i < |l.ready|
  {
    match m
    case Start(now) =>
      Line(Throttled(l.guard, scope, now), now, l.ready + [now + Wait(l.guard.sendTimes, scope, now)])
    case Land(i, now, isMutating) => Line(Recorded(l.guard, isMutating, now), now, Without(l.ready, i))
    case Drop(i, now) => Line(l.guard, now, Without(l.ready, i))
  }

  predicate CanRun(l: Line, scope: Scope, ms: seq<Move>, C: nat)
    decreases ms
  {
    ms == [] || (CanMove(l, ms[0], C) && CanRun(Moved(l, scope, ms[0]), scope, ms[1..], C))
  }

  function Run(l: Line, scope: Scope, ms: seq<Move>, C: nat): Line
    requires CanRun(l, scope, ms, C)
    decreases ms
  {
    if ms == [] then l else Run(Moved(l, scope, ms[0]), scope, ms[1..], C)
  }

  /** The times at which sends were recorded, in order. */
  function Sends(ms: seq<Move>): seq<real> {
    if ms == [] then [] else SendOf(ms[0]) + Sends(ms[1..])
  }

  function SendOf(m: Move): seq<real> { if m.Land? then [m.now] else [] }

  function Idle(clock: real): Line { Line(INITIAL, clock, []) }

  // ---- Spacing ----

  function Ceil(x: real): int { if x.Floor as real == x then x.Floor else x.Floor + 1 }

  ghost predicate Ascending(h: seq<real>) { forall i, j | 0 <= i <= j < |h| :: h[i] <= h[j] }

  /** Sends that are `k` apart in the sequence are a full window apart in time. */
  ghost predicate Spaced(h: seq<real>, k: nat) {
    forall i, j | 0 <= i && j == i + k && j < |h| :: h[j] - h[i] >= 1000.0
  }

  /** The guard remembers a suffix of the history; what it forgot is out of the window. */
  ghost predicate Remembers(s: State, h: seq<real>, clock: real, k: nat) {
    && Ascending(h) && Spaced(h, k)
    && (forall i | 0 <= i < |h| :: h[i] <= clock)
    && |s.sendTimes| <= |h| && s.sendTimes == h[|h| - |s.sendTimes|..]
    && forall i | 0 <= i < |h| - |s.sendTimes| :: clock - h[i] >= WINDOW_MS
  }

  lemma {:induction false} PruneAllRecent(ts: seq<real>, now: real)
    requires forall i | 0 <= i < |ts| :: now - ts[i] < WINDOW_MS
    ensures Prune(ts, now) == ts
  {
    if ts != [] {
      PruneAllRecent(ts[1..], now);
    }
  }

  /** Pruning an ascending list drops a prefix. */
  lemma {:induction false} PruneDropsPrefix(ts: seq<real>, now: real)
    requires Ascending(ts)
    ensures |Prune(ts, now)| <= |ts| && Prune(ts, now) == ts[|ts| - |Prune(ts, now)|..]
    ensures forall i | 0 <= i < |ts| - |Prune(ts, now)| :: now - ts[i] >= WINDOW_MS
  {
    if ts != [] {
      PruneDropsPrefix(ts[1..], now);
      var r := Prune(ts[1..], now);
      if now - ts[0] < WINDOW_MS {
        forall i | 0 <= i < |ts| ensures now - ts[i] < WINDOW_MS { assert ts[0] <= ts[i]; }
        PruneAllRecent(ts, now);
      } else {
        forall i | 0 <= i < |ts| - |r| ensures now - ts[i] >= WINDOW_MS {
          if i > 0 { assert ts[i] == ts[1..][i - 1]; }
        }
      }
    }
  }

  /** What is kept is a suffix of the history, and what is not is out of the window. */
  lemma PruneOfHistory(sent: seq<real>, h: seq<real>, clock: real, now: real)
    requires |sent| <= |h| && sent == h[|h| - |sent|..] && Ascending(sent) && clock <= now
    requires forall i | 0 <= i < |h| - |sent| :: clock - h[i] >= WINDOW_MS
    ensures
      var t := Prune(sent, now);
      && |t| <= |h| && t == h[|h| - |t|..]
      && (forall i | 0 <= i < |h| - |t| :: now - h[i] >= WINDOW_MS)
      && (forall i | |h| - |t| <= i < |h| :: now - h[i] < WINDOW_MS)
  {
    PruneDropsPrefix(sent, now);
    PruneKeepsRecent(sent, now);
    var t, n := Prune(sent, now), |h|;
    forall i | 0 <= i < n - |t| ensures now - h[i] >= WINDOW_MS {
      if i >= n - |sent| { assert h[i] == sent[i - (n - |sent|)]; }
    }
  }

  lemma RecentAtMost(h: seq<real>, now: real, k: nat, n: nat)
    requires Spaced(h, k) && k > 0 && n <= |h|
    requires forall i | 0 <= i < |h| :: h[i] <= now
    requires forall i | |h| - n <= i < |h| :: now - h[i] < WINDOW_MS
    ensures n <= k
  {
    assert |h| > k ==> h[|h| - 1] - h[|h| - 1 - k] >= WINDOW_MS;
  }

  lemma ThrottleRemembers(s: State, scope: Scope, h: seq<real>, clock: real, now: real, k: nat)
    requires scope.maxRequestsPerSecond > 0.0 && Remembers(s, h, clock, k) && clock <= now && k > 0
    ensures Remembers(Throttled(s, scope, now), h, now, k)
    ensures |Prune(s.sendTimes, now)| <= k
  {
    PruneOfHistory(s.sendTimes, h, clock, now);
    RecentAtMost(h, now, k, |Prune(s.sendTimes, now)|);
  }

  /** A probe that enters `throttle` resumes a window later than the k-th last send, although the
      pruned list is not filtered again after the sleep. */
  lemma ProbeIsLate(s: State, scope: Scope, h: seq<real>, clock: real, now: real, k: nat)
    requires 0.0 < scope.maxRequestsPerSecond <= k as real
    requires Remembers(s, h, clock, k) && clock <= now
    ensures |h| >= k ==> now + Wait(s.sendTimes, scope, now) - h[|h| - k] >= WINDOW_MS
  {
    ThrottleRemembers(s, scope, h, clock, now, k);
    var t := Prune(s.sendTimes, now);
    if |h| >= k && |t| == k {
      assert h[|h| - k] == t[0];
    }
  }

  lemma RecordRemembers(s: State, h: seq<real>, clock: real, isMutating: bool, now: real, k: nat)
    requires k > 0 && Remembers(s, h, clock, k) && clock <= now
    requires |h| >= k ==> now - h[|h| - k] >= WINDOW_MS
    ensures Remembers(Recorded(s, isMutating, now), h + [now], now, k)
  {
  }

  // ---- One probe at a time ----

  /** What holds between the moves of a sequential run: no probe in flight resumes too early. */
  ghost predicate OnTime(l: Line, h: seq<real>, k: nat) {
    && k > 0 && Remembers(l.guard, h, l.clock, k) && |l.ready| <= 1
    && (|l.ready| == 1 && |h| >= k ==> l.ready[0] - h[|h| - k] >= WINDOW_MS)
  }

  lemma {:induction false} MoveOnTime(l: Line, scope: Scope, h: seq<real>, m: Move, k: nat)
    requires 0.0 < scope.maxRequestsPerSecond <= k as real
    requires OnTime(l, h, k) && CanMove(l, m, 1)
    ensures OnTime(Moved(l, scope, m), h + SendOf(m), k)
  {
    Associate(h, [], []);
    match m
    case Start(now) =>
      ThrottleRemembers(l.guard, scope, h, l.clock, now, k);
      ProbeIsLate(l.guard, scope, h, l.clock, now, k);
    case Land(_, now, isMutating) => RecordRemembers(l.guard, h, l.clock, isMutating, now, k);
    case Drop(_, _) =>
  }

  lemma {:induction false} RunOnTime(l: Line, scope: Scope, h: seq<real>, ms: seq<Move>, k: nat)
    requires 0.0 < scope.maxRequestsPerSecond <= k as real
    requires OnTime(l, h, k) && CanRun(l, scope, ms, 1)
    ensures Ascending(h + Sends(ms)) && Spaced(h + Sends(ms), k)
    decreases ms
  {
    Associate(h, [], []);
    if ms != [] {
      MoveOnTime(l, scope, h, ms[0], k);
      Associate(h, SendOf(ms[0]), Sends(ms[1..]));
      RunOnTime(Moved(l, scope, ms[0]), scope, h + SendOf(ms[0]), ms[1..], k);
    }
  }

  /** Main result: one probe at a time, with `k = ceil(maxRequestsPerSecond)`, sends `i` and `i + k`
      are at least 1000 ms apart in every run. */
  lemma RateLimit(scope: Scope, clock: real, ms: seq<Move>)
    requires scope.maxRequestsPerSecond > 0.0 && CanRun(Idle(clock), scope, ms, 1)
    ensures Ceil(scope.maxRequestsPerSecond) > 0 && Spaced(Sends(ms), Ceil(scope.maxRequestsPerSecond))
    ensures Ascending(Sends(ms))
  {
    RunOnTime(Idle(clock), scope, [], ms, Ceil(scope.maxRequestsPerSecond));
    assert [] + Sends(ms) == Sends(ms);
  }

  /** Hence any stretch shorter than a window holds at most `k` sends. */
  lemma WindowHoldsAtMost(h: seq<real>, k: nat, i: nat, j: nat)
    requires Ascending(h) && Spaced(h, k) && i <= j < |h| && h[j] - h[i] < WINDOW_MS
    ensures j - i + 1 <= k
  {
    assert i + k < |h| ==> h[i + k] - h[i] >= WINDOW_MS;
  }

  // ---- Two probes at a time ----

  /** At most `C` probes is at most `D` probes. */
  lemma {:induction false} MoreProbesAllowed(l: Line, scope: Scope, ms: seq<Move>, C: nat, D: nat)
    requires CanRun(l, scope, ms, C) && C <= D
    ensures CanRun(l, scope, ms, D)
    decreases ms
  {
    if ms != [] { MoreProbesAllowed(Moved(l, scope, ms[0]), scope, ms[1..], C, D); }
  }

  ghost predicate StrictlyAscending(h: seq<real>) { forall i, j | 0 <= i < j < |h| :: h[i] < h[j] }

  /** Nothing is in flight, and the window holds exactly the sends `ts`, all at different times. */
  ghost predicate Crowd(l: Line, ts: seq<real>) {
    && l.ready == [] && ts != [] && StrictlyAscending(ts)
    && Prune(l.guard.sendTimes, l.clock) == ts
    && ts[|ts| - 1] <= l.clock < ts[0] + WINDOW_MS
  }

  /** When the next two sends are recorded: the first as the oldest send leaves the window, the second
      shortly after, before the second oldest leaves it. */
  function First(ts: seq<real>): real
    requires ts != []
  {
    ts[0] + WINDOW_MS
  }

  function Second(ts: seq<real>): real
    requires ts != []
  {
    if |ts| == 1 then First(ts) + 1.0 else (First(ts) + First(ts[1..])) / 2.0
  }

  /** The moves lead from one state to another, with these sends. */
  ghost predicate Leads(scope: Scope, l: Line, ms: seq<Move>, end: Line, h: seq<real>) {
    CanRun(l, scope, ms, 2) && Run(l, scope, ms, 2) == end && Sends(ms) == h
  }

  lemma {:induction false} LeadsConcat(
    scope: Scope, l: Line, a: seq<Move>, mid: Line, h: seq<real>, b: seq<Move>, end: Line, g: seq<real>)
    requires Leads(scope, l, a, mid, h) && Leads(scope, mid, b, end, g)
    ensures Leads(scope, l, a + b, end, h + g)
    decreases a
  {
    if a == [] {
      assert a + b == b && [] + g == g;
    } else {
      assert (a + b)[1..] == a[1..] + b;
      LeadsConcat(scope, Moved(l, scope, a[0]), a[1..], mid, Sends(a[1..]), b, end, g);
      Associate(SendOf(a[0]), Sends(a[1..]), g);
    }
  }

  lemma {:induction false} TwoMoves(scope: Scope, l: Line, m: Move, n: Move)
    requires CanMove(l, m, 2) && CanMove(Moved(l, scope, m), n, 2)
    ensures Leads(scope, l, [m, n], Moved(Moved(l, scope, m), scope, n), SendOf(m) + SendOf(n))
  {
    LeadsConcat(scope, l, [m], Moved(l, scope, m), SendOf(m), [n], Moved(Moved(l, scope, m), scope, n), SendOf(n));
    assert [m] + [n] == [m, n];
  }

  /** Two probes in flight that may both be recorded once the oldest send has left the window. */
  ghost predicate TwoWaiting(l: Line, ts: seq<real>) {
    && ts != [] && StrictlyAscending(ts) && ts[|ts| - 1] <= l.clock < First(ts)
    && l.guard.sendTimes == ts && |l.ready| == 2 && l.ready[0] <= First(ts) && l.ready[1] <= First(ts)
  }

  lemma {:induction false} BothStart(l: Line, scope: Scope, ts: seq<real>) returns (mid: Line)
    requires scope.maxRequestsPerSecond > 0.0 && Crowd(l, ts)
    ensures Leads(scope, l, [Start(l.clock), Start(l.clock)], mid, []) && TwoWaiting(mid, ts)
  {
    PruneAllRecent(ts, l.clock);
    mid := Moved(Moved(l, scope, Start(l.clock)), scope, Start(l.clock));
    TwoMoves(scope, l, Start(l.clock), Start(l.clock));
  }

  lemma {:induction false} BothLand(l: Line, scope: Scope, ts: seq<real>) returns (end: Line)
    requires TwoWaiting(l, ts)
    ensures
      Leads(scope, l, [Land(0, First(ts), false), Land(0, Second(ts), false)], end, [First(ts), Second(ts)])
    ensures Crowd(end, ts[1..] + [First(ts), Second(ts)])
  {
    var land, again := Land(0, First(ts), false), Land(0, Second(ts), false);
    assert |ts| > 1 ==> ts[1] == ts[1..][0] && ts[0] < ts[1] <= ts[|ts| - 1];
    end := Moved(Moved(l, scope, land), scope, again);
    TwoMoves(scope, l, land, again);
    assert end.guard.sendTimes == ts + [First(ts), Second(ts)];
    NewCrowd(end, ts);
  }

  /** The crowd after both sends, once the oldest has left the window. */
  lemma {:induction false} NewCrowd(l: Line, ts: seq<real>)
    requires ts != [] && StrictlyAscending(ts) && ts[|ts| - 1] < First(ts)
    requires l.ready == [] && l.clock == Second(ts) && l.guard.sendTimes == ts + [First(ts), Second(ts)]
    ensures Crowd(l, ts[1..] + [First(ts), Second(ts)])
  {
    var us := ts[1..] + [First(ts), Second(ts)];
    assert l.guard.sendTimes == [ts[0]] + us;
    assert ([ts[0]] + us)[1..] == us;
    assert |ts| > 1 ==> ts[1] == ts[1..][0];
    assert First(ts) < Second(ts) && (|ts| > 1 ==> Second(ts) < ts[1] + WINDOW_MS);
    AppendTwo(ts[1..], First(ts), Second(ts));
    assert forall i | 0 <= i < |us| :: us[0] <= us[i];
    PruneAllRecent(us, l.clock);
  }

  lemma AppendTwo(h: seq<real>, x: real, y: real)
    requires StrictlyAscending(h) && x < y && (h != [] ==> h[|h| - 1] < x)
    ensures StrictlyAscending(h + [x, y])
  {
    assert forall i | 0 <= i < |h| :: h[i] <= h[|h| - 1];
  }

  /** Two probes that sleep until the oldest send leaves the window. */
  function Pair(l: Line, ts: seq<real>): seq<Move>
    requires ts != []
  {
    [Start(l.clock), Start(l.clock), Land(0, First(ts), false), Land(0, Second(ts), false)]
  }

  /** One send leaves the window and two enter it. */
  lemma {:induction false} CrowdGrows(l: Line, scope: Scope, ts: seq<real>) returns (end: Line)
    requires scope.maxRequestsPerSecond > 0.0 && Crowd(l, ts)
    ensures Leads(scope, l, Pair(l, ts), end, [First(ts), Second(ts)])
    ensures Crowd(end, ts[1..] + [First(ts), Second(ts)])
  {
    var mid := BothStart(l, scope, ts);
    end := BothLand(mid, scope, ts);
    var starts := [Start(l.clock), Start(l.clock)];
    var lands := [Land(0, First(ts), false), Land(0, Second(ts), false)];
    LeadsConcat(scope, l, starts, mid, [], lands, end, [First(ts), Second(ts)]);
    assert starts + lands == Pair(l, ts);
  }

  lemma {:induction false} SuffixMoves(h: seq<real>, t: seq<real>, x: real, y: real)
    requires 0 < |t| <= |h| && t == h[|h| - |t|..]
    ensures
      var g, u := h + [x, y], t[1..] + [x, y];
      |u| <= |g| && u == g[|g| - |u|..]
  {
  }

  lemma {:induction false} CrowdOfOne(scope: Scope, clock: real) returns (ms: seq<Move>, end: Line)
    requires scope.maxRequestsPerSecond > 0.0
    ensures Leads(scope, Idle(clock), ms, end, [clock]) && Crowd(end, [clock])
  {
    TwoMoves(scope, Idle(clock), Start(clock), Land(0, clock, false));
    ms, end := [Start(clock), Land(0, clock, false)], Line(Recorded(INITIAL, false, clock), clock, []);
    PruneAllRecent([clock], clock);
  }

  /** The first send, and then `n` pairs: the last `n + 1` sends all fall into one window. */
  lemma {:induction false} CrowdOf(scope: Scope, clock: real, n: nat)
    returns (ms: seq<Move>, end: Line, h: seq<real>, ts: seq<real>)
    requires scope.maxRequestsPerSecond > 0.0
    ensures Leads(scope, Idle(clock), ms, end, h) && Crowd(end, ts)
    ensures |ts| == n + 1 <= |h| && ts == h[|h| - |ts|..]
  {
    if n == 0 {
      ms, end := CrowdOfOne(scope, clock);
      h, ts := [clock], [clock];
    } else {
      var l;
      ms, l, h, ts := CrowdOf(scope, clock, n - 1);
      end := CrowdGrows(l, scope, ts);
      LeadsConcat(scope, Idle(clock), ms, l, h, Pair(l, ts), end, [First(ts), Second(ts)]);
      SuffixMoves(h, ts, First(ts), Second(ts));
      ms, h, ts := ms + Pair(l, ts), h + [First(ts), Second(ts)], ts[1..] + [First(ts), Second(ts)];
    }
  }

  /** With two probes at a time no spacing holds at all: whatever the rate and however large `n`, some
      run puts the sends `i` and `i + n` into one window. */
  lemma OverlappingProbesBreakRate(scope: Scope, clock: real, n: nat) returns (ms: seq<Move>)
    requires scope.maxRequestsPerSecond > 0.0
    ensures CanRun(Idle(clock), scope, ms, 2) && !Spaced(Sends(ms), n)
  {
    var end, h, ts;
    ms, end, h, ts := CrowdOf(scope, clock, n);
    assert h[|h| - 1] == ts[n] && h[|h| - 1 - n] == ts[0];
    assert h[|h| - 1] - h[|h| - 1 - n] < WINDOW_MS;
  }

  // ---- The exact condition ----

  /** Every run with at most `C` probes at a time keeps sends that are `k` apart a window apart. */
  ghost predicate LimitsRate(scope: Scope, C: nat, k: nat) {
    forall clock, ms :: CanRun(Idle(clock), scope, ms, C) ==> Spaced(Sends(ms), k)
  }

  /** Main result, exact: for every positive rate the limit holds iff probes never overlap, and if they
      may, no other bound holds either. */
  lemma RateLimitIffSequential(scope: Scope, C: nat)
    requires scope.maxRequestsPerSecond > 0.0
    ensures Ceil(scope.maxRequestsPerSecond) > 0
    ensures LimitsRate(scope, C, Ceil(scope.maxRequestsPerSecond)) <==> C <= 1
    ensures (exists k: nat :: LimitsRate(scope, C, k)) <==> C <= 1
  {
    if C <= 1 {
      forall clock, ms | CanRun(Idle(clock), scope, ms, C)
        ensures Spaced(Sends(ms), Ceil(scope.maxRequestsPerSecond))
      {
        MoreProbesAllowed(Idle(clock), scope, ms, C, 1);
        RateLimit(scope, clock, ms);
      }
    } else {
      forall k: nat ensures !LimitsRate(scope, C, k) {
        var ms := OverlappingProbesBreakRate(scope, 0.0, k);
        MoreProbesAllowed(Idle(0.0), scope, ms, 2, C);
      }
    }
  }
}
