/** Runs of the live-probe gate: caps and kill switch under any interleaving of probes. */
module GuardRuns {
  import opened ScopeGuard

  // ---- Interleavings of at most C probes ----

  /** The guard, the probes between admission and completion, and the kill signal. */
  datatype System = System(guard: State, safeFlying: nat, mutatingFlying: nat, killed: bool, admitted: nat, failed: nat)

  datatype Action =
    | Admit(isMutating: bool, url: UrlVerdict)
    | Throttle(now: real)
    | Complete(isMutating: bool, now: real)
    | Abandon(isMutating: bool)
    | Kill

  function Flying(s: System): nat { s.safeFlying + s.mutatingFlying }

  predicate Enabled(s: System, a: Action, scope: Scope, productionBlocked: bool, C: nat) {
    match a
    case Admit(m, url) => Flying(s) < C && Gate(s.guard, scope, s.killed, m, productionBlocked, url) == Pass
    case Complete(m, _) => if m then s.mutatingFlying > 0 else s.safeFlying > 0
    case Abandon(m) => if m then s.mutatingFlying > 0 else s.safeFlying > 0
    case _ => true
  }

  function Land(s: System, m: bool): System
    requires if m then s.mutatingFlying > 0 else s.safeFlying > 0
  {
    if m then s.(mutatingFlying := s.mutatingFlying - 1) else s.(safeFlying := s.safeFlying - 1)
  }

  function Step(s: System, a: Action, scope: Scope, productionBlocked: bool, C: nat): System
    requires Enabled(s, a, scope, productionBlocked, C)
  {
    match a
    case Admit(m, _) =>
      var t := s.(admitted := s.admitted + 1);
      if m then t.(mutatingFlying := t.mutatingFlying + 1) else t.(safeFlying := t.safeFlying + 1)
    case Throttle(now) => s.(guard := Throttled(s.guard, scope, now))
    case Complete(m, now) => Land(s, m).(guard := Recorded(s.guard, m, now))
    case Abandon(m) => Land(s, m).(failed := s.failed + 1)
    case Kill => s.(killed := true)
  }

  predicate CanRun(s: System, acts: seq<Action>, scope: Scope, productionBlocked: bool, C: nat)
    decreases acts
  {
    acts == [] || (Enabled(s, acts[0], scope, productionBlocked, C)
                   && CanRun(Step(s, acts[0], scope, productionBlocked, C), acts[1..], scope, productionBlocked, C))
  }

  function Run(s: System, acts: seq<Action>, scope: Scope, productionBlocked: bool, C: nat): System
    requires CanRun(s, acts, scope, productionBlocked, C)
    decreases acts
  {
    if acts == [] then s
    else Run(Step(s, acts[0], scope, productionBlocked, C), acts[1..], scope, productionBlocked, C)
  }

  /** The most that a cap admits with `C` probes at a time. */
  function Ceiling(cap: int, C: nat): int { if cap <= 0 || C == 0 then 0 else cap + C - 1 }

  ghost predicate Capped(s: System, scope: Scope, C: nat) {
    && s.guard.total + Flying(s) <= Ceiling(scope.maxRequestsPerScan, C)
    && s.guard.mutating + s.mutatingFlying <= Ceiling(scope.maxMutatingRequests, C)
    && s.admitted == s.guard.total + Flying(s) + s.failed
    && Flying(s) <= C
  }

  lemma {:induction false} RunCapped(s: System, acts: seq<Action>, scope: Scope, pb: bool, C: nat)
    requires CanRun(s, acts, scope, pb, C) && Capped(s, scope, C)
    ensures Capped(Run(s, acts, scope, pb, C), scope, C)
    decreases acts
  {
    if acts != [] {
      RunCapped(Step(s, acts[0], scope, pb, C), acts[1..], scope, pb, C);
    }
  }

  /** Main result: recorded plus in-flight requests never pass cap + C - 1; a mutating cap of 0 lets
      no mutating request through; every admitted request is recorded, in flight or failed. */
  lemma {:induction false} CapsHold(initial: System, acts: seq<Action>, scope: Scope, pb: bool, C: nat)
    requires initial.guard.total == initial.guard.mutating == initial.safeFlying == initial.mutatingFlying == 0
    requires initial.admitted == initial.failed == 0
    requires CanRun(initial, acts, scope, pb, C)
    ensures
      var s := Run(initial, acts, scope, pb, C);
      && s.guard.total + Flying(s) <= Ceiling(scope.maxRequestsPerScan, C)
      && s.guard.mutating + s.mutatingFlying <= Ceiling(scope.maxMutatingRequests, C)
      && (scope.maxMutatingRequests <= 0 ==> s.guard.mutating == 0 && s.mutatingFlying == 0)
      && (C == 1 && scope.maxRequestsPerScan > 0 ==> s.guard.total + Flying(s) <= scope.maxRequestsPerScan)
      && s.admitted == s.guard.total + Flying(s) + s.failed
  {
    RunCapped(initial, acts, scope, pb, C);
  }

  /** Every request that a run admits is allowlisted and egressable, and no blocked production target. */
  lemma {:induction false} AdmittedAreAllowed(
    s: System, acts: seq<Action>, scope: Scope, pb: bool, C: nat, i: nat)
    requires CanRun(s, acts, scope, pb, C) && i < |acts| && acts[i].Admit?
    ensures acts[i].url.allowlisted && acts[i].url.egress && !(pb && acts[i].url.production)
    decreases acts
  {
    if i > 0 { AdmittedAreAllowed(Step(s, acts[0], scope, pb, C), acts[1..], scope, pb, C, i - 1); }
  }

  /** After the kill signal nothing more is admitted; only probes already in flight can land. */
  lemma {:induction false} NothingAfterKill(s: System, acts: seq<Action>, scope: Scope, pb: bool, C: nat)
    requires s.killed && CanRun(s, acts, scope, pb, C)
    ensures
      var t := Run(s, acts, scope, pb, C);
      && t.killed && t.admitted == s.admitted
      && t.guard.total + Flying(t) + t.failed == s.guard.total + Flying(s) + s.failed
    decreases acts
  {
    if acts != [] {
      NothingAfterKill(Step(s, acts[0], scope, pb, C), acts[1..], scope, pb, C);
    }
  }

  const OPEN := UrlVerdict(true, false, true)

  function Repeat(acts: seq<Action>, n: nat): seq<Action> {
    if n == 0 then [] else acts + Repeat(acts, n - 1)
  }

  lemma {:induction false} RunConcat(s: System, a: seq<Action>, b: seq<Action>, scope: Scope, pb: bool, C: nat)
    requires CanRun(s, a, scope, pb, C) && CanRun(Run(s, a, scope, pb, C), b, scope, pb, C)
    ensures CanRun(s, a + b, scope, pb, C)
    ensures Run(s, a + b, scope, pb, C) == Run(Run(s, a, scope, pb, C), b, scope, pb, C)
    decreases a
  {
    if a == [] {
      assert a + b == b;
    } else {
      assert (a + b)[1..] == a[1..] + b;
      RunConcat(Step(s, a[0], scope, pb, C), a[1..], b, scope, pb, C);
    }
  }

  function Send(m: bool): Action { Admit(m, OPEN) }

  /** A send of this kind is not held back by a cap. */
  predicate Open(s: System, scope: Scope, m: bool) {
    !s.killed && s.guard.total < scope.maxRequestsPerScan && (m ==> s.guard.mutating < scope.maxMutatingRequests)
  }

  /** A send that fails is never recorded: while the caps are open, any number of failing requests is
      admitted and the counters do not move. */
  lemma {:induction false} FailingRun(s: System, n: nat, m: bool, scope: Scope, pb: bool, C: nat)
    requires Open(s, scope, m) && Flying(s) == 0 && C > 0
    ensures
      var acts := Repeat([Send(m), Abandon(m)], n);
      && CanRun(s, acts, scope, pb, C)
      && Run(s, acts, scope, pb, C) == s.(admitted := s.admitted + n, failed := s.failed + n)
    decreases n
  {
    if n > 0 {
      TwoSteps(s, m, Abandon(m), scope, pb, C);
      FailingRun(s.(admitted := s.admitted + 1, failed := s.failed + 1), n - 1, m, scope, pb, C);
      RunConcat(s, [Send(m), Abandon(m)], Repeat([Send(m), Abandon(m)], n - 1), scope, pb, C);
    }
  }

  /** Runs from `s` admit at most `bound` requests in all. */
  ghost predicate AttemptsAtMost(s: System, bound: nat, scope: Scope, pb: bool, C: nat) {
    forall acts :: CanRun(s, acts, scope, pb, C) ==> Run(s, acts, scope, pb, C).admitted <= bound
  }

  /** A gate that is closed to every request stays closed. */
  lemma {:induction false} ClosedAdmitsNothing(s: System, acts: seq<Action>, scope: Scope, pb: bool, C: nat)
    requires s.killed || s.guard.total >= scope.maxRequestsPerScan
    requires CanRun(s, acts, scope, pb, C)
    ensures Run(s, acts, scope, pb, C).admitted == s.admitted
    decreases acts
  {
    if acts != [] { ClosedAdmitsNothing(Step(s, acts[0], scope, pb, C), acts[1..], scope, pb, C); }
  }

  /** Exact: the number of attempts is bounded iff the gate is closed already, by the kill signal or by
      the scan cap. The caps bound recorded and in-flight requests, not attempts. */
  lemma AttemptsBoundedIff(s: System, scope: Scope, pb: bool, C: nat)
    requires Flying(s) == 0 && C > 0
    ensures (exists bound: nat :: AttemptsAtMost(s, bound, scope, pb, C))
       <==> s.killed || s.guard.total >= scope.maxRequestsPerScan
  {
    if s.killed || s.guard.total >= scope.maxRequestsPerScan {
      forall acts | CanRun(s, acts, scope, pb, C) ensures Run(s, acts, scope, pb, C).admitted <= s.admitted {
        ClosedAdmitsNothing(s, acts, scope, pb, C);
      }
      assert AttemptsAtMost(s, s.admitted, scope, pb, C);
    } else {
      forall bound: nat ensures !AttemptsAtMost(s, bound, scope, pb, C) {
        FailingRun(s, bound + 1, false, scope, pb, C);
      }
    }
  }

  lemma TwoSteps(s: System, m: bool, a: Action, scope: Scope, pb: bool, C: nat)
    requires Open(s, scope, m) && Flying(s) == 0 && C > 0
    requires a == Abandon(m) || (a.Complete? && a.isMutating == m)
    ensures CanRun(s, [Send(m), a], scope, pb, C)
    ensures Run(s, [Send(m), a], scope, pb, C) == Step(Step(s, Send(m), scope, pb, C), a, scope, pb, C)
  {
    var two := [Send(m), a];
    var t := Step(s, Send(m), scope, pb, C);
    assert two[1..] == [a] && two[1..][1..] == [];
    assert Run(Step(t, a, scope, pb, C), two[1..][1..], scope, pb, C) == Step(t, a, scope, pb, C);
    assert CanRun(t, two[1..], scope, pb, C);
  }

  lemma {:induction false} CompletingRun(s: System, n: nat, m: bool, scope: Scope, pb: bool, C: nat)
    requires !s.killed && Flying(s) == 0 && C > 0 && s.guard.total + n <= scope.maxRequestsPerScan
    requires m ==> s.guard.mutating + n <= scope.maxMutatingRequests
    ensures CanRun(s, Repeat([Send(m), Complete(m, 0.0)], n), scope, pb, C)
    ensures
      var t := Run(s, Repeat([Send(m), Complete(m, 0.0)], n), scope, pb, C);
      && !t.killed && Flying(t) == 0 && t.guard.total == s.guard.total + n
      && t.guard.mutating == s.guard.mutating + if m then n else 0
    decreases n
  {
    if n > 0 {
      var two := [Send(m), Complete(m, 0.0)];
      TwoSteps(s, m, Complete(m, 0.0), scope, pb, C);
      CompletingRun(Run(s, two, scope, pb, C), n - 1, m, scope, pb, C);
      RunConcat(s, two, Repeat(two, n - 1), scope, pb, C);
    }
  }

  lemma {:induction false} AdmittingRun(s: System, n: nat, m: bool, scope: Scope, pb: bool, C: nat)
    requires Open(s, scope, m) && Flying(s) + n <= C
    ensures CanRun(s, Repeat([Send(m)], n), scope, pb, C)
    ensures
      var t := Run(s, Repeat([Send(m)], n), scope, pb, C);
      && t.guard == s.guard && Flying(t) == Flying(s) + n
      && t.mutatingFlying == s.mutatingFlying + if m then n else 0
    decreases n
  {
    if n > 0 {
      assert Repeat([Send(m)], n)[1..] == Repeat([Send(m)], n - 1);
      AdmittingRun(Step(s, Send(m), scope, pb, C), n - 1, m, scope, pb, C);
    }
  }

  /** `n` requests one after the other, and then `C` at a time. */
  lemma FillUp(s: System, n: nat, m: bool, scope: Scope, pb: bool, C: nat) returns (acts: seq<Action>)
    requires !s.killed && Flying(s) == 0 && C > 0 && s.guard.total + n < scope.maxRequestsPerScan
    requires m ==> s.guard.mutating + n < scope.maxMutatingRequests
    ensures CanRun(s, acts, scope, pb, C)
    ensures
      var t := Run(s, acts, scope, pb, C);
      && t.guard.total + Flying(t) == s.guard.total + n + C
      && (m ==> t.guard.mutating + t.mutatingFlying == s.guard.mutating + n + C)
  {
    var a := Repeat([Send(m), Complete(m, 0.0)], n);
    CompletingRun(s, n, m, scope, pb, C);
    AdmittingRun(Run(s, a, scope, pb, C), C, m, scope, pb, C);
    RunConcat(s, a, Repeat([Send(m)], C), scope, pb, C);
    acts := a + Repeat([Send(m)], C);
  }

  /** The bound cap + C - 1 is exact: from any idle guard below its cap some run reaches it. */
  lemma CapIsReached(s: System, scope: Scope, pb: bool, C: nat) returns (acts: seq<Action>)
    requires !s.killed && Flying(s) == 0 && s.guard.total < scope.maxRequestsPerScan && C > 0
    ensures CanRun(s, acts, scope, pb, C)
    ensures
      var t := Run(s, acts, scope, pb, C);
      t.guard.total + Flying(t) == Ceiling(scope.maxRequestsPerScan, C)
  {
    acts := FillUp(s, scope.maxRequestsPerScan - 1 - s.guard.total, false, scope, pb, C);
  }

  /** The most mutating requests that `s` can come to: as far as either cap leaves room. */
  function MutatingPeak(s: System, scope: Scope, C: nat): int {
    var room, scanRoom := scope.maxMutatingRequests - s.guard.mutating, scope.maxRequestsPerScan - s.guard.total;
    s.guard.mutating + (if room < scanRoom then room else scanRoom) + C - 1
  }

  /** Every run from an idle guard that lets mutating requests through stays at or below the peak. */
  lemma MutatingPeakHolds(s: System, acts: seq<Action>, scope: Scope, pb: bool, C: nat)
    requires Open(s, scope, true) && Flying(s) == 0 && CanRun(s, acts, scope, pb, C) && C > 0
    ensures
      var t := Run(s, acts, scope, pb, C);
      t.guard.mutating + t.mutatingFlying <= MutatingPeak(s, scope, C)
  {
    RunStaysBelow(s, s, acts, scope, pb, C);
  }

  /** Mutating requests count against both caps. */
  ghost predicate Below(s: System, t: System, scope: Scope, C: nat) {
    && t.guard.total + Flying(t) < scope.maxRequestsPerScan + C
    && t.guard.mutating + t.mutatingFlying < scope.maxMutatingRequests + C
    && t.guard.mutating - s.guard.mutating <= t.guard.total - s.guard.total && Flying(t) <= C
  }

  lemma {:induction false} RunStaysBelow(
    s: System, t: System, acts: seq<Action>, scope: Scope, pb: bool, C: nat)
    requires Below(s, t, scope, C) && CanRun(t, acts, scope, pb, C)
    ensures Below(s, Run(t, acts, scope, pb, C), scope, C)
    decreases acts
  {
    if acts != [] { RunStaysBelow(s, Step(t, acts[0], scope, pb, C), acts[1..], scope, pb, C); }
  }

  /** The peak is reached; where the scan cap leaves room it is the mutating cap + C - 1. */
  lemma MutatingCapIsReached(s: System, scope: Scope, pb: bool, C: nat) returns (acts: seq<Action>)
    requires Open(s, scope, true) && Flying(s) == 0 && C > 0
    ensures CanRun(s, acts, scope, pb, C)
    ensures
      var t := Run(s, acts, scope, pb, C);
      && t.guard.mutating + t.mutatingFlying == MutatingPeak(s, scope, C)
      && (s.guard.total + (scope.maxMutatingRequests - s.guard.mutating) <= scope.maxRequestsPerScan ==>
            t.guard.mutating + t.mutatingFlying == Ceiling(scope.maxMutatingRequests, C))
  {
    acts := FillUp(s, MutatingPeak(s, scope, C) - C - s.guard.mutating, true, scope, pb, C);
  }
}
