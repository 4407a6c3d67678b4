/** How the confirmed list changes with the known false positives, live probing on or off: the exact
    condition. */
module ConfirmChanges {
  import opened Options
  import opened Confirm
  import opened ConfirmLaws

  type Suppressed = (string, string, int) -> bool

  const NEVER: nat -> bool := (n: nat) => false

  predicate Hit(isFp: Suppressed, f: Finding) { isFp(f.category, f.file, f.line) }

  function Suppress<S>(d: Deps<S>, isFp: Suppressed): Deps<S> { d.(isKnownFalsePositive := isFp) }

  function Without(cs: seq<Confirmed>, isFp: Suppressed): seq<Confirmed> {
    if cs == [] then [] else (if Hit(isFp, cs[0].source) then [] else [cs[0]]) + Without(cs[1..], isFp)
  }

  // ---- Adding known false positives: the law ----

  ghost predicate Adds<S>(d: Deps<S>, isFp: Suppressed) {
    forall f | FalsePositive(d, f) :: Hit(isFp, f)
  }

  /** A batch that runs through with `d` also does with more false positives, which removes exactly
      those findings from the confirmed list and keeps the order of the rest. */
  ghost predicate OnlyRemoves<S>(d: Deps<S>, isFp: Suppressed, probable: seq<Finding>, s: S, killed: nat -> bool) {
    var x, y := ConfirmedBatch(d, probable, s, killed), ConfirmedBatch(Suppress(d, isFp), probable, s, killed);
    x.Output? ==> y.Output? && y.confirmed == Without(x.confirmed, isFp)
  }

  ghost predicate RemovalLaw<S(!new)>(d: Deps<S>) {
    forall isFp, probable, s, killed | Adds(d, isFp) :: OnlyRemoves(d, isFp, probable, s, killed)
  }

  // ---- Its exact condition: live attempts do not influence each other ----

  predicate SameKey(f: Finding, g: Finding) { f.category == g.category && f.file == g.file && f.line == g.line }

  /** Findings ranked behind `f`, with other keys, that are tried live. */
  ghost predicate Later<S>(d: Deps<S>, f: Finding, gs: seq<Finding>) {
    RankSorted([f] + gs) && forall g | g in gs :: TriesLive(d, g) && !SameKey(f, g)
  }

  /** The attempts on `gs` report the same whether or not the attempt on `f` came before. */
  ghost predicate Unseen<S>(d: Deps<S>, f: Finding, gs: seq<Finding>, s: S) {
    var s' := d.live(f, s).1;
    TriesLive(d, f) && Later(d, f, gs) && d.live(f, s).0.Probed? && Aborted !in Results(d, gs, s') ==>
      Results(d, gs, s) == Results(d, gs, s')
  }

  ghost predicate NonInterfering<S(!new)>(d: Deps<S>) {
    forall f, gs, s :: Unseen(d, f, gs, s)
  }

  // ---- Sufficient ----

  /** From state `t`, findings of rank `r` and more that are not hit have the results they have from `s`. */
  ghost predicate Agree<S>(d: Deps<S>, isFp: Suppressed, r: int, s: S, t: S) {
    forall gs | Unhit(d, isFp, r, gs) && Aborted !in Results(d, gs, s) :: Results(d, gs, t) == Results(d, gs, s)
  }

  ghost predicate Unhit<S>(d: Deps<S>, isFp: Suppressed, r: int, gs: seq<Finding>) {
    RankSorted(gs) && forall g | g in gs :: TriesLive(d, g) && !Hit(isFp, g) && r <= g.rank
  }

  lemma AgreeAfterHit<S(!new)>(d: Deps<S>, isFp: Suppressed, r: int, f: Finding, s: S, t: S)
    requires NonInterfering(d) && Agree(d, isFp, r, s, t) && r <= f.rank
    requires TriesLive(d, f) && Hit(isFp, f) && d.live(f, s).0.Probed?
    ensures Agree(d, isFp, f.rank, d.live(f, s).1, t)
  {
    var s' := d.live(f, s).1;
    forall gs | Unhit(d, isFp, f.rank, gs) && Aborted !in Results(d, gs, s')
      ensures Results(d, gs, t) == Results(d, gs, s')
    {
      assert Later(d, f, gs);
      assert Unseen(d, f, gs, s);
      assert Unhit(d, isFp, r, gs);
    }
  }

  lemma AgreeAfterMiss<S>(d: Deps<S>, isFp: Suppressed, r: int, f: Finding, s: S, t: S)
    requires Agree(d, isFp, r, s, t) && r <= f.rank
    requires TriesLive(d, f) && !Hit(isFp, f) && d.live(f, s).0.Probed?
    ensures d.live(f, t).0 == d.live(f, s).0
    ensures Agree(d, isFp, f.rank, d.live(f, s).1, d.live(f, t).1)
  {
    assert Unhit(d, isFp, r, [f] + []);
    assert Results(d, [f] + [], t)[0] == Results(d, [f] + [], s)[0];
    var s', t' := d.live(f, s).1, d.live(f, t).1;
    forall gs | Unhit(d, isFp, f.rank, gs) && Aborted !in Results(d, gs, s')
      ensures Results(d, gs, t') == Results(d, gs, s')
    {
      assert Unhit(d, isFp, r, [f] + gs);
      assert Results(d, [f] + gs, t)[1..] == Results(d, gs, t');
      assert Results(d, [f] + gs, s)[1..] == Results(d, gs, s');
    }
  }

  lemma AgreeStep<S(!new)>(d: Deps<S>, isFp: Suppressed, r: int, f: Finding, s: S, t: S)
    requires NonInterfering(d) && Adds(d, isFp) && Agree(d, isFp, r, s, t) && r <= f.rank
    requires LiveStep(d, f, s).0.Probed?
    ensures Agree(d, isFp, f.rank, LiveStep(d, f, s).1, LiveStep(Suppress(d, isFp), f, t).1)
    ensures TriesLive(d, f) && !Hit(isFp, f) ==> d.live(f, t).0 == d.live(f, s).0
  {
    if !TriesLive(d, f) {
      forall gs | Unhit(d, isFp, f.rank, gs) ensures Unhit(d, isFp, r, gs) {
      }
    } else if Hit(isFp, f) {
      AgreeAfterHit(d, isFp, r, f, s, t);
    } else {
      AgreeAfterMiss(d, isFp, r, f, s, t);
    }
  }

  /** What the batch accepts on `fs` from probe state `s`. */
  function ConfirmedFrom<S>(d: Deps<S>, fs: seq<Finding>, s: S): seq<Confirmed> {
    Accepted(fs, Decisions(d, fs, Results(d, fs, s)))
  }

  lemma AcceptedCons<S>(d: Deps<S>, f: Finding, gs: seq<Finding>, s: S)
    ensures
      var (result, s') := LiveStep(d, f, s);
      var v := Decide(d, f, result == Probed(true));
      ConfirmedFrom(d, [f] + gs, s) == (if v.Accept? then [Confirmed(f, v.via)] else []) + ConfirmedFrom(d, gs, s')
  {
    var (result, s') := LiveStep(d, f, s);
    var fs := [f] + gs;
    var vs := Decisions(d, fs, Results(d, fs, s));
    assert fs[1..] == gs && vs[1..] == Decisions(d, gs, Results(d, gs, s'));
  }

  lemma {:induction false} WithoutConcat(a: seq<Confirmed>, b: seq<Confirmed>, isFp: Suppressed)
    ensures Without(a + b, isFp) == Without(a, isFp) + Without(b, isFp)
  {
    if a == [] {
      assert a + b == b;
    } else {
      assert (a + b)[1..] == a[1..] + b;
      WithoutConcat(a[1..], b, isFp);
    }
  }

  lemma OneMore<S>(d: Deps<S>, isFp: Suppressed, f: Finding, gs: seq<Finding>, s: S, t: S)
    requires Adds(d, isFp) && LiveStep(d, f, s).0.Probed?
    requires TriesLive(d, f) && !Hit(isFp, f) ==> d.live(f, t).0 == d.live(f, s).0
    requires
      var e, s', t' := Suppress(d, isFp), LiveStep(d, f, s).1, LiveStep(Suppress(d, isFp), f, t).1;
      Aborted !in Results(e, gs, t') && ConfirmedFrom(e, gs, t') == Without(ConfirmedFrom(d, gs, s'), isFp)
    ensures
      var e := Suppress(d, isFp);
      && Aborted !in Results(e, [f] + gs, t)
      && ConfirmedFrom(e, [f] + gs, t) == Without(ConfirmedFrom(d, [f] + gs, s), isFp)
  {
    AcceptedCons(d, f, gs, s);
    AcceptedCons(Suppress(d, isFp), f, gs, t);
    var (result, s') := LiveStep(d, f, s);
    var v := Decide(d, f, result == Probed(true));
    WithoutConcat(if v.Accept? then [Confirmed(f, v.via)] else [], ConfirmedFrom(d, gs, s'), isFp);
  }

  /** Two runs over the rest of a batch, `d`'s from `s` and the suppressed one from `t`. */
  lemma {:induction false} RunsAgree<S(!new)>(d: Deps<S>, isFp: Suppressed, fs: seq<Finding>, r: int, s: S, t: S)
    requires NonInterfering(d) && Adds(d, isFp) && Agree(d, isFp, r, s, t)
    requires RankSorted(fs) && (forall f | f in fs :: r <= f.rank) && Aborted !in Results(d, fs, s)
    ensures
      var e := Suppress(d, isFp);
      Aborted !in Results(e, fs, t) && ConfirmedFrom(e, fs, t) == Without(ConfirmedFrom(d, fs, s), isFp)
    decreases fs
  {
    if fs != [] {
      var f, gs := fs[0], fs[1..];
      assert fs == [f] + gs && f in fs;
      assert forall g | g in gs :: f.rank <= g.rank;
      AgreeStep(d, isFp, r, f, s, t);
      RunsAgree(d, isFp, gs, f.rank, LiveStep(d, f, s).1, LiveStep(Suppress(d, isFp), f, t).1);
      OneMore(d, isFp, f, gs, s, t);
    }
  }

  lemma BatchIs<S>(d: Deps<S>, probable: seq<Finding>, s: S, killed: nat -> bool)
    ensures
      var fs, x := SortByRank(probable), ConfirmedBatch(d, probable, s, killed);
      && (x.Output? <==> Aborted !in Results(d, fs, s) && forall m: nat | m < |fs| :: !killed(m))
      && (x.Output? ==> x.confirmed == ConfirmedFrom(d, fs, s))
  {
    StopsWhenKilled(d, SortByRank(probable), s, killed, 0);
    if ConfirmedBatch(d, probable, s, killed).Output? {
      VerdictsAreDecisions(d, SortByRank(probable), s, killed, 0);
    }
  }

  lemma MoreFalsePositivesOnlyRemove<S(
    !new)>(d: Deps<S>, isFp: Suppressed, probable: seq<Finding>, s: S, killed: nat -> bool)
    requires NonInterfering(d) && Adds(d, isFp)
    ensures OnlyRemoves(d, isFp, probable, s, killed)
  {
    var fs := SortByRank(probable);
    BatchIs(d, probable, s, killed);
    BatchIs(Suppress(d, isFp), probable, s, killed);
    SortByRankCorrect(probable);
    if ConfirmedBatch(d, probable, s, killed).Output? && fs != [] {
      RunsAgree(d, isFp, fs, fs[0].rank, s, s);
    }
  }

  // ---- Necessary ----

  lemma {:induction false} ResultsPrefix<S>(d: Deps<S>, fs: seq<Finding>, n: nat, s: S)
    requires n <= |fs|
    ensures Results(d, fs[..n], s) == Results(d, fs, s)[..n]
    decreases fs
  {
    if n > 0 {
      assert fs[..n][1..] == fs[1..][..n - 1];
      ResultsPrefix(d, fs[1..], n - 1, LiveStep(d, fs[0], s).1);
    }
  }

  lemma {:induction false} SortedStays(fs: seq<Finding>)
    requires RankSorted(fs)
    ensures SortByRank(fs) == fs
  {
    if fs != [] {
      SortedStays(fs[1..]);
      assert fs == [fs[0]] + fs[1..];
    }
  }

  lemma {:induction false} ResultsUnchanged<S>(d: Deps<S>, isFp: Suppressed, gs: seq<Finding>, s: S)
    requires forall g | g in gs :: TriesLive(d, g) && !Hit(isFp, g)
    ensures Results(Suppress(d, isFp), gs, s) == Results(d, gs, s)
    decreases gs
  {
    if gs != [] {
      assert gs[0] in gs;
      ResultsUnchanged(d, isFp, gs[1..], LiveStep(d, gs[0], s).1);
    }
  }

  /** Findings that are not hit have the results and decisions they had. */
  lemma {:induction false} MissesUnchanged<S>(d: Deps<S>, isFp: Suppressed, gs: seq<Finding>, s: S)
    requires forall g | g in gs :: TriesLive(d, g) && !Hit(isFp, g)
    ensures ConfirmedFrom(Suppress(d, isFp), gs, s) == ConfirmedFrom(d, gs, s)
    ensures Without(ConfirmedFrom(d, gs, s), isFp) == ConfirmedFrom(d, gs, s)
    decreases gs
  {
    if gs != [] {
      var f, e, s' := gs[0], Suppress(d, isFp), LiveStep(d, gs[0], s).1;
      assert gs == [f] + gs[1..] && f in gs;
      MissesUnchanged(d, isFp, gs[1..], s');
      AcceptedCons(d, f, gs[1..], s);
      AcceptedCons(e, f, gs[1..], s);
      var v := Decide(d, f, LiveStep(d, f, s).0 == Probed(true));
      WithoutConcat(if v.Accept? then [Confirmed(f, v.via)] else [], ConfirmedFrom(d, gs[1..], s'), isFp);
    }
  }

  lemma {:induction false} FirstDifference(p: seq<LiveResult>, q: seq<LiveResult>) returns (i: nat)
    requires |p| == |q| && p != q
    ensures i < |p| && p[..i] == q[..i] && p[i] != q[i]
  {
    if p[0] != q[0] {
      i := 0;
    } else {
      i := FirstDifference(p[1..], q[1..]);
      assert p[..i + 1] == [p[0]] + p[1..][..i] && q[..i + 1] == [q[0]] + q[1..][..i];
      i := i + 1;
    }
  }

  /** What the last finding of a list adds to the confirmed list. */
  lemma {:induction false} AcceptedLast<S>(d: Deps<S>, hs: seq<Finding>, g: Finding, results: seq<LiveResult>)
    requires |results| == |hs| + 1
    ensures
      var v := Decide(d, g, results[|hs|] == Probed(true));
      Accepted(hs + [g], Decisions(d, hs + [g], results))
        == Accepted(hs, Decisions(d, hs, results[..|hs|])) + (if v.Accept? then [Confirmed(g, v.via)] else [])
  {
    var v := Decide(d, g, results[|hs|] == Probed(true));
    var before := Decisions(d, hs, results[..|hs|]);
    assert Decisions(d, hs + [g], results) == before + [v];
    AcceptedSnoc(hs, before, g, v);
  }

  /** Two attempts on one list that first differ at its last finding, where one of them proves it. */
  lemma {:induction false} LastDiffers<S>(d: Deps<S>, gs: seq<Finding>, s: S, t: S)
    requires gs != [] && TriesLive(d, gs[|gs| - 1])
    requires Results(d, gs, s)[..|gs| - 1] == Results(d, gs, t)[..|gs| - 1]
    requires (Results(d, gs, s)[|gs| - 1] == Probed(true)) != (Results(d, gs, t)[|gs| - 1] == Probed(true))
    ensures ConfirmedFrom(d, gs, s) != ConfirmedFrom(d, gs, t)
  {
    var n := |gs| - 1;
    assert gs == gs[..n] + [gs[n]];
    AcceptedLast(d, gs[..n], gs[n], Results(d, gs, s));
    AcceptedLast(d, gs[..n], gs[n], Results(d, gs, t));
    LiveIsSeen(d, gs[n], Accepted(gs[..n], Decisions(d, gs[..n], Results(d, gs, s)[..n])));
  }

  /** A finding confirmed live is not confirmed in any other way. */
  lemma LiveIsSeen<S>(d: Deps<S>, g: Finding, a: seq<Confirmed>)
    requires TriesLive(d, g)
    ensures
      var w := Decide(d, g, false);
      && Decide(d, g, true) == Accept(Live)
      && a + [Confirmed(g, Live)] != a + if w.Accept? then [Confirmed(g, w.via)] else []
  {
    var w := Decide(d, g, false);
    var x, y := [Confirmed(g, Live)], if w.Accept? then [Confirmed(g, w.via)] else [];
    assert (a + x)[|a|..] == x && (a + y)[|a|..] == y;
  }

  /** Where the attempt on `f` changes a later result, suppressing `f` breaks the law on a batch of `f`
      and the findings up to that result. */
  lemma InterferenceBreaksLaw<S>(d: Deps<S>, f: Finding, gs: seq<Finding>, s: S) returns (isFp: Suppressed, n: nat)
    requires !Unseen(d, f, gs, s)
    ensures 0 < n <= |gs| && Adds(d, isFp)
    ensures !OnlyRemoves(d, isFp, [f] + gs[..n], s, NEVER)
  {
    var s' := d.live(f, s).1;
    var p, q := Results(d, gs, s'), Results(d, gs, s);
    var i := FirstDifference(p, q);
    n := i + 1;
    var hs := gs[..n];
    ResultsPrefix(d, gs, n, s);
    ResultsPrefix(d, gs, n, s');
    isFp := (c, file, l) => d.isKnownFalsePositive(c, file, l) || (c == f.category && file == f.file && l == f.line);
    assert [f] + hs == ([f] + gs)[..n + 1];
    BrokenBatch(d, isFp, f, hs, s);
  }

  /** Both batches on `f` and findings behind it, where only `f` is hit. */
  lemma FirstSuppressed<S>(d: Deps<S>, isFp: Suppressed, f: Finding, hs: seq<Finding>, s: S)
    requires TriesLive(d, f) && Hit(isFp, f) && d.live(f, s).0.Probed? && SortByRank([f] + hs) == [f] + hs
    requires forall g | g in hs :: TriesLive(d, g) && !Hit(isFp, g)
    ensures
      var y := ConfirmedBatch(Suppress(d, isFp), [f] + hs, s, NEVER);
      && (y.Output? <==> Aborted !in Results(d, hs, s))
      && (y.Output? ==> y.confirmed == ConfirmedFrom(d, hs, s))
  {
    var e := Suppress(d, isFp);
    BatchIs(e, [f] + hs, s, NEVER);
    AcceptedCons(e, f, hs, s);
    ResultsUnchanged(d, isFp, hs, s);
    MissesUnchanged(d, isFp, hs, s);
  }

  lemma FilteredFirst<S>(d: Deps<S>, isFp: Suppressed, f: Finding, hs: seq<Finding>, s: S)
    requires TriesLive(d, f) && Hit(isFp, f) && d.live(f, s).0.Probed? && SortByRank([f] + hs) == [f] + hs
    requires forall g | g in hs :: TriesLive(d, g) && !Hit(isFp, g)
    ensures
      var s', x := d.live(f, s).1, ConfirmedBatch(d, [f] + hs, s, NEVER);
      && (x.Output? <==> Aborted !in Results(d, hs, s'))
      && (x.Output? ==> Without(x.confirmed, isFp) == ConfirmedFrom(d, hs, s'))
  {
    var s' := d.live(f, s).1;
    BatchIs(d, [f] + hs, s, NEVER);
    AcceptedCons(d, f, hs, s);
    MissesUnchanged(d, isFp, hs, s');
    var v := Decide(d, f, d.live(f, s).0 == Probed(true));
    WithoutConcat(if v.Accept? then [Confirmed(f, v.via)] else [], ConfirmedFrom(d, hs, s'), isFp);
  }

  lemma BrokenBatch<S>(d: Deps<S>, isFp: Suppressed, f: Finding, hs: seq<Finding>, s: S)
    requires hs != [] && TriesLive(d, f) && Hit(isFp, f) && d.live(f, s).0.Probed?
    requires RankSorted([f] + hs) && forall g | g in hs :: TriesLive(d, g) && !Hit(isFp, g)
    requires
      var p, q := Results(d, hs, d.live(f, s).1), Results(d, hs, s);
      Aborted !in p && p[..|hs| - 1] == q[..|hs| - 1] && p[|hs| - 1] != q[|hs| - 1]
    ensures !OnlyRemoves(d, isFp, [f] + hs, s, NEVER)
  {
    var n, p, q := |hs| - 1, Results(d, hs, d.live(f, s).1), Results(d, hs, s);
    SortedStays([f] + hs);
    FilteredFirst(d, isFp, f, hs, s);
    FirstSuppressed(d, isFp, f, hs, s);
    if Aborted !in q {
      assert p[n] in p && q[n] in q;
      LastDiffers(d, hs, d.live(f, s).1, s);
    }
  }

  /** Main result, exact: adding false positives only removes them, whatever is added and in every
      batch, iff no live attempt influences what is reported on later findings with other keys. */
  lemma RemovalLawIff<S(!new)>(d: Deps<S>)
    ensures RemovalLaw(d) <==> NonInterfering(d)
  {
    if NonInterfering(d) {
      forall isFp, probable, s, killed | Adds(d, isFp) ensures OnlyRemoves(d, isFp, probable, s, killed) {
        MoreFalsePositivesOnlyRemove(d, isFp, probable, s, killed);
      }
    } else {
      var f, gs, s :| !Unseen(d, f, gs, s);
      var isFp, n := InterferenceBreaksLaw(d, f, gs, s);
    }
  }

  // ---- Collaborators that meet the condition, and one that does not ----

  /** What an attempt reports does not depend on the attempts before it. */
  ghost predicate Independent<S(!new)>(d: Deps<S>) {
    forall f, g, s :: d.live(g, d.live(f, s).1).0 == d.live(g, s).0
  }

  lemma {:induction false} IndependentResults<S(!new)>(d: Deps<S>, gs: seq<Finding>, s: S, t: S)
    requires Independent(d) && (forall g | g in gs :: TriesLive(d, g)) && forall g :: d.live(g, s).0 == d.live(g, t).0
    ensures Results(d, gs, s) == Results(d, gs, t)
    decreases gs
  {
    if gs != [] {
      assert gs[0] in gs;
      IndependentResults(d, gs[1..], d.live(gs[0], s).1, d.live(gs[0], t).1);
    }
  }

  /** So without live probing, or with independent attempts, the law holds. */
  lemma IndependentLaw<S(!new)>(d: Deps<S>)
    requires !d.liveReady || Independent(d)
    ensures RemovalLaw(d)
  {
    forall f, gs, s ensures Unseen(d, f, gs, s) {
      if TriesLive(d, f) && Later(d, f, gs) { IndependentResults(d, gs, s, d.live(f, s).1); }
    }
    RemovalLawIff(d);
  }

  /** Live probing on with a budget of `s` successful probes. */
  const BUDGETED: Deps<int> :=
    Deps((c, f, l) => false, {}, f => false, true, c => true,
         (f, s) => if s > 0 then (Probed(true), s - 1) else (Probed(false), s),
         [], c => "low", (c, f) => false, f => false)

  /** A shared probe budget does not meet it: suppressing `a` hands the last probe to `b`. */
  lemma SharedBudgetBreaksRemoval(a: Finding, b: Finding) returns (isFp: Suppressed)
    requires a.rank <= b.rank && !SameKey(a, b) && a.routeId == None && b.routeId == None
    ensures Adds(BUDGETED, isFp) && !OnlyRemoves(BUDGETED, isFp, [a, b], 1, NEVER)
  {
    var d, n := BUDGETED, 0;
    assert Results(d, [b] + [], 1)[0] == Probed(true) && Results(d, [b] + [], 0)[0] == Probed(false);
    assert d.live(a, 1) == (Probed(true), 0);
    assert !Unseen(d, a, [b] + [], 1);
    isFp, n := InterferenceBreaksLaw(d, a, [b] + [], 1);
    assert [a] + ([b] + [])[..n] == [a, b];
  }
}
