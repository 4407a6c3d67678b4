/** How the confirmed list changes with the scope of the investigation, live probing on or off. */
module InvestigationScope {
  import opened Options
  import opened Confirm
  import opened ConfirmLaws
  import opened ConfirmChanges

  type Shapes = (string, string) -> bool

  function WithScope<S>(d: Deps<S>, severities: seq<string>, shapes: Shapes): Deps<S> {
    d.(severities := severities, priorShape := shapes)
  }

  /** A batch that runs through with `d` also does with `e`, which confirms at least as much. */
  ghost predicate OnlyAdds<S>(d: Deps<S>, e: Deps<S>, probable: seq<Finding>, s: S, killed: nat -> bool) {
    var x, y := ConfirmedBatch(d, probable, s, killed), ConfirmedBatch(e, probable, s, killed);
    x.Output? ==> y.Output? && Subsequence(x.confirmed, y.confirmed)
  }

  ghost predicate GrowthLaw<S(!new)>(d: Deps<S>, e: Deps<S>) {
    forall probable, s, killed :: OnlyAdds(d, e, probable, s, killed)
  }

  /** Only the investigation is left to decide on `f`, and it succeeds. */
  predicate LeftToInvestigate<S>(d: Deps<S>, f: Finding, s: S) {
    && !FalsePositive(d, f) && !RuledOut(d, f) && !d.staticProof(f) && d.investigate(f)
    && LiveStep(d, f, s).0 == Probed(false)
  }

  /** `e` admits every such finding that `d` admits. */
  ghost predicate Widens<S(!new)>(d: Deps<S>, e: Deps<S>) {
    forall f, s | LeftToInvestigate(d, f, s) && Eligible(d, f) :: Eligible(e, f)
  }

  lemma {:induction false} WiderAccepts<S(!new)>(d: Deps<S>, e: Deps<S>, fs: seq<Finding>, s: S)
    requires e == WithScope(d, e.severities, e.priorShape) && Widens(d, e) && Aborted !in Results(d, fs, s)
    ensures Results(e, fs, s) == Results(d, fs, s)
    ensures Subsequence(ConfirmedFrom(d, fs, s), ConfirmedFrom(e, fs, s))
    decreases fs
  {
    if fs != [] {
      var f, gs := fs[0], fs[1..];
      var (result, s') := LiveStep(d, f, s);
      assert fs == [f] + gs && LiveStep(e, f, s) == LiveStep(d, f, s);
      WiderAccepts(d, e, gs, s');
      AcceptedCons(d, f, gs, s);
      AcceptedCons(e, f, gs, s);
      var v, w := Decide(d, f, result == Probed(true)), Decide(e, f, result == Probed(true));
      assert LeftToInvestigate(d, f, s) && Eligible(d, f) ==> Eligible(e, f);
      assert v == w || (v.Reject? && w.Accept?);
      var a, b := ConfirmedFrom(d, gs, s'), ConfirmedFrom(e, gs, s');
      if w.Accept? { SubsequenceGrows(a, b, Confirmed(f, w.via)); }
      assert [] + a == a && [] + b == b;
    }
  }

  /** A finding that `d` admits and `e` does not is confirmed under `d` and lost under `e`. */
  lemma NarrowingLoses<S>(d: Deps<S>, e: Deps<S>, f: Finding, s: S)
    requires e == WithScope(d, e.severities, e.priorShape)
    requires LeftToInvestigate(d, f, s) && Eligible(d, f) && !Eligible(e, f)
    ensures ConfirmedBatch(d, [f], s, NEVER) == Output([Confirmed(f, Investigation)], [])
    ensures ConfirmedBatch(e, [f], s, NEVER) == Output([], [Unconfirmed(f, NotConfirmed)])
  {
    OneFinding(d, f, s);
    OneFinding(e, f, s);
  }

  lemma OneFinding<S>(d: Deps<S>, f: Finding, s: S)
    requires LiveStep(d, f, s).0 == Probed(false)
    ensures
      var v := Decide(d, f, false);
      ConfirmedBatch(d, [f], s, NEVER) ==
        Output(if v.Accept? then [Confirmed(f, v.via)] else [], if v.Reject? then [Unconfirmed(f, v.reason)] else [])
  {
    var v := Decide(d, f, false);
    SortedStays([f]);
    assert [f][1..] == [];
    assert Verdicts(d, [f], s, NEVER, 0) == Prepend([v], Some([]));
    assert [v] + [] == [v] == [] + [v] && [] + [f] == [f];
    AcceptedSnoc([], [], f, v);
  }

  lemma WideningOnlyAdds<S(!new)>(d: Deps<S>, e: Deps<S>, probable: seq<Finding>, s: S, killed: nat -> bool)
    requires e == WithScope(d, e.severities, e.priorShape) && Widens(d, e)
    ensures OnlyAdds(d, e, probable, s, killed)
  {
    BatchIs(d, probable, s, killed);
    BatchIs(e, probable, s, killed);
    if ConfirmedBatch(d, probable, s, killed).Output? {
      WiderAccepts(d, e, SortByRank(probable), s);
    }
  }

  /** Main result, exact: another scope only adds confirmations, in every batch, iff it admits every
      finding that the old scope admits and only the investigation can still confirm. */
  lemma GrowthLawIff<S(!new)>(d: Deps<S>, e: Deps<S>)
    requires e == WithScope(d, e.severities, e.priorShape)
    ensures GrowthLaw(d, e) <==> Widens(d, e)
  {
    if Widens(d, e) {
      forall probable, s, killed ensures OnlyAdds(d, e, probable, s, killed) {
        WideningOnlyAdds(d, e, probable, s, killed);
      }
    } else {
      var f, s :| LeftToInvestigate(d, f, s) && Eligible(d, f) && !Eligible(e, f);
      NarrowingLoses(d, e, f, s);
      assert !OnlyAdds(d, e, [f], s, NEVER);
    }
  }

  // ---- In terms of the two settings ----

  /** `Eligible`, for one table of base severities. */
  predicate Admits(severities: seq<string>, shapes: Shapes, base: string -> string, category: string, file: string) {
    severities == [] || base(category) in severities || shapes(category, file)
  }

  /** Every finding is admitted, or every setting that admits one is kept: an empty list, which means
      "no restriction", is kept only by an empty one. */
  ghost predicate Keeps(sev: seq<string>, shapes: Shapes, sev': seq<string>, shapes': Shapes) {
    || sev' == []
    || forall c, file ::
         shapes'(c, file) || (!shapes(c, file) && sev != [] && forall x | x in sev :: x in sev')
  }

  function Longest(xs: seq<string>): nat {
    if xs == [] then 0 else if |xs[0]| > Longest(xs[1..]) then |xs[0]| else Longest(xs[1..])
  }

  lemma {:induction false} LongestBounds(xs: seq<string>)
    ensures forall x | x in xs :: |x| <= Longest(xs)
  {
    if xs != [] { LongestBounds(xs[1..]); }
  }

  /** A name that is not in the list. */
  function Other(xs: seq<string>): (s: string)
    ensures s !in xs
  {
    LongestBounds(xs);
    seq(Longest(xs) + 1, i => 'x')
  }

  /** Exact, over all tables of base severities: the settings that never shut out what was admitted. */
  lemma SettingsWidenIff(sev: seq<string>, shapes: Shapes, sev': seq<string>, shapes': Shapes)
    ensures
      (forall base, c, file | Admits(sev, shapes, base, c, file) :: Admits(sev', shapes', base, c, file))
        <==> Keeps(sev, shapes, sev', shapes')
  {
    if !Keeps(sev, shapes, sev', shapes') {
      var c, file :|
        !shapes'(c, file) && (shapes(c, file) || sev == [] || exists x :: x in sev && x !in sev');
      var severity := if shapes(c, file) || sev == [] then Other(sev') else var x :| x in sev && x !in sev'; x;
      var base: string -> string := name => severity;
      assert Admits(sev, shapes, base, c, file) && !Admits(sev', shapes', base, c, file);
    }
  }

  /** Enlarging the severities and the prior shapes only adds confirmations. */
  lemma LargerScopeOnlyAdds<S(!new)>(
    d: Deps<S>, sev': seq<string>, shapes': Shapes, probable: seq<Finding>, s: S, killed: nat -> bool)
    requires Keeps(d.severities, d.priorShape, sev', shapes')
    ensures OnlyAdds(d, WithScope(d, sev', shapes'), probable, s, killed)
  {
    var e := WithScope(d, sev', shapes');
    SettingsWidenIff(d.severities, d.priorShape, sev', shapes');
    forall f, s | LeftToInvestigate(d, f, s) && Eligible(d, f) ensures Eligible(e, f) {
      assert Admits(d.severities, d.priorShape, d.baseSeverity, f.category, f.file);
      assert Admits(sev', shapes', d.baseSeverity, f.category, f.file);
    }
    WideningOnlyAdds(d, e, probable, s, killed);
  }

  /** Leaving the empty list loses every finding that only an investigation confirms and that neither
      the new list nor a prior shape admits. */
  lemma LeavingTheEmptyListNarrows<S>(d: Deps<S>, sev': seq<string>, f: Finding, s: S)
    requires d.severities == [] && sev' != [] && LeftToInvestigate(d, f, s)
    requires d.baseSeverity(f.category) !in sev' && !d.priorShape(f.category, f.file)
    ensures ConfirmedBatch(d, [f], s, NEVER) == Output([Confirmed(f, Investigation)], [])
    ensures ConfirmedBatch(WithScope(d, sev', d.priorShape), [f], s, NEVER)
        == Output([], [Unconfirmed(f, NotConfirmed)])
  {
    NarrowingLoses(d, WithScope(d, sev', d.priorShape), f, s);
  }
}
