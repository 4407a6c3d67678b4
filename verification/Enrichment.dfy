/** Enriching a threat model with suggestions: append-only, and only what the app map knows. */
module Enrichment {
  import opened Options
  import opened Sequences

  datatype AbuseCase = AbuseCase(title: string, description: string, routePaths: seq<string>, categories: seq<string>)

  datatype Hint = Hint(category: string, rationale: string)

  /** A suggestion's string fields; `None` where a field is missing or not a string. */
  datatype AbuseSuggestion = AbuseSuggestion(
    title: Option<string>, description: Option<string>, routePaths: seq<string>, categories: seq<string>)

  datatype HintSuggestion = HintSuggestion(category: Option<string>, rationale: Option<string>)

  /** The part of a threat model that enrichment reads or changes. */
  datatype Model = Model(
    abuseCases: seq<AbuseCase>, priority: seq<Hint>, zeroSurface: seq<string>, generatedByLlm: bool)

  predicate NonEmpty(s: Option<string>) { s.Some? && s.value != "" }

  function Keep(xs: seq<string>, valid: set<string>): seq<string> {
    if xs == [] then [] else (if xs[0] in valid then [xs[0]] else []) + Keep(xs[1..], valid)
  }

  function UsableCases(cs: seq<AbuseSuggestion>): (r: seq<AbuseSuggestion>)
    ensures forall i | 0 <= i < |r| :: NonEmpty(r[i].title) && NonEmpty(r[i].description)
  {
    if cs == [] then []
    else (if NonEmpty(cs[0].title) && NonEmpty(cs[0].description) then [cs[0]] else []) + UsableCases(cs[1..])
  }

  /** At most eight cases, each with only real routes and known categories. */
  function ExtraCases(cs: seq<AbuseSuggestion>, paths: set<string>, categories: set<string>): (r: seq<AbuseCase>)
  {
    var usable := Upto(UsableCases(cs), 8);
    seq(|usable|, i requires 0 <= i < |usable| =>
      AbuseCase(usable[i].title.value, usable[i].description.value,
                Keep(usable[i].routePaths, paths), Keep(usable[i].categories, categories)))
  }

  predicate UsableHint(h: HintSuggestion, categories: set<string>, existing: set<string>) {
    NonEmpty(h.category) && NonEmpty(h.rationale) && h.category.value in categories && h.category.value !in existing
  }

  function UsableHints(hs: seq<HintSuggestion>, categories: set<string>, existing: set<string>): (r: seq<Hint>)
    ensures forall i | 0 <= i < |r| :: r[i].category in categories && r[i].category !in existing
  {
    if hs == [] then []
    else
      (if UsableHint(hs[0], categories, existing) then [Hint(hs[0].category.value, hs[0].rationale.value)] else [])
      + UsableHints(hs[1..], categories, existing)
  }

  function CategorySet(hs: seq<Hint>): set<string> { set i | 0 <= i < |hs| :: hs[i].category }

  function ExtraHints(base: Model, hs: seq<HintSuggestion>, categories: set<string>): seq<Hint> {
    Upto(UsableHints(hs, categories, CategorySet(base.priority)), 5)
  }

  /** The append step of `deriveThreatModel`. */
  function Enrich(
    base: Model, cs: seq<AbuseSuggestion>, hs: seq<HintSuggestion>, paths: set<string>,
    categories: set<string>): Model {
    var extra, hints := ExtraCases(cs, paths, categories), ExtraHints(base, hs, categories);
    if extra == [] && hints == [] then base
    else base.(abuseCases := base.abuseCases + extra, priority := base.priority + hints, generatedByLlm := true)
  }

  lemma {:induction false} KeepElements(xs: seq<string>, valid: set<string>)
    ensures forall x :: x in Keep(xs, valid) <==> x in valid && x in xs
  {
    if xs != [] {
      KeepElements(xs[1..], valid);
      assert xs == [xs[0]] + xs[1..];
    }
  }

  /** The baseline is a prefix of the result; what is added names only real routes and known
      categories, repeats no baseline priority, and is bounded. */
  lemma EnrichOnlyAppends(
    base: Model, cs: seq<AbuseSuggestion>, hs: seq<HintSuggestion>, paths: set<string>, categories: set<string>)
    ensures
      var m := Enrich(base, cs, hs, paths, categories);
      && m.zeroSurface == base.zeroSurface
      && base.abuseCases <= m.abuseCases && |m.abuseCases| <= |base.abuseCases| + 8
      && base.priority <= m.priority && |m.priority| <= |base.priority| + 5
      && (forall i, p | |base.abuseCases| <= i < |m.abuseCases| && p in m.abuseCases[i].routePaths :: p in paths)
      && (forall i, c | |base.abuseCases| <= i < |m.abuseCases| && c in m.abuseCases[i].categories :: c in categories)
      && (forall i | |base.priority| <= i < |m.priority| ::
            m.priority[i].category in categories && m.priority[i].category !in CategorySet(base.priority))
  {
    var m := Enrich(base, cs, hs, paths, categories);
    var extra := ExtraCases(cs, paths, categories);
    var usable := Upto(UsableCases(cs), 8);
    forall i | 0 <= i < |extra|
      ensures forall p | p in extra[i].routePaths :: p in paths
      ensures forall c | c in extra[i].categories :: c in categories
    {
      KeepElements(usable[i].routePaths, paths);
      KeepElements(usable[i].categories, categories);
    }
    forall i | |base.abuseCases| <= i < |m.abuseCases| ensures m.abuseCases[i] == extra[i - |base.abuseCases|] {
    }
    var hints := ExtraHints(base, hs, categories);
    forall i | |base.priority| <= i < |m.priority| ensures m.priority[i] == hints[i - |base.priority|] {
    }
  }

  // ---- Which abuse cases are appended ----

  /** A case is usable when it has a title and a description, neither of them empty. */
  predicate UsableCase(c: AbuseSuggestion) {
    c.title.Some? && c.title.value != "" && c.description.Some? && c.description.value != ""
  }

  function UsableCasesBefore(cs: seq<AbuseSuggestion>, i: nat): nat
    requires i <= |cs|
  {
    if i == 0 then 0 else UsableCasesBefore(cs, i - 1) + if UsableCase(cs[i - 1]) then 1 else 0
  }

  lemma {:induction false} UsableCasesSnoc(cs: seq<AbuseSuggestion>, c: AbuseSuggestion)
    ensures UsableCases(cs + [c]) == UsableCases(cs) + if UsableCase(c) then [c] else []
  {
    if cs == [] {
      assert [] + [c] == [c] && [c][1..] == [];
    } else {
      assert (cs + [c])[1..] == cs[1..] + [c];
      UsableCasesSnoc(cs[1..], c);
    }
  }

  lemma {:induction false} UsableCasesAre(cs: seq<AbuseSuggestion>, n: nat)
    requires n <= |cs|
    ensures |UsableCases(cs[..n])| == UsableCasesBefore(cs, n)
    ensures forall i: nat | i < n && UsableCase(cs[i]) ::
              var us, k := UsableCases(cs[..n]), UsableCasesBefore(cs, i);
              k < |us| && us[k] == cs[i]
  {
    if n > 0 {
      UsableCasesAre(cs, n - 1);
      UsableCasesSnoc(cs[..n - 1], cs[n - 1]);
      assert cs[..n] == cs[..n - 1] + [cs[n - 1]];
    }
  }

  /** As many cases are appended as are usable, up to eight. */
  lemma CaseCount(
    base: Model, cs: seq<AbuseSuggestion>, hs: seq<HintSuggestion>, paths: set<string>, categories: set<string>)
    ensures
      var n := UsableCasesBefore(cs, |cs|);
      |Enrich(base, cs, hs, paths, categories).abuseCases| == |base.abuseCases| + if n < 8 then n else 8
  {
    UsableCasesAre(cs, |cs|);
    assert cs[..|cs|] == cs;
  }

  /** The first eight usable cases are appended in order, each with exactly its real routes and known
      categories. */
  lemma CasesExact(
    base: Model, cs: seq<AbuseSuggestion>, hs: seq<HintSuggestion>, paths: set<string>, categories: set<string>, i: nat)
    requires i < |cs| && UsableCase(cs[i]) && UsableCasesBefore(cs, i) < 8
    ensures
      var m, k := Enrich(base, cs, hs, paths, categories), |base.abuseCases| + UsableCasesBefore(cs, i);
      && k < |m.abuseCases|
      && m.abuseCases[k].title == cs[i].title.value && m.abuseCases[k].description == cs[i].description.value
      && (forall r :: r in m.abuseCases[k].routePaths <==> r in cs[i].routePaths && r in paths)
      && (forall c :: c in m.abuseCases[k].categories <==> c in cs[i].categories && c in categories)
  {
    UsableCasesAre(cs, |cs|);
    assert cs[..|cs|] == cs;
    KeepElements(cs[i].routePaths, paths);
    KeepElements(cs[i].categories, categories);
  }

  // ---- Which suggestions are appended ----

  /** A usable suggestion names a known category that the baseline lacks, and gives a reason. */
  lemma UsableHintExact(h: HintSuggestion, base: Model, categories: set<string>)
    ensures UsableHint(h, categories, CategorySet(base.priority)) <==>
              && h.category.Some? && h.category.value != "" && h.rationale.Some? && h.rationale.value != ""
              && h.category.value in categories
              && forall x | x in base.priority :: x.category != h.category.value
  {
    if h.category.Some? {
      assert h.category.value in CategorySet(base.priority) <==>
        exists x | x in base.priority :: x.category == h.category.value by {
        if x :| x in base.priority && x.category == h.category.value {
          var i :| 0 <= i < |base.priority| && base.priority[i] == x;
        }
        if i :| 0 <= i < |base.priority| && base.priority[i].category == h.category.value {
          assert base.priority[i] in base.priority;
        }
      }
    }
  }

  /** How many of the first `i` suggestions are usable. */
  function Usables(hs: seq<HintSuggestion>, i: nat, categories: set<string>, existing: set<string>): nat
    requires i <= |hs|
  {
    if i == 0 then 0
    else Usables(hs, i - 1, categories, existing) + if UsableHint(hs[i - 1], categories, existing) then 1 else 0
  }

  /** Suggestion `i` is one of the first five usable ones. */
  predicate Taken(hs: seq<HintSuggestion>, i: nat, categories: set<string>, existing: set<string>) {
    i < |hs| && UsableHint(hs[i], categories, existing) && Usables(hs, i, categories, existing) < 5
  }

  lemma {:induction false} UsableHintsSnoc(
    hs: seq<HintSuggestion>, h: HintSuggestion, categories: set<string>, existing: set<string>)
    ensures UsableHints(hs + [h], categories, existing) == UsableHints(hs, categories, existing)
              + (if UsableHint(h, categories, existing) then [Hint(h.category.value, h.rationale.value)] else [])
  {
    if hs == [] {
      assert [] + [h] == [h] && [h][1..] == [];
    } else {
      assert (hs + [h])[1..] == hs[1..] + [h];
      UsableHintsSnoc(hs[1..], h, categories, existing);
    }
  }

  /** Usable suggestion `i` becomes hint number `Usables(i)`. */
  lemma {:induction false} HintsAre(hs: seq<HintSuggestion>, n: nat, categories: set<string>, existing: set<string>)
    requires n <= |hs|
    ensures
      var us := UsableHints(hs[..n], categories, existing);
      && |us| == Usables(hs, n, categories, existing)
      && forall i: nat | i < n && UsableHint(hs[i], categories, existing) ::
           var k := Usables(hs, i, categories, existing);
           k < |us| && us[k] == Hint(hs[i].category.value, hs[i].rationale.value)
  {
    if n > 0 {
      HintsAre(hs, n - 1, categories, existing);
      UsableHintsSnoc(hs[..n - 1], hs[n - 1], categories, existing);
      assert hs[..n] == hs[..n - 1] + [hs[n - 1]];
    }
  }

  /** Every number below the count belongs to one usable suggestion. */
  lemma {:induction false} Numbered(
    hs: seq<HintSuggestion>, n: nat, k: nat, categories: set<string>, existing: set<string>)
    returns (i: nat)
    requires n <= |hs| && k < Usables(hs, n, categories, existing)
    ensures i < n && UsableHint(hs[i], categories, existing) && Usables(hs, i, categories, existing) == k
  {
    if UsableHint(hs[n - 1], categories, existing) && Usables(hs, n - 1, categories, existing) == k {
      i := n - 1;
    } else {
      i := Numbered(hs, n - 1, k, categories, existing);
    }
  }

  lemma {:induction false} UsablesGrow(
    hs: seq<HintSuggestion>, i: nat, j: nat, categories: set<string>, existing: set<string>)
    requires i < j <= |hs| && UsableHint(hs[i], categories, existing)
    ensures Usables(hs, i, categories, existing) < Usables(hs, j, categories, existing)
    decreases j
  {
    if i < j - 1 { UsablesGrow(hs, i, j - 1, categories, existing); }
  }

  /** The appended hints are the suggestions taken, in order. */
  lemma TakenIsAppended(base: Model, hs: seq<HintSuggestion>, i: nat, categories: set<string>)
    requires Taken(hs, i, categories, CategorySet(base.priority))
    ensures
      var x, k := ExtraHints(base, hs, categories), Usables(hs, i, categories, CategorySet(base.priority));
      k < |x| && x[k] == Hint(hs[i].category.value, hs[i].rationale.value)
  {
    HintsAre(hs, |hs|, categories, CategorySet(base.priority));
    assert hs[..|hs|] == hs;
  }

  // ---- What enrichment can break, and exactly when ----

  ghost predicate DistinctHints(hs: seq<Hint>) {
    forall i, j | 0 <= i < j < |hs| :: hs[i].category != hs[j].category
  }

  /** No two of the first five usable suggestions name one category. */
  ghost predicate NoRepeat(hs: seq<HintSuggestion>, categories: set<string>, existing: set<string>) {
    forall i: nat, j: nat | i < j && Taken(hs, i, categories, existing) && Taken(hs, j, categories, existing) ::
      hs[i].category != hs[j].category
  }

  lemma ExtraDistinctIff(base: Model, hs: seq<HintSuggestion>, categories: set<string>)
    ensures DistinctHints(ExtraHints(base, hs, categories)) <==> NoRepeat(hs, categories, CategorySet(base.priority))
  {
    var x, existing := ExtraHints(base, hs, categories), CategorySet(base.priority);
    HintsAre(hs, |hs|, categories, existing);
    assert hs[..|hs|] == hs;
    if NoRepeat(hs, categories, existing) {
      forall k: nat, l: nat | k < l < |x| ensures x[k].category != x[l].category {
        var i := Numbered(hs, |hs|, k, categories, existing);
        var j := Numbered(hs, |hs|, l, categories, existing);
        if j < i { UsablesGrow(hs, j, i, categories, existing); }
        TakenIsAppended(base, hs, i, categories);
        TakenIsAppended(base, hs, j, categories);
      }
    } else {
      var i: nat, j: nat :|
        && i < j && Taken(hs, i, categories, existing) && Taken(hs, j, categories, existing)
        && hs[i].category == hs[j].category;
      UsablesGrow(hs, i, j, categories, existing);
      TakenIsAppended(base, hs, i, categories);
      TakenIsAppended(base, hs, j, categories);
      var k, l := Usables(hs, i, categories, existing), Usables(hs, j, categories, existing);
      assert x[k].category == x[l].category;
    }
  }

  /** Exact: a repeat-free priority list stays so iff no two of the first five usable suggestions name
      one category. They are checked against the baseline only, not against each other. */
  lemma EnrichedDistinctIff(
    base: Model, cs: seq<AbuseSuggestion>, hs: seq<HintSuggestion>, paths: set<string>, categories: set<string>)
    requires DistinctHints(base.priority)
    ensures DistinctHints(Enrich(base, cs, hs, paths, categories).priority)
       <==> NoRepeat(hs, categories, CategorySet(base.priority))
  {
    var b, x := base.priority, ExtraHints(base, hs, categories);
    assert Enrich(base, cs, hs, paths, categories).priority == b + x;
    ExtraDistinctIff(base, hs, categories);
    if DistinctHints(x) {
      forall i, j | 0 <= i < |b| && 0 <= j < |x| ensures b[i].category != x[j].category {
        assert b[i].category in CategorySet(b);
      }
    }
    if DistinctHints(b + x) {
      forall i, j | 0 <= i < j < |x| ensures x[i].category != x[j].category {
        assert (b + x)[|b| + i] == x[i] && (b + x)[|b| + j] == x[j];
      }
    }
  }

  ghost predicate Disjoint(m: Model) {
    forall i | 0 <= i < |m.priority| :: m.priority[i].category !in m.zeroSurface
  }

  /** Exact: the priority list stays disjoint from the zero-surface list iff none of the first five
      usable suggestions names a zero-surface category. Nothing checks them against that list. */
  lemma EnrichedDisjointIff(
    base: Model, cs: seq<AbuseSuggestion>, hs: seq<HintSuggestion>, paths: set<string>, categories: set<string>)
    requires Disjoint(base)
    ensures Disjoint(Enrich(base, cs, hs, paths, categories)) <==>
              forall i: nat | Taken(hs, i, categories, CategorySet(base.priority)) ::
                hs[i].category.value !in base.zeroSurface
  {
    var b, x, existing := base.priority, ExtraHints(base, hs, categories), CategorySet(base.priority);
    var m := Enrich(base, cs, hs, paths, categories);
    assert m.priority == b + x;
    HintsAre(hs, |hs|, categories, existing);
    assert hs[..|hs|] == hs;
    if i: nat :| Taken(hs, i, categories, existing) && hs[i].category.value in base.zeroSurface {
      var k := Usables(hs, i, categories, existing);
      TakenIsAppended(base, hs, i, categories);
      assert m.priority[|b| + k] == x[k];
    }
    if !Disjoint(m) {
      var n :| 0 <= n < |m.priority| && m.priority[n].category in m.zeroSurface;
      var k: nat := n - |b|;
      var i := Numbered(hs, |hs|, k, categories, existing);
      TakenIsAppended(base, hs, i, categories);
    }
  }

  /** An instance: a category suggested twice is appended twice. */
  lemma RepeatedSuggestionRepeats(c: string, why: string)
    requires c != "" && why != ""
    ensures
      var h, base := HintSuggestion(Some(c), Some(why)), Model([], [], [], false);
      Enrich(base, [], [h, h], {}, {c}).priority == [Hint(c, why), Hint(c, why)]
  {
    var h, u := HintSuggestion(Some(c), Some(why)), Hint(c, why);
    assert CategorySet([]) == {} && UsableHint(h, {c}, {});
    UsableHintsSnoc([], h, {c}, {});
    UsableHintsSnoc([h], h, {c}, {});
    assert [] + [h] == [h] && [h] + [h] == [h, h] && [] + [u] == [u] && [u] + [u] == [u, u];
  }
}
