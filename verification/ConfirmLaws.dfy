/** What holds of every Layer 3 batch: conservation, order, soundness, and when it stops. */
module ConfirmLaws {
  import opened Options
  import opened Confirm

  // ---- Conservation, order and soundness ----

  function Sources(cs: seq<Confirmed>): seq<Finding> {
    if cs == [] then [] else [cs[0].source] + Sources(cs[1..])
  }

  function AppendixSources(us: seq<Unconfirmed>): seq<Finding> {
    if us == [] then [] else [us[0].source] + AppendixSources(us[1..])
  }

  ghost predicate Subsequence<T>(a: seq<T>, b: seq<T>) {
    a == [] || (b != [] && ((a[0] == b[0] && Subsequence(a[1..], b[1..])) || Subsequence(a, b[1..])))
  }

  lemma {:induction false} SplitConserves(fs: seq<Finding>, vs: seq<Verdict>)
    requires |fs| == |vs|
    ensures multiset(Sources(Accepted(fs, vs))) + multiset(AppendixSources(Rejected(fs, vs))) == multiset(fs)
  {
    if fs != [] {
      SplitConserves(fs[1..], vs[1..]);
      SplitHeads(fs, vs);
      MultisetCons(fs);
    }
  }

  lemma MultisetCons(fs: seq<Finding>)
    requires fs != []
    ensures multiset(fs) == multiset{fs[0]} + multiset(fs[1..])
  {
    assert fs == [fs[0]] + fs[1..];
  }

  lemma SplitHeads(fs: seq<Finding>, vs: seq<Verdict>)
    requires |fs| == |vs| && fs != []
    ensures Sources(Accepted(fs, vs)) == (if vs[0].Accept? then [fs[0]] else []) + Sources(Accepted(fs[1..], vs[1..]))
    ensures AppendixSources(Rejected(fs, vs))
         == (if vs[0].Reject? then [fs[0]] else []) + AppendixSources(Rejected(fs[1..], vs[1..]))
  {
    var a, r := Accepted(fs[1..], vs[1..]), Rejected(fs[1..], vs[1..]);
    match vs[0]
    case Accept(v) =>
      assert ([Confirmed(fs[0], v)] + a)[1..] == a && [] + r == r;
    case Reject(w) =>
      assert ([Unconfirmed(fs[0], w)] + r)[1..] == r && [] + a == a;
  }

  lemma {:induction false} SplitKeepsOrder(fs: seq<Finding>, vs: seq<Verdict>)
    requires |fs| == |vs|
    ensures Subsequence(Sources(Accepted(fs, vs)), fs)
    ensures Subsequence(AppendixSources(Rejected(fs, vs)), fs)
  {
    if fs != [] {
      SplitKeepsOrder(fs[1..], vs[1..]);
      SplitHeads(fs, vs);
      assert fs == [fs[0]] + fs[1..];
      var a, r := Sources(Accepted(fs[1..], vs[1..])), AppendixSources(Rejected(fs[1..], vs[1..]));
      assert [] + a == a && [] + r == r;
      SubsequenceGrows(a, fs[1..], fs[0]);
      SubsequenceGrows(r, fs[1..], fs[0]);
    }
  }

  /** Every probable finding lands in exactly one of the two lists, each in stable rank order. */
  lemma EveryFindingLandsOnce<S>(d: Deps<S>, probable: seq<Finding>, s: S, killed: nat -> bool)
    requires ConfirmedBatch(d, probable, s, killed).Output?
    ensures
      var o := ConfirmedBatch(d, probable, s, killed);
      && multiset(Sources(o.confirmed)) + multiset(AppendixSources(o.unconfirmed)) == multiset(probable)
      && Subsequence(Sources(o.confirmed), SortByRank(probable))
      && Subsequence(AppendixSources(o.unconfirmed), SortByRank(probable))
  {
    var fs := SortByRank(probable);
    SortByRankCorrect(probable);
    SplitConserves(fs, Verdicts(d, fs, s, killed, 0).value);
    SplitKeepsOrder(fs, Verdicts(d, fs, s, killed, 0).value);
  }

  /** What the live attempt on each finding reports, the probe state passing from one to the next. */
  function Results<S>(d: Deps<S>, fs: seq<Finding>, s: S): (r: seq<LiveResult>)
    ensures |r| == |fs|
    decreases fs
  {
    if fs == [] then [] else var (result, s') := LiveStep(d, fs[0], s); [result] + Results(d, fs[1..], s')
  }

  function Decisions<S>(d: Deps<S>, fs: seq<Finding>, results: seq<LiveResult>): (r: seq<Verdict>)
    requires |results| == |fs|
    ensures |r| == |fs|
  {
    seq(|fs|, i requires 0 <= i < |fs| => Decide(d, fs[i], results[i] == Probed(true)))
  }

  /** The batch stops exactly when the signal is set at some finding or a live attempt aborts. */
  lemma {:induction false} StopsWhenKilled<S>(d: Deps<S>, fs: seq<Finding>, s: S, killed: nat -> bool, n: nat)
    ensures Verdicts(d, fs, s, killed, n).None? <==>
              Aborted in Results(d, fs, s) || exists m: nat | n <= m < n + |fs| :: killed(m)
    decreases fs
  {
    if fs != [] {
      var (result, s') := LiveStep(d, fs[0], s);
      StopsWhenKilled(d, fs[1..], s', killed, n + 1);
      var rs := Results(d, fs[1..], s');
      assert Results(d, fs, s) == [result] + rs;
      assert Aborted in [result] + rs <==> result == Aborted || Aborted in rs;
    }
  }

  /** Else each verdict is the decision on its own finding and the outcome of its own live attempt. */
  lemma {:induction false} VerdictsAreDecisions<S>(d: Deps<S>, fs: seq<Finding>, s: S, killed: nat -> bool, n: nat)
    requires Verdicts(d, fs, s, killed, n).Some?
    ensures Verdicts(d, fs, s, killed, n).value == Decisions(d, fs, Results(d, fs, s))
    decreases fs
  {
    if fs != [] {
      var (result, s') := LiveStep(d, fs[0], s);
      VerdictsAreDecisions(d, fs[1..], s', killed, n + 1);
      var rs := Results(d, fs[1..], s');
      assert Decisions(d, fs, [result] + rs) == [Decide(d, fs[0], result == Probed(true))] + Decisions(d, fs[1..], rs);
    }
  }

  lemma {:induction false} AcceptedFrom(fs: seq<Finding>, vs: seq<Verdict>, c: Confirmed) returns (i: nat)
    requires |fs| == |vs| && c in Accepted(fs, vs)
    ensures i < |fs| && vs[i].Accept? && c == Confirmed(fs[i], vs[i].via)
  {
    if vs[0].Accept? && c == Confirmed(fs[0], vs[0].via) {
      i := 0;
    } else {
      i := AcceptedFrom(fs[1..], vs[1..], c);
      i := i + 1;
    }
  }

  /** Nothing is confirmed that is a known false positive or ruled out, and the proof kind is the
      strongest one the finding has: live before static before investigation. */
  lemma ConfirmedIsProved<S>(d: Deps<S>, probable: seq<Finding>, s: S, killed: nat -> bool, c: Confirmed)
    returns (i: nat)
    requires ConfirmedBatch(d, probable, s, killed).Output?
    requires c in ConfirmedBatch(d, probable, s, killed).confirmed
    ensures !d.isKnownFalsePositive(c.source.category, c.source.file, c.source.line)
    ensures c.source.routeId.Some? && c.source.routeId.value != "" ==> c.source.routeId.value in d.registeredRoutes
    ensures i < |probable| && |SortByRank(probable)| == |probable| && c.source == SortByRank(probable)[i]
    ensures
      var live := Results(d, SortByRank(probable), s)[i] == Probed(true);
      && (c.via == Live <==> live) && (live ==> d.liveReady && d.liveEligible(c.source.category))
      && (c.via == Static <==> !live && d.staticProof(c.source))
      && (c.via == Investigation ==> !live && !d.staticProof(c.source) && d.investigate(c.source))
    ensures
      c.via == Investigation ==>
        || d.severities == [] || d.baseSeverity(c.source.category) in d.severities
        || d.priorShape(c.source.category, c.source.file)
  {
    var fs := SortByRank(probable);
    SortByRankCorrect(probable);
    assert |multiset(fs)| == |multiset(probable)|;
    i := AcceptedFrom(fs, Verdicts(d, fs, s, killed, 0).value, c);
    VerdictsAreDecisions(d, fs, s, killed, 0);
    if !(d.liveReady && d.liveEligible(fs[i].category)) { UntriedIsNotProved(d, fs, s, i); }
  }

  /** A live result stands for an attempt, which only an eligible finding gets. */
  lemma {:induction false} UntriedIsNotProved<S>(d: Deps<S>, fs: seq<Finding>, s: S, i: nat)
    requires i < |fs| && !(d.liveReady && d.liveEligible(fs[i].category))
    ensures Results(d, fs, s)[i] == Probed(false)
    decreases fs
  {
    if i > 0 { UntriedIsNotProved(d, fs[1..], LiveStep(d, fs[0], s).1, i - 1); }
  }

  /** An attempt is made, and moves the probe state, exactly for a finding that is no known false
      positive, whose route is registered if it names one, and whose category is probed live. */
  lemma AttemptsExact<S>(d: Deps<S>, fs: seq<Finding>, s: S)
    requires fs != []
    ensures
      var f := fs[0];
      var tried :=
        && !d.isKnownFalsePositive(f.category, f.file, f.line)
        && (f.routeId == None || f.routeId == Some("") || f.routeId.value in d.registeredRoutes)
        && d.liveReady && d.liveEligible(f.category);
      Results(d, fs, s) ==
        if tried then [d.live(f, s).0] + Results(d, fs[1..], d.live(f, s).1)
        else [Probed(false)] + Results(d, fs[1..], s)
  {
  }

  lemma {:induction false} RejectedFrom(fs: seq<Finding>, vs: seq<Verdict>, u: Unconfirmed) returns (i: nat)
    requires |fs| == |vs| && u in Rejected(fs, vs)
    ensures i < |fs| && vs[i].Reject? && u == Unconfirmed(fs[i], vs[i].reason)
  {
    if vs[0].Reject? && u == Unconfirmed(fs[0], vs[0].reason) {
      i := 0;
    } else {
      i := RejectedFrom(fs[1..], vs[1..], u);
      i := i + 1;
    }
  }

  /** The position of an appendix entry in the batch, and its decision. */
  lemma RejectedAt<S>(d: Deps<S>, probable: seq<Finding>, s: S, killed: nat -> bool, u: Unconfirmed) returns (i: nat)
    requires ConfirmedBatch(d, probable, s, killed).Output?
    requires u in ConfirmedBatch(d, probable, s, killed).unconfirmed
    ensures i < |probable| && |SortByRank(probable)| == |probable| && u.source == SortByRank(probable)[i]
    ensures Decide(d, u.source, Results(d, SortByRank(probable), s)[i] == Probed(true)) == Reject(u.reason)
  {
    var fs := SortByRank(probable);
    SortByRankCorrect(probable);
    assert |multiset(fs)| == |multiset(probable)|;
    i := RejectedFrom(fs, Verdicts(d, fs, s, killed, 0).value, u);
    VerdictsAreDecisions(d, fs, s, killed, 0);
  }

  /** The appendix gives the true reason: a known false positive first, then a vanished route, and
      otherwise neither live nor static proof nor investigation proved the finding. */
  lemma UnconfirmedIsExplained<S>(d: Deps<S>, probable: seq<Finding>, s: S, killed: nat -> bool, u: Unconfirmed)
    returns (i: nat)
    requires ConfirmedBatch(d, probable, s, killed).Output?
    requires u in ConfirmedBatch(d, probable, s, killed).unconfirmed
    ensures i < |probable| && |SortByRank(probable)| == |probable| && u.source == SortByRank(probable)[i]
    ensures u.reason == KnownFalsePositive
       <==> d.isKnownFalsePositive(u.source.category, u.source.file, u.source.line)
    ensures u.reason == StructurallyRuledOut
       <==> && !d.isKnownFalsePositive(u.source.category, u.source.file, u.source.line)
            && u.source.routeId.Some? && u.source.routeId.value != "" && u.source.routeId.value !in d.registeredRoutes
    ensures
      u.reason == NotConfirmed ==>
        && Results(d, SortByRank(probable), s)[i] != Probed(true)
        && !d.staticProof(u.source)
        && !(d.investigate(u.source)
             && (|| d.severities == [] || d.baseSeverity(u.source.category) in d.severities
                 || d.priorShape(u.source.category, u.source.file)))
  {
    i := RejectedAt(d, probable, s, killed, u);
  }

  lemma {:induction false} SubsequenceGrows<T>(a: seq<T>, b: seq<T>, x: T)
    requires Subsequence(a, b)
    ensures Subsequence(a, [x] + b) && Subsequence([x] + a, [x] + b)
  {
    assert ([x] + b)[1..] == b && ([x] + a)[1..] == a;
  }
}
