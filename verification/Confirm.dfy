/** Layer 3: probable findings become confirmed ones, or are kept in the unconfirmed appendix. */
module Confirm {
  import opened Options

  datatype Finding = Finding(id: string, rank: int, category: string, file: string, line: int, routeId: Option<string>)

  datatype Proof = Live | Static | Investigation

  datatype Confirmed = Confirmed(source: Finding, via: Proof)

  datatype Reason = KnownFalsePositive | StructurallyRuledOut | NotConfirmed

  datatype Unconfirmed = Unconfirmed(source: Finding, reason: Reason)

  /** What a live attempt reports; an abort raises the kill switch error. */
  datatype LiveResult = Aborted | Probed(confirmed: bool)

  /** The collaborators of the loop. A live attempt reads and changes the shared probe state `S`. */
  datatype Deps<!S> = Deps(
    isKnownFalsePositive: (string, string, int) -> bool,
    registeredRoutes: set<string>,
    staticProof: Finding -> bool,
    liveReady: bool,
    liveEligible: string -> bool,
    live: (Finding, S) -> (LiveResult, S),
    severities: seq<string>,
    baseSeverity: string -> string,
    priorShape: (string, string) -> bool,
    investigate: Finding -> bool)

  // ---- The decision on one finding ----

  predicate FalsePositive<S>(d: Deps<S>, f: Finding) { d.isKnownFalsePositive(f.category, f.file, f.line) }

  /** The route the finding was grounded on is no longer registered. */
  predicate RuledOut<S>(d: Deps<S>, f: Finding) {
    f.routeId.Some? && f.routeId.value != "" && f.routeId.value !in d.registeredRoutes
  }

  predicate Eligible<S>(d: Deps<S>, f: Finding) {
    || d.severities == []
    || d.baseSeverity(f.category) in d.severities
    || d.priorShape(f.category, f.file)
  }

  predicate TriesLive<S>(d: Deps<S>, f: Finding) {
    !FalsePositive(d, f) && !RuledOut(d, f) && d.liveReady && d.liveEligible(f.category)
  }

  datatype Verdict = Accept(via: Proof) | Reject(reason: Reason)

  /** The verdict, given whether a live attempt proved the finding. */
  function Decide<S>(d: Deps<S>, f: Finding, liveProved: bool): Verdict {
    if FalsePositive(d, f) then Reject(KnownFalsePositive)
    else if RuledOut(d, f) then Reject(StructurallyRuledOut)
    else if liveProved then Accept(Live)
    else if d.staticProof(f) then Accept(Static)
    else if Eligible(d, f) && d.investigate(f) then Accept(Investigation)
    else Reject(NotConfirmed)
  }

  // ---- Rank order ----

  ghost predicate RankSorted(fs: seq<Finding>) {
    forall i, j | 0 <= i < j < |fs| :: fs[i].rank <= fs[j].rank
  }

  function InsertByRank(f: Finding, fs: seq<Finding>): seq<Finding> {
    if fs == [] || f.rank <= fs[0].rank then [f] + fs else [fs[0]] + InsertByRank(f, fs[1..])
  }

  /** Stable sort: equal ranks keep their input order. */
  function SortByRank(fs: seq<Finding>): seq<Finding> {
    if fs == [] then [] else InsertByRank(fs[0], SortByRank(fs[1..]))
  }

  function OfRank(fs: seq<Finding>, rank: int): seq<Finding> {
    if fs == [] then [] else (if fs[0].rank == rank then [fs[0]] else []) + OfRank(fs[1..], rank)
  }

  lemma {:induction false} InsertByRankElements(f: Finding, fs: seq<Finding>)
    ensures multiset(InsertByRank(f, fs)) == multiset{f} + multiset(fs)
  {
    if fs != [] && f.rank > fs[0].rank {
      InsertByRankElements(f, fs[1..]);
      assert fs == [fs[0]] + fs[1..];
    }
  }

  lemma {:induction false} InsertByRankSorted(f: Finding, fs: seq<Finding>)
    requires RankSorted(fs)
    ensures RankSorted(InsertByRank(f, fs))
  {
    if fs != [] && f.rank > fs[0].rank {
      InsertByRankSorted(f, fs[1..]);
      InsertByRankElements(f, fs[1..]);
      var r := InsertByRank(f, fs[1..]);
      forall j | 0 <= j < |r| ensures fs[0].rank <= r[j].rank {
        assert r[j] in multiset(r);
        assert r[j] == f || r[j] in fs[1..];
      }
      assert InsertByRank(f, fs) == [fs[0]] + r;
    }
  }

  lemma {:induction false} InsertByRankStable(f: Finding, fs: seq<Finding>, rank: int)
    requires RankSorted(fs)
    ensures OfRank(InsertByRank(f, fs), rank) == OfRank([f] + fs, rank)
  {
    assert ([f] + fs)[1..] == fs;
    if fs != [] && f.rank > fs[0].rank {
      InsertByRankStable(f, fs[1..], rank);
      assert ([f] + fs[1..])[1..] == fs[1..];
      assert ([fs[0]] + InsertByRank(f, fs[1..]))[1..] == InsertByRank(f, fs[1..]);
    }
  }

  /** The sort is a permutation into rank order that keeps the input order within each rank. */
  lemma {:induction false} SortByRankCorrect(fs: seq<Finding>)
    ensures RankSorted(SortByRank(fs))
    ensures multiset(SortByRank(fs)) == multiset(fs)
    ensures forall rank :: OfRank(SortByRank(fs), rank) == OfRank(fs, rank)
  {
    if fs != [] {
      SortByRankCorrect(fs[1..]);
      InsertByRankSorted(fs[0], SortByRank(fs[1..]));
      InsertByRankElements(fs[0], SortByRank(fs[1..]));
      assert fs == [fs[0]] + fs[1..];
      forall rank ensures OfRank(SortByRank(fs), rank) == OfRank(fs, rank) {
        InsertByRankStable(fs[0], SortByRank(fs[1..]), rank);
        assert ([fs[0]] + SortByRank(fs[1..]))[1..] == SortByRank(fs[1..]);
      }
    }
  }

  // ---- The batch ----

  datatype Output = KillSwitch | Output(confirmed: seq<Confirmed>, unconfirmed: seq<Unconfirmed>)

  /** Whether finding `f` is proved live in probe state `s`, and the state after it. */
  function LiveStep<S>(d: Deps<S>, f: Finding, s: S): (LiveResult, S) {
    if TriesLive(d, f) then d.live(f, s) else (Probed(false), s)
  }

  /** The verdicts on `fs` in order; `None` when the kill switch stops the batch.
      `killed(n)` says whether the signal is set when finding number `n` is reached. */
  function Verdicts<S>(d: Deps<S>, fs: seq<Finding>, s: S, killed: nat -> bool, n: nat): (r: Option<seq<Verdict>>)
    ensures r.Some? ==> |r.value| == |fs|
    decreases fs
  {
    if fs == [] then Some([])
    else if killed(n) then None
    else
      match LiveStep(d, fs[0], s)
      case (Aborted, _) => None
      case (Probed(proved), s') => Prepend([Decide(d, fs[0], proved)], Verdicts(d, fs[1..], s', killed, n + 1))
  }

  function Prepend(vs: seq<Verdict>, r: Option<seq<Verdict>>): Option<seq<Verdict>> {
    match r
    case None => None
    case Some(ws) => Some(vs + ws)
  }

  lemma PrependAssociative(vs: seq<Verdict>, v: Verdict, r: Option<seq<Verdict>>)
    ensures Prepend(vs, Prepend([v], r)) == Prepend(vs + [v], r)
    ensures Prepend([], r) == r
  {
    if r.Some? {
      assert vs + ([v] + r.value) == vs + [v] + r.value;
      assert [] + r.value == r.value;
    }
  }

  function Accepted(fs: seq<Finding>, vs: seq<Verdict>): (r: seq<Confirmed>)
    requires |fs| == |vs|
  {
    if fs == [] then []
    else (if vs[0].Accept? then [Confirmed(fs[0], vs[0].via)] else []) + Accepted(fs[1..], vs[1..])
  }

  function Rejected(fs: seq<Finding>, vs: seq<Verdict>): (r: seq<Unconfirmed>)
    requires |fs| == |vs|
  {
    if fs == [] then []
    else (if vs[0].Reject? then [Unconfirmed(fs[0], vs[0].reason)] else []) + Rejected(fs[1..], vs[1..])
  }

  function ConfirmedBatch<S>(d: Deps<S>, probable: seq<Finding>, s: S, killed: nat -> bool): Output {
    var fs := SortByRank(probable);
    match Verdicts(d, fs, s, killed, 0)
    case None => KillSwitch
    case Some(vs) => Output(Accepted(fs, vs), Rejected(fs, vs))
  }

  lemma {:induction false} AcceptedSnoc(fs: seq<Finding>, vs: seq<Verdict>, f: Finding, v: Verdict)
    requires |fs| == |vs|
    ensures Accepted(fs + [f], vs + [v]) == Accepted(fs, vs) + (if v.Accept? then [Confirmed(f, v.via)] else [])
    ensures Rejected(fs + [f], vs + [v]) == Rejected(fs, vs) + (if v.Reject? then [Unconfirmed(f, v.reason)] else [])
  {
    if fs != [] {
      AcceptedSnoc(fs[1..], vs[1..], f, v);
      assert (fs + [f])[1..] == fs[1..] + [f] && (vs + [v])[1..] == vs[1..] + [v];
    }
  }

  /** One more verdict. */
  lemma Advance(fs: seq<Finding>, n: nat, vs: seq<Verdict>, v: Verdict, rest: Option<seq<Verdict>>)
    requires n < |fs| && |vs| == n
    ensures Accepted(fs[..n + 1], vs + [v])
         == Accepted(fs[..n], vs) + (if v.Accept? then [Confirmed(fs[n], v.via)] else [])
    ensures Rejected(fs[..n + 1], vs + [v])
         == Rejected(fs[..n], vs) + (if v.Reject? then [Unconfirmed(fs[n], v.reason)] else [])
    ensures Prepend(vs, Prepend([v], rest)) == Prepend(vs + [v], rest)
  {
    assert fs[..n + 1] == fs[..n] + [fs[n]];
    AcceptedSnoc(fs[..n], vs, fs[n], v);
    PrependAssociative(vs, v, rest);
  }

  /** `confirmFindings`: the loop that fills the two lists. */
  method ConfirmFindings<S>(d: Deps<S>, probable: seq<Finding>, s: S, killed: nat -> bool) returns (r: Output)
    ensures r == ConfirmedBatch(d, probable, s, killed)
  {
    var fs := SortByRank(probable);
    var confirmed: seq<Confirmed> := [];
    var unconfirmed: seq<Unconfirmed> := [];
    var state := s;
    ghost var all := Verdicts(d, fs, s, killed, 0);
    ghost var vs: seq<Verdict> := [];
    assert fs[0..] == fs;
    PrependAssociative([], Reject(NotConfirmed), all);
    for n := 0 to |fs|
      invariant |vs| == n
      invariant confirmed == Accepted(fs[..n], vs) && unconfirmed == Rejected(fs[..n], vs)
      invariant all == Prepend(vs, Verdicts(d, fs[n..], state, killed, n))
    {
      var f := fs[n];
      assert fs[n..][0] == f && fs[n..][1..] == fs[n + 1..];
      if killed(n) { return KillSwitch; }
      if d.isKnownFalsePositive(f.category, f.file, f.line) {
        Advance(fs, n, vs, Reject(KnownFalsePositive), Verdicts(d, fs[n + 1..], state, killed, n + 1));
        vs := vs + [Reject(KnownFalsePositive)];
        unconfirmed := unconfirmed + [Unconfirmed(f, KnownFalsePositive)];
        continue;
      }
      if f.routeId.Some? && f.routeId.value != "" && f.routeId.value !in d.registeredRoutes {
        Advance(fs, n, vs, Reject(StructurallyRuledOut), Verdicts(d, fs[n + 1..], state, killed, n + 1));
        vs := vs + [Reject(StructurallyRuledOut)];
        unconfirmed := unconfirmed + [Unconfirmed(f, StructurallyRuledOut)];
        continue;
      }
      var staticProved := d.staticProof(f);
      var liveProved := false;
      if d.liveReady && d.liveEligible(f.category) {
        var (result, state') := d.live(f, state);
        if result.Aborted? { return KillSwitch; }
        liveProved, state := result.confirmed, state';
      }
      ghost var v := Decide(d, f, liveProved);
      Advance(fs, n, vs, v, Verdicts(d, fs[n + 1..], state, killed, n + 1));
      vs := vs + [v];
      if liveProved {
        confirmed := confirmed + [Confirmed(f, Live)];
      } else if staticProved {
        confirmed := confirmed + [Confirmed(f, Static)];
      } else {
        var investigated := false;
        if Eligible(d, f) { investigated := d.investigate(f); }
        if investigated {
          confirmed := confirmed + [Confirmed(f, Investigation)];
        } else {
          unconfirmed := unconfirmed + [Unconfirmed(f, NotConfirmed)];
        }
      }
    }
    assert fs[..|fs|] == fs && fs[|fs|..] == [] && vs + [] == vs;
    r := Output(confirmed, unconfirmed);
  }
}
