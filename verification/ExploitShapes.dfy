/** Confirmed-shape memory: what a scan records about its findings and what a later scan recalls. */
module ExploitShapes {
  import opened Options
  import opened Sequences

  datatype Finding = Finding(category: string, file: string)

  /** A category and the directory it was confirmed in. */
  datatype Shape = Shape(category: string, filePattern: string)

  /** A learned fact; `shape` is set on a well-formed `confirmed_exploit_shape` fact. */
  datatype Fact = Fact(clientId: string, repo: string, shape: Option<Shape>)

  const RECORD_LIMIT := 5
  const LIST_LIMIT := 25

  // ---- Directories and keys ----

  function LastSlash(s: string): int {
    if s == "" then -1 else if s[|s| - 1] == '/' then |s| - 1 else LastSlash(s[..|s| - 1])
  }

  lemma {:induction false} LastSlashIsLast(s: string)
    ensures -1 <= LastSlash(s) < |s|
    ensures LastSlash(s) >= 0 ==> s[LastSlash(s)] == '/'
    ensures forall i | LastSlash(s) < i < |s| :: s[i] != '/'
  {
    if s != "" && s[|s| - 1] != '/' { LastSlashIsLast(s[..|s| - 1]); }
  }

  function FilePatternOf(file: string): string {
    LastSlashIsLast(file);
    var idx := LastSlash(file);
    if idx == -1 then "." else file[..idx]
  }

  /** Two files share a pattern when they lie in one directory. */
  lemma SiblingsShareThePattern(dir: string, name: string)
    requires '/' !in name
    ensures FilePatternOf(dir + "/" + name) == dir && FilePatternOf(name) == "."
  {
    var f := dir + "/" + name;
    LastSlashIsLast(f);
    LastSlashIsLast(name);
    assert f[|dir|] == '/' && forall i | |dir| < i < |f| :: f[i] == name[i - |dir| - 1];
    assert f[..|dir|] == dir;
  }

  function ShapeOf(f: Finding): Shape { Shape(f.category, FilePatternOf(f.file)) }

  function Key(s: Shape): string { s.category + ":" + s.filePattern }

  /** The key tells shapes apart: no category contains a colon. */
  lemma KeyInjective(s: Shape, t: Shape)
    requires ':' !in s.category && ':' !in t.category && Key(s) == Key(t)
    ensures s == t
  {
    var k := Key(s);
    assert k[|s.category|] == ':' && k[|t.category|] == ':';
    assert forall i | 0 <= i < |s.category| :: k[i] == s.category[i] != ':';
    assert forall i | 0 <= i < |t.category| :: k[i] == t.category[i] != ':';
    assert |s.category| == |t.category|;
    assert s.category == k[..|s.category|] && t.category == k[..|t.category|];
    assert s.filePattern == k[|s.category| + 1..] && t.filePattern == k[|t.category| + 1..];
  }

  ghost predicate Categories(fs: seq<Finding>) { forall i | 0 <= i < |fs| :: ':' !in fs[i].category }

  // ---- The store ----

  function OfRepo(rows: seq<Fact>, clientId: string, repo: string): seq<Fact> {
    if rows == [] then []
    else
      (if rows[0].clientId == clientId && rows[0].repo == repo then [rows[0]] else [])
      + OfRepo(rows[1..], clientId, repo)
  }

  function Reverse(s: seq<Fact>): (r: seq<Fact>)
    ensures |r| == |s|
  {
    seq(|s|, i requires 0 <= i < |s| => s[|s| - 1 - i])
  }

  function Listed(rows: seq<Fact>, clientId: string, repo: string, limit: nat): seq<Fact> {
    Upto(Reverse(OfRepo(rows, clientId, repo)), limit)
  }

  class LearnedFactStore {
    var rows: seq<Fact>

    constructor ()
      ensures rows == []
    {
      rows := [];
    }

    method Record(f: Fact)
      modifies this
      ensures rows == old(rows) + [f]
    {
      rows := rows + [f];
    }

    method ListByRepo(clientId: string, repo: string, limit: nat) returns (r: seq<Fact>)
      ensures r == Listed(rows, clientId, repo, limit)
      ensures
        var own := OfRepo(rows, clientId, repo);
        && |r| == (if limit < |own| then limit else |own|)
        && forall i | 0 <= i < |r| :: r[i] == own[|own| - 1 - i]
    {
      var kept := OfRepo(rows, clientId, repo);
      var reversed := Reverse(kept);
      r := Upto(reversed, limit);
    }
  }

  // ---- Recording ----

  /** The distinct shapes of the findings, in first-occurrence order, without those already seen. */
  function Firsts(fs: seq<Finding>, seen: set<string>): seq<Shape> {
    if fs == [] then []
    else
      var s := ShapeOf(fs[0]);
      if Key(s) in seen then Firsts(fs[1..], seen) else [s] + Firsts(fs[1..], seen + {Key(s)})
  }

  /** The shapes whose write number, counted from `n`, succeeds. */
  function Written(ss: seq<Shape>, succeeds: nat -> bool, n: nat): seq<Shape>
    decreases ss
  {
    if ss == [] then [] else (if succeeds(n) then [ss[0]] else []) + Written(ss[1..], succeeds, n + 1)
  }

  function FactsOf(clientId: string, repo: string, ss: seq<Shape>): (r: seq<Fact>)
    ensures |r| == |ss|
  {
    seq(|ss|, i requires 0 <= i < |ss| => Fact(clientId, repo, Some(ss[i])))
  }

  /** Write number `n` succeeds or fails as `succeeds(n)` says. Whatever fails, exactly the first five
      shapes whose write succeeds are stored, and nothing else changes. */
  method RecordConfirmedExploitShapes(
    store: LearnedFactStore, clientId: string, repo: string, confirmed: seq<Finding>, succeeds: nat -> bool)
    modifies store
    ensures store.rows == old(store.rows)
        + FactsOf(clientId, repo, Upto(Written(Firsts(confirmed, {}), succeeds, 0), RECORD_LIMIT))
  {
    var seen: set<string> := {};
    var recorded, attempts := 0, 0;
    ghost var all := Written(Firsts(confirmed, {}), succeeds, 0);
    ghost var done: seq<Shape> := [];
    var i := 0;
    assert confirmed[0..] == confirmed && [] + all == all;
    while i < |confirmed| && recorded < RECORD_LIMIT
      invariant 0 <= i <= |confirmed| && recorded == |done| <= RECORD_LIMIT
      invariant store.rows == old(store.rows) + FactsOf(clientId, repo, done)
      invariant all == done + Written(Firsts(confirmed[i..], seen), succeeds, attempts)
    {
      var finding := confirmed[i];
      var shape := Shape(finding.category, FilePatternOf(finding.file));
      var key := shape.category + ":" + shape.filePattern;
      ghost var rest := confirmed[i..];
      assert rest[0] == finding && rest[1..] == confirmed[i + 1..];
      i := i + 1;
      if key in seen { continue; }
      RecordStep(clientId, repo, done, rest, seen, succeeds, attempts);
      seen := seen + {key};
      if succeeds(attempts) {
        store.Record(Fact(clientId, repo, Some(shape)));
        done := done + [shape];
        recorded := recorded + 1;
      }
      attempts := attempts + 1;
    }
    UptoDone(done, Written(Firsts(confirmed[i..], seen), succeeds, attempts));
  }

  /** A new shape, written or not. */
  lemma RecordStep(
    clientId: string, repo: string, done: seq<Shape>, fs: seq<Finding>, seen: set<string>,
    succeeds: nat -> bool, n: nat)
    requires fs != [] && Key(ShapeOf(fs[0])) !in seen
    ensures
      var s := ShapeOf(fs[0]);
      var more := if succeeds(n) then done + [s] else done;
      && done + Written(Firsts(fs, seen), succeeds, n)
           == more + Written(Firsts(fs[1..], seen + {Key(s)}), succeeds, n + 1)
      && FactsOf(clientId, repo, done + [s]) == FactsOf(clientId, repo, done) + [Fact(clientId, repo, Some(s))]
  {
    var s := ShapeOf(fs[0]);
    FirstsStep(fs, seen, succeeds, n);
    Regroup(done, s, Written(Firsts(fs[1..], seen + {Key(s)}), succeeds, n + 1));
    FactsOfSnoc(clientId, repo, done, s);
  }

  lemma FirstsStep(fs: seq<Finding>, seen: set<string>, succeeds: nat -> bool, n: nat)
    requires fs != [] && Key(ShapeOf(fs[0])) !in seen
    ensures
      var s := ShapeOf(fs[0]);
      Written(Firsts(fs, seen), succeeds, n)
        == (if succeeds(n) then [s] else []) + Written(Firsts(fs[1..], seen + {Key(s)}), succeeds, n + 1)
  {
    var s := ShapeOf(fs[0]);
    var t := Firsts(fs[1..], seen + {Key(s)});
    assert ([s] + t)[1..] == t;
  }

  lemma FactsOfSnoc(clientId: string, repo: string, ss: seq<Shape>, s: Shape)
    ensures FactsOf(clientId, repo, ss + [s]) == FactsOf(clientId, repo, ss) + [Fact(clientId, repo, Some(s))]
  {
  }

  lemma Regroup(done: seq<Shape>, s: Shape, rest: seq<Shape>)
    ensures done + ([s] + rest) == done + [s] + rest
    ensures done + ([] + rest) == done + rest
  {
  }

  lemma UptoDone(done: seq<Shape>, rest: seq<Shape>)
    requires |done| <= RECORD_LIMIT && (|done| == RECORD_LIMIT || rest == [])
    ensures Upto(done + rest, RECORD_LIMIT) == done
  {
  }

  // ---- What is recorded ----

  ghost predicate Distinct(ss: seq<Shape>) { forall i, j | 0 <= i < j < |ss| :: ss[i] != ss[j] }

  lemma {:induction false} FirstsAreNew(fs: seq<Finding>, seen: set<string>)
    ensures forall s | s in Firsts(fs, seen) :: Key(s) !in seen
    ensures Distinct(Firsts(fs, seen))
  {
    if fs != [] {
      var s := ShapeOf(fs[0]);
      FirstsAreNew(fs[1..], if Key(s) in seen then seen else seen + {Key(s)});
    }
  }

  ghost predicate HasShape(fs: seq<Finding>, s: Shape) { exists i | 0 <= i < |fs| :: ShapeOf(fs[i]) == s }

  /** First-occurrence order: one more finding appends its shape exactly when no earlier finding has it. */
  lemma {:induction false} FirstsSnoc(fs: seq<Finding>, seen: set<string>, f: Finding)
    requires Categories(fs) && ':' !in f.category
    ensures Firsts(fs + [f], seen) ==
              Firsts(fs, seen) + (if Key(ShapeOf(f)) in seen || HasShape(fs, ShapeOf(f)) then [] else [ShapeOf(f)])
  {
    var s := ShapeOf(f);
    if fs == [] {
      assert [] + [f] == [f] && [f][1..] == [];
    } else {
      var t := ShapeOf(fs[0]);
      assert (fs + [f])[1..] == fs[1..] + [f];
      FirstsSnoc(fs[1..], if Key(t) in seen then seen else seen + {Key(t)}, f);
      if Key(s) == Key(t) { KeyInjective(s, t); }
      HasShapeCons(fs, s);
      if Key(t) !in seen {
        var more: seq<Shape> := if Key(s) in seen + {Key(t)} || HasShape(fs[1..], s) then [] else [s];
        assert [t] + (Firsts(fs[1..], seen + {Key(t)}) + more) == [t] + Firsts(fs[1..], seen + {Key(t)}) + more;
      }
    }
  }

  lemma HasShapeCons(fs: seq<Finding>, s: Shape)
    requires fs != []
    ensures HasShape(fs, s) <==> ShapeOf(fs[0]) == s || HasShape(fs[1..], s)
  {
    if i :| 0 <= i < |fs| && ShapeOf(fs[i]) == s {
      if i > 0 { assert ShapeOf(fs[1..][i - 1]) == s; }
    }
    if i :| 0 <= i < |fs[1..]| && ShapeOf(fs[1..][i]) == s { assert ShapeOf(fs[i + 1]) == s; }
  }

  lemma {:induction false} FirstsFrom(fs: seq<Finding>, seen: set<string>)
    ensures forall s | s in Firsts(fs, seen) :: HasShape(fs, s)
  {
    if fs != [] {
      FirstsFrom(fs[1..], if Key(ShapeOf(fs[0])) in seen then seen else seen + {Key(ShapeOf(fs[0]))});
      forall s | s in Firsts(fs, seen) ensures HasShape(fs, s) { HasShapeCons(fs, s); }
    }
  }

  /** Every shape of a finding is among the first occurrences. */
  lemma {:induction false} FirstsCover(fs: seq<Finding>, seen: set<string>, s: Shape)
    requires Categories(fs) && HasShape(fs, s) && Key(s) !in seen
    ensures s in Firsts(fs, seen)
  {
    var t := ShapeOf(fs[0]);
    HasShapeCons(fs, s);
    if s != t {
      if Key(s) == Key(t) { KeyInjective(s, t); }
      FirstsCover(fs[1..], if Key(t) in seen then seen else seen + {Key(t)}, s);
    }
  }

  lemma {:induction false} WrittenElements(ss: seq<Shape>, succeeds: nat -> bool, n: nat)
    requires Distinct(ss)
    ensures forall s | s in Written(ss, succeeds, n) :: s in ss
    ensures Distinct(Written(ss, succeeds, n))
    ensures (forall i: nat :: succeeds(i)) ==> Written(ss, succeeds, n) == ss
    decreases ss
  {
    if ss != [] {
      WrittenElements(ss[1..], succeeds, n + 1);
      assert ss == [ss[0]] + ss[1..];
      forall s | s in ss[1..] ensures s != ss[0] {
        var i :| 0 <= i < |ss[1..]| && ss[1..][i] == s;
        assert ss[i + 1] == s;
      }
      var w := Written(ss[1..], succeeds, n + 1);
      assert forall i | 0 <= i < |w| :: w[i] in w;
    }
  }

  /** Under any failures at most five pairwise distinct shapes, all of confirmed findings, are recorded;
      when every write succeeds, exactly the first five distinct ones, and so all when there are no more. */
  lemma RecordedShapes(confirmed: seq<Finding>, succeeds: nat -> bool)
    ensures
      var r, firsts := Upto(Written(Firsts(confirmed, {}), succeeds, 0), RECORD_LIMIT), Firsts(confirmed, {});
      && |r| <= 5 && Distinct(r) && (forall s | s in r :: HasShape(confirmed, s))
      && ((forall i: nat :: succeeds(i)) ==>
            && r == firsts[..if |firsts| <= 5 then |firsts| else 5]
            && (Categories(confirmed) && |firsts| <= 5 ==> forall s | HasShape(confirmed, s) :: s in r))
  {
    FirstsAreNew(confirmed, {});
    FirstsFrom(confirmed, {});
    WrittenElements(Firsts(confirmed, {}), succeeds, 0);
    if Categories(confirmed) {
      forall s | HasShape(confirmed, s) ensures s in Firsts(confirmed, {}) { FirstsCover(confirmed, {}, s); }
    }
  }

  // ---- Recall ----

  predicate Recalls(facts: seq<Fact>, f: Finding) {
    exists i | 0 <= i < |facts| :: facts[i].shape == Some(ShapeOf(f))
  }

  /** `matches` of the priors loaded for one repository. */
  predicate Matches(rows: seq<Fact>, clientId: string, repo: string, f: Finding) {
    Recalls(Listed(rows, clientId, repo, LIST_LIMIT), f)
  }

  /** Row `p` records this finding's shape for the repository, and fewer than 25 facts of the
      repository are newer. */
  ghost predicate RecentlyRecorded(rows: seq<Fact>, clientId: string, repo: string, f: Finding, p: nat) {
    && p < |rows|
    && rows[p] == Fact(clientId, repo, Some(ShapeOf(f)))
    && |OfRepo(rows[p + 1..], clientId, repo)| < LIST_LIMIT
  }

  lemma {:induction false} OfRepoConcat(a: seq<Fact>, b: seq<Fact>, clientId: string, repo: string)
    ensures OfRepo(a + b, clientId, repo) == OfRepo(a, clientId, repo) + OfRepo(b, clientId, repo)
  {
    if a == [] {
      assert a + b == b;
    } else {
      assert (a + b)[1..] == a[1..] + b;
      OfRepoConcat(a[1..], b, clientId, repo);
    }
  }

  /** The row behind entry `k` of the repository's facts. */
  lemma {:induction false} RowBehind(rows: seq<Fact>, clientId: string, repo: string, k: nat) returns (p: nat)
    requires k < |OfRepo(rows, clientId, repo)|
    ensures p < |rows| && rows[p] == OfRepo(rows, clientId, repo)[k]
    ensures rows[p].clientId == clientId && rows[p].repo == repo
    ensures |OfRepo(rows[p + 1..], clientId, repo)| == |OfRepo(rows, clientId, repo)| - 1 - k
  {
    if rows[0].clientId == clientId && rows[0].repo == repo && k == 0 {
      p := 0;
    } else {
      var skip := if rows[0].clientId == clientId && rows[0].repo == repo then 1 else 0;
      var q := RowBehind(rows[1..], clientId, repo, k - skip);
      p := q + 1;
      assert rows[1..][q + 1..] == rows[p + 1..];
    }
  }

  lemma RowInList(rows: seq<Fact>, clientId: string, repo: string, p: nat)
    requires p < |rows| && rows[p].clientId == clientId && rows[p].repo == repo
    ensures
      var own, n := OfRepo(rows, clientId, repo), |OfRepo(rows[p + 1..], clientId, repo)|;
      n < |own| && own[|own| - 1 - n] == rows[p]
  {
    var before, after := rows[..p], rows[p + 1..];
    assert rows == before + ([rows[p]] + after);
    OfRepoConcat(before, [rows[p]] + after, clientId, repo);
    assert ([rows[p]] + after)[1..] == after;
  }

  /** The `n`-th newest of the repository's facts holds the finding's shape. */
  predicate NthNewest(own: seq<Fact>, n: nat, f: Finding) {
    n < |own| && own[|own| - 1 - n].shape == Some(ShapeOf(f))
  }

  lemma RecallsIffWithin(own: seq<Fact>, f: Finding, limit: nat)
    ensures Recalls(Upto(Reverse(own), limit), f) <==>
              exists n: nat :: n < limit && NthNewest(own, n, f)
  {
    var t := Upto(Reverse(own), limit);
    if i :| 0 <= i < |t| && t[i].shape == Some(ShapeOf(f)) {
      assert NthNewest(own, i, f);
    }
    if n: nat :| n < limit && NthNewest(own, n, f) {
      assert t[n] == own[|own| - 1 - n];
    }
  }

  /** Exactly the shapes among the 25 newest facts of the repository match. */
  lemma MatchesIffRecent(rows: seq<Fact>, clientId: string, repo: string, f: Finding)
    ensures Matches(rows, clientId, repo, f) <==> exists p: nat :: RecentlyRecorded(rows, clientId, repo, f, p)
  {
    RecallsIffWithin(OfRepo(rows, clientId, repo), f, LIST_LIMIT);
    if Matches(rows, clientId, repo, f) {
      var n: nat :| n < LIST_LIMIT && NthNewest(OfRepo(rows, clientId, repo), n, f);
      var p := RowBehind(rows, clientId, repo, |OfRepo(rows, clientId, repo)| - 1 - n);
      assert RecentlyRecorded(rows, clientId, repo, f, p);
    }
    if p: nat :| RecentlyRecorded(rows, clientId, repo, f, p) {
      RowInList(rows, clientId, repo, p);
      assert NthNewest(OfRepo(rows, clientId, repo), |OfRepo(rows[p + 1..], clientId, repo)|, f);
    }
  }

  /** Recall in terms of the finding: a row of the repository holds its category and its directory, and
      fewer than 25 rows of the repository are newer. */
  lemma MatchesExact(rows: seq<Fact>, clientId: string, repo: string, f: Finding)
    ensures Matches(rows, clientId, repo, f) <==>
              exists p: nat | p < |rows| ::
                && rows[p].clientId == clientId && rows[p].repo == repo && rows[p].shape.Some?
                && rows[p].shape.value.category == f.category
                && rows[p].shape.value.filePattern == FilePatternOf(f.file)
                && |OfRepo(rows[p + 1..], clientId, repo)| < 25
  {
    MatchesIffRecent(rows, clientId, repo, f);
    if p: nat :| RecentlyRecorded(rows, clientId, repo, f, p) {
      assert rows[p].shape == Some(ShapeOf(f));
    }
    if p: nat :|
      && p < |rows|
      && rows[p].clientId == clientId && rows[p].repo == repo && rows[p].shape.Some?
      && rows[p].shape.value.category == f.category
      && rows[p].shape.value.filePattern == FilePatternOf(f.file)
      && |OfRepo(rows[p + 1..], clientId, repo)| < 25
    {
      assert RecentlyRecorded(rows, clientId, repo, f, p);
    }
  }

  /** The facts of a repository are the rows with its client and name, as often as they occur. */
  lemma {:induction false} OfRepoExact(rows: seq<Fact>, clientId: string, repo: string, x: Fact)
    ensures multiset(OfRepo(rows, clientId, repo))[x]
         == if x.clientId == clientId && x.repo == repo then multiset(rows)[x] else 0
  {
    if rows != [] {
      OfRepoExact(rows[1..], clientId, repo, x);
      assert rows == [rows[0]] + rows[1..];
    }
  }

  /** A shape stands for the category and the directory of a finding. */
  lemma HasShapeExact(fs: seq<Finding>, s: Shape)
    ensures HasShape(fs, s) <==>
              exists f | f in fs :: f.category == s.category && FilePatternOf(f.file) == s.filePattern
  {
    if i :| 0 <= i < |fs| && ShapeOf(fs[i]) == s { assert fs[i] in fs; }
    if f :| f in fs && f.category == s.category && FilePatternOf(f.file) == s.filePattern {
      var i :| 0 <= i < |fs| && fs[i] == f;
      assert ShapeOf(fs[i]) == s;
    }
  }

  /** End to end: a shape recorded by one scan matches a later finding of the same category and
      directory while its own scan's facts and the newer ones together do not exceed 25. */
  lemma RecordedShapeIsRecalled(
    rows: seq<Fact>, clientId: string, repo: string, ss: seq<Shape>, newer: seq<Fact>, f: Finding)
    requires ShapeOf(f) in ss
    requires |ss| + |OfRepo(newer, clientId, repo)| <= 25
    ensures Matches(rows + FactsOf(clientId, repo, ss) + newer, clientId, repo, f)
  {
    var facts := FactsOf(clientId, repo, ss);
    var all := rows + facts + newer;
    var i :| 0 <= i < |ss| && ss[i] == ShapeOf(f);
    var p := |rows| + i;
    assert all[p] == facts[i];
    assert all[p + 1..] == facts[i + 1..] + newer;
    OfRepoConcat(facts[i + 1..], newer, clientId, repo);
    OfRepoShorter(facts[i + 1..], clientId, repo);
    assert RecentlyRecorded(all, clientId, repo, f, p);
    MatchesIffRecent(all, clientId, repo, f);
  }

  lemma {:induction false} OfRepoShorter(rows: seq<Fact>, clientId: string, repo: string)
    ensures |OfRepo(rows, clientId, repo)| <= |rows|
  {
    if rows != [] { OfRepoShorter(rows[1..], clientId, repo); }
  }
}
