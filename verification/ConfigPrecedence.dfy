/** Precedence of any number of config sources, merged in order: exactly when the last one that sets a
    path wins there. */
module ConfigPrecedence {
  import opened Options
  import opened ConfigLayers

  /** The fold of `loadConfig`, lowest precedence first. */
  function Layer(acc: Obj, sources: seq<Obj>): Obj
    decreases sources
  {
    if sources == [] then acc else Layer(Merge(acc, sources[0]), sources[1..])
  }

  /** The leaf of the last source that has one at the path, else the fallback. */
  function Highest(fallback: Option<string>, sources: seq<Obj>, p: Path): Option<string>
    decreases sources
  {
    if sources == [] then fallback else Highest(Over(Get(sources[0], p), fallback), sources[1..], p)
  }

  function Optional(s: Option<Obj>): seq<Obj> { match s case None => [] case Some(o) => [o] }

  /** `loadConfig` before validation: file, environment, secrets, overrides. */
  method LoadMerged(file: Option<Obj>, env: Obj, secrets: Option<Obj>, overrides: Option<Obj>) returns (merged: Obj)
    ensures merged == Layer(EMPTY, Optional(file) + [env] + Optional(secrets) + Optional(overrides))
    ensures
      var a := if file.Some? then Merge(EMPTY, file.value) else EMPTY;
      var b := Merge(a, env);
      var c := if secrets.Some? then Merge(b, secrets.value) else b;
      merged == if overrides.Some? then Merge(c, overrides.value) else c
    ensures
      (forall p :: Get(merged, p) == TopLeaf(file, env, secrets, overrides, p))
        <==> !Clash([OrEmpty(file), env, OrEmpty(secrets), OrEmpty(overrides)])
  {
    merged := EMPTY;
    var a, b, c, d := Optional(file), [env], Optional(secrets), Optional(overrides);
    if file.Some? { merged := DeepMerge(merged, file.value); }
    LayerSnoc(EMPTY, a, b);
    merged := DeepMerge(merged, env);
    LayerSnoc(EMPTY, a + b, c);
    if secrets.Some? { merged := DeepMerge(merged, secrets.value); }
    LayerSnoc(EMPTY, a + b + c, d);
    if overrides.Some? { merged := DeepMerge(merged, overrides.value); }
    PresentSources(file, env, secrets, overrides);
  }

  /** The leaf of the overrides if they have one, else of the secrets, else of the environment, else of
      the file; a source that is absent has none. */
  function TopLeaf(file: Option<Obj>, env: Obj, secrets: Option<Obj>, overrides: Option<Obj>, p: Path): Option<string> {
    if overrides.Some? && Get(overrides.value, p).Some? then Get(overrides.value, p)
    else if secrets.Some? && Get(secrets.value, p).Some? then Get(secrets.value, p)
    else if Get(env, p).Some? then Get(env, p)
    else if file.Some? then Get(file.value, p) else None
  }

  function OrEmpty(source: Option<Obj>): Obj { if source.Some? then source.value else EMPTY }

  lemma MergeEmpty(o: Obj)
    ensures Merge(o, EMPTY) == o
  {
    assert Merge(o, EMPTY).fields == o.fields;
  }

  /** An absent source merges like an empty object. */
  lemma PresentSources(file: Option<Obj>, env: Obj, secrets: Option<Obj>, overrides: Option<Obj>)
    ensures
      var a := if file.Some? then Merge(EMPTY, file.value) else EMPTY;
      var b := Merge(a, env);
      var c := if secrets.Some? then Merge(b, secrets.value) else b;
      var merged := if overrides.Some? then Merge(c, overrides.value) else c;
      (forall p :: Get(merged, p) == TopLeaf(file, env, secrets, overrides, p))
        <==> !Clash([OrEmpty(file), env, OrEmpty(secrets), OrEmpty(overrides)])
  {
    var f, s, o := OrEmpty(file), OrEmpty(secrets), OrEmpty(overrides);
    var all := [f, env, s, o];
    var a := if file.Some? then Merge(EMPTY, file.value) else EMPTY;
    var b := Merge(a, env);
    var c := if secrets.Some? then Merge(b, secrets.value) else b;
    var merged := if overrides.Some? then Merge(c, overrides.value) else c;
    MergeEmpty(EMPTY);
    MergeEmpty(b);
    MergeEmpty(c);
    LayerOfFour(f, env, s, o);
    assert merged == Layer(EMPTY, all);
    forall p ensures TopLeaf(file, env, secrets, overrides, p) == TopOfFour(f, env, s, o, p) {
      assert Get(EMPTY, p) == None;
    }
    HighestPrecedenceWins(f, env, s, o);
  }

  lemma LayerOfFour(f: Obj, e: Obj, s: Obj, o: Obj)
    ensures Layer(EMPTY, [f, e, s, o]) == Merge(Merge(Merge(Merge(EMPTY, f), e), s), o)
  {
    LayerOneMore(EMPTY, [], f);
    LayerOneMore(EMPTY, [f], e);
    LayerOneMore(EMPTY, [f, e], s);
    LayerOneMore(EMPTY, [f, e, s], o);
    assert [] + [f] == [f] && [f] + [e] == [f, e];
    assert [f, e] + [s] == [f, e, s] && [f, e, s] + [o] == [f, e, s, o];
  }

  lemma {:induction false} LayerSnoc(acc: Obj, a: seq<Obj>, b: seq<Obj>)
    ensures Layer(acc, a + b) == Layer(Layer(acc, a), b)
    decreases a
  {
    if a == [] {
      assert a + b == b;
    } else {
      assert (a + b)[1..] == a[1..] + b;
      LayerSnoc(Merge(acc, a[0]), a[1..], b);
    }
  }

  // ---- Folding the values under one path ----

  /** What one more source makes of a value: nothing new, a merge of two objects, or its own value. */
  function Combine(low: Conf, high: Conf): Conf {
    if high == Undef then low else if low.Node? && high.Node? then Merge(low, high) else high
  }

  function Fold(vs: seq<Conf>): Conf {
    if vs == [] then Undef else Combine(Fold(vs[..|vs| - 1]), vs[|vs| - 1])
  }

  /** The leaf of the last value that has one at the path. */
  function LastLeaf(vs: seq<Conf>, p: Path): Option<string> {
    if vs == [] then None else Over(Get(vs[|vs| - 1], p), LastLeaf(vs[..|vs| - 1], p))
  }

  ghost predicate LawAt(vs: seq<Conf>, p: Path) {
    Get(Fold(vs), p) == LastLeaf(vs, p)
  }

  /** The value under a key. */
  function Under(c: Conf, k: string): Conf {
    if c.Node? && k in c.fields then c.fields[k] else Undef
  }

  function AllUnder(vs: seq<Conf>, k: string): (r: seq<Conf>)
    ensures |r| == |vs|
  {
    seq(|vs|, i requires 0 <= i < |vs| => Under(vs[i], k))
  }

  ghost predicate LeafFree(vs: seq<Conf>) {
    forall i | 0 <= i < |vs| :: !vs[i].Leaf?
  }

  lemma MergeUnder(a: Obj, b: Obj, k: string)
    ensures Under(Merge(a, b), k) == Combine(Under(a, k), Under(b, k))
  {
  }

  /** While no value is a leaf, folding and taking a key commute. */
  lemma {:induction false} FoldUnder(vs: seq<Conf>, k: string)
    requires LeafFree(vs)
    ensures !Fold(vs).Leaf? && Under(Fold(vs), k) == Fold(AllUnder(vs, k))
  {
    if vs != [] {
      var n := |vs| - 1;
      FoldUnder(vs[..n], k);
      assert AllUnder(vs, k)[..n] == AllUnder(vs[..n], k);
      var low := Fold(vs[..n]);
      if low.Node? && vs[n].Node? { MergeUnder(low, vs[n], k); }
    }
  }

  lemma {:induction false} LastLeafUnder(vs: seq<Conf>, p: Path)
    requires p != []
    ensures LastLeaf(vs, p) == LastLeaf(AllUnder(vs, p[0]), p[1..])
  {
    if vs != [] {
      LastLeafUnder(vs[..|vs| - 1], p);
      assert AllUnder(vs, p[0])[..|vs| - 1] == AllUnder(vs[..|vs| - 1], p[0]);
    }
  }

  lemma {:induction false} NoLeafAtRoot(vs: seq<Conf>)
    requires LeafFree(vs)
    ensures LastLeaf(vs, []) == None
  {
    if vs != [] { NoLeafAtRoot(vs[..|vs| - 1]); }
  }

  lemma LawUnder(vs: seq<Conf>, p: Path)
    requires LeafFree(vs) && p != []
    ensures LawAt(vs, p) <==> LawAt(AllUnder(vs, p[0]), p[1..])
  {
    FoldUnder(vs, p[0]);
    LastLeafUnder(vs, p);
  }

  // ---- Clashes ----

  /** A leaf meets an object that holds a leaf, or that no later leaf covers. */
  ghost predicate ClashPair(vs: seq<Conf>, i: nat, j: nat) {
    i < |vs| && j < |vs| && vs[i].Leaf? && vs[j].Node? && (!NoLeaf(vs[j]) || Uncovered(vs, j))
  }

  ghost predicate ClashHere(vs: seq<Conf>) {
    exists i: nat, j: nat :: ClashPair(vs, i, j)
  }

  ghost predicate Uncovered(vs: seq<Conf>, j: nat) {
    forall m | j < m < |vs| :: !vs[m].Leaf?
  }

  function AllAt(vs: seq<Conf>, p: Path): (r: seq<Conf>)
    ensures |r| == |vs|
  {
    seq(|vs|, i requires 0 <= i < |vs| => Lookup(vs[i], p))
  }

  ghost predicate Clash(vs: seq<Conf>) {
    exists p :: ClashHere(AllAt(vs, p))
  }

  lemma AllAtUnder(vs: seq<Conf>, k: string, p: Path)
    ensures AllAt(vs, [k] + p) == AllAt(AllUnder(vs, k), p)
  {
    assert ([k] + p)[1..] == p;
    assert forall c: Conf :: Lookup(c, [k] + p) == Lookup(Under(c, k), p);
  }

  lemma AllAtRoot(vs: seq<Conf>)
    ensures AllAt(vs, []) == vs
  {
  }

  /** The last defined value decides what the fold is. */
  lemma {:induction false} FoldIsLast(vs: seq<Conf>, j: nat)
    requires j < |vs| && vs[j] != Undef && forall m | j < m < |vs| :: vs[m] == Undef
    ensures vs[j].Leaf? ==> Fold(vs) == vs[j]
    ensures vs[j].Node? ==> Fold(vs).Node?
    decreases |vs|
  {
    if j < |vs| - 1 { FoldIsLast(vs[..|vs| - 1], j); }
  }

  lemma {:induction false} LastLeafIs(vs: seq<Conf>, p: Path, i: nat)
    requires i < |vs| && Get(vs[i], p).Some?
    ensures LastLeaf(vs, p).Some?
    ensures (forall m | i < m < |vs| :: Get(vs[m], p) == None) ==> LastLeaf(vs, p) == Get(vs[i], p)
    decreases |vs|
  {
    if i < |vs| - 1 { LastLeafIs(vs[..|vs| - 1], p, i); }
  }

  lemma {:induction false} LastLeafNone(vs: seq<Conf>, p: Path)
    requires forall i | 0 <= i < |vs| :: Get(vs[i], p) == None
    ensures LastLeaf(vs, p) == None
  {
    if vs != [] { LastLeafNone(vs[..|vs| - 1], p); }
  }

  lemma {:induction false} LastDefined(vs: seq<Conf>) returns (j: nat)
    requires exists i | 0 <= i < |vs| :: vs[i] != Undef
    ensures j < |vs| && vs[j] != Undef && forall m | j < m < |vs| :: vs[m] == Undef
  {
    if vs[|vs| - 1] != Undef {
      j := |vs| - 1;
    } else {
      j := LastDefined(vs[..|vs| - 1]);
    }
  }

  /** Where a leaf clashes with nothing, it wins everywhere. */
  lemma LeafWins(vs: seq<Conf>, p: Path)
    requires !LeafFree(vs) && !ClashHere(vs)
    ensures LawAt(vs, p)
  {
    var i :| 0 <= i < |vs| && vs[i].Leaf?;
    var j := LastDefined(vs);
    assert !ClashPair(vs, i, j) && vs[j].Leaf?;
    FoldIsLast(vs, j);
    if p == [] {
      LastLeafIs(vs, p, j);
    } else {
      forall m | 0 <= m < |vs| ensures Get(vs[m], p) == None {
        assert !ClashPair(vs, i, m);
        if vs[m].Node? { NoLeafGet(vs[m], p); }
      }
      LastLeafNone(vs, p);
    }
  }

  /** A clash at the root breaks the law at the root, or at a leaf of the object. */
  lemma RootClash(vs: seq<Conf>) returns (q: Path)
    requires ClashHere(vs)
    ensures !LawAt(vs, q)
  {
    var i: nat, j: nat :| ClashPair(vs, i, j);
    var last := LastDefined(vs);
    FoldIsLast(vs, last);
    if vs[last].Node? {
      q := [];
      LastLeafIs(vs, q, i);
    } else {
      q := LeafExists(vs[j]);
      LastLeafIs(vs, q, j);
    }
  }

  lemma {:induction false} NoClashLaw(vs: seq<Conf>, p: Path)
    requires !Clash(vs)
    ensures LawAt(vs, p)
    decreases p
  {
    AllAtRoot(vs);
    assert !ClashHere(AllAt(vs, []));
    if !LeafFree(vs) {
      LeafWins(vs, p);
    } else if p == [] {
      NoLeafAtRoot(vs);
      if vs != [] { FoldUnder(vs, ""); }
    } else {
      forall q ensures !ClashHere(AllAt(AllUnder(vs, p[0]), q)) { AllAtUnder(vs, p[0], q); }
      NoClashLaw(AllUnder(vs, p[0]), p[1..]);
      LawUnder(vs, p);
    }
  }

  lemma {:induction false} ClashBreaks(vs: seq<Conf>, p: Path) returns (q: Path)
    requires ClashHere(AllAt(vs, p))
    ensures !LawAt(vs, q)
    decreases p
  {
    AllAtRoot(vs);
    if ClashHere(vs) {
      q := RootClash(vs);
    } else if LeafFree(vs) {
      assert p == [p[0]] + p[1..];
      AllAtUnder(vs, p[0], p[1..]);
      q := ClashBreaks(AllUnder(vs, p[0]), p[1..]);
      assert ([p[0]] + q)[1..] == q;
      q := [p[0]] + q;
      LawUnder(vs, q);
    } else {
      DeepLeafClashes(vs, p);
    }
  }

  /** A leaf below a path where another value is a leaf. */
  lemma DeepLeafClashes(vs: seq<Conf>, p: Path)
    requires ClashHere(AllAt(vs, p)) && !LeafFree(vs)
    ensures ClashHere(vs)
  {
    AllAtRoot(vs);
    if p != [] {
      var i: nat, j: nat :| ClashPair(AllAt(vs, p), i, j);
      var m :| 0 <= m < |vs| && vs[m].Leaf?;
      LookupGet(vs[i], p);
      if NoLeaf(vs[i]) { NoLeafGet(vs[i], p); }
      assert ClashPair(vs, m, i);
    }
  }

  lemma {:induction false} LookupGet(c: Conf, p: Path)
    ensures Lookup(c, p).Leaf? <==> Get(c, p).Some?
    decreases p
  {
    if p != [] && c.Node? && p[0] in c.fields { LookupGet(c.fields[p[0]], p[1..]); }
  }

  /** Exact: the fold has the last leaf at every path iff no leaf clashes with an object. */
  lemma LawIff(vs: seq<Conf>)
    ensures (forall p :: LawAt(vs, p)) <==> !Clash(vs)
  {
    if Clash(vs) {
      var p :| ClashHere(AllAt(vs, p));
      var q := ClashBreaks(vs, p);
    } else {
      forall p ensures LawAt(vs, p) { NoClashLaw(vs, p); }
    }
  }

  // ---- All sources ----

  /** At every path the merged config has the leaf of the last source that has one. */
  ghost predicate Precedence(sources: seq<Obj>) {
    forall p :: Get(Layer(EMPTY, sources), p) == Highest(None, sources, p)
  }

  lemma FoldSnoc(vs: seq<Conf>, v: Conf)
    ensures Fold(vs + [v]) == Combine(Fold(vs), v)
  {
    assert (vs + [v])[..|vs|] == vs;
  }

  lemma {:induction false} FoldIsLayer(acc: Obj, sources: seq<Obj>)
    ensures Fold([acc] + sources) == Layer(acc, sources)
    decreases |sources|
  {
    if sources == [] {
      FoldSnoc([], acc);
      assert [acc] + sources == [] + [acc];
    } else {
      var front, last := sources[..|sources| - 1], sources[|sources| - 1];
      FoldIsLayer(acc, front);
      FoldSnoc([acc] + front, last);
      assert sources == front + [last] && [acc] + sources == [acc] + front + [last];
      LayerOneMore(acc, front, last);
    }
  }

  lemma LayerOneMore(acc: Obj, front: seq<Obj>, last: Obj)
    ensures Layer(acc, front + [last]) == Merge(Layer(acc, front), last)
  {
    LayerSnoc(acc, front, [last]);
    assert [last][1..] == [];
  }

  lemma {:induction false} HighestSnoc(fallback: Option<string>, sources: seq<Obj>, last: Obj, p: Path)
    ensures Highest(fallback, sources + [last], p) == Over(Get(last, p), Highest(fallback, sources, p))
    decreases sources
  {
    if sources == [] {
      assert sources + [last] == [last] && [last][1..] == [];
    } else {
      assert (sources + [last])[1..] == sources[1..] + [last];
      HighestSnoc(Over(Get(sources[0], p), fallback), sources[1..], last, p);
    }
  }

  lemma {:induction false} HighestIsLast(sources: seq<Obj>, p: Path)
    ensures LastLeaf([EMPTY] + sources, p) == Highest(None, sources, p)
    decreases |sources|
  {
    if sources == [] {
      assert [EMPTY] + sources == [EMPTY] && [EMPTY][..0] == [];
    } else {
      var n := |sources| - 1;
      HighestIsLast(sources[..n], p);
      assert sources == sources[..n] + [sources[n]] && ([EMPTY] + sources)[..n + 1] == [EMPTY] + sources[..n];
      HighestSnoc(None, sources[..n], sources[n], p);
    }
  }

  /** The empty object that the fold starts from clashes with nothing. */
  lemma EmptyClashesNot(sources: seq<Obj>)
    ensures Clash([EMPTY] + sources) <==> Clash(sources)
  {
    forall p ensures ClashHere(AllAt([EMPTY] + sources, p)) <==> ClashHere(AllAt(sources, p)) {
      var vs, ws := AllAt(sources, p), AllAt([EMPTY] + sources, p);
      assert ws == [Lookup(EMPTY, p)] + vs;
      if p == [] {
        AllAtRoot(sources);
      } else {
        UndefFirst(vs);
      }
    }
  }

  lemma UndefFirst(vs: seq<Conf>)
    ensures ClashHere([Undef] + vs) <==> ClashHere(vs)
  {
    var ws := [Undef] + vs;
    if i: nat, j: nat :| ClashPair(vs, i, j) { PairShifts(vs, i, j); }
    if i: nat, j: nat :| ClashPair(ws, i, j) { PairShifts(vs, i - 1, j - 1); }
  }

  lemma PairShifts(vs: seq<Conf>, i: nat, j: nat)
    requires i < |vs| && j < |vs|
    ensures ClashPair([Undef] + vs, i + 1, j + 1) <==> ClashPair(vs, i, j)
  {
    var ws := [Undef] + vs;
    assert ws[i + 1] == vs[i] && ws[j + 1] == vs[j];
    forall m | j < m < |vs| ensures ws[m + 1] == vs[m] {
    }
    if Uncovered(ws, j + 1) {
      forall m | j < m < |vs| ensures !vs[m].Leaf? { assert !ws[m + 1].Leaf?; }
    }
  }

  /** Main result, exact, for any number of sources: every path has the leaf of the last source that
      sets it, iff nowhere a leaf of one source meets an object of another that holds a leaf itself or
      has no leaf of a later source over it. */
  lemma LayerPrecedence(sources: seq<Obj>)
    ensures Precedence(sources) <==> !Clash(sources)
  {
    var vs := [EMPTY] + sources;
    FoldIsLayer(EMPTY, sources);
    forall p ensures LawAt(vs, p) <==> Get(Layer(EMPTY, sources), p) == Highest(None, sources, p) {
      HighestIsLast(sources, p);
    }
    LawIff(vs);
    EmptyClashesNot(sources);
  }

  ghost predicate AllCompatible(sources: seq<Obj>) {
    forall i, j | 0 <= i < j < |sources| :: Compatible(sources[i], sources[j])
  }

  lemma {:induction false} CompatibleAt(a: Obj, b: Obj, p: Path)
    requires Compatible(a, b)
    ensures
      var x, y := Lookup(a, p), Lookup(b, p);
      !(x.Leaf? && y.Node?) && (x.Node? && y.Leaf? ==> NoLeaf(x))
    decreases p
  {
    if p != [] {
      var x, y := Under(a, p[0]), Under(b, p[0]);
      if x.Node? && y.Node? {
        CompatibleAt(x, y, p[1..]);
      } else if p[1..] != [] {
        BelowLeaf(x, y, p[1..]);
      }
    }
  }

  /** Below two values that are not both objects, at most one has anything. */
  lemma BelowLeaf(x: Conf, y: Conf, p: Path)
    requires !(x.Node? && y.Node?) && p != []
    ensures Lookup(x, p) == Undef || Lookup(y, p) == Undef
  {
  }

  lemma NoPairIn(sources: seq<Obj>, p: Path, i: nat, j: nat)
    requires AllCompatible(sources)
    ensures !ClashPair(AllAt(sources, p), i, j)
  {
    if i < j < |sources| {
      CompatibleAt(sources[i], sources[j], p);
    } else if j < i < |sources| {
      CompatibleAt(sources[j], sources[i], p);
      assert AllAt(sources, p)[i] == Lookup(sources[i], p);
    }
  }

  /** Sources without a leaf where another has an object, pairwise, do not clash. */
  lemma CompatibleSourcesLayer(sources: seq<Obj>)
    requires AllCompatible(sources)
    ensures Precedence(sources)
  {
    if Clash(sources) {
      var p :| ClashHere(AllAt(sources, p));
      var i: nat, j: nat :| ClashPair(AllAt(sources, p), i, j);
      NoPairIn(sources, p, i, j);
    }
    LayerPrecedence(sources);
  }

  function TopOfFour(file: Obj, env: Obj, secrets: Obj, overrides: Obj, p: Path): Option<string> {
    Over(Get(overrides, p), Over(Get(secrets, p), Over(Get(env, p), Get(file, p))))
  }

  /** Overrides over secrets over environment over file, at every path, iff the four do not clash. */
  lemma HighestPrecedenceWins(file: Obj, env: Obj, secrets: Obj, overrides: Obj)
    ensures
      var all := [file, env, secrets, overrides];
      (forall p :: Get(Layer(EMPTY, all), p) == TopOfFour(file, env, secrets, overrides, p)) <==> !Clash(all)
  {
    var all := [file, env, secrets, overrides];
    LayerPrecedence(all);
    if Precedence(all) {
      forall p ensures Get(Layer(EMPTY, all), p) == TopOfFour(file, env, secrets, overrides, p) {
        HighestOfFour(file, env, secrets, overrides, p);
      }
    } else {
      var p :| Get(Layer(EMPTY, all), p) != Highest(None, all, p);
      HighestOfFour(file, env, secrets, overrides, p);
    }
  }

  lemma HighestOfFour(file: Obj, env: Obj, secrets: Obj, overrides: Obj, p: Path)
    ensures Highest(None, [file, env, secrets, overrides], p) == TopOfFour(file, env, secrets, overrides, p)
  {
    HighestSnoc(None, [], file, p);
    HighestSnoc(None, [file], env, p);
    HighestSnoc(None, [file, env], secrets, p);
    HighestSnoc(None, [file, env, secrets], overrides, p);
    assert [] + [file] == [file] && [file] + [env] == [file, env];
    assert [file, env] + [secrets] == [file, env, secrets];
    assert [file, env, secrets] + [overrides] == [file, env, secrets, overrides];
  }

  /** An instance: a section that the file sets to a plain value disappears under one variable of it. */
  lemma PlainSectionIsLost(section: string, key: string, one: string, two: string)
    ensures
      var all := [Single(section, Leaf(one)), Single(section, Single(key, Leaf(two)))];
      Highest(None, all, [section]) == Some(one) && Get(Layer(EMPTY, all), [section]) == None
  {
    var file, env := Single(section, Leaf(one)), Single(section, Single(key, Leaf(two)));
    assert [section][1..] == [];
    assert [file, env][1..] == [env] && [env][1..] == [];
    assert Merge(EMPTY, file) == file;
    MergeSingle(section, Leaf(one), Single(key, Leaf(two)));
    assert Layer(EMPTY, [file, env]) == Layer(file, [env]) == Layer(Merge(file, env), []) == env;
    HighestSnoc(None, [], file, [section]);
    HighestSnoc(None, [file], env, [section]);
    assert [] + [file] == [file] && [file] + [env] == [file, env];
  }
}
