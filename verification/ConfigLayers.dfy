/** Config layering: path writes into a nested object, deep merge, and precedence of the sources. */
module ConfigLayers {
  import opened Options

  /** `undefined`, a value that is not a plain object (arrays and null included), or a plain object. */
  datatype Conf = Undef | Leaf(value: string) | Node(fields: map<string, Conf>)

  type Obj = c: Conf | c.Node? witness Node(map[])

  type Path = seq<string>

  const EMPTY: Obj := Node(map[])

  /** The leaf at a path. */
  function Get(c: Conf, p: Path): Option<string> {
    match c
    case Undef => None
    case Leaf(v) => if p == [] then Some(v) else None
    case Node(fs) => if p != [] && p[0] in fs then Get(fs[p[0]], p[1..]) else None
  }

  /** Everything at a path; `Undef` where nothing is. */
  function Lookup(c: Conf, p: Path): Conf {
    if p == [] then c
    else if c.Node? && p[0] in c.fields then Lookup(c.fields[p[0]], p[1..])
    else Undef
  }

  // ---- Path writes ----

  function Put(t: Obj, k: string, v: Conf): Obj { Node(t.fields[k := v]) }

  /** The object under a key; an empty one where no object is. */
  function Child(t: Obj, k: string): Obj {
    if k in t.fields && t.fields[k].Node? then t.fields[k] else EMPTY
  }

  /** `setPath(target, path, value)`: what is in the way and is not an object is replaced by one. */
  function SetPath(target: Obj, p: Path, v: Conf): Obj
    requires p != []
    decreases p
  {
    Put(target, p[0], if |p| == 1 then v else SetPath(Child(target, p[0]), p[1..], v))
  }

  lemma PutPut(t: Obj, k: string, x: Conf, y: Conf)
    ensures Put(Put(t, k, x), k, y) == Put(t, k, y)
  {
    assert t.fields[k := x][k := y] == t.fields[k := y];
  }

  lemma PutsCommute(t: Obj, j: string, x: Conf, k: string, y: Conf)
    requires j != k
    ensures Put(Put(t, j, x), k, y) == Put(Put(t, k, y), j, x)
  {
    assert t.fields[j := x][k := y] == t.fields[k := y][j := x];
  }

  /** Neither path is a prefix of the other. */
  predicate Apart(p: Path, q: Path) {
    p != [] && q != [] && (p[0] != q[0] || Apart(p[1..], q[1..]))
  }

  lemma {:induction false} ApartSymmetric(p: Path, q: Path)
    ensures Apart(p, q) <==> Apart(q, p)
    ensures Apart(p, q) <==> !(p <= q) && !(q <= p)
  {
    if p != [] && q != [] {
      ApartSymmetric(p[1..], q[1..]);
      assert p == [p[0]] + p[1..] && q == [q[0]] + q[1..];
      if p[0] == q[0] {
        if p[1..] <= q[1..] { assert p <= q; }
        if q[1..] <= p[1..] { assert q <= p; }
        if p <= q { assert p[1..] <= q[1..]; }
        if q <= p { assert q[1..] <= p[1..]; }
      }
    }
  }

  lemma {:induction false} SetThenGet(t: Obj, p: Path, v: Conf)
    requires p != []
    ensures Lookup(SetPath(t, p, v), p) == v
    decreases p
  {
    if |p| > 1 { SetThenGet(Child(t, p[0]), p[1..], v); }
  }

  lemma {:induction false} SetLeavesOthers(t: Obj, p: Path, q: Path, v: Conf)
    requires Apart(p, q)
    ensures Lookup(SetPath(t, p, v), q) == Lookup(t, q)
    decreases p
  {
    if p[0] == q[0] { SetLeavesOthers(Child(t, p[0]), p[1..], q[1..], v); }
  }

  lemma {:induction false} SetOverwrites(t: Obj, p: Path, v: Conf, w: Conf)
    requires p != []
    ensures SetPath(SetPath(t, p, v), p, w) == SetPath(t, p, w)
    decreases p
  {
    if |p| == 1 {
      PutPut(t, p[0], v, w);
    } else {
      var x := SetPath(Child(t, p[0]), p[1..], v);
      SetOverwrites(Child(t, p[0]), p[1..], v, w);
      PutPut(t, p[0], x, SetPath(x, p[1..], w));
    }
  }

  /** Writes to paths that are apart commute. */
  lemma {:induction false} SetsCommute(t: Obj, p: Path, v: Conf, q: Path, w: Conf)
    requires Apart(p, q)
    ensures SetPath(SetPath(t, p, v), q, w) == SetPath(SetPath(t, q, w), p, v)
    decreases p
  {
    if p[0] == q[0] {
      var k, c := p[0], Child(t, p[0]);
      var x, y := SetPath(c, p[1..], v), SetPath(c, q[1..], w);
      SetsCommute(c, p[1..], v, q[1..], w);
      PutPut(t, k, x, SetPath(x, q[1..], w));
      PutPut(t, k, y, SetPath(y, p[1..], v));
    } else {
      SetsUnderOtherKeys(t, p, v, q, w);
    }
  }

  lemma SetsUnderOtherKeys(t: Obj, p: Path, v: Conf, q: Path, w: Conf)
    requires p != [] && q != [] && p[0] != q[0]
    ensures SetPath(SetPath(t, p, v), q, w) == SetPath(SetPath(t, q, w), p, v)
  {
    var x := if |p| == 1 then v else SetPath(Child(t, p[0]), p[1..], v);
    var y := if |q| == 1 then w else SetPath(Child(t, q[0]), q[1..], w);
    PutsCommute(t, p[0], x, q[0], y);
    assert Child(Put(t, p[0], x), q[0]) == Child(t, q[0]) && Child(Put(t, q[0], y), p[0]) == Child(t, p[0]);
  }

  // ---- The environment overlay ----

  datatype Write = Write(path: Path, value: Conf)

  function Apply(t: Obj, ws: seq<Write>): Obj
    requires forall i | 0 <= i < |ws| :: ws[i].path != []
    decreases ws
  {
    if ws == [] then t else Apply(SetPath(t, ws[0].path, ws[0].value), ws[1..])
  }

  ghost predicate AllApart(ws: seq<Write>) {
    && (forall i | 0 <= i < |ws| :: ws[i].path != [])
    && forall i, j | 0 <= i < j < |ws| :: Apart(ws[i].path, ws[j].path)
  }

  function MoveToFront(ws: seq<Write>, j: nat): seq<Write>
    requires j < |ws|
  {
    [ws[j]] + ws[..j] + ws[j + 1..]
  }

  lemma MoveToFrontIs(ws: seq<Write>, j: nat)
    requires j < |ws|
    ensures MoveToFront(ws, j) == [ws[j]] + (ws[..j] + ws[j + 1..])
  {
  }

  lemma MoveToFrontApart(ws: seq<Write>, j: nat)
    requires AllApart(ws) && j < |ws|
    ensures AllApart(MoveToFront(ws, j))
  {
    var m := MoveToFront(ws, j);
    forall a, b | 0 <= a < b < |m| ensures Apart(m[a].path, m[b].path) {
      if a == 0 && b <= j { ApartSymmetric(ws[b - 1].path, ws[j].path); }
    }
  }

  lemma MoveToFrontTail(ws: seq<Write>, j: nat)
    requires 0 < j < |ws|
    ensures MoveToFront(ws[1..], j - 1)[0] == ws[j]
    ensures MoveToFront(ws, j) == [ws[j], ws[0]] + MoveToFront(ws[1..], j - 1)[1..]
  {
    assert ws[1..][..j - 1] == ws[1..j] && ws[1..][j..] == ws[j + 1..];
  }

  lemma {:induction false} MoveToFrontSame(t: Obj, ws: seq<Write>, j: nat)
    requires AllApart(ws) && j < |ws|
    ensures AllApart(MoveToFront(ws, j)) && Apply(t, MoveToFront(ws, j)) == Apply(t, ws)
    decreases j
  {
    MoveToFrontApart(ws, j);
    if j == 0 {
      assert MoveToFront(ws, j) == ws;
    } else {
      var rest := MoveToFront(ws[1..], j - 1);
      MoveToFrontSame(SetPath(t, ws[0].path, ws[0].value), ws[1..], j - 1);
      MoveToFrontTail(ws, j);
      SetsCommute(t, ws[0].path, ws[0].value, ws[j].path, ws[j].value);
    }
  }

  lemma RemoveFirst(ws: seq<Write>, xs: seq<Write>) returns (j: nat)
    requires ws != [] && multiset(ws) == multiset(xs)
    ensures j < |xs| && xs[j] == ws[0]
    ensures multiset(xs[..j] + xs[j + 1..]) == multiset(ws[1..])
  {
    assert ws[0] in multiset(xs);
    j :| 0 <= j < |xs| && xs[j] == ws[0];
    assert xs == xs[..j] + [xs[j]] + xs[j + 1..];
    assert ws == [ws[0]] + ws[1..];
    assert multiset(xs[..j] + xs[j + 1..]) == multiset(xs) - multiset{xs[j]};
    assert multiset(ws[1..]) == multiset(ws) - multiset{ws[0]};
  }

  /** The order of writes to paths that are apart does not matter. */
  lemma {:induction false} OrderOfWritesIrrelevant(t: Obj, ws: seq<Write>, xs: seq<Write>)
    requires AllApart(ws) && multiset(ws) == multiset(xs)
    ensures AllApart(xs) && Apply(t, ws) == Apply(t, xs)
    decreases |ws|
  {
    if ws == [] {
      assert |multiset(xs)| == 0;
    } else {
      var j := RemoveFirst(ws, xs);
      var rest := xs[..j] + xs[j + 1..];
      OrderOfWritesIrrelevant(SetPath(t, ws[0].path, ws[0].value), ws[1..], rest);
      Reinsert(ws, xs, j);
      MoveToFrontSame(t, xs, j);
      ApplyOne(t, ws[0], rest);
      MoveToFrontIs(xs, j);
    }
  }

  lemma ApplyOne(t: Obj, x: Write, ws: seq<Write>)
    requires x.path != [] && forall i | 0 <= i < |ws| :: ws[i].path != []
    ensures Apply(t, [x] + ws) == Apply(SetPath(t, x.path, x.value), ws)
  {
    assert ([x] + ws)[1..] == ws;
  }

  lemma Reinsert(ws: seq<Write>, xs: seq<Write>, j: nat)
    requires ws != [] && j < |xs| && xs[j] == ws[0] && AllApart(ws)
    requires multiset(xs[..j] + xs[j + 1..]) == multiset(ws[1..]) && AllApart(xs[..j] + xs[j + 1..])
    ensures AllApart(xs)
  {
    var rest := xs[..j] + xs[j + 1..];
    forall i | 0 <= i < |rest| ensures Apart(ws[0].path, rest[i].path) && Apart(rest[i].path, ws[0].path) {
      assert rest[i] in multiset(ws[1..]);
      var k :| 0 <= k < |ws[1..]| && ws[1..][k] == rest[i];
      assert ws[k + 1] == rest[i];
      ApartSymmetric(ws[0].path, rest[i].path);
    }
    forall a, b | 0 <= a < b < |xs| ensures Apart(xs[a].path, xs[b].path) {
      if a == j { assert rest[b - 1] == xs[b]; }
      else if b == j { assert rest[a] == xs[a]; }
      else { assert rest[if a < j then a else a - 1] == xs[a] && rest[if b < j then b else b - 1] == xs[b]; }
    }
    forall i | 0 <= i < |xs| ensures xs[i].path != [] {
      if i != j { assert rest[if i < j then i else i - 1] == xs[i]; }
    }
  }

  // ---- Deep merge ----

  function Merge(base: Obj, overlay: Obj): Obj
    decreases overlay
  {
    var b, o := base.fields, overlay.fields;
    Node(map k | k in b.Keys + o.Keys && (k in b || o[k] != Undef) ::
           if k !in o || o[k] == Undef then b[k]
           else if k in b && b[k].Node? && o[k].Node? then Merge(b[k], o[k])
           else o[k])
  }

  /** `deepMerge`: a copy of the base, then every defined overlay entry. */
  method DeepMerge(base: Obj, overlay: Obj) returns (out: Obj)
    ensures out == Merge(base, overlay)
    decreases overlay
  {
    var fields := base.fields;
    var todo := overlay.fields.Keys;
    while todo != {}
      invariant todo <= overlay.fields.Keys
      invariant fields ==
                map k | k in base.fields.Keys + Merge(base, overlay).fields.Keys && (k in base.fields || k !in todo) ::
                  if k in todo || k !in overlay.fields then base.fields[k] else Merge(base, overlay).fields[k]
      decreases todo
    {
      var k :| k in todo;
      todo := todo - {k};
      var v := overlay.fields[k];
      if v == Undef { continue; }
      if k in fields && fields[k].Node? && v.Node? {
        var merged := DeepMerge(fields[k], v);
        fields := fields[k := merged];
      } else {
        fields := fields[k := v];
      }
    }
    out := Node(fields);
    assert fields == Merge(base, overlay).fields;
  }

  predicate NoLeaf(c: Conf) {
    match c
    case Undef => true
    case Leaf(_) => false
    case Node(fs) => forall k | k in fs :: NoLeaf(fs[k])
  }

  /** No path is an object in the overlay and a leaf in the base, or a leaf in the overlay and an
      object that holds a leaf in the base. */
  predicate Compatible(base: Obj, overlay: Obj)
    decreases overlay
  {
    forall k | k in base.fields && k in overlay.fields ::
      var x, y := base.fields[k], overlay.fields[k];
      (x.Node? && y.Node? ==> Compatible(x, y)) && !(x.Leaf? && y.Node?) && (x.Node? && y.Leaf? ==> NoLeaf(x))
  }

  function Over(high: Option<string>, low: Option<string>): Option<string> {
    if high.Some? then high else low
  }

  /** At every path the overlay's leaf wins, and the base's leaf shows where the overlay has none. */
  ghost predicate OverlayLaw(base: Obj, overlay: Obj) {
    forall p :: Get(Merge(base, overlay), p) == Over(Get(overlay, p), Get(base, p))
  }

  lemma {:induction false} NoLeafGet(c: Conf, p: Path)
    requires NoLeaf(c)
    ensures Get(c, p) == None
    decreases p
  {
    if c.Node? && p != [] && p[0] in c.fields { NoLeafGet(c.fields[p[0]], p[1..]); }
  }

  lemma {:induction false} LeafExists(c: Conf) returns (p: Path)
    requires !NoLeaf(c)
    ensures Get(c, p).Some?
  {
    if c.Leaf? {
      p := [];
    } else {
      var k :| k in c.fields && !NoLeaf(c.fields[k]);
      var q := LeafExists(c.fields[k]);
      p := [k] + q;
      assert p[1..] == q;
    }
  }

  lemma {:induction false} MergeGet(base: Obj, overlay: Obj, p: Path)
    requires Compatible(base, overlay)
    ensures Get(Merge(base, overlay), p) == Over(Get(overlay, p), Get(base, p))
    decreases p
  {
    if p != [] {
      var k, b, o := p[0], base.fields, overlay.fields;
      if k in b && k in o {
        if b[k].Node? && o[k].Node? {
          MergeGet(b[k], o[k], p[1..]);
        } else if b[k].Node? && o[k].Leaf? {
          NoLeafGet(b[k], p[1..]);
        }
      }
    }
  }

  lemma {:induction false} ClashPath(base: Obj, overlay: Obj) returns (p: Path)
    requires !Compatible(base, overlay)
    ensures Get(Merge(base, overlay), p) != Over(Get(overlay, p), Get(base, p))
    decreases overlay
  {
    var k :| k in base.fields && k in overlay.fields &&
             var x, y := base.fields[k], overlay.fields[k];
             !((x.Node? && y.Node? ==> Compatible(x, y)) && !(x.Leaf? && y.Node?)
               && (x.Node? && y.Leaf? ==> NoLeaf(x)));
    var x, y := base.fields[k], overlay.fields[k];
    var q: Path := [];
    if x.Node? && y.Node? {
      q := ClashPath(x, y);
    } else if x.Node? {
      q := LeafExists(x);
    }
    p := [k] + q;
    assert p[1..] == q;
  }

  /** Exactly when the merge layers its sources: iff no path is an object in one and a leaf in the other. */
  lemma MergeLayersIffCompatible(base: Obj, overlay: Obj)
    ensures OverlayLaw(base, overlay) <==> Compatible(base, overlay)
  {
    if Compatible(base, overlay) {
      forall p ensures Get(Merge(base, overlay), p) == Over(Get(overlay, p), Get(base, p)) {
        MergeGet(base, overlay, p);
      }
    } else {
      var p := ClashPath(base, overlay);
    }
  }

  function Single(k: string, v: Conf): Obj { Node(map[k := v]) }

  lemma MergeSingle(k: string, v: Conf, w: Conf)
    requires w != Undef
    ensures Merge(Single(k, v), Single(k, w)) == Single(k, if v.Node? && w.Node? then Merge(v, w) else w)
  {
  }

  // ---- When the grouping of merges matters ----

  /** `overlay` says everything that `base` says, so that merging the base below it adds nothing; and
      the merge drops no `undefined` of the overlay. */
  predicate Absorbs(overlay: Obj, base: Obj)
    decreases overlay
  {
    var b, o := base.fields, overlay.fields;
    && (forall k | k in b :: k in o && (b[k].Node? && o[k].Node? ==> Absorbs(o[k], b[k])))
    && forall k | k in o && o[k] == Undef :: k in b && b[k] == Undef
  }

  lemma {:induction false} MergeIsOverlayIff(base: Obj, overlay: Obj)
    ensures Merge(base, overlay) == overlay <==> Absorbs(overlay, base)
    decreases overlay
  {
    var m, b, o := Merge(base, overlay).fields, base.fields, overlay.fields;
    forall k | k in b && k in o && b[k].Node? && o[k].Node? ensures m[k] == o[k] <==> Absorbs(o[k], b[k]) {
      MergeIsOverlayIff(b[k], o[k]);
    }
    if Absorbs(overlay, base) {
      assert m == o;
    }
  }

  /** All three sources have the key, and the outer two an object under it. */
  predicate Parted(a: Obj, b: Obj, c: Obj, k: string) {
    k in a.fields && k in b.fields && k in c.fields && a.fields[k].Node? && c.fields[k].Node?
  }

  /** At every path that is an object in both outer sources: the middle one is no leaf there, or the
      last one absorbs the first. */
  predicate Groupable(a: Obj, b: Obj, c: Obj)
    decreases c
  {
    forall k | k in a.fields && Parted(a, b, c, k) ::
      var x, y, z := a.fields[k], b.fields[k], c.fields[k];
      (y.Node? ==> Groupable(x, y, z)) && (y.Leaf? ==> Absorbs(z, x))
  }

  /** One key of the two groupings. */
  lemma {:induction false} GroupingAt(a: Obj, b: Obj, c: Obj, k: string)
    requires Parted(a, b, c, k)
    ensures
      var x, y, z := a.fields[k], b.fields[k], c.fields[k];
      var l, r := Merge(Merge(a, b), c).fields, Merge(a, Merge(b, c)).fields;
      && k in l && k in r
      && l[k] == (if y.Node? then Merge(Merge(x, y), z) else if y.Leaf? then z else Merge(x, z))
      && r[k] == (if y.Node? then Merge(x, Merge(y, z)) else Merge(x, z))
  {
    assert k in Merge(a, b).fields && k in Merge(b, c).fields;
  }

  /** Exact: the two groupings give one object iff no leaf of the middle source parts objects of the
      outer ones that the last source does not absorb. */
  lemma {:induction false} MergeAssociativeIff(a: Obj, b: Obj, c: Obj)
    ensures Merge(Merge(a, b), c) == Merge(a, Merge(b, c)) <==> Groupable(a, b, c)
    decreases c, 1
  {
    var l, r := Merge(Merge(a, b), c).fields, Merge(a, Merge(b, c)).fields;
    GroupingKeys(a, b, c);
    if Groupable(a, b, c) {
      forall k | k in l ensures l[k] == r[k] {
        if Parted(a, b, c, k) { GroupingUnder(a, b, c, k); } else { GroupingElsewhere(a, b, c, k); }
      }
      assert l == r;
    } else {
      var k :| Parted(a, b, c, k) && !GroupableUnder(a, b, c, k);
      GroupingUnder(a, b, c, k);
    }
  }

  predicate GroupableUnder(a: Obj, b: Obj, c: Obj, k: string)
    requires Parted(a, b, c, k)
  {
    var x, y, z := a.fields[k], b.fields[k], c.fields[k];
    (y.Node? ==> Groupable(x, y, z)) && (y.Leaf? ==> Absorbs(z, x))
  }

  lemma {:induction false} GroupingUnder(a: Obj, b: Obj, c: Obj, k: string)
    requires Parted(a, b, c, k)
    ensures
      var l, r := Merge(Merge(a, b), c).fields, Merge(a, Merge(b, c)).fields;
      k in l && k in r && (l[k] == r[k] <==> GroupableUnder(a, b, c, k))
    decreases c, 0
  {
    GroupingAt(a, b, c, k);
    MergeIsOverlayIff(a.fields[k], c.fields[k]);
    if b.fields[k].Node? { MergeAssociativeIff(a.fields[k], b.fields[k], c.fields[k]); }
  }

  lemma {:induction false} GroupingKeys(a: Obj, b: Obj, c: Obj)
    ensures Merge(Merge(a, b), c).fields.Keys == Merge(a, Merge(b, c)).fields.Keys
  {
  }

  /** Every other key has one value in both groupings. */
  lemma {:induction false} GroupingElsewhere(a: Obj, b: Obj, c: Obj, k: string)
    requires k in Merge(Merge(a, b), c).fields && !Parted(a, b, c, k)
    ensures k in Merge(a, Merge(b, c)).fields
    ensures Merge(Merge(a, b), c).fields[k] == Merge(a, Merge(b, c)).fields[k]
  {
  }

  /** Sources that are compatible merge in any grouping. */
  lemma {:induction false} CompatibleGroupable(a: Obj, b: Obj, c: Obj)
    requires Compatible(b, c)
    ensures Groupable(a, b, c)
    decreases c
  {
    forall k | Parted(a, b, c, k) && b.fields[k].Node?
      ensures Groupable(a.fields[k], b.fields[k], c.fields[k])
    {
      CompatibleGroupable(a.fields[k], b.fields[k], c.fields[k]);
    }
  }

  lemma CompatibleMergeAssociative(a: Obj, b: Obj, c: Obj)
    requires Compatible(b, c)
    ensures Merge(Merge(a, b), c) == Merge(a, Merge(b, c))
  {
    CompatibleGroupable(a, b, c);
    MergeAssociativeIff(a, b, c);
  }

  /** An instance: `{x: {p}}`, `{x: leaf}` and `{x: {q}}`. */
  lemma MergeNotAssociative(x: string, p: string, q: string, one: string, two: string, three: string)
    requires p != q
    ensures
      var a, b, c := Single(x, Single(p, Leaf(one))), Single(x, Leaf(two)), Single(x, Single(q, Leaf(three)));
      Get(Merge(Merge(a, b), c), [x, p]) == None && Get(Merge(a, Merge(b, c)), [x, p]) == Some(one)
  {
    MergeSingle(x, Single(p, Leaf(one)), Leaf(two));
    MergeSingle(x, Leaf(two), Single(q, Leaf(three)));
    MergeSingle(x, Single(p, Leaf(one)), Single(q, Leaf(three)));
    assert [x, p][1..] == [p] && [p][1..] == [];
    var m := Merge(Single(p, Leaf(one)), Single(q, Leaf(three)));
    assert m.fields[p] == Leaf(one);
    assert Get(Single(x, m), [x, p]) == Get(m, [p]) == Get(Leaf(one), []);
    assert Get(Single(x, Single(q, Leaf(three))), [x, p]) == Get(Single(q, Leaf(three)), [p]);
  }
}
