/** `canonicalJson(v) = JSON.stringify(sortDeep(v))` determines `v` up to key order. */
module CanonicalText {
  import opened Utf16
  import opened CanonicalJson
  import JsonText

  function TextOf(v: Json): Text { JsonText.Print(Canon(v)) }

  /** Equal up to the order of object keys, at every depth; members with a hidden key are ignored. */
  ghost predicate Same(a: Json, b: Json, hidden: set<Text>) {
    match (a, b)
    case (Arr(x), Arr(y)) => |x| == |y| && forall i | 0 <= i < |x| :: Same(x[i], y[i], hidden)
    case (Obj(m), Obj(n)) =>
      && Keys(m) - hidden == Keys(n) - hidden
      && forall i, j | 0 <= i < |m| && 0 <= j < |n| && m[i].key == n[j].key && m[i].key !in hidden ::
           Same(m[i].val, n[j].val, hidden)
    case _ => a == b
  }

  ghost function Keys(ms: seq<Member>): set<Text> {
    set i | 0 <= i < |ms| :: ms[i].key
  }

  /** No object inside `v` has the key. */
  ghost predicate Lacks(v: Json, key: Text) {
    match v
    case Arr(items) => forall i | 0 <= i < |items| :: Lacks(items[i], key)
    case Obj(ms) => forall i | 0 <= i < |ms| :: ms[i].key != key && Lacks(ms[i].val, key)
    case _ => true
  }

  lemma {:induction false} CanonWellFormed(v: Json)
    requires WellFormed(v)
    ensures WellFormed(Canon(v))
  {
    match v
    case Arr(items) =>
      forall i | 0 <= i < |items| ensures WellFormed(Canon(v).items[i]) {
        CanonWellFormed(items[i]);
      }
    case Obj(ms) =>
      var c := SortMembers(CanonMembers(ms));
      CanonMembersDistinct(ms);
      SortMembersSorted(CanonMembers(ms));
      SortedDistinct(c);
      forall i | 0 <= i < |c| ensures WellFormed(c[i].val) {
        var j := CanonSource(ms, c[i]);
        CanonWellFormed(ms[j].val);
      }
    case _ =>
  }

  lemma SortedDistinct(ms: seq<Member>)
    requires Sorted(ms)
    ensures DistinctKeys(ms)
  {
    forall i, j | 0 <= i < j < |ms| ensures ms[i].key != ms[j].key {
      KeyLessTotal(ms[i].key, ms[j].key);
    }
  }

  /** A member of a canonical object comes from a visible member of the source. */
  lemma CanonSource(ms: seq<Member>, x: Member) returns (i: nat)
    requires x in SortMembers(CanonMembers(ms))
    ensures i < |ms| && ms[i].key != PROTO && x == Member(ms[i].key, Canon(ms[i].val))
  {
    SortMembersElements(CanonMembers(ms));
    CanonMembersElements(ms);
    i :| 0 <= i < |ms| && ms[i].key != PROTO && x == Member(ms[i].key, Canon(ms[i].val));
  }

  lemma CanonTarget(ms: seq<Member>, i: nat)
    requires i < |ms| && ms[i].key != PROTO
    ensures Member(ms[i].key, Canon(ms[i].val)) in SortMembers(CanonMembers(ms))
  {
    SortMembersElements(CanonMembers(ms));
    CanonMembersElements(ms);
  }

  lemma {:induction false} CanonEqualSame(a: Json, b: Json)
    requires WellFormed(a) && WellFormed(b) && Canon(a) == Canon(b)
    ensures Same(a, b, {PROTO})
    decreases a, 1
  {
    if a.Arr? {
      assert |Canon(a).items| == |a.items| && |Canon(b).items| == |b.items|;
      forall i | 0 <= i < |a.items| ensures Same(a.items[i], b.items[i], {PROTO}) {
        assert Canon(a).items[i] == Canon(a.items[i]) && Canon(b).items[i] == Canon(b.items[i]);
        CanonEqualSame(a.items[i], b.items[i]);
      }
    } else if a.Obj? {
      CanonEqualSameMembers(a.members, b.members);
    }
  }

  lemma {:induction false} CanonEqualSameMembers(m: seq<Member>, n: seq<Member>)
    requires WellFormed(Obj(m)) && WellFormed(Obj(n))
    requires SortMembers(CanonMembers(m)) == SortMembers(CanonMembers(n))
    ensures Same(Obj(m), Obj(n), {PROTO})
    decreases m, 0
  {
    forall i, j | 0 <= i < |m| && 0 <= j < |n| && m[i].key == n[j].key && m[i].key !in {PROTO}
      ensures Same(m[i].val, n[j].val, {PROTO})
    {
      CanonTarget(m, i);
      var p := CanonSource(n, Member(m[i].key, Canon(m[i].val)));
      assert p == j;
      CanonEqualSame(m[i].val, n[j].val);
    }
    forall i | 0 <= i < |m| && m[i].key != PROTO ensures m[i].key in Keys(n) {
      CanonTarget(m, i);
      var p := CanonSource(n, Member(m[i].key, Canon(m[i].val)));
    }
    forall j | 0 <= j < |n| && n[j].key != PROTO ensures n[j].key in Keys(m) {
      CanonTarget(n, j);
      var p := CanonSource(m, Member(n[j].key, Canon(n[j].val)));
    }
  }

  lemma {:induction false} SameCanonEqual(a: Json, b: Json)
    requires WellFormed(a) && WellFormed(b) && Same(a, b, {PROTO})
    ensures Canon(a) == Canon(b)
    decreases a, 1
  {
    if a.Arr? {
      forall i | 0 <= i < |a.items| ensures Canon(a).items[i] == Canon(b).items[i] {
        SameCanonEqual(a.items[i], b.items[i]);
      }
      assert Canon(a).items == Canon(b).items;
    } else if a.Obj? {
      SameMembersCanonEqual(a.members, b.members);
    }
  }

  lemma {:induction false} SameMembersCanonEqual(m: seq<Member>, n: seq<Member>)
    requires WellFormed(Obj(m)) && WellFormed(Obj(n)) && Same(Obj(m), Obj(n), {PROTO})
    ensures SortMembers(CanonMembers(m)) == SortMembers(CanonMembers(n))
    decreases m, 0
  {
    var c, d := SortMembers(CanonMembers(m)), SortMembers(CanonMembers(n));
    forall x | x in c ensures x in d {
      var i := CanonSource(m, x);
      assert m[i].key in Keys(m) - {PROTO};
      var j :| 0 <= j < |n| && n[j].key == m[i].key;
      SameCanonEqual(m[i].val, n[j].val);
      CanonTarget(n, j);
    }
    forall x | x in d ensures x in c {
      var j := CanonSource(n, x);
      assert n[j].key in Keys(n) - {PROTO};
      var i :| 0 <= i < |m| && m[i].key == n[j].key;
      SameCanonEqual(m[i].val, n[j].val);
      CanonTarget(m, i);
    }
    CanonMembersDistinct(m);
    CanonMembersDistinct(n);
    SortMembersSorted(CanonMembers(m));
    SortMembersSorted(CanonMembers(n));
    SortedUnique(c, d);
  }

  /** Main result, exact: equal texts mean equal values up to key order and `__proto__` members. */
  lemma TextDeterminesValue(a: Json, b: Json)
    requires WellFormed(a) && WellFormed(b)
    ensures TextOf(a) == TextOf(b) <==> Same(a, b, {PROTO})
  {
    if TextOf(a) == TextOf(b) {
      CanonWellFormed(a);
      CanonWellFormed(b);
      JsonText.PrintSplit(Canon(a), Canon(b), [], []);
      CanonEqualSame(a, b);
    }
    if Same(a, b, {PROTO}) {
      SameCanonEqual(a, b);
    }
  }

  /** Hiding a key that neither value has changes nothing. */
  lemma {:induction false} LackingHidesNothing(a: Json, b: Json, h: set<Text>, k: set<Text>)
    requires forall x | x in h || x in k :: Lacks(a, x) && Lacks(b, x)
    requires Same(a, b, h)
    ensures Same(a, b, k)
  {
    if a.Arr? {
      forall i | 0 <= i < |a.items| ensures Same(a.items[i], b.items[i], k) {
        LackingHidesNothing(a.items[i], b.items[i], h, k);
      }
    } else if a.Obj? {
      var m, n := a.members, b.members;
      assert Keys(m) - h == Keys(m) == Keys(m) - k && Keys(n) - h == Keys(n) == Keys(n) - k;
      forall i, j | 0 <= i < |m| && 0 <= j < |n| && m[i].key == n[j].key
        ensures Same(m[i].val, n[j].val, k)
      {
        assert m[i].key !in h;
        LackingHidesNothing(m[i].val, n[j].val, h, k);
      }
    }
  }

  /** On values without a `__proto__` key the text is injective up to key order. */
  lemma TextInjective(a: Json, b: Json)
    requires WellFormed(a) && WellFormed(b) && Lacks(a, PROTO) && Lacks(b, PROTO)
    ensures TextOf(a) == TextOf(b) <==> Same(a, b, {})
  {
    TextDeterminesValue(a, b);
    if Same(a, b, {PROTO}) { LackingHidesNothing(a, b, {PROTO}, {}); }
    if Same(a, b, {}) { LackingHidesNothing(a, b, {}, {PROTO}); }
  }

  /** With such a key it is not: `{"__proto__": null}` and `{}` have one text. */
  lemma ProtoMemberIsLost()
    ensures
      var a, b := Obj([Member(PROTO, Null)]), Obj([]);
      WellFormed(a) && WellFormed(b) && TextOf(a) == TextOf(b) && !Same(a, b, {})
  {
    assert CanonMembers([Member(PROTO, Null)]) == [];
    var ms := [Member(PROTO, Null)];
    assert ms[0].key in Keys(ms) - {};
    assert PROTO !in Keys([]);
  }

}
