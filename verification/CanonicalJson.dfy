/** Canonical JSON: the key-sorted text that is hashed for the audit chain.
    A JSON object is the sequence of its own members in enumeration order. */
module CanonicalJson {
  import opened Sequences
  import opened Utf16

  /** A JSON value. A number is identified with its JavaScript text. */
  datatype Json =
    | Null
    | Bool(b: bool)
    | Num(literal: Text)
    | Str(s: Text)
    | Arr(items: seq<Json>)
    | Obj(members: seq<Member>)

  datatype Member = Member(key: Text, val: Json)

  /** The key whose assignment goes to the prototype setter, never to an own property. */
  const PROTO: Text := U("__proto__")

  // ---- Well-formed values ----

  predicate NumberUnit(u: CodeUnit) {
    IsDigit(u) || u == '-' as int || u == '+' as int || u == '.' as int || u == 'e' as int
  }

  predicate NumberText(t: Text) {
    && t != []
    && (IsDigit(t[0]) || t[0] == '-' as int)
    && forall i | 0 <= i < |t| :: NumberUnit(t[i])
  }

  ghost predicate DistinctKeys(ms: seq<Member>) {
    forall i, j | 0 <= i < j < |ms| :: ms[i].key != ms[j].key
  }

  ghost predicate WellFormed(v: Json) {
    match v
    case Num(t) => NumberText(t)
    case Arr(items) => forall i | 0 <= i < |items| :: WellFormed(items[i])
    case Obj(ms) => DistinctKeys(ms) && forall i | 0 <= i < |ms| :: WellFormed(ms[i].val)
    case _ => true
  }

  // ---- Order of an object's own string keys ----

  /** An array index (ECMA-262, section 6.1.7): canonical decimal below 2^32 - 1. */
  predicate IsIndex(k: Text) {
    k != [] && AllDigits(k) && Decimal(DecimalValue(k)) == k && DecimalValue(k) < 0xFFFF_FFFF
  }

  /** Order of the own keys of an object whose string keys were added in sorted order:
      array indices first, by value, then the other keys by code units. */
  predicate KeyLess(a: Text, b: Text) {
    if IsIndex(a) && IsIndex(b) then DecimalValue(a) < DecimalValue(b)
    else if IsIndex(a) != IsIndex(b) then IsIndex(a)
    else Less(a, b)
  }

  lemma KeyLessTotal(a: Text, b: Text)
    ensures !KeyLess(a, a)
    ensures KeyLess(a, b) ==> !KeyLess(b, a)
    ensures KeyLess(a, b) || a == b || KeyLess(b, a)
  {
    LessTotal(a, b);
  }

  lemma KeyLessTransitive(a: Text, b: Text, c: Text)
    requires KeyLess(a, b) && KeyLess(b, c)
    ensures KeyLess(a, c)
  {
    if !IsIndex(a) && !IsIndex(b) && !IsIndex(c) {
      LessTransitive(a, b, c);
    }
  }

  // ---- Members sorted by key ----

  ghost predicate Sorted(ms: seq<Member>) {
    forall i, j | 0 <= i < j < |ms| :: KeyLess(ms[i].key, ms[j].key)
  }

  function Insert(m: Member, ms: seq<Member>): seq<Member> {
    if ms == [] || KeyLess(m.key, ms[0].key) then [m] + ms else [ms[0]] + Insert(m, ms[1..])
  }

  function SortMembers(ms: seq<Member>): seq<Member> {
    if ms == [] then [] else Insert(ms[0], SortMembers(ms[1..]))
  }

  lemma {:induction false} InsertElements(m: Member, ms: seq<Member>)
    ensures forall x :: x in Insert(m, ms) <==> x == m || x in ms
  {
    if ms != [] && !KeyLess(m.key, ms[0].key) {
      InsertElements(m, ms[1..]);
      assert ms == [ms[0]] + ms[1..];
    }
  }

  lemma {:induction false} InsertSorted(m: Member, ms: seq<Member>)
    requires Sorted(ms)
    requires forall x | x in ms :: x.key != m.key
    ensures Sorted(Insert(m, ms))
  {
    if ms == [] {
    } else if KeyLess(m.key, ms[0].key) {
      forall j | 0 < j < |ms| ensures KeyLess(m.key, ms[j].key) {
        KeyLessTransitive(m.key, ms[0].key, ms[j].key);
      }
    } else {
      KeyLessTotal(m.key, ms[0].key);
      InsertSorted(m, ms[1..]);
      InsertElements(m, ms[1..]);
      var r := Insert(m, ms[1..]);
      forall j | 0 <= j < |r| ensures KeyLess(ms[0].key, r[j].key) {
        assert r[j] in r;
      }
    }
  }

  lemma {:induction false} SortMembersElements(ms: seq<Member>)
    ensures forall x :: x in SortMembers(ms) <==> x in ms
  {
    if ms != [] {
      SortMembersElements(ms[1..]);
      InsertElements(ms[0], SortMembers(ms[1..]));
      assert ms == [ms[0]] + ms[1..];
    }
  }

  lemma {:induction false} SortMembersSorted(ms: seq<Member>)
    requires DistinctKeys(ms)
    ensures Sorted(SortMembers(ms))
  {
    if ms != [] {
      SortMembersSorted(ms[1..]);
      SortMembersElements(ms[1..]);
      InsertSorted(ms[0], SortMembers(ms[1..]));
    }
  }

  /** A strictly sorted member list is determined by its set of members. */
  lemma {:induction false} SortedUnique(a: seq<Member>, b: seq<Member>)
    requires Sorted(a) && Sorted(b)
    requires forall m :: m in a <==> m in b
    ensures a == b
  {
    HeadIn(b);
    if a == [] {
    } else {
      assert a[0] in a;
      assert b != [];
      assert b[0] in b;
      if a[0] != b[0] {
        var i :| 0 <= i < |a| && a[i] == b[0];
        var j :| 0 <= j < |b| && b[j] == a[0];
        KeyLessTotal(a[0].key, b[0].key);
        assert false;
      }
      forall m ensures m in a[1..] <==> m in b[1..] {
        KeyLessTotal(a[0].key, a[0].key);
        assert m in a <==> m == a[0] || m in a[1..];
        assert m in b <==> m == b[0] || m in b[1..];
      }
      SortedUnique(a[1..], b[1..]);
    }
  }

  // ---- sortDeep ----

  /** The value `sortDeep` returns: members sorted at every depth, `__proto__` lost. */
  function Canon(v: Json): Json {
    match v
    case Arr(items) => Arr(seq(|items|, i requires 0 <= i < |items| => Canon(items[i])))
    case Obj(ms) => Obj(SortMembers(CanonMembers(ms)))
    case _ => v
  }

  function CanonMembers(ms: seq<Member>): seq<Member> {
    if ms == [] then []
    else
      (if ms[0].key == PROTO then [] else [Member(ms[0].key, Canon(ms[0].val))])
      + CanonMembers(ms[1..])
  }

  lemma {:induction false} CanonMembersElements(ms: seq<Member>)
    ensures forall x :: x in CanonMembers(ms) <==>
              exists i | 0 <= i < |ms| :: ms[i].key != PROTO && x == Member(ms[i].key, Canon(ms[i].val))
  {
    if ms != [] {
      CanonMembersElements(ms[1..]);
      var tail := CanonMembers(ms[1..]);
      forall x
        ensures x in CanonMembers(ms) <==>
                  exists i | 0 <= i < |ms| :: ms[i].key != PROTO && x == Member(ms[i].key, Canon(ms[i].val))
      {
        if x in tail {
          var i :| 0 <= i < |ms[1..]| && ms[1..][i].key != PROTO && x == Member(ms[1..][i].key, Canon(ms[1..][i].val));
          assert ms[i + 1] == ms[1..][i];
        }
        if i :| 0 <= i < |ms| && ms[i].key != PROTO && x == Member(ms[i].key, Canon(ms[i].val)) {
          if i > 0 { assert ms[1..][i - 1] == ms[i]; }
        }
      }
    }
  }

  lemma {:induction false} CanonMembersDistinct(ms: seq<Member>)
    requires DistinctKeys(ms)
    ensures DistinctKeys(CanonMembers(ms))
  {
    if ms != [] {
      CanonMembersDistinct(ms[1..]);
      CanonMembersElements(ms[1..]);
      var tail := CanonMembers(ms[1..]);
      forall j | 0 <= j < |tail| ensures tail[j].key != ms[0].key {
        assert tail[j] in tail;
        var i :| 0 <= i < |ms[1..]| && tail[j] == Member(ms[1..][i].key, Canon(ms[1..][i].val));
        assert ms[1..][i] == ms[i + 1];
      }
    }
  }

  /** An array index is the decimal of a number below 2^32 - 1. */
  lemma IndexExact(k: Text)
    ensures IsIndex(k) <==> exists n: nat :: n < 0xFFFF_FFFF && k == Decimal(n)
  {
    if n: nat :| n < 0xFFFF_FFFF && k == Decimal(n) { DecimalRoundTrip(n); }
  }

  /** The members of a canonical object: array indices first, by value, then by code units; of the source
      all are there but `__proto__`, each once. */
  lemma CanonOrdered(ms: seq<Member>, i: nat, j: nat)
    requires DistinctKeys(ms) && i < j < |Canon(Obj(ms)).members|
    ensures
      var a, b := Canon(Obj(ms)).members[i].key, Canon(Obj(ms)).members[j].key;
      && (IsIndex(b) ==> IsIndex(a) && DecimalValue(a) < DecimalValue(b))
      && (!IsIndex(a) ==> !IsIndex(b) && Less(a, b))
  {
    CanonMembersDistinct(ms);
    SortMembersSorted(CanonMembers(ms));
  }

  /** `out[key] = value` on a plain object. */
  function Assign(out: seq<Member>, m: Member): seq<Member> {
    if m.key == PROTO then out
    else if exists i | 0 <= i < |out| :: out[i].key == m.key then
      seq(|out|, i requires 0 <= i < |out| => if out[i].key == m.key then m else out[i])
    else if IsIndex(m.key) then InsertIndex(m, out)
    else out + [m]
  }

  /** A new array-index key goes among the indices, by value, before every other key. */
  function InsertIndex(m: Member, out: seq<Member>): seq<Member>
    requires IsIndex(m.key)
  {
    if out == [] || !IsIndex(out[0].key) || DecimalValue(m.key) < DecimalValue(out[0].key) then [m] + out
    else [out[0]] + InsertIndex(m, out[1..])
  }

  lemma {:induction false} InsertIndexElements(m: Member, out: seq<Member>)
    requires IsIndex(m.key)
    ensures forall x :: x in InsertIndex(m, out) <==> x == m || x in out
  {
    if out != [] && IsIndex(out[0].key) && DecimalValue(m.key) >= DecimalValue(out[0].key) {
      InsertIndexElements(m, out[1..]);
      assert out == [out[0]] + out[1..];
    }
  }

  lemma {:induction false} InsertIndexSorted(m: Member, out: seq<Member>)
    requires IsIndex(m.key) && Sorted(out)
    requires forall x | x in out :: x.key != m.key
    ensures Sorted(InsertIndex(m, out))
  {
    if out != [] {
      assert out[0] in out;
      KeyLessTotal(m.key, out[0].key);
      if KeyLess(m.key, out[0].key) {
        forall j | 0 < j < |out| ensures KeyLess(m.key, out[j].key) {
          KeyLessTransitive(m.key, out[0].key, out[j].key);
        }
      } else {
        InsertIndexSorted(m, out[1..]);
        InsertIndexElements(m, out[1..]);
        var r := InsertIndex(m, out[1..]);
        forall j | 0 <= j < |r| ensures KeyLess(out[0].key, r[j].key) {
          assert r[j] in r;
        }
      }
    }
  }

  /** Filling a fresh object in sorted key order keeps it sorted by own-key order. */
  lemma AssignSorted(out: seq<Member>, m: Member)
    requires Sorted(out) && m.key != PROTO
    requires forall x | x in out :: Less(x.key, m.key)
    ensures Sorted(Assign(out, m))
    ensures forall x :: x in Assign(out, m) <==> x == m || x in out
  {
    LessTotal(m.key, m.key);
    forall i | 0 <= i < |out| ensures out[i].key != m.key {
      assert out[i] in out;
    }
    if IsIndex(m.key) {
      InsertIndexSorted(m, out);
      InsertIndexElements(m, out);
    } else {
      forall i | 0 <= i < |out| ensures KeyLess(out[i].key, m.key) {
        assert out[i] in out;
      }
    }
  }

  ghost predicate HasKey(ms: seq<Member>, k: Text) {
    exists i | 0 <= i < |ms| :: ms[i].key == k
  }

  lemma HasKeySnoc(ms: seq<Member>, m: Member, k: Text)
    ensures HasKey(ms + [m], k) <==> HasKey(ms, k) || m.key == k
  {
    if i :| 0 <= i < |ms| && ms[i].key == k {
      assert (ms + [m])[i].key == k;
    }
    assert (ms + [m])[|ms|] == m;
  }

  /** What `Object.keys(obj).sort()` returns. */
  ghost predicate SortedKeys(keys: seq<Text>, ms: seq<Member>) {
    && (forall i, j | 0 <= i < j < |keys| :: Less(keys[i], keys[j]))
    && forall k :: k in keys <==> HasKey(ms, k)
  }

  /** A new key put where it belongs. */
  lemma KeyInserted(ms: seq<Member>, m: Member, keys: seq<Text>, i: nat)
    requires SortedKeys(keys, ms) && !HasKey(ms, m.key) && i <= |keys|
    requires forall j | 0 <= j < i :: Less(keys[j], m.key)
    requires i < |keys| ==> !Less(keys[i], m.key)
    ensures SortedKeys(keys[..i] + [m.key] + keys[i..], ms + [m])
  {
    var k, r := m.key, keys[..i] + [m.key] + keys[i..];
    assert k !in keys && keys == keys[..i] + keys[i..];
    forall j | i <= j < |keys| ensures Less(k, keys[j]) {
      LessTotal(keys[i], k);
      assert keys[i] in keys;
      if j > i { LessTransitive(k, keys[i], keys[j]); }
    }
    forall x ensures x in r <==> HasKey(ms + [m], x) {
      assert x in r <==> x == k || x in keys;
      HasKeySnoc(ms, m, x);
    }
  }

  method ObjectKeysSorted(ms: seq<Member>) returns (keys: seq<Text>)
    requires DistinctKeys(ms)
    ensures SortedKeys(keys, ms)
  {
    keys := [];
    for n := 0 to |ms|
      invariant SortedKeys(keys, ms[..n])
    {
      var k := ms[n].key;
      var i := 0;
      while i < |keys| && Less(keys[i], k)
        invariant 0 <= i <= |keys|
        invariant forall j | 0 <= j < i :: Less(keys[j], k)
      {
        i := i + 1;
      }
      assert ms[..n + 1] == ms[..n] + [ms[n]];
      KeyInserted(ms[..n], ms[n], keys, i);
      keys := keys[..i] + [k] + keys[i..];
    }
    assert ms[..|ms|] == ms;
  }

  /** `x` is the canonical form of a visible member whose key is among `keys`. */
  ghost predicate Visible(ms: seq<Member>, keys: seq<Text>, x: Member) {
    exists i | 0 <= i < |ms| :: ms[i].key in keys && ms[i].key != PROTO && x == Member(ms[i].key, Canon(ms[i].val))
  }

  ghost predicate Filled(ms: seq<Member>, keys: seq<Text>, out: seq<Member>) {
    Sorted(out) && forall x :: x in out <==> Visible(ms, keys, x)
  }

  lemma FillStep(ms: seq<Member>, keys: seq<Text>, out: seq<Member>, i: nat)
    requires DistinctKeys(ms) && Filled(ms, keys, out) && i < |ms|
    requires forall j | 0 <= j < |keys| :: Less(keys[j], ms[i].key)
    ensures Filled(ms, keys + [ms[i].key], Assign(out, Member(ms[i].key, Canon(ms[i].val))))
  {
    var k := ms[i].key;
    var m := Member(k, Canon(ms[i].val));
    forall y | y in out ensures Less(y.key, k) {
      assert Visible(ms, keys, y);
    }
    if k != PROTO {
      AssignSorted(out, m);
    }
    forall x ensures x in Assign(out, m) <==> Visible(ms, keys + [k], x) {
      if Visible(ms, keys + [k], x) {
        var p :| 0 <= p < |ms| && ms[p].key in keys + [k] && ms[p].key != PROTO && x
            == Member(ms[p].key, Canon(ms[p].val));
        assert p == i || Visible(ms, keys, x);
      }
      if Visible(ms, keys, x) {
        var p :| 0 <= p < |ms| && ms[p].key in keys && ms[p].key != PROTO && x == Member(ms[p].key, Canon(ms[p].val));
        assert ms[p].key in keys + [k];
      }
      if x == m && k != PROTO {
        assert ms[i].key in keys + [k];
      }
    }
  }

  lemma FillDone(ms: seq<Member>, keys: seq<Text>, out: seq<Member>)
    requires DistinctKeys(ms) && SortedKeys(keys, ms) && Filled(ms, keys, out)
    ensures out == SortMembers(CanonMembers(ms))
  {
    var c := CanonMembers(ms);
    CanonMembersElements(ms);
    CanonMembersDistinct(ms);
    SortMembersSorted(c);
    SortMembersElements(c);
    forall x ensures x in out <==> x in c {
      if x in c {
        var i :| 0 <= i < |ms| && ms[i].key != PROTO && x == Member(ms[i].key, Canon(ms[i].val));
        assert HasKey(ms, ms[i].key);
      }
    }
    SortedUnique(out, SortMembers(c));
  }

  /** `sortDeep`: the imperative fill of fresh arrays and objects computes `Canon`. */
  method SortDeep(value: Json) returns (r: Json)
    requires WellFormed(value)
    ensures r == Canon(value)
    decreases value
  {
    match value
    case Arr(items) =>
      var out: seq<Json> := [];
      for i := 0 to |items|
        invariant |out| == i && forall j | 0 <= j < i :: out[j] == Canon(items[j])
      {
        var x := SortDeep(items[i]);
        out := out + [x];
      }
      r := Arr(out);
      ItemsDone(items, out);
    case Obj(ms) =>
      var keys := ObjectKeysSorted(ms);
      var out: seq<Member> := [];
      for n := 0 to |keys|
        invariant Filled(ms, keys[..n], out)
      {
        assert keys[n] in keys;
        var i :| 0 <= i < |ms| && ms[i].key == keys[n];
        var x := SortDeep(ms[i].val);
        FillStep(ms, keys[..n], out, i);
        out := Assign(out, Member(keys[n], x));
        assert keys[..n + 1] == keys[..n] + [keys[n]];
      }
      assert keys[..|keys|] == keys;
      FillDone(ms, keys, out);
      r := Obj(out);
    case _ =>
      r := value;
  }

  lemma {:induction false} ItemsDone(items: seq<Json>, out: seq<Json>)
    requires |out| == |items| && forall j | 0 <= j < |items| :: out[j] == Canon(items[j])
    ensures Arr(out) == Canon(Arr(items))
  {
    assert out == Canon(Arr(items)).items;
  }
}
