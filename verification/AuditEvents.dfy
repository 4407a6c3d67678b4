/** Audit events and the JSON object that is hashed for each of them. */
module AuditEvents {
  import opened Options
  import opened Utf16
  import opened CanonicalJson
  import opened CanonicalText

  /** One stored event. `actor` and `metadata` are JSON objects of any key order. */
  datatype Event = Event(
    id: Text, clientId: Text, sequence: nat, scanId: Option<Text>, actor: Json, action: Text,
    targetType: Option<Text>, targetId: Option<Text>, summary: Text, metadata: Json,
    prevHash: Text, at: Text, hash: Text)

  ghost predicate WellFormedEvent(e: Event) { WellFormed(e.actor) && WellFormed(e.metadata) }

  // ---- The hashed object ----

  const KEYS: seq<Text> := [
    U("id"), U("clientId"), U("sequence"), U("scanId"), U("actor"), U("action"),
    U("targetType"), U("targetId"), U("summary"), U("metadata"), U("prevHash"), U("at")]

  lemma KeysDistinct()
    ensures |KEYS| == 12
    ensures forall i, j | 0 <= i < j < 12 :: KEYS[i] != KEYS[j]
    ensures forall i | 0 <= i < 12 :: KEYS[i] != PROTO
  {
    var c := [
      2000 + 'i' as int, 8000 + 'c' as int, 8000 + 's' as int, 6000 + 's' as int,
      5000 + 'a' as int, 6000 + 'a' as int, 10000 + 't' as int, 8000 + 't' as int,
      7000 + 's' as int, 8000 + 'm' as int, 8000 + 'p' as int, 2000 + 'a' as int];
    assert forall i | 0 <= i < 12 :: |KEYS[i]| > 0 && Mark(KEYS[i]) == c[i];
    assert forall i | 0 <= i < 12 :: |KEYS[i]| != |PROTO|;
  }

  /** Length and first code unit tell the keys apart. */
  ghost function Mark(k: Text): int
    requires k != []
  {
    1000 * |k| + k[0]
  }

  function StrOf(t: Option<Text>): Option<Json> {
    match t
    case None => None
    case Some(s) => Some(Str(s))
  }

  /** The value under each key of `KEYS`; an absent optional field has no member. */
  function Fields(e: Event): (fs: seq<Option<Json>>)
    ensures |fs| == 12
  {
    [Some(Str(e.id)), Some(Str(e.clientId)), Some(Num(Decimal(e.sequence))), StrOf(e.scanId),
     Some(e.actor), Some(Str(e.action)), StrOf(e.targetType), StrOf(e.targetId), Some(Str(e.summary)),
     Some(e.metadata), Some(Str(e.prevHash)), Some(Str(e.at))]
  }

  function Present(fs: seq<Option<Json>>, i: nat): seq<Member>
    requires i <= |fs| == |KEYS|
    decreases |fs| - i
  {
    if i == |fs| then []
    else (if fs[i].Some? then [Member(KEYS[i], fs[i].value)] else []) + Present(fs, i + 1)
  }

  /** The event without its `hash`, the object both `append` and `verifyChain` hash. */
  function Body(e: Event): Json {
    assert |KEYS| == 12;
    Obj(Present(Fields(e), 0))
  }

  lemma {:induction false} PresentElements(fs: seq<Option<Json>>, i: nat)
    requires i <= |fs| == |KEYS|
    ensures forall x :: x in Present(fs, i) <==> exists j | i <= j < |fs| :: KEYS[j] == x.key && fs[j] == Some(x.val)
    decreases |fs| - i
  {
    if i < |fs| {
      PresentElements(fs, i + 1);
    }
  }

  ghost predicate IsField(e: Event, x: Member, j: nat)
    requires j < 12
  {
    KEYS[j] == x.key && Fields(e)[j] == Some(x.val)
  }

  lemma MembersAreFields(e: Event, x: Member)
    ensures x in Body(e).members <==> exists j | 0 <= j < 12 :: IsField(e, x, j)
  {
    PresentElements(Fields(e), 0);
    if x in Body(e).members {
      var j :| 0 <= j < 12 && KEYS[j] == x.key && Fields(e)[j] == Some(x.val);
      assert IsField(e, x, j);
    }
  }

  /** Which members the hashed object has: the required fields always, the others when present, never `hash`. */
  lemma BodyExact(e: Event, x: Member)
    ensures x in Body(e).members <==>
              || (x.key == U("id") && x.val == Str(e.id))
              || (x.key == U("clientId") && x.val == Str(e.clientId))
              || (x.key == U("sequence") && x.val == Num(Decimal(e.sequence)))
              || (x.key == U("scanId") && e.scanId.Some? && x.val == Str(e.scanId.value))
              || (x.key == U("actor") && x.val == e.actor)
              || (x.key == U("action") && x.val == Str(e.action))
              || (x.key == U("targetType") && e.targetType.Some? && x.val == Str(e.targetType.value))
              || (x.key == U("targetId") && e.targetId.Some? && x.val == Str(e.targetId.value))
              || (x.key == U("summary") && x.val == Str(e.summary))
              || (x.key == U("metadata") && x.val == e.metadata)
              || (x.key == U("prevHash") && x.val == Str(e.prevHash))
              || (x.key == U("at") && x.val == Str(e.at))
  {
    MembersAreFields(e, x);
    if x !in Body(e).members {
      assert !IsField(e, x, 0) && !IsField(e, x, 1) && !IsField(e, x, 2) && !IsField(e, x, 3);
      assert !IsField(e, x, 4) && !IsField(e, x, 5) && !IsField(e, x, 6) && !IsField(e, x, 7);
      assert !IsField(e, x, 8) && !IsField(e, x, 9) && !IsField(e, x, 10) && !IsField(e, x, 11);
    }
  }

  lemma {:induction false} PresentDistinct(fs: seq<Option<Json>>, i: nat)
    requires i <= |fs| == |KEYS|
    ensures DistinctKeys(Present(fs, i))
    decreases |fs| - i
  {
    if i < |fs| {
      KeysDistinct();
      PresentDistinct(fs, i + 1);
      PresentElements(fs, i + 1);
      var r := Present(fs, i + 1);
      forall j | 0 <= j < |r| ensures r[j].key != KEYS[i] {
        assert r[j] in r;
      }
    }
  }

  lemma BodyWellFormed(e: Event)
    requires WellFormedEvent(e)
    ensures WellFormed(Body(e))
  {
    KeysDistinct();
    var fs := Fields(e);
    var ms := Present(fs, 0);
    PresentDistinct(fs, 0);
    PresentElements(fs, 0);
    assert forall j | 0 <= j < 12 :: fs[j].Some? ==> WellFormed(fs[j].value);
    forall i | 0 <= i < |ms| ensures WellFormed(ms[i].val) {
      assert ms[i] in ms;
    }
  }

  /** Equal field by field; `actor` and `metadata` up to key order. The hash is not compared. */
  ghost predicate SameContent(a: Event, b: Event) {
    && a.id == b.id && a.clientId == b.clientId && a.sequence == b.sequence && a.scanId == b.scanId
    && Same(a.actor, b.actor, {PROTO}) && a.action == b.action
    && a.targetType == b.targetType && a.targetId == b.targetId && a.summary == b.summary
    && Same(a.metadata, b.metadata, {PROTO}) && a.prevHash == b.prevHash && a.at == b.at
  }

  ghost predicate SameOption(a: Option<Json>, b: Option<Json>) {
    a.Some? == b.Some? && (a.Some? ==> Same(a.value, b.value, {PROTO}))
  }

  lemma BodySlots(e: Event, i: nat)
    requires i < 12
    ensures |KEYS| == 12
    ensures Fields(e)[i].Some? <==> KEYS[i] in Keys(Body(e).members)
    ensures Fields(e)[i].Some? ==> Member(KEYS[i], Fields(e)[i].value) in Body(e).members
    ensures forall x | x in Body(e).members && x.key == KEYS[i] :: Fields(e)[i] == Some(x.val)
  {
    KeysDistinct();
    PresentElements(Fields(e), 0);
    var ms := Body(e).members;
    if Fields(e)[i].Some? {
      var x := Member(KEYS[i], Fields(e)[i].value);
      assert x in ms;
      var p :| 0 <= p < |ms| && ms[p] == x;
    }
    if KEYS[i] in Keys(ms) {
      var p :| 0 <= p < |ms| && ms[p].key == KEYS[i];
      assert ms[p] in ms;
    }
  }

  lemma SlotSame(a: Event, b: Event, i: nat)
    requires i < 12 && Same(Body(a), Body(b), {PROTO})
    ensures SameOption(Fields(a)[i], Fields(b)[i])
  {
    KeysDistinct();
    BodySlots(a, i);
    BodySlots(b, i);
    var m, n := Body(a).members, Body(b).members;
    assert KEYS[i] in Keys(m) <==> KEYS[i] in Keys(m) - {PROTO};
    assert KEYS[i] in Keys(n) <==> KEYS[i] in Keys(n) - {PROTO};
    if Fields(a)[i].Some? {
      var p :| 0 <= p < |m| && m[p] == Member(KEYS[i], Fields(a)[i].value);
      var q :| 0 <= q < |n| && n[q] == Member(KEYS[i], Fields(b)[i].value);
      assert Same(m[p].val, n[q].val, {PROTO});
    }
  }

  lemma BodySameContent(a: Event, b: Event)
    requires Same(Body(a), Body(b), {PROTO})
    ensures SameContent(a, b)
  {
    SlotsSame(a, b);
    DecimalRoundTrip(a.sequence);
    DecimalRoundTrip(b.sequence);
    var x, y := Fields(a), Fields(b);
    assert SameOption(x[0], y[0]) && SameOption(x[1], y[1]) && SameOption(x[2], y[2]) && SameOption(x[3], y[3]);
    assert SameOption(x[4], y[4]) && SameOption(x[5], y[5]) && SameOption(x[6], y[6]) && SameOption(x[7], y[7]);
    assert SameOption(x[8], y[8]) && SameOption(x[9], y[9]) && SameOption(x[10], y[10]) && SameOption(x[11], y[11]);
  }

  lemma SlotsSame(a: Event, b: Event)
    requires Same(Body(a), Body(b), {PROTO})
    ensures forall i | 0 <= i < 12 :: SameOption(Fields(a)[i], Fields(b)[i])
  {
    forall i | 0 <= i < 12 ensures SameOption(Fields(a)[i], Fields(b)[i]) {
      SlotSame(a, b, i);
    }
  }

  lemma ContentSlotSame(a: Event, b: Event, i: nat)
    requires SameContent(a, b) && i < 12
    ensures SameOption(Fields(a)[i], Fields(b)[i])
  {
  }

  /** The key under which a member of the body stands. */
  lemma BodyKey(e: Event, k: Text) returns (i: nat)
    requires k in Keys(Body(e).members)
    ensures i < 12 && |KEYS| == 12 && KEYS[i] == k
  {
    KeysDistinct();
    PresentElements(Fields(e), 0);
    var ms := Body(e).members;
    var p :| 0 <= p < |ms| && ms[p].key == k;
    assert ms[p] in ms;
    i :| 0 <= i < 12 && KEYS[i] == ms[p].key && Fields(e)[i] == Some(ms[p].val);
  }

  lemma ContentBodySame(a: Event, b: Event)
    requires SameContent(a, b)
    ensures Same(Body(a), Body(b), {PROTO})
  {
    var m, n := Body(a).members, Body(b).members;
    forall p, q | 0 <= p < |m| && 0 <= q < |n| && m[p].key == n[q].key && m[p].key !in {PROTO}
      ensures Same(m[p].val, n[q].val, {PROTO})
    {
      assert m[p].key in Keys(m);
      var i := BodyKey(a, m[p].key);
      BodySlots(a, i);
      BodySlots(b, i);
      ContentSlotSame(a, b, i);
      assert m[p] in m && n[q] in n;
    }
    forall k | k in Keys(m) ensures k in Keys(n) {
      var i := BodyKey(a, k);
      BodySlots(a, i);
      BodySlots(b, i);
      ContentSlotSame(a, b, i);
    }
    forall k | k in Keys(n) ensures k in Keys(m) {
      var i := BodyKey(b, k);
      BodySlots(a, i);
      BodySlots(b, i);
      ContentSlotSame(a, b, i);
    }
  }
}
