/** The append-only, hash-chained audit log kept per client. */
module AuditLog {
  import opened Options
  import opened Sequences
  import opened Utf16
  import opened CanonicalJson
  import opened CanonicalText
  import opened AuditEvents

  datatype Input = Input(
    clientId: Text, scanId: Option<Text>, actor: Json, action: Text,
    targetType: Option<Text>, targetId: Option<Text>, summary: Text, metadata: Option<Json>)

  /** One call of `append`, with the id and the time its collaborators supply. */
  datatype Request = Request(input: Input, id: Text, at: Text)

  type Store = map<Text, seq<Event>>

  /** SHA-256 in hexadecimal. */
  type Hash = Text -> Text

  /** The event schema: rejects an event or rebuilds it. */
  type Schema = Event -> Option<Event>

  ghost predicate WellFormedRequest(q: Request) {
    WellFormed(q.input.actor) && (q.input.metadata.Some? ==> WellFormed(q.input.metadata.value))
  }

  ghost predicate HexDigest(h: Hash) {
    forall t :: |h(t)| == 64 && forall i | 0 <= i < 64 :: IsHexDigit(h(t)[i])
  }

  /** A schema that changes at most the key order inside an accepted event. */
  ghost predicate Faithful(parse: Schema) {
    forall e | WellFormedEvent(e) && parse(e).Some? ::
      var p := parse(e).value;
      WellFormedEvent(p) && SameContent(p, e) && p.hash == e.hash
  }

  // ---- Chains ----

  function ComputeHash(h: Hash, prevHash: Text, e: Event): Text {
    h(prevHash + TextOf(Body(e)))
  }

  function HeadHash(es: seq<Event>): Text {
    if es == [] then [] else es[|es| - 1].hash
  }

  /** Event `i` names the hash before it and carries its own. */
  ghost predicate LinkOk(h: Hash, es: seq<Event>, i: nat)
    requires i < |es|
  {
    && es[i].prevHash == HeadHash(es[..i])
    && es[i].hash == ComputeHash(h, es[i].prevHash, es[i])
  }

  ghost predicate ChainOk(h: Hash, es: seq<Event>) {
    forall i | 0 <= i < |es| :: LinkOk(h, es, i)
  }

  lemma PrefixVerifies(h: Hash, es: seq<Event>, n: nat)
    requires ChainOk(h, es) && n <= |es|
    ensures ChainOk(h, es[..n])
  {
    forall i | 0 <= i < n ensures LinkOk(h, es[..n], i) {
      assert LinkOk(h, es, i);
      assert es[..n][..i] == es[..i];
    }
  }

  lemma SnocVerifies(h: Hash, es: seq<Event>, e: Event)
    requires ChainOk(h, es) && e.prevHash == HeadHash(es) && e.hash == ComputeHash(h, e.prevHash, e)
    ensures ChainOk(h, es + [e])
  {
    var c := es + [e];
    forall i | 0 <= i < |c| ensures LinkOk(h, c, i) {
      assert c[..i] == es[..i];
      if i < |es| { assert LinkOk(h, es, i); } else { assert es[..i] == es; }
    }
  }

  // ---- The log determines its events ----

  function Preimage(e: Event): Text { e.prevHash + TextOf(Body(e)) }

  /** The hash does not collide on the texts that the two logs hashed. */
  ghost predicate CollisionFree(h: Hash, a: seq<Event>, b: seq<Event>) {
    forall i, j | 0 <= i < |a| && 0 <= j < |b| ::
      h(Preimage(a[i])) == h(Preimage(b[j])) ==> Preimage(a[i]) == Preimage(b[j])
  }

  /** The hash before the last event is empty or 64 hexadecimal digits. */
  lemma PrevIsDigest(h: Hash, es: seq<Event>)
    requires HexDigest(h) && ChainOk(h, es) && es != []
    ensures
      var p := es[|es| - 1].prevHash;
      p == [] || (|p| == 64 && p[0] != '{' as int)
  {
    assert LinkOk(h, es, |es| - 1);
    if |es| > 1 { assert LinkOk(h, es, |es| - 2); }
  }

  lemma SplitAtBrace(p: Text, x: Text, q: Text, y: Text)
    requires p + x == q + y && |x| > 0 && |y| > 0 && x[0] == y[0] == '{' as int
    requires p == [] || (|p| == 64 && p[0] != '{' as int)
    requires q == [] || (|q| == 64 && q[0] != '{' as int)
    ensures p == q && x == y
  {
    assert (p + x)[0] == (if p == [] then x[0] else p[0]);
    assert (q + y)[0] == (if q == [] then y[0] else q[0]);
    assert |p| == |q|;
    assert p == (p + x)[..|p|] && q == (q + y)[..|q|];
    assert x == (p + x)[|p|..] && y == (q + y)[|q|..];
  }

  /** `prevHash + json` splits in only one way. */
  lemma PreimageSplit(h: Hash, a: seq<Event>, b: seq<Event>)
    requires HexDigest(h) && ChainOk(h, a) && ChainOk(h, b) && a != [] && b != []
    requires Preimage(a[|a| - 1]) == Preimage(b[|b| - 1])
    ensures a[|a| - 1].prevHash == b[|b| - 1].prevHash
    ensures TextOf(Body(a[|a| - 1])) == TextOf(Body(b[|b| - 1]))
  {
    var e, f := a[|a| - 1], b[|b| - 1];
    PrevIsDigest(h, a);
    PrevIsDigest(h, b);
    BodyText(e);
    BodyText(f);
    SplitAtBrace(e.prevHash, TextOf(Body(e)), f.prevHash, TextOf(Body(f)));
  }

  lemma BodyText(e: Event)
    ensures |TextOf(Body(e))| > 0 && TextOf(Body(e))[0] == '{' as int
  {
  }

  ghost predicate WellFormedLog(es: seq<Event>) {
    forall i | 0 <= i < |es| :: WellFormedEvent(es[i])
  }

  lemma HeadIsDigest(h: Hash, es: seq<Event>)
    requires HexDigest(h) && ChainOk(h, es)
    ensures |HeadHash(es)| == if es == [] then 0 else 64
  {
    if es != [] { assert LinkOk(h, es, |es| - 1); }
  }

  lemma LastSame(h: Hash, a: seq<Event>, b: seq<Event>)
    requires HexDigest(h) && ChainOk(h, a) && ChainOk(h, b) && CollisionFree(h, a, b)
    requires WellFormedLog(a) && WellFormedLog(b) && a != [] && b != []
    requires HeadHash(a) == HeadHash(b)
    ensures SameContent(a[|a| - 1], b[|b| - 1])
    ensures HeadHash(a[..|a| - 1]) == HeadHash(b[..|b| - 1])
  {
    var e, f := a[|a| - 1], b[|b| - 1];
    assert LinkOk(h, a, |a| - 1) && LinkOk(h, b, |b| - 1);
    assert Preimage(e) == Preimage(f);
    PreimageSplit(h, a, b);
    BodyWellFormed(e);
    BodyWellFormed(f);
    TextDeterminesValue(Body(e), Body(f));
    BodySameContent(e, f);
  }

  /** The same log: as many events, equal one by one up to key order, with the same hashes. */
  ghost predicate SameLog(a: seq<Event>, b: seq<Event>) {
    |a| == |b| && forall i | 0 <= i < |a| :: SameContent(a[i], b[i]) && a[i].hash == b[i].hash
  }

  lemma SameLogSnoc(h: Hash, a: seq<Event>, b: seq<Event>)
    requires HexDigest(h) && ChainOk(h, a) && ChainOk(h, b) && CollisionFree(h, a, b)
    requires WellFormedLog(a) && WellFormedLog(b) && a != [] && b != []
    requires HeadHash(a) == HeadHash(b)
    requires SameLog(a[..|a| - 1], b[..|b| - 1])
    ensures SameLog(a, b)
  {
    LastSame(h, a, b);
    assert |a| == |a[..|a| - 1]| + 1 == |b|;
    forall i | 0 <= i < |a| - 1 ensures SameContent(a[i], b[i]) && a[i].hash == b[i].hash {
      assert a[i] == a[..|a| - 1][i] && b[i] == b[..|b| - 1][i];
    }
  }

  /** Main result: two verifying logs that end in the same hash are the same log. */
  lemma {:induction false} LogIdentity(h: Hash, a: seq<Event>, b: seq<Event>)
    requires HexDigest(h) && ChainOk(h, a) && ChainOk(h, b) && CollisionFree(h, a, b)
    requires WellFormedLog(a) && WellFormedLog(b)
    requires HeadHash(a) == HeadHash(b)
    ensures SameLog(a, b)
    decreases |a|
  {
    HeadIsDigest(h, a);
    HeadIsDigest(h, b);
    if a != [] {
      var m, n := |a| - 1, |b| - 1;
      assert HeadHash(a[..m]) == HeadHash(b[..n]) by { LastSame(h, a, b); }
      PrefixVerifies(h, a, m);
      PrefixVerifies(h, b, n);
      LogIdentity(h, a[..m], b[..n]);
      SameLogSnoc(h, a, b);
    }
  }

  // ---- append ----

  function Chain(store: Store, clientId: Text): seq<Event> {
    if clientId in store then store[clientId] else []
  }

  /** A field that `append` copies only when it is truthy. */
  function Truthy(t: Option<Text>): Option<Text> {
    if t == Some([]) then None else t
  }

  /** The event before the schema sees it. */
  function Draft(h: Hash, es: seq<Event>, q: Request): Event {
    var i := q.input;
    var e := Event(q.id, i.clientId, |es| + 1, Truthy(i.scanId), i.actor, i.action,
                   Truthy(i.targetType), Truthy(i.targetId), i.summary,
                   if i.metadata.Some? then i.metadata.value else Obj([]), HeadHash(es), q.at, []);
    e.(hash := ComputeHash(h, e.prevHash, e))
  }

  function Appended(h: Hash, parse: Schema, store: Store, q: Request): Store {
    var c := q.input.clientId;
    match parse(Draft(h, Chain(store, c), q))
    case None => store
    case Some(e) => store[c := Chain(store, c) + [e]]
  }

  /** An optional text of a request is kept when it is given and not empty. */
  ghost predicate Kept(kept: Option<Text>, given: Option<Text>) {
    && (given.Some? && |given.value| > 0 ==> kept == given)
    && (given == None || |given.value| == 0 ==> kept == None)
  }

  /** Every field of the request reaches the event; no metadata means the empty object. */
  ghost predicate Carries(e: Event, q: Request) {
    var i := q.input;
    && e.id == q.id && e.at == q.at && e.clientId == i.clientId && e.action == i.action && e.summary == i.summary
    && Kept(e.scanId, i.scanId) && Kept(e.targetType, i.targetType) && Kept(e.targetId, i.targetId)
    && Same(e.actor, i.actor, {PROTO})
    && (i.metadata.Some? ==> Same(e.metadata, i.metadata.value, {PROTO}))
    && (i.metadata.None? ==> Same(e.metadata, Obj([]), {PROTO}))
  }

  lemma AppendCarries(h: Hash, parse: Schema, es: seq<Event>, q: Request)
    requires Faithful(parse) && WellFormedRequest(q) && parse(Draft(h, es, q)).Some?
    ensures
      var e := parse(Draft(h, es, q)).value;
      Carries(e, q) && e.sequence == |es| + 1 && e.prevHash == HeadHash(es)
  {
    var d := Draft(h, es, q);
    assert WellFormedEvent(d);
    assert SameContent(parse(d).value, d);
  }

  /** What one append does: one event that carries the request extends its client's chain, and nothing
      else changes; or nothing changes at all. */
  ghost predicate AppendStep(before: Store, q: Request, after: Store, r: Option<Event>) {
    match r
    case None => after == before
    case Some(e) =>
      var es := Chain(before, q.input.clientId);
      && Chain(after, q.input.clientId) == es + [e]
      && (forall c | c != q.input.clientId :: Chain(after, c) == Chain(before, c))
      && Carries(e, q) && e.sequence == |es| + 1 && e.prevHash == HeadHash(es)
  }

  lemma AppendedSteps(h: Hash, parse: Schema, store: Store, q: Request)
    requires Faithful(parse) && WellFormedRequest(q)
    ensures AppendStep(store, q, Appended(h, parse, store, q), parse(Draft(h, Chain(store, q.input.clientId), q)))
  {
    var es := Chain(store, q.input.clientId);
    if parse(Draft(h, es, q)).Some? { AppendCarries(h, parse, es, q); }
  }

  /** A chain that `append` can have built for one client. */
  ghost predicate GoodChain(h: Hash, clientId: Text, es: seq<Event>) {
    && ChainOk(h, es)
    && WellFormedLog(es)
    && forall i | 0 <= i < |es| :: es[i].sequence == i + 1 && es[i].clientId == clientId
  }

  ghost predicate GoodStore(h: Hash, store: Store) {
    forall c | c in store :: GoodChain(h, c, store[c])
  }

  lemma DraftVerifies(h: Hash, parse: Schema, es: seq<Event>, q: Request)
    requires Faithful(parse) && GoodChain(h, q.input.clientId, es) && WellFormedRequest(q)
    requires parse(Draft(h, es, q)).Some?
    ensures GoodChain(h, q.input.clientId, es + [parse(Draft(h, es, q)).value])
  {
    var d := Draft(h, es, q);
    assert WellFormedEvent(d);
    assert Body(d) == Body(d.(hash := []));
    var e := parse(d).value;
    assert WellFormedEvent(e) && SameContent(e, d) && e.hash == d.hash;
    BodyWellFormed(d);
    BodyWellFormed(e);
    ContentBodySame(e, d);
    TextDeterminesValue(Body(e), Body(d));
    SnocVerifies(h, es, e);
  }

  /** Exact condition on the schema: the rebuilt event keeps the chain verifying iff it has the content
      that was hashed, unless the hash collides on the two texts. */
  lemma RebuiltEventVerifiesIff(h: Hash, es: seq<Event>, q: Request, e: Event)
    requires ChainOk(h, es) && WellFormedRequest(q) && WellFormedEvent(e)
    requires e.prevHash == Draft(h, es, q).prevHash && e.hash == Draft(h, es, q).hash
    requires h(Preimage(e)) == h(Preimage(Draft(h, es, q))) ==> Preimage(e) == Preimage(Draft(h, es, q))
    ensures ChainOk(h, es + [e]) <==> SameContent(e, Draft(h, es, q))
  {
    var d := Draft(h, es, q);
    assert Body(d) == Body(d.(hash := []));
    BodyWellFormed(d);
    BodyWellFormed(e);
    TextDeterminesValue(Body(e), Body(d));
    if ChainOk(h, es + [e]) {
      assert LinkOk(h, es + [e], |es|);
      assert TextOf(Body(e)) == Preimage(e)[|e.prevHash|..];
      assert TextOf(Body(d)) == Preimage(d)[|d.prevHash|..];
      BodySameContent(e, d);
    }
    if SameContent(e, d) {
      ContentBodySame(e, d);
      SnocVerifies(h, es, e);
    }
  }

  lemma AppendKeepsGood(h: Hash, parse: Schema, store: Store, q: Request)
    requires Faithful(parse) && GoodStore(h, store) && WellFormedRequest(q)
    ensures GoodStore(h, Appended(h, parse, store, q))
  {
    var c := q.input.clientId;
    var es := Chain(store, c);
    assert GoodChain(h, c, es);
    if parse(Draft(h, es, q)).Some? {
      DraftVerifies(h, parse, es, q);
    }
  }

  // ---- Runs ----

  function Run(h: Hash, parse: Schema, store: Store, qs: seq<Request>): Store
    decreases qs
  {
    if qs == [] then store else Run(h, parse, Appended(h, parse, store, qs[0]), qs[1..])
  }

  function OnlyFor(qs: seq<Request>, c: Text): seq<Request> {
    if qs == [] then []
    else (if qs[0].input.clientId == c then [qs[0]] else []) + OnlyFor(qs[1..], c)
  }

  /** Every run of appends over any mix of clients keeps every client's chain verifying and numbered 1..n. */
  lemma {:induction false} RunKeepsGood(h: Hash, parse: Schema, store: Store, qs: seq<Request>)
    requires Faithful(parse) && GoodStore(h, store)
    requires forall i | 0 <= i < |qs| :: WellFormedRequest(qs[i])
    ensures GoodStore(h, Run(h, parse, store, qs))
    decreases qs
  {
    if qs != [] {
      AppendKeepsGood(h, parse, store, qs[0]);
      RunKeepsGood(h, parse, Appended(h, parse, store, qs[0]), qs[1..]);
    }
  }

  /** What a client's chain becomes depends on that client's requests only. */
  lemma {:induction false} RunIsolatesClients(h: Hash, parse: Schema, s: Store, t: Store, qs: seq<Request>, c: Text)
    requires Chain(s, c) == Chain(t, c)
    ensures Chain(Run(h, parse, s, qs), c) == Chain(Run(h, parse, t, OnlyFor(qs, c)), c)
    decreases qs
  {
    if qs != [] {
      var s' := Appended(h, parse, s, qs[0]);
      if qs[0].input.clientId == c {
        var t' := Appended(h, parse, t, qs[0]);
        RunIsolatesClients(h, parse, s', t', qs[1..], c);
        assert OnlyFor(qs, c)[1..] == OnlyFor(qs[1..], c);
      } else {
        RunIsolatesClients(h, parse, s', t, qs[1..], c);
        assert OnlyFor(qs, c) == OnlyFor(qs[1..], c);
      }
    }
  }

  // ---- list ----

  datatype ListOptions = ListOptions(scanId: Option<Text>, fromSequence: Option<int>, limit: Option<int>)

  /** `xs.slice(0, n)`: a negative bound counts from the end. */
  function Slice<T>(xs: seq<T>, n: int): seq<T> {
    if n >= |xs| then xs else if n >= 0 then xs[..n] else if -n >= |xs| then [] else xs[..|xs| + n]
  }

  function OfScan(es: seq<Event>, scanId: Text): seq<Event> {
    if es == [] then []
    else (if es[0].scanId == Some(scanId) then [es[0]] else []) + OfScan(es[1..], scanId)
  }

  function FromSequence(es: seq<Event>, n: int): seq<Event> {
    if es == [] then [] else (if es[0].sequence >= n then [es[0]] else []) + FromSequence(es[1..], n)
  }

  function Listed(es: seq<Event>, opts: ListOptions): seq<Event> {
    var a := if Truthy(opts.scanId).Some? then OfScan(es, opts.scanId.value) else es;
    var b := if opts.fromSequence.Some? then FromSequence(a, opts.fromSequence.value) else a;
    if opts.limit.Some? then Slice(b, opts.limit.value) else b
  }

  lemma {:induction false} FromSequenceNumbered(es: seq<Event>, base: nat, n: int)
    requires forall i | 0 <= i < |es| :: es[i].sequence == base + i + 1
    ensures FromSequence(es, n) == if n <= base + 1 then es else if n > base + |es| then [] else es[n - base - 1..]
  {
    if es != [] {
      assert forall i | 0 <= i < |es[1..]| :: es[1..][i] == es[i + 1];
      FromSequenceNumbered(es[1..], base + 1, n);
      if n <= base + 1 {
        assert es == [es[0]] + es[1..];
      } else if n <= base + |es| {
        assert es[1..][n - base - 2..] == es[n - base - 1..];
      }
    }
  }

  function Clamp(lo: int, x: int, hi: int): int { if x < lo then lo else if x > hi then hi else x }

  /** Paging a numbered chain returns exactly the events `from`, ..., `from + limit - 1` that exist. */
  lemma ListWindow(h: Hash, c: Text, es: seq<Event>, from: int, limit: nat)
    requires GoodChain(h, c, es)
    ensures
      var lo := Clamp(0, from - 1, |es|);
      Listed(es, ListOptions(None, Some(from), Some(limit))) == es[lo..Clamp(lo, lo + limit, |es|)]
  {
    FromSequenceNumbered(es, 0, from);
  }

  ghost predicate Ascending(es: seq<Event>) {
    forall i, j | 0 <= i < j < |es| :: es[i].sequence < es[j].sequence
  }

  lemma {:induction false} OfScanElements(es: seq<Event>, scanId: Text)
    ensures forall e :: e in OfScan(es, scanId) <==> e in es && e.scanId == Some(scanId)
    ensures Ascending(es) ==> Ascending(OfScan(es, scanId))
  {
    if es != [] {
      OfScanElements(es[1..], scanId);
      assert es == [es[0]] + es[1..];
      TailAscends(es, OfScan(es[1..], scanId));
    }
  }

  lemma {:induction false} FromSequenceElements(es: seq<Event>, n: int)
    ensures forall e :: e in FromSequence(es, n) <==> e in es && e.sequence >= n
    ensures Ascending(es) ==> Ascending(FromSequence(es, n))
  {
    if es != [] {
      FromSequenceElements(es[1..], n);
      assert es == [es[0]] + es[1..];
      TailAscends(es, FromSequence(es[1..], n));
    }
  }

  /** The first event comes before every event of a selection from the rest. */
  lemma TailAscends(es: seq<Event>, kept: seq<Event>)
    requires es != [] && forall e | e in kept :: e in es[1..]
    ensures Ascending(es) ==> Ascending(es[1..]) && (Ascending(kept) ==> Ascending([es[0]] + kept))
  {
    if Ascending(es) {
      forall i | 0 <= i < |kept| ensures es[0].sequence < kept[i].sequence {
        assert kept[i] in es[1..];
      }
    }
  }

  /** Without options, or with an empty scan id, everything is listed; a negative limit drops from the end. */
  lemma ListUnfiltered(es: seq<Event>, n: int)
    ensures Listed(es, ListOptions(None, None, None)) == es
    ensures Listed(es, ListOptions(Some([]), None, None)) == es
    ensures 0 <= n <= |es| ==> Listed(es, ListOptions(None, None, Some(n))) == es[..n]
    ensures 0 < n <= |es| ==> Listed(es, ListOptions(None, None, Some(-n))) == es[..|es| - n]
  {
    if n == |es| { assert es[..|es|] == es; }
  }

  /** One scan's events: exactly those of the scan from `from` on, in sequence order, and a limit keeps
      the first of them. */
  lemma {:induction false} ListOfScan(h: Hash, c: Text, es: seq<Event>, scanId: Text, from: int, limit: nat)
    requires GoodChain(h, c, es) && scanId != []
    ensures
      var all := Listed(es, ListOptions(Some(scanId), Some(from), None));
      && Ascending(all)
      && (forall e :: e in all <==> e in es && e.scanId == Some(scanId) && e.sequence >= from)
      && Listed(es, ListOptions(Some(scanId), Some(from), Some(limit))) == Upto(all, limit)
  {
    assert Ascending(es);
    OfScanElements(es, scanId);
    FromSequenceElements(OfScan(es, scanId), from);
  }

  // ---- The client object ----

  class InMemoryAuditLogClient {
    const sha256: Hash
    const parse: Schema
    var byClient: Store

    ghost predicate Valid()
      reads this
    {
      Faithful(parse) && GoodStore(sha256, byClient)
    }

    constructor (sha256: Hash, parse: Schema)
      requires Faithful(parse)
      ensures Valid() && byClient == map[] && this.sha256 == sha256 && this.parse == parse
    {
      this.sha256, this.parse := sha256, parse;
      byClient := map[];
    }

    /** The event for the request, hashed behind the events so far. */
    method Drafted(q: Request, list: seq<Event>) returns (e: Event)
      ensures e == Draft(sha256, list, q)
    {
      var i := q.input;
      var prevHash := if |list| > 0 then list[|list| - 1].hash else [];
      var sequence := |list| + 1;
      var withoutHash := Event(q.id, i.clientId, sequence, Truthy(i.scanId), i.actor, i.action,
                               Truthy(i.targetType), Truthy(i.targetId), i.summary,
                               if i.metadata.Some? then i.metadata.value else Obj([]), prevHash, q.at, []);
      e := withoutHash.(hash := ComputeHash(sha256, prevHash, withoutHash));
    }

    /** A rejected event leaves the store as it was. */
    method Append(q: Request) returns (r: Option<Event>)
      requires Valid() && WellFormedRequest(q)
      modifies this
      ensures Valid()
      ensures byClient == Appended(sha256, parse, old(byClient), q)
      ensures AppendStep(old(byClient), q, byClient, r)
    {
      AppendedSteps(sha256, parse, byClient, q);
      AppendKeepsGood(sha256, parse, byClient, q);
      var clientId := q.input.clientId;
      var list := if clientId in byClient then byClient[clientId] else [];
      var event := Drafted(q, list);
      r := parse(event);
      if r.Some? {
        list := list + [r.value];
        byClient := byClient[clientId := list];
      }
    }

    method List(clientId: Text, opts: ListOptions) returns (list: seq<Event>)
      ensures list == Listed(Chain(byClient, clientId), opts)
    {
      list := if clientId in byClient then byClient[clientId] else [];
      if Truthy(opts.scanId).Some? {
        list := OfScan(list, opts.scanId.value);
      }
      if opts.fromSequence.Some? {
        list := FromSequence(list, opts.fromSequence.value);
      }
      if opts.limit.Some? {
        list := Slice(list, opts.limit.value);
      }
    }

    method VerifyChain(clientId: Text) returns (ok: bool)
      ensures ok <==> ChainOk(sha256, Chain(byClient, clientId))
    {
      var es := if clientId in byClient then byClient[clientId] else [];
      var prev: Text := [];
      for i := 0 to |es|
        invariant prev == HeadHash(es[..i])
        invariant forall j | 0 <= j < i :: LinkOk(sha256, es, j)
      {
        var e := es[i];
        if e.prevHash != prev || ComputeHash(sha256, prev, e) != e.hash {
          assert !LinkOk(sha256, es, i);
          return false;
        }
        prev := e.hash;
        assert es[..i + 1][i] == e;
      }
      return true;
    }
  }
}
