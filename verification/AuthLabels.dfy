/** Applying the model's auth labels: only gaps are filled, the first matching entry wins. */
module AuthLabels {
  import opened Options

  datatype Route = Route(path: string, verb: string, authState: string, authGate: Option<string>)

  /** One element of the reply: `null`, or the string fields it has. */
  datatype Entry =
    | Null
    | Entry(route: Option<string>, verb: Option<string>, authState: Option<string>, authGate: Option<string>)

  datatype Result = TypeError | Labelled(routes: seq<Route>, applied: nat)

  /** A field that is present and not the empty string. */
  predicate Given(f: Option<string>) { f.Some? && f.value != "" }

  predicate KnownState(s: string) { s in {"public", "authenticated", "role_gated"} }

  /** The entry names the route's path, a usable state, and no other method. */
  predicate Matches(e: Entry, r: Route) {
    && e.Entry? && Given(e.route) && e.route.value == r.path
    && e.authState.Some? && KnownState(e.authState.value)
    && (!Given(e.verb) || e.verb.value == r.verb)
  }

  function Label(e: Entry, r: Route): Route
    requires Matches(e, r)
  {
    r.(
      authState := e.authState.value,
      authGate := if Given(e.authGate) && !Given(r.authGate) then e.authGate else r.authGate)
  }

  /** The rule: a gap takes the first matching entry; everything else stays. */
  function Relabel(r: Route, entries: seq<Entry>): Route {
    if r.authState != "unknown" || entries == [] then r
    else if Matches(entries[0], r) then Label(entries[0], r)
    else Relabel(r, entries[1..])
  }

  /** After entry `e`, a route still unlabelled by `before` gets `e`'s label. */
  lemma {:induction false} RelabelSnoc(r: Route, before: seq<Entry>, e: Entry)
    ensures Relabel(r, before + [e]) ==
              var s := Relabel(r, before); if s.authState == "unknown" && Matches(e, r) then Label(e, r) else s
    ensures Relabel(r, before).authState == "unknown" ==> Relabel(r, before) == r
  {
    if before == [] {
      assert [] + [e] == [e] && [e][1..] == [];
    } else {
      assert (before + [e])[1..] == before[1..] + [e];
      RelabelSnoc(r, before[1..], e);
    }
  }

  // ---- What the rule guarantees ----

  /** The number of the first entry that matches; past the end when none does. */
  function First(r: Route, entries: seq<Entry>): nat {
    if entries == [] || Matches(entries[0], r) then 0 else 1 + First(r, entries[1..])
  }

  lemma {:induction false} FirstMatch(r: Route, entries: seq<Entry>)
    ensures
      var i := First(r, entries);
      && i <= |entries| && (forall j | 0 <= j < i :: !Matches(entries[j], r))
      && (i < |entries| ==> Matches(entries[i], r))
      && Relabel(r, entries) == if r.authState == "unknown" && i < |entries| then Label(entries[i], r) else r
  {
    if entries != [] && !Matches(entries[0], r) {
      FirstMatch(r, entries[1..]);
      forall j | 0 <= j < First(r, entries) ensures !Matches(entries[j], r) {
        if j > 0 { assert entries[j] == entries[1..][j - 1]; }
      }
    }
  }

  /** What it takes to label a route, field by field. */
  lemma MatchesExact(e: Entry, r: Route)
    ensures Matches(e, r) <==>
              && e.Entry? && r.path != "" && e.route == Some(r.path)
              && e.authState in {Some("public"), Some("authenticated"), Some("role_gated")}
              && e.verb in {None, Some(""), Some(r.verb)}
  {
  }

  /** Known routes, paths, methods and existing guards are untouched; a change fills a gap with a
      known state, and comes from the first entry that matches: its state, and its guard where the route
      has none. */
  lemma {:induction false} RelabelRule(r: Route, entries: seq<Entry>)
    ensures
      var s := Relabel(r, entries);
      && s.path == r.path && s.verb == r.verb
      && (r.authState != "unknown" ==> s == r)
      && (Given(r.authGate) ==> s.authGate == r.authGate)
      && (s != r <==> r.authState == "unknown" && exists i | 0 <= i < |entries| :: Matches(entries[i], r))
      && (s != r ==> KnownState(s.authState))
      && forall i | 0 <= i < |entries| && Matches(entries[i], r) && forall j | 0 <= j < i :: !Matches(entries[j], r) ::
           r.authState == "unknown" ==>
             && Some(s.authState) == entries[i].authState
             && s.authGate == if r.authGate in {None, Some("")} && entries[i].authGate !in {None, Some("")}
                              then entries[i].authGate else r.authGate
  {
    var k := First(r, entries);
    FirstMatch(r, entries);
    forall i | 0 <= i < |entries| && Matches(entries[i], r) && forall j | 0 <= j < i :: !Matches(entries[j], r)
      ensures i == k
    {
      assert !(i < k) && !(k < i);
    }
  }

  // ---- The indexed, in-place loop ----

  /** The indices of one path. */
  ghost predicate IndexList(routes: seq<Route>, n: nat, p: string, list: seq<nat>)
    requires n <= |routes|
  {
    && (forall i: nat :: i in list <==> i < n && routes[i].path == p && routes[i].authState == "unknown")
    && forall k, l | 0 <= k < l < |list| :: list[k] < list[l]
  }

  /** `byPath` holds, per path, the indices of the gap routes with that path, ascending. */
  ghost predicate Indexed(routes: seq<Route>, n: nat, byPath: map<string, seq<nat>>)
    requires n <= |routes|
  {
    forall p :: IndexList(routes, n, p, ListOf(byPath, p))
  }

  /** The indices listed for a path, none when it has no entry. */
  function ListOf(byPath: map<string, seq<nat>>, p: string): seq<nat> {
    if p in byPath then byPath[p] else []
  }

  lemma AppendIndex(routes: seq<Route>, n: nat, list: seq<nat>)
    requires n < |routes| && routes[n].authState == "unknown" && IndexList(routes, n, routes[n].path, list)
    ensures IndexList(routes, n + 1, routes[n].path, list + [n])
  {
    assert forall k | 0 <= k < |list| :: list[k] in list;
  }

  lemma NotIndexed(routes: seq<Route>, n: nat, p: string, list: seq<nat>)
    requires n < |routes| && !(routes[n].authState == "unknown" && routes[n].path == p) && IndexList(routes, n, p, list)
    ensures IndexList(routes, n + 1, p, list)
  {
  }

  method IndexGaps(routes: seq<Route>) returns (byPath: map<string, seq<nat>>)
    ensures Indexed(routes, |routes|, byPath)
  {
    byPath := map[];
    for i := 0 to |routes|
      invariant Indexed(routes, i, byPath)
    {
      var r := routes[i];
      ghost var was := byPath;
      if r.authState == "unknown" {
        var list := ListOf(byPath, r.path);
        AppendIndex(routes, i, list);
        byPath := byPath[r.path := list + [i]];
      }
      forall p ensures IndexList(routes, i + 1, p, ListOf(byPath, p)) {
        if r.authState != "unknown" || p != r.path { NotIndexed(routes, i, p, ListOf(was, p)); }
      }
    }
  }

  ghost function Touched(a: seq<Route>, b: seq<Route>): set<nat>
    requires |a| == |b|
  {
    set i | 0 <= i < |a| && a[i] != b[i]
  }

  /** Route `r`, labelled so far as `current`, after entry `b` has been offered to it. */
  function Offer(b: Entry, r: Route, current: Route): Route {
    if current.authState == "unknown" && Matches(b, r) then Label(b, r) else current
  }

  method LabelOne(b: Entry, original: Route, current: Route) returns (target: Route, changed: bool)
    requires b.Entry? && Given(b.route) && b.authState.Some? && KnownState(b.authState.value)
    requires original.path == b.route.value && (current.authState == "unknown" ==> current == original)
    ensures target == Offer(b, original, current) && (changed <==> target != current)
  {
    target, changed := current, false;
    if Given(b.verb) && b.verb.value != original.verb { return; }
    if target.authState != "unknown" { return; }
    target := target.(
      authState := b.authState.value,
      authGate := if Given(b.authGate) && !Given(target.authGate) then b.authGate else target.authGate);
    changed := true;
  }

  /** Applies one entry to the candidate routes of its path. */
  method ApplyEntry(original: seq<Route>, b: Entry, candidates: seq<nat>, rs: seq<Route>)
      returns (routes: seq<Route>, applied: nat)
    requires b.Entry? && Given(b.route) && b.authState.Some? && KnownState(b.authState.value)
    requires |rs| == |original|
    requires forall k | 0 <= k < |candidates| :: candidates[k] < |rs| && original[candidates[k]].path == b.route.value
    requires forall k, l | 0 <= k < l < |candidates| :: candidates[k] < candidates[l]
    requires forall i | 0 <= i < |rs| :: rs[i].authState == "unknown" ==> rs[i] == original[i]
    ensures |routes| == |rs|
    ensures forall i | 0 <= i < |rs| :: routes[i] == if i in candidates then Offer(b, original[i], rs[i]) else rs[i]
    ensures applied == |Touched(rs, routes)|
  {
    routes, applied := rs, 0;
    ghost var done: set<nat> := {};
    assert Touched(rs, rs) == {};
    for k := 0 to |candidates|
      invariant |routes| == |rs|
      invariant forall l | 0 <= l < k :: candidates[l] in done
      invariant forall i | i in done :: i in candidates && forall l | k <= l < |candidates| :: i < candidates[l]
      invariant forall i | 0 <= i < |rs| :: routes[i] == if i in done then Offer(b, original[i], rs[i]) else rs[i]
      invariant applied == |Touched(rs, routes)|
    {
      var c := candidates[k];
      done := done + {c};
      var target, changed := LabelOne(b, original[c], routes[c]);
      TouchedUpdate(rs, routes, c, target);
      routes := routes[c := target];
      if changed { applied := applied + 1; }
    }
  }

  lemma TouchedUpdate(a: seq<Route>, b: seq<Route>, c: nat, r: Route)
    requires |a| == |b| && c < |a| && b[c] == a[c]
    ensures |Touched(a, b[c := r])| == |Touched(a, b)| + if r != a[c] then 1 else 0
  {
    if r != a[c] {
      assert Touched(a, b[c := r]) == Touched(a, b) + {c};
    } else {
      assert b[c := r] == b;
    }
  }

  ghost predicate Follows(original: seq<Route>, done: seq<Entry>, routes: seq<Route>) {
    |routes| == |original| && forall i | 0 <= i < |routes| :: routes[i] == Relabel(original[i], done)
  }

  lemma FollowsStep(original: seq<Route>, done: seq<Entry>, b: Entry, rs: seq<Route>, routes: seq<Route>)
    requires Follows(original, done, rs) && |routes| == |rs|
    requires forall i | 0 <= i < |rs| :: routes[i] == Offer(b, original[i], rs[i])
    ensures Follows(original, done + [b], routes)
  {
    forall i | 0 <= i < |routes| ensures routes[i] == Relabel(original[i], done + [b]) {
      RelabelSnoc(original[i], done, b);
    }
  }

  lemma TouchedAdds(a: seq<Route>, b: seq<Route>, c: seq<Route>)
    requires |a| == |b| == |c|
    requires forall i | 0 <= i < |b| && c[i] != b[i] :: b[i] == a[i]
    ensures |Touched(a, c)| == |Touched(a, b)| + |Touched(b, c)|
  {
    assert Touched(a, c) == Touched(a, b) + Touched(b, c);
    assert Touched(a, b) !! Touched(b, c);
  }

  /** The loops refine the rule, route by route, and `applied` counts the routes that changed. A `null`
      entry raises a type error. */
  method LabelAuthBoundaries(original: seq<Route>, boundaries: seq<Entry>) returns (r: Result)
    ensures r.TypeError? <==> exists i | 0 <= i < |boundaries| :: boundaries[i].Null?
    ensures r.Labelled? ==>
              && |r.routes| == |original|
              && (forall i | 0 <= i < |original| :: r.routes[i] == Relabel(original[i], boundaries))
              && r.applied == |Touched(original, r.routes)|
  {
    var byPath := IndexGaps(original);
    var routes, applied := original, 0;
    assert Touched(original, original) == {};
    for n := 0 to |boundaries|
      invariant forall i | 0 <= i < n :: !boundaries[i].Null?
      invariant Follows(original, boundaries[..n], routes)
      invariant applied == |Touched(original, routes)|
    {
      var b := boundaries[n];
      if b.Null? { return TypeError; }
      ghost var was := routes;
      forall i | 0 <= i < |original| ensures routes[i].authState == "unknown" ==> routes[i] == original[i] {
        RelabelSnoc(original[i], boundaries[..n], b);
      }
      assert boundaries[..n + 1] == boundaries[..n] + [b];
      assert b.route.Some? ==> IndexList(original, |original|, b.route.value, ListOf(byPath, b.route.value));
      if Given(b.route) && b.route.value in byPath && b.authState.Some? && KnownState(b.authState.value) {
        var count;
        var candidates := byPath[b.route.value];
        assert forall k | 0 <= k < |candidates| :: candidates[k] in candidates;
        routes, count := ApplyEntry(original, b, candidates, routes);
        applied := applied + count;
        TouchedAdds(original, was, routes);
      }
      forall i | 0 <= i < |was| ensures routes[i] == Offer(b, original[i], was[i]) {
        RelabelSnoc(original[i], boundaries[..n], b);
      }
      FollowsStep(original, boundaries[..n], b, was, routes);
    }
    assert boundaries[..|boundaries|] == boundaries;
    r := Labelled(routes, applied);
  }
}
