/** Threat-model derivation: trust boundaries, weak-auth fan-out, attack surface and scope hints. */
module ThreatModel {
  import opened Options
  import opened Sequences

  datatype AuthState = Public | Authenticated | RoleGated | Unknown

  datatype Op = Read | Write | Delete

  datatype ModelRef = ModelRef(name: string, operations: set<Op>)

  datatype Route = Route(path: string, authState: AuthState, models: seq<ModelRef>)

  datatype SinkKind =
    | SqlQuery | OrmRawQuery | CommandExec | Eval | HtmlRender | TemplateRender | HttpClient
    | FsRead | FsWrite | Deserialize | Redirect | Crypto | OtherSink

  datatype AppMap = AppMap(
    routes: seq<Route>, sinks: seq<SinkKind>, mongodb: bool, thirdPartyCalls: nat,
    ormModels: seq<string>, envSecretSurfaces: nat, cookieSources: nat)

  datatype Stride = Spoofing | Tampering | ElevationOfPrivilege | Repudiation | InformationDisclosure

  datatype BoundaryName = Auth(state: AuthState) | External

  datatype Boundary = Boundary(name: BoundaryName, routePaths: seq<string>, stride: seq<Stride>)

  // ---- Trust boundaries ----

  predicate Weak(s: AuthState) { s == Public || s == Unknown }

  predicate Touches(r: Route, op: Op) { exists i | 0 <= i < |r.models| :: op in r.models[i].operations }

  predicate WritesOrDeletes(r: Route) { Touches(r, Write) || Touches(r, Delete) }

  function PathsOf(routes: seq<Route>, s: AuthState): seq<string> {
    if routes == [] then [] else (if routes[0].authState == s then [routes[0].path] else []) + PathsOf(routes[1..], s)
  }

  /** `[...new Set(xs)]`: first occurrences, in order. */
  function Unique(xs: seq<string>, seen: set<string>): seq<string> {
    if xs == [] then []
    else if xs[0] in seen then Unique(xs[1..], seen)
    else [xs[0]] + Unique(xs[1..], seen + {xs[0]})
  }

  /** The routes of a boundary: its auth state, and a path among the boundary's. */
  predicate InBoundary(r: Route, s: AuthState, paths: seq<string>) { r.authState == s && r.path in paths }

  function StrideFor(s: AuthState, paths: seq<string>, m: AppMap): seq<Stride> {
    if !Weak(s) then []
    else
      [Spoofing]
      + (if exists i | 0 <= i < |m.routes| :: InBoundary(m.routes[i], s, paths) && WritesOrDeletes(m.routes[i])
         then [Tampering, ElevationOfPrivilege, Repudiation] else [])
      + (if exists i | 0 <= i < |m.routes| :: InBoundary(m.routes[i], s, paths) && Touches(m.routes[i], Read)
         then [InformationDisclosure] else [])
  }

  function AuthBoundary(m: AppMap, s: AuthState): seq<Boundary> {
    var paths := PathsOf(m.routes, s);
    if paths == [] then [] else [Boundary(Auth(s), Unique(paths, {}), StrideFor(s, Unique(paths, {}), m))]
  }

  function Boundaries(m: AppMap): seq<Boundary> {
    AuthBoundary(m, Public) + AuthBoundary(m, Authenticated) + AuthBoundary(m, RoleGated) + AuthBoundary(m, Unknown)
    + (if m.thirdPartyCalls > 0 then [Boundary(External, [], [InformationDisclosure])] else [])
  }

  const STATES: seq<AuthState> := [Public, Authenticated, RoleGated, Unknown]

  function Grouped(byState: map<AuthState, seq<string>>, s: AuthState): seq<string> {
    if s in byState then byState[s] else []
  }

  lemma {:induction false} PathsOfSnoc(routes: seq<Route>, r: Route, s: AuthState)
    ensures PathsOf(routes + [r], s) == PathsOf(routes, s) + (if r.authState == s then [r.path] else [])
  {
    if routes == [] {
      assert [] + [r] == [r] && [r][1..] == [];
    } else {
      assert (routes + [r])[1..] == routes[1..] + [r];
      PathsOfSnoc(routes[1..], r, s);
    }
  }

  method GroupByState(routes: seq<Route>) returns (byState: map<AuthState, seq<string>>)
    ensures forall s :: Grouped(byState, s) == PathsOf(routes, s)
    ensures forall s | s in byState :: byState[s] != []
  {
    byState := map[];
    for i := 0 to |routes|
      invariant forall s :: Grouped(byState, s) == PathsOf(routes[..i], s)
      invariant forall s | s in byState :: byState[s] != []
    {
      var r := routes[i];
      assert routes[..i + 1] == routes[..i] + [r];
      forall s ensures PathsOf(routes[..i + 1], s) == PathsOf(routes[..i], s)
          + (if r.authState == s then [r.path] else []) {
        PathsOfSnoc(routes[..i], r, s);
      }
      ghost var was := byState;
      byState := byState[r.authState := Grouped(byState, r.authState) + [r.path]];
      forall s ensures Grouped(byState, s) == PathsOf(routes[..i + 1], s) {
        assert Grouped(was, s) + [] == Grouped(was, s);
      }
    }
    assert routes[..|routes|] == routes;
  }

  /** `buildTrustBoundaries`: routes are grouped into a map, then the states are visited in order. */
  method BuildTrustBoundaries(m: AppMap) returns (boundaries: seq<Boundary>)
    ensures boundaries == Boundaries(m)
  {
    var byState := GroupByState(m.routes);
    boundaries := [];
    for k := 0 to 4
      invariant boundaries == BoundariesUpTo(m, k)
    {
      var s := STATES[k];
      assert Grouped(byState, s) == PathsOf(m.routes, s);
      assert BoundariesUpTo(m, k + 1) == BoundariesUpTo(m, k) + AuthBoundary(m, s);
      if s in byState {
        var unique := Unique(byState[s], {});
        boundaries := boundaries + [Boundary(Auth(s), unique, StrideFor(s, unique, m))];
      }
    }
    AllFourStates(m);
    if m.thirdPartyCalls > 0 {
      boundaries := boundaries + [Boundary(External, [], [InformationDisclosure])];
    }
  }

  lemma AllFourStates(m: AppMap)
    ensures BoundariesUpTo(m, 4) ==
              AuthBoundary(m, Public) + AuthBoundary(m, Authenticated) + AuthBoundary(m, RoleGated)
                + AuthBoundary(m, Unknown)
  {
    assert BoundariesUpTo(m, 1) == AuthBoundary(m, Public);
    assert BoundariesUpTo(m, 2) == AuthBoundary(m, Public) + AuthBoundary(m, Authenticated);
    assert BoundariesUpTo(m, 3) == BoundariesUpTo(m, 2) + AuthBoundary(m, RoleGated);
  }

  ghost function BoundariesUpTo(m: AppMap, k: nat): seq<Boundary>
    requires k <= 4
  {
    if k == 0 then [] else BoundariesUpTo(m, k - 1) + AuthBoundary(m, STATES[k - 1])
  }

  ghost predicate HasRoute(routes: seq<Route>, s: AuthState, p: string) {
    exists i | 0 <= i < |routes| :: routes[i].authState == s && routes[i].path == p
  }

  lemma {:induction false} PathsOfElements(routes: seq<Route>, s: AuthState)
    ensures forall p :: p in PathsOf(routes, s) <==> HasRoute(routes, s, p)
  {
    if routes != [] {
      PathsOfElements(routes[1..], s);
      forall p ensures p in PathsOf(routes, s) <==> HasRoute(routes, s, p) {
        if i :| 0 <= i < |routes[1..]| && routes[1..][i].authState == s && routes[1..][i].path == p {
          assert routes[i + 1].authState == s && routes[i + 1].path == p;
        }
        if i :| 0 <= i < |routes| && routes[i].authState == s && routes[i].path == p {
          if i > 0 { assert routes[1..][i - 1].path == p; }
        }
      }
    }
  }

  ghost predicate NoRepeats(xs: seq<string>) { forall i, j | 0 <= i < j < |xs| :: xs[i] != xs[j] }

  lemma {:induction false} UniqueElements(xs: seq<string>, seen: set<string>)
    ensures forall x :: x in Unique(xs, seen) <==> x in xs && x !in seen
    ensures NoRepeats(Unique(xs, seen))
  {
    if xs != [] {
      assert xs == [xs[0]] + xs[1..];
      if xs[0] in seen {
        UniqueElements(xs[1..], seen);
      } else {
        UniqueElements(xs[1..], seen + {xs[0]});
        var r := Unique(xs[1..], seen + {xs[0]});
        assert forall i | 0 <= i < |r| :: r[i] in r;
      }
    }
  }

  lemma AuthBoundaryExact(m: AppMap, s: AuthState, b: Boundary)
    requires b in AuthBoundary(m, s)
    ensures b.name == Auth(s) && b.routePaths != [] && NoRepeats(b.routePaths)
    ensures forall p :: p in b.routePaths <==> HasRoute(m.routes, s, p)
  {
    var paths := PathsOf(m.routes, s);
    UniqueElements(paths, {});
    PathsOfElements(m.routes, s);
    assert paths[0] in paths && paths[0] in Unique(paths, {});
  }

  /** Some boundary of the state lists the path. */
  ghost predicate Lists(bs: seq<Boundary>, s: AuthState, p: string) {
    exists b | b in bs :: b.name == Auth(s) && p in b.routePaths
  }

  lemma BoundaryOfState(m: AppMap, b: Boundary)
    requires b.name.Auth?
    ensures b in Boundaries(m) <==> b in AuthBoundary(m, b.name.state)
  {
  }

  ghost predicate NamesDiffer(bs: seq<Boundary>) {
    forall i, j | 0 <= i < j < |bs| :: bs[i].name != bs[j].name
  }

  ghost predicate NamedIn(bs: seq<Boundary>, names: set<BoundaryName>) {
    NamesDiffer(bs) && forall b | b in bs :: b.name in names
  }

  lemma NamesConcat(a: seq<Boundary>, b: seq<Boundary>, names: set<BoundaryName>, more: set<BoundaryName>)
    requires NamedIn(a, names) && NamedIn(b, more) && names !! more
    ensures NamedIn(a + b, names + more)
  {
    var c := a + b;
    forall i, j | 0 <= i < j < |c| ensures c[i].name != c[j].name {
      if i < |a| <= j { assert a[i] in a && b[j - |a|] in b; }
    }
  }

  lemma AuthBoundaryNamed(m: AppMap, s: AuthState)
    ensures NamedIn(AuthBoundary(m, s), {Auth(s)})
  {
  }

  lemma PartsDiffer(
    p: seq<Boundary>, q: seq<Boundary>, r: seq<Boundary>, s: seq<Boundary>, external: seq<Boundary>)
    requires NamedIn(p, {Auth(Public)}) && NamedIn(q, {Auth(Authenticated)}) && NamedIn(r, {Auth(RoleGated)})
    requires NamedIn(s, {Auth(Unknown)}) && NamedIn(external, {External})
    ensures NamesDiffer(p + q + r + s + external)
  {
    NamesConcat(p, q, {Auth(Public)}, {Auth(Authenticated)});
    NamesConcat(p + q, r, {Auth(Public)} + {Auth(Authenticated)}, {Auth(RoleGated)});
    var three := {Auth(Public)} + {Auth(Authenticated)} + {Auth(RoleGated)};
    NamesConcat(p + q + r, s, three, {Auth(Unknown)});
    NamesConcat(p + q + r + s, external, three + {Auth(Unknown)}, {External});
  }

  lemma BoundaryNamesDiffer(m: AppMap)
    ensures NamesDiffer(Boundaries(m))
  {
    AuthBoundaryNamed(m, Public);
    AuthBoundaryNamed(m, Authenticated);
    AuthBoundaryNamed(m, RoleGated);
    AuthBoundaryNamed(m, Unknown);
    var external := if m.thirdPartyCalls > 0 then [Boundary(External, [], [InformationDisclosure])] else [];
    PartsDiffer(
      AuthBoundary(m, Public), AuthBoundary(m, Authenticated), AuthBoundary(m, RoleGated), AuthBoundary(m, Unknown),
      external);
  }

  /** The auth boundaries list exactly the (path, auth state) pairs of the routes, one boundary per
      state, none of them empty and no path twice. */
  lemma {:induction false} BoundariesExact(m: AppMap, s: AuthState, p: string)
    ensures Lists(Boundaries(m), s, p) <==> HasRoute(m.routes, s, p)
    ensures NamesDiffer(Boundaries(m))
    ensures forall b | b in Boundaries(m) && b.name == Auth(s) :: b.routePaths != [] && NoRepeats(b.routePaths)
  {
    BoundaryNamesDiffer(m);
    forall b | b in Boundaries(m) && b.name == Auth(s)
      ensures b.routePaths != [] && NoRepeats(b.routePaths)
      ensures p in b.routePaths ==> HasRoute(m.routes, s, p)
    {
      BoundaryOfState(m, b);
      AuthBoundaryExact(m, s, b);
    }
    if HasRoute(m.routes, s, p) {
      PathsOfElements(m.routes, s);
      var b := AuthBoundary(m, s)[0];
      AuthBoundaryExact(m, s, b);
      BoundaryOfState(m, b);
    }
  }

  /** Some route in this state writes, deletes or reads a model. */
  ghost predicate StateTouches(m: AppMap, s: AuthState, ops: set<Op>) {
    exists r, x, op | r in m.routes && x in r.models && op in ops :: r.authState == s && op in x.operations
  }

  lemma TouchesIff(r: Route, op: Op)
    ensures Touches(r, op) <==> exists x | x in r.models :: op in x.operations
  {
  }

  /** A boundary lists every route of its state, so its routes touch what the state's routes touch. */
  lemma BoundaryTouches(m: AppMap, s: AuthState, b: Boundary)
    requires b in Boundaries(m) && b.name == Auth(s)
    ensures b.stride == StrideFor(s, b.routePaths, m)
    ensures forall r | r in m.routes && r.authState == s :: r.path in b.routePaths
  {
    BoundaryOfState(m, b);
    AuthBoundaryExact(m, s, b);
    forall r | r in m.routes && r.authState == s ensures r.path in b.routePaths {
      assert HasRoute(m.routes, s, r.path);
    }
  }

  lemma StateWrites(m: AppMap, s: AuthState, paths: seq<string>)
    requires forall r | r in m.routes && r.authState == s :: r.path in paths
    ensures (exists i | 0 <= i < |m.routes| :: InBoundary(m.routes[i], s, paths) && WritesOrDeletes(m.routes[i]))
       <==> StateTouches(m, s, {Write, Delete})
  {
    if i :| 0 <= i < |m.routes| && InBoundary(m.routes[i], s, paths) && WritesOrDeletes(m.routes[i]) {
      TouchesIff(m.routes[i], Write);
      TouchesIff(m.routes[i], Delete);
      var op := if Touches(m.routes[i], Write) then Write else Delete;
      var x :| x in m.routes[i].models && op in x.operations;
      assert m.routes[i] in m.routes && op in {Write, Delete};
    }
    if r, x, op :| r in m.routes && x in r.models && op in {Write, Delete} && r.authState == s && op in x.operations {
      TouchesIff(r, op);
      var i :| 0 <= i < |m.routes| && m.routes[i] == r;
    }
  }

  lemma StateReads(m: AppMap, s: AuthState, paths: seq<string>)
    requires forall r | r in m.routes && r.authState == s :: r.path in paths
    ensures (exists i | 0 <= i < |m.routes| :: InBoundary(m.routes[i], s, paths) && Touches(m.routes[i], Read))
       <==> StateTouches(m, s, {Read})
  {
    if i :| 0 <= i < |m.routes| && InBoundary(m.routes[i], s, paths) && Touches(m.routes[i], Read) {
      TouchesIff(m.routes[i], Read);
      var x :| x in m.routes[i].models && Read in x.operations;
      assert m.routes[i] in m.routes && Read in {Read};
    }
    if r, x, op :| r in m.routes && x in r.models && op in {Read} && r.authState == s && op in x.operations {
      TouchesIff(r, Read);
      var i :| 0 <= i < |m.routes| && m.routes[i] == r;
    }
  }

  /** Threats of a boundary: none unless its state is public or unknown, and then by what the routes of
      that state do to models. */
  lemma StrideExact(m: AppMap, s: AuthState, b: Boundary)
    requires b in Boundaries(m) && b.name == Auth(s)
    ensures
      var weak := s == Public || s == Unknown;
      var changes, discloses := StateTouches(m, s, {Write, Delete}), StateTouches(m, s, {Read});
      && (Spoofing in b.stride <==> weak)
      && (Tampering in b.stride <==> weak && changes)
      && (ElevationOfPrivilege in b.stride <==> weak && changes)
      && (Repudiation in b.stride <==> weak && changes)
      && (InformationDisclosure in b.stride <==> weak && discloses)
  {
    BoundaryTouches(m, s, b);
    StateWrites(m, s, b.routePaths);
    StateReads(m, s, b.routePaths);
    StrideElements(Weak(s), StateTouches(m, s, {Write, Delete}), StateTouches(m, s, {Read}), b.stride);
  }

  lemma StrideElements(weak: bool, changes: bool, discloses: bool, stride: seq<Stride>)
    requires stride ==
               if !weak then []
               else
                 [Spoofing] + (if changes then [Tampering, ElevationOfPrivilege, Repudiation] else [])
                 + (if discloses then [InformationDisclosure] else [])
    ensures Spoofing in stride <==> weak
    ensures Tampering in stride <==> weak && changes
    ensures ElevationOfPrivilege in stride <==> weak && changes
    ensures Repudiation in stride <==> weak && changes
    ensures InformationDisclosure in stride <==> weak && discloses
  {
  }

  /** The external boundary is there exactly when the app calls third parties. */
  lemma ExternalExact(m: AppMap)
    ensures (exists b | b in Boundaries(m) :: b.name == External) <==> m.thirdPartyCalls > 0
    ensures m.thirdPartyCalls > 0 ==> Boundary(External, [], [InformationDisclosure]) in Boundaries(m)
  {
    if m.thirdPartyCalls > 0 {
      var all := Boundaries(m);
      assert all[|all| - 1] == Boundary(External, [], [InformationDisclosure]);
    }
  }

  // ---- Weak-auth fan-out ----

  datatype FanOut = FanOut(routePaths: seq<string>, models: seq<string>, resolved: bool)

  predicate WeakWriter(r: Route) { Weak(r.authState) && WritesOrDeletes(r) }

  predicate Changes(ref: ModelRef) { Write in ref.operations || Delete in ref.operations }

  /** Routes with public or unresolved auth that write or delete a model. */
  function WeakWriters(routes: seq<Route>): seq<string> {
    if routes == [] then []
    else (if WeakWriter(routes[0]) then [routes[0].path] else []) + WeakWriters(routes[1..])
  }

  function WeakPaths(routes: seq<Route>): seq<string> {
    if routes == [] then [] else (if Weak(routes[0].authState) then [routes[0].path] else []) + WeakPaths(routes[1..])
  }

  /** The names of models that a weak route writes or deletes, first occurrences in order. */
  function WrittenModels(routes: seq<Route>): seq<string> {
    if routes == [] then []
    else (if Weak(routes[0].authState) then WrittenBy(routes[0].models) else []) + WrittenModels(routes[1..])
  }

  function WrittenBy(refs: seq<ModelRef>): seq<string> {
    if refs == [] then []
    else (if Changes(refs[0]) then [refs[0].name] else []) + WrittenBy(refs[1..])
  }

  function WeakAuthModelFanOut(m: AppMap): FanOut {
    if WeakWriters(m.routes) != [] then FanOut(WeakWriters(m.routes), Unique(WrittenModels(m.routes), {}), true)
    else if m.ormModels == [] || WeakPaths(m.routes) == [] then FanOut([], [], false)
    else FanOut(WeakPaths(m.routes), m.ormModels, false)
  }

  lemma {:induction false} WeakRoutes(routes: seq<Route>)
    ensures forall p :: p in WeakWriters(routes) <==> exists r | r in routes :: WeakWriter(r) && r.path == p
    ensures forall p :: p in WeakPaths(routes) <==> exists r | r in routes :: Weak(r.authState) && r.path == p
    ensures WeakWriters(routes) != [] <==> exists r | r in routes :: WeakWriter(r)
  {
    if routes != [] {
      WeakRoutes(routes[1..]);
      assert routes == [routes[0]] + routes[1..];
    }
  }

  lemma {:induction false} WrittenByElements(refs: seq<ModelRef>)
    ensures forall n :: n in WrittenBy(refs) <==> exists x | x in refs :: Changes(x) && x.name == n
  {
    if refs != [] {
      WrittenByElements(refs[1..]);
      assert refs == [refs[0]] + refs[1..];
    }
  }

  ghost predicate Writes(r: Route, name: string) {
    Weak(r.authState) && exists x | x in r.models :: Changes(x) && x.name == name
  }

  lemma {:induction false} WrittenModelsElements(routes: seq<Route>)
    ensures forall n :: n in WrittenModels(routes) <==> exists r | r in routes :: Writes(r, n)
  {
    if routes != [] {
      WrittenModelsElements(routes[1..]);
      WrittenByElements(routes[0].models);
      assert routes == [routes[0]] + routes[1..];
      forall n ensures n in WrittenModels(routes) <==> exists r | r in routes :: Writes(r, n) {
        assert n in WrittenModels(routes) <==> Writes(routes[0], n) || n in WrittenModels(routes[1..]);
        if r :| r in routes && Writes(r, n) { assert r == routes[0] || r in routes[1..]; }
      }
    }
  }

  /** A public or unknown route writes or deletes the model. */
  ghost predicate ModelChanged(m: AppMap, name: string) {
    exists r, x :: ChangedBy(m, name, r, x)
  }

  ghost predicate ChangedBy(m: AppMap, name: string, r: Route, x: ModelRef) {
    && r in m.routes && (r.authState == Public || r.authState == Unknown)
    && x in r.models && x.name == name && (Write in x.operations || Delete in x.operations)
  }

  /** The fan-out is resolved iff a public or unknown route writes or deletes a model; it then names
      exactly those routes and models, and else every such route, if there is any model at all. */
  lemma FanOutExact(m: AppMap)
    ensures
      var f := WeakAuthModelFanOut(m);
      && (f.resolved <==> exists r | r in m.routes :: WeakWriter(r))
      && (f.resolved ==>
            && (forall p :: p in f.routePaths <==> exists r | r in m.routes :: WeakWriter(r) && r.path == p)
            && (forall n :: n in f.models <==> ModelChanged(m, n)) && NoRepeats(f.models))
      && (!f.resolved ==> forall p :: p in f.routePaths <==>
            && m.ormModels != []
            && exists r | r in m.routes :: (r.authState == Public || r.authState == Unknown) && r.path == p)
      && (!f.resolved ==> f.models == if f.routePaths == [] then [] else m.ormModels)
  {
    WeakRoutes(m.routes);
    WrittenModelsElements(m.routes);
    UniqueElements(WrittenModels(m.routes), {});
    forall n ensures n in WrittenModels(m.routes) <==> ModelChanged(m, n) {
      if r :| r in m.routes && Writes(r, n) {
        var x :| x in r.models && Changes(x) && x.name == n;
        assert ChangedBy(m, n, r, x);
      }
      if r, x :| ChangedBy(m, n, r, x) { assert Changes(x) && Writes(r, n); }
    }
  }

  // ---- Attack surface ----

  datatype Category =
    | SqlInjection | NosqlInjection | CommandInjection | Xss | Ssrf | PathTraversal | InsecureDeserialization | Xxe
    | OpenRedirect | WeakCrypto | HardcodedSecret | Csrf | Idor | BrokenAccessControl | BrokenAuthentication
    | MassAssignment

  datatype Plausibility = High | Medium | Low | NoSurface

  datatype Entry = Entry(category: Category, plausibility: Plausibility)

  predicate HasSink(m: AppMap, kinds: set<SinkKind>) { exists i | 0 <= i < |m.sinks| :: m.sinks[i] in kinds }

  function When(c: bool, p: Plausibility): Option<Plausibility> { if c then Some(p) else None }

  /** What the map says about one category, if anything. */
  function Assess(m: AppMap, c: Category): Option<Plausibility> {
    match c
    case SqlInjection => When(HasSink(m, {SqlQuery, OrmRawQuery}), High)
    case NosqlInjection =>
      if !m.mongodb then Some(NoSurface) else When(HasSink(m, {SqlQuery, OrmRawQuery}), Medium)
    case CommandInjection => When(HasSink(m, {CommandExec, Eval}), High)
    case Xss => When(HasSink(m, {HtmlRender, TemplateRender}), High)
    case Ssrf =>
      Some(if HasSink(m, {HttpClient}) then Medium else if m.thirdPartyCalls > 0 then Low else NoSurface)
    case PathTraversal => When(HasSink(m, {FsRead, FsWrite}), High)
    case InsecureDeserialization => Some(if HasSink(m, {Deserialize}) then High else NoSurface)
    case Xxe => Some(if HasSink(m, {Deserialize}) then Medium else NoSurface)
    case OpenRedirect => When(HasSink(m, {Redirect}), Medium)
    case WeakCrypto => When(HasSink(m, {Crypto}), Medium)
    case HardcodedSecret => When(m.envSecretSurfaces > 0, Medium)
    case Csrf => When(m.cookieSources > 0, Medium)
    case Idor => FanOutPlausibility(m)
    case BrokenAccessControl => FanOutPlausibility(m)
    case BrokenAuthentication => When(PathsOf(m.routes, Unknown) != [], Medium)
    case MassAssignment => When(AnyWrites(m.routes), Medium)
  }

  predicate AnyWrites(routes: seq<Route>) { exists i | 0 <= i < |routes| :: Touches(routes[i], Write) }

  function FanOutPlausibility(m: AppMap): Option<Plausibility> {
    var f := WeakAuthModelFanOut(m);
    When(f.routePaths != [], if f.resolved then High else Medium)
  }

  const CATEGORIES: seq<Category> := [
    SqlInjection, NosqlInjection, CommandInjection, Xss, Ssrf, PathTraversal, InsecureDeserialization, Xxe,
    OpenRedirect, WeakCrypto, HardcodedSecret, Csrf, Idor, BrokenAccessControl, BrokenAuthentication, MassAssignment]

  function Surface(m: AppMap, cs: seq<Category>): seq<Entry> {
    if cs == [] then []
    else (match Assess(m, cs[0]) case None => [] case Some(p) => [Entry(cs[0], p)]) + Surface(m, cs[1..])
  }

  function AttackSurface(m: AppMap): seq<Entry> { Surface(m, CATEGORIES) }

  ghost predicate CategoriesDistinct(cs: seq<Category>) { forall i, j | 0 <= i < j < |cs| :: cs[i] != cs[j] }

  function CategoriesOf(es: seq<Entry>): seq<Category> {
    if es == [] then [] else [es[0].category] + CategoriesOf(es[1..])
  }

  lemma {:induction false} SurfaceElements(m: AppMap, cs: seq<Category>)
    requires CategoriesDistinct(cs)
    ensures forall e :: e in Surface(m, cs) <==> e.category in cs && Assess(m, e.category) == Some(e.plausibility)
    ensures CategoriesDistinct(CategoriesOf(Surface(m, cs)))
    ensures forall c | c in CategoriesOf(Surface(m, cs)) :: c in cs
  {
    if cs != [] {
      SurfaceElements(m, cs[1..]);
      assert cs == [cs[0]] + cs[1..];
      forall c | c in cs[1..] ensures c != cs[0] {
        var i :| 0 <= i < |cs[1..]| && cs[1..][i] == c;
        assert cs[i + 1] == c;
      }
      var t := Surface(m, cs[1..]);
      match Assess(m, cs[0])
      case None =>
        assert [] + t == t;
      case Some(p) =>
        assert ([Entry(cs[0], p)] + t)[1..] == t;
        assert forall i | 0 <= i < |CategoriesOf(t)| :: CategoriesOf(t)[i] in CategoriesOf(t);
    }
  }

  lemma TableIsDistinct()
    ensures CategoriesDistinct(CATEGORIES)
    ensures Idor in CATEGORIES
  {
    assert CATEGORIES[12] == Idor;
  }

  /** Each category occurs at most once in the baseline. */
  lemma OncePerCategory(m: AppMap)
    ensures CategoriesDistinct(CategoriesOf(AttackSurface(m)))
    ensures forall e | e in AttackSurface(m) :: Assess(m, e.category) == Some(e.plausibility)
  {
    TableIsDistinct();
    SurfaceElements(m, CATEGORIES);
  }

  /** Route `i` is in state `s` and writes or deletes a model. */
  ghost predicate WriterAt(m: AppMap, s: AuthState, i: nat) {
    i < |m.routes| && m.routes[i].authState == s && WritesOrDeletes(m.routes[i])
  }

  ghost predicate Tampers(m: AppMap, s: AuthState) {
    exists b | b in Boundaries(m) :: b.name == Auth(s) && Tampering in b.stride
  }

  lemma TamperingIff(s: AuthState, paths: seq<string>, m: AppMap)
    ensures Tampering in StrideFor(s, paths, m) <==>
              Weak(s) && exists i: nat | WriterAt(m, s, i) :: m.routes[i].path in paths
  {
    if i :| 0 <= i < |m.routes| && InBoundary(m.routes[i], s, paths) && WritesOrDeletes(m.routes[i]) {
      assert WriterAt(m, s, i);
    }
    if i: nat :| WriterAt(m, s, i) && m.routes[i].path in paths {
      assert InBoundary(m.routes[i], s, paths);
    }
  }

  lemma TamperingNeedsWriter(m: AppMap, s: AuthState)
    requires Tampers(m, s)
    ensures Weak(s) && exists i: nat :: WriterAt(m, s, i)
  {
    var b :| b in Boundaries(m) && b.name == Auth(s) && Tampering in b.stride;
    BoundaryOfState(m, b);
    assert StrideFor(s, b.routePaths, m) == b.stride;
    TamperingIff(s, b.routePaths, m);
  }

  lemma WriterTampers(m: AppMap, s: AuthState, i: nat)
    requires Weak(s) && WriterAt(m, s, i)
    ensures Tampers(m, s)
  {
    assert HasRoute(m.routes, s, m.routes[i].path);
    PathsOfElements(m.routes, s);
    var b := AuthBoundary(m, s)[0];
    AuthBoundaryExact(m, s, b);
    BoundaryOfState(m, b);
    TamperingIff(s, b.routePaths, m);
  }

  lemma IdorAssessment(m: AppMap)
    ensures Assess(m, Idor) == Some(High) <==> WeakWriters(m.routes) != []
  {
  }

  lemma InSurface(m: AppMap, c: Category, p: Plausibility)
    requires c in CATEGORIES
    ensures Entry(c, p) in AttackSurface(m) <==> Assess(m, c) == Some(p)
  {
    TableIsDistinct();
    SurfaceElements(m, CATEGORIES);
  }

  lemma IdorHighIffWriter(m: AppMap)
    ensures Entry(Idor, High) in AttackSurface(m) <==> WeakWriters(m.routes) != []
  {
    TableIsDistinct();
    InSurface(m, Idor, High);
    IdorAssessment(m);
  }

  /** The attack surface and the trust boundaries agree: `idor` is `high` exactly when the public or
      the unresolved boundary carries tampering. */
  lemma {:induction false} IdorHighIffTampering(m: AppMap)
    ensures Entry(Idor, High) in AttackSurface(m) <==> Tampers(m, Public) || Tampers(m, Unknown)
  {
    IdorHighIffWriter(m);
    WeakRoutes(m.routes);
    if Tampers(m, Public) { TamperingNeedsWriter(m, Public); }
    if Tampers(m, Unknown) { TamperingNeedsWriter(m, Unknown); }
    if i :| 0 <= i < |m.routes| && Weak(m.routes[i].authState) && WritesOrDeletes(m.routes[i]) {
      WriterTampers(m, m.routes[i].authState, i);
    }
  }

  method PushInjections(m: AppMap) returns (entries: seq<Entry>)
    ensures entries == Push(m, SqlInjection) + Push(m, NosqlInjection) + Push(m, CommandInjection) + Push(m, Xss)
  {
    entries := [];
    var sql := HasSink(m, {SqlQuery, OrmRawQuery});
    if sql { entries := entries + [Entry(SqlInjection, High)]; }
    if !m.mongodb {
      entries := entries + [Entry(NosqlInjection, NoSurface)];
    } else if sql {
      entries := entries + [Entry(NosqlInjection, Medium)];
    }
    if HasSink(m, {CommandExec, Eval}) { entries := entries + [Entry(CommandInjection, High)]; }
    if HasSink(m, {HtmlRender, TemplateRender}) { entries := entries + [Entry(Xss, High)]; }
  }

  method PushDataFlows(m: AppMap) returns (entries: seq<Entry>)
    ensures entries == Push(m, Ssrf) + Push(m, PathTraversal) + Push(m, InsecureDeserialization) + Push(m, Xxe)
  {
    var http := HasSink(m, {HttpClient});
    if http || m.thirdPartyCalls > 0 {
      entries := [Entry(Ssrf, if http then Medium else Low)];
    } else {
      entries := [Entry(Ssrf, NoSurface)];
    }
    if HasSink(m, {FsRead, FsWrite}) { entries := entries + [Entry(PathTraversal, High)]; }
    if HasSink(m, {Deserialize}) {
      entries := entries + [Entry(InsecureDeserialization, High)];
      entries := entries + [Entry(Xxe, Medium)];
    } else {
      entries := entries + [Entry(InsecureDeserialization, NoSurface)];
      entries := entries + [Entry(Xxe, NoSurface)];
    }
  }

  method PushConfigurations(m: AppMap) returns (entries: seq<Entry>)
    ensures entries == Push(m, OpenRedirect) + Push(m, WeakCrypto) + Push(m, HardcodedSecret) + Push(m, Csrf)
  {
    entries := [];
    if HasSink(m, {Redirect}) { entries := entries + [Entry(OpenRedirect, Medium)]; }
    if HasSink(m, {Crypto}) { entries := entries + [Entry(WeakCrypto, Medium)]; }
    if m.envSecretSurfaces > 0 { entries := entries + [Entry(HardcodedSecret, Medium)]; }
    if m.cookieSources > 0 { entries := entries + [Entry(Csrf, Medium)]; }
  }

  method PushFanOut(m: AppMap) returns (entries: seq<Entry>)
    ensures entries == Push(m, Idor) + Push(m, BrokenAccessControl)
  {
    entries := [];
    var fanOut := WeakAuthModelFanOut(m);
    if |fanOut.routePaths| > 0 {
      var p := if fanOut.resolved then High else Medium;
      entries := entries + [Entry(Idor, p)];
      entries := entries + [Entry(BrokenAccessControl, p)];
    }
  }

  method PushAccess(m: AppMap) returns (entries: seq<Entry>)
    ensures entries == Push(m, Idor) + Push(m, BrokenAccessControl) + Push(m, BrokenAuthentication)
        + Push(m, MassAssignment)
  {
    entries := PushFanOut(m);
    if PathsOf(m.routes, Unknown) != [] { entries := entries + [Entry(BrokenAuthentication, Medium)]; }
    if AnyWrites(m.routes) { entries := entries + [Entry(MassAssignment, Medium)]; }
  }

  /** `buildAttackSurfaceBaseline`: one conditional push after another computes the table of `Assess`. */
  method BuildAttackSurfaceBaseline(m: AppMap) returns (entries: seq<Entry>)
    ensures entries == AttackSurface(m)
  {
    var a := PushInjections(m);
    var b := PushDataFlows(m);
    var c := PushConfigurations(m);
    var d := PushAccess(m);
    FourGroups(m, a, b, c, d);
    entries := a + b + c + d;
  }

  lemma FourGroups(m: AppMap, a: seq<Entry>, b: seq<Entry>, c: seq<Entry>, d: seq<Entry>)
    requires a == Push(m, SqlInjection) + Push(m, NosqlInjection) + Push(m, CommandInjection) + Push(m, Xss)
    requires b == Push(m, Ssrf) + Push(m, PathTraversal) + Push(m, InsecureDeserialization) + Push(m, Xxe)
    requires c == Push(m, OpenRedirect) + Push(m, WeakCrypto) + Push(m, HardcodedSecret) + Push(m, Csrf)
    requires d == Push(m, Idor) + Push(m, BrokenAccessControl) + Push(m, BrokenAuthentication) + Push(m, MassAssignment)
    ensures a + b + c + d == AttackSurface(m)
  {
    PushedNext(m, 0);
    PushedNext(m, 4);
    PushedNext(m, 8);
    PushedNext(m, 12);
    Regroup([], Push(m, SqlInjection), Push(m, NosqlInjection), Push(m, CommandInjection), Push(m, Xss));
    Regroup(a, Push(m, Ssrf), Push(m, PathTraversal), Push(m, InsecureDeserialization), Push(m, Xxe));
    Regroup(a + b, Push(m, OpenRedirect), Push(m, WeakCrypto), Push(m, HardcodedSecret), Push(m, Csrf));
    Regroup(
      a + b + c, Push(m, Idor), Push(m, BrokenAccessControl), Push(m, BrokenAuthentication), Push(m, MassAssignment));
    PushedAll(m, CATEGORIES, 16);
  }

  lemma Regroup(p: seq<Entry>, w: seq<Entry>, x: seq<Entry>, y: seq<Entry>, z: seq<Entry>)
    ensures p + w + x + y + z == p + (w + x + y + z)
    ensures [] + w + x + y + z == w + x + y + z
  {
  }

  /** The pushes for the first `k` categories. */
  ghost function Pushed(m: AppMap, k: nat): seq<Entry>
    requires k <= 16
  {
    assert |CATEGORIES| == 16;
    if k == 0 then [] else Pushed(m, k - 1) + Push(m, CATEGORIES[k - 1])
  }

  ghost function Push(m: AppMap, c: Category): seq<Entry> {
    match Assess(m, c) case None => [] case Some(p) => [Entry(c, p)]
  }

  lemma PushedNext(m: AppMap, k: nat)
    requires k <= 12
    ensures |CATEGORIES| == 16
    ensures Pushed(m, k + 4) ==
              Pushed(m, k) + Push(m, CATEGORIES[k]) + Push(m, CATEGORIES[k + 1]) + Push(m, CATEGORIES[k + 2])
                + Push(m, CATEGORIES[k + 3])
  {
    assert Pushed(m, k + 1) == Pushed(m, k) + Push(m, CATEGORIES[k]);
    assert Pushed(m, k + 2) == Pushed(m, k + 1) + Push(m, CATEGORIES[k + 1]);
    assert Pushed(m, k + 3) == Pushed(m, k + 2) + Push(m, CATEGORIES[k + 2]);
  }

  lemma {:induction false} SurfaceSnoc(m: AppMap, cs: seq<Category>, c: Category)
    ensures Surface(m, cs + [c]) == Surface(m, cs) + Push(m, c)
  {
    if cs == [] {
      assert [] + [c] == [c] && [c][1..] == [];
    } else {
      assert (cs + [c])[1..] == cs[1..] + [c];
      SurfaceSnoc(m, cs[1..], c);
    }
  }

  lemma {:induction false} PushedAll(m: AppMap, cs: seq<Category>, k: nat)
    requires cs == CATEGORIES && k <= 16 == |cs|
    ensures Pushed(m, k) == Surface(m, cs[..k])
    ensures cs[..16] == cs
  {
    if k > 0 {
      PushedAll(m, cs, k - 1);
      assert cs[..k] == cs[..k - 1] + [cs[k - 1]];
      SurfaceSnoc(m, cs[..k - 1], cs[k - 1]);
    }
  }

  // ---- What the map says of each category ----

  lemma EveryCategory(c: Category)
    ensures c in CATEGORIES
  {
    var cs := CATEGORIES;
    var k :=
      match c
      case SqlInjection => 0
      case NosqlInjection => 1
      case CommandInjection => 2
      case Xss => 3
      case Ssrf => 4
      case PathTraversal => 5
      case InsecureDeserialization => 6
      case Xxe => 7
      case OpenRedirect => 8
      case WeakCrypto => 9
      case HardcodedSecret => 10
      case Csrf => 11
      case Idor => 12
      case BrokenAccessControl => 13
      case BrokenAuthentication => 14
      case MassAssignment => 15;
    assert cs[k] == c;
  }

  lemma SurfaceEntry(m: AppMap, c: Category, p: Plausibility)
    ensures Entry(c, p) in AttackSurface(m) <==> Assess(m, c) == Some(p)
  {
    EveryCategory(c);
    InSurface(m, c, p);
  }

  lemma SinkIff(m: AppMap, kinds: set<SinkKind>)
    ensures HasSink(m, kinds) <==> exists k | k in kinds :: k in m.sinks
  {
    if i :| 0 <= i < |m.sinks| && m.sinks[i] in kinds {
      assert m.sinks[i] in m.sinks;
    }
  }

  /** Injection categories are high exactly where their sinks are; NoSQL injection follows the store. */
  lemma InjectionsExact(m: AppMap, p: Plausibility)
    ensures
      var a := AttackSurface(m);
      var sql := SqlQuery in m.sinks || OrmRawQuery in m.sinks;
      && (Entry(SqlInjection, p) in a <==> sql && p == High)
      && (Entry(NosqlInjection, p) in a <==> (!m.mongodb && p == NoSurface) || (m.mongodb && sql && p == Medium))
      && (Entry(CommandInjection, p) in a <==> (CommandExec in m.sinks || Eval in m.sinks) && p == High)
      && (Entry(Xss, p) in a <==> (HtmlRender in m.sinks || TemplateRender in m.sinks) && p == High)
  {
    SurfaceEntry(m, SqlInjection, p);
    SurfaceEntry(m, NosqlInjection, p);
    SurfaceEntry(m, CommandInjection, p);
    SurfaceEntry(m, Xss, p);
    SinkIff(m, {SqlQuery, OrmRawQuery});
    SinkIff(m, {CommandExec, Eval});
    SinkIff(m, {HtmlRender, TemplateRender});
    var a, b, c := {SqlQuery, OrmRawQuery}, {CommandExec, Eval}, {HtmlRender, TemplateRender};
    assert SqlQuery in a && OrmRawQuery in a && CommandExec in b && Eval in b && HtmlRender in c && TemplateRender in c;
  }

  /** Requests, files and deserialization: two categories are listed as without surface when nothing
      points at them, and so is SSRF without any outbound call. */
  lemma DataFlowsExact(m: AppMap, p: Plausibility)
    ensures
      var a := AttackSurface(m);
      var http, load := HttpClient in m.sinks, Deserialize in m.sinks;
      && (Entry(Ssrf, p) in a <==>
            p == if http then Medium else if m.thirdPartyCalls > 0 then Low else NoSurface)
      && (Entry(PathTraversal, p) in a <==> (FsRead in m.sinks || FsWrite in m.sinks) && p == High)
      && (Entry(InsecureDeserialization, p) in a <==> p == if load then High else NoSurface)
      && (Entry(Xxe, p) in a <==> p == if load then Medium else NoSurface)
  {
    SurfaceEntry(m, Ssrf, p);
    SurfaceEntry(m, PathTraversal, p);
    SurfaceEntry(m, InsecureDeserialization, p);
    SurfaceEntry(m, Xxe, p);
    SinkIff(m, {HttpClient});
    SinkIff(m, {FsRead, FsWrite});
    SinkIff(m, {Deserialize});
    var fs := {FsRead, FsWrite};
    assert HttpClient in {HttpClient} && FsRead in fs && FsWrite in fs && Deserialize in {Deserialize};
  }

  /** Redirects, cryptography, secrets and cookies give medium plausibility where they occur. */
  lemma ConfigurationsExact(m: AppMap, p: Plausibility)
    ensures
      var a := AttackSurface(m);
      && (Entry(OpenRedirect, p) in a <==> Redirect in m.sinks && p == Medium)
      && (Entry(WeakCrypto, p) in a <==> Crypto in m.sinks && p == Medium)
      && (Entry(HardcodedSecret, p) in a <==> m.envSecretSurfaces > 0 && p == Medium)
      && (Entry(Csrf, p) in a <==> m.cookieSources > 0 && p == Medium)
  {
    SurfaceEntry(m, OpenRedirect, p);
    SurfaceEntry(m, WeakCrypto, p);
    SurfaceEntry(m, HardcodedSecret, p);
    SurfaceEntry(m, Csrf, p);
    SinkIff(m, {Redirect});
    SinkIff(m, {Crypto});
    assert Redirect in {Redirect} && Crypto in {Crypto};
  }

  /** Access control: high where a weak route changes a model, medium where that is unresolved. */
  lemma AccessExact(m: AppMap, p: Plausibility)
    ensures
      var a := AttackSurface(m);
      var changes := exists r | r in m.routes :: WeakWriter(r);
      var exposed := m.ormModels != [] && exists r | r in m.routes :: Weak(r.authState);
      && (Entry(Idor, p) in a <==> if changes then p == High else exposed && p == Medium)
      && (Entry(BrokenAccessControl, p) in a <==> if changes then p == High else exposed && p == Medium)
  {
    SurfaceEntry(m, Idor, p);
    SurfaceEntry(m, BrokenAccessControl, p);
    FlaggedIff(m);
  }

  /** Authentication is in doubt where a route's state is unknown. */
  lemma AuthenticationExact(m: AppMap, p: Plausibility)
    ensures Entry(BrokenAuthentication, p) in AttackSurface(m) <==>
              p == Medium && exists r | r in m.routes :: r.authState == Unknown
  {
    SurfaceEntry(m, BrokenAuthentication, p);
    UnknownIff(m);
  }

  /** Mass assignment is where a route writes a model. */
  lemma MassAssignmentExact(m: AppMap, p: Plausibility)
    ensures Entry(MassAssignment, p) in AttackSurface(m) <==>
              p == Medium && exists r, x | r in m.routes && x in r.models :: Write in x.operations
  {
    SurfaceEntry(m, MassAssignment, p);
    WriteIff(m);
  }

  /** A weak writer is a public or unknown route with a model that it writes or deletes. */
  lemma WeakWriterExact(r: Route)
    ensures WeakWriter(r) <==>
              && (r.authState == Public || r.authState == Unknown)
              && exists x | x in r.models :: Write in x.operations || Delete in x.operations
  {
    TouchesIff(r, Write);
    TouchesIff(r, Delete);
  }

  lemma FlaggedIff(m: AppMap)
    ensures
      var f := WeakAuthModelFanOut(m);
      var changes := exists r | r in m.routes :: WeakWriter(r);
      && (f.resolved <==> changes)
      && (f.routePaths != [] <==> changes || (m.ormModels != [] && exists r | r in m.routes :: Weak(r.authState)))
  {
    WeakRoutes(m.routes);
    var f := WeakAuthModelFanOut(m);
    if f.routePaths != [] { assert f.routePaths[0] in f.routePaths; }
    if r :| r in m.routes && Weak(r.authState) { assert r.path in WeakPaths(m.routes); }
  }

  lemma UnknownIff(m: AppMap)
    ensures PathsOf(m.routes, Unknown) != [] <==> exists r | r in m.routes :: r.authState == Unknown
  {
    var ps := PathsOf(m.routes, Unknown);
    PathsOfElements(m.routes, Unknown);
    if ps != [] { assert ps[0] in ps; }
    if r :| r in m.routes && r.authState == Unknown { assert HasRoute(m.routes, Unknown, r.path); }
  }

  lemma WriteIff(m: AppMap)
    ensures AnyWrites(m.routes) <==> exists r, x | r in m.routes && x in r.models :: Write in x.operations
  {
    if i :| 0 <= i < |m.routes| && Touches(m.routes[i], Write) {
      TouchesIff(m.routes[i], Write);
      assert m.routes[i] in m.routes;
    }
    if r, x :| r in m.routes && x in r.models && Write in x.operations {
      TouchesIff(r, Write);
      var i :| 0 <= i < |m.routes| && m.routes[i] == r;
    }
  }

  // ---- Scope hints ----

  datatype ScopeHints = ScopeHints(priority: seq<Category>, routePaths: seq<string>, zeroSurface: seq<Category>)

  function OfPlausibility(es: seq<Entry>, p: Plausibility): seq<Category> {
    if es == [] then [] else (if es[0].plausibility == p then [es[0].category] else []) + OfPlausibility(es[1..], p)
  }

  function Order(p: Plausibility): nat { match p case High => 0 case Medium => 1 case Low => 2 case NoSurface => 3 }

  function Prioritized(es: seq<Entry>): seq<Entry> {
    if es == [] then []
    else (if es[0].plausibility == High || es[0].plausibility == Medium then [es[0]] else []) + Prioritized(es[1..])
  }

  function InsertEntry(e: Entry, es: seq<Entry>): seq<Entry> {
    if es == [] || Order(e.plausibility) <= Order(es[0].plausibility) then [e] + es
    else [es[0]] + InsertEntry(e, es[1..])
  }

  /** The stable sort by plausibility. */
  function SortEntries(es: seq<Entry>): seq<Entry> {
    if es == [] then [] else InsertEntry(es[0], SortEntries(es[1..]))
  }

  function BuildScopeHints(m: AppMap, es: seq<Entry>): ScopeHints {
    ScopeHints(
      CategoriesOf(SortEntries(Prioritized(es))),
      Unique(WeakAuthModelFanOut(m).routePaths, {}),
      OfPlausibility(es, NoSurface))
  }

  function Entries(cs: seq<Category>, p: Plausibility): seq<Entry> {
    if cs == [] then [] else [Entry(cs[0], p)] + Entries(cs[1..], p)
  }

  lemma {:induction false} InsertHigh(c: Category, highs: seq<Category>, mediums: seq<Category>)
    ensures InsertEntry(Entry(c, High), Entries(highs, High) + Entries(mediums, Medium))
         == Entries([c] + highs, High) + Entries(mediums, Medium)
  {
    assert ([c] + highs)[1..] == highs;
    assert Entries([c] + highs, High) + Entries(mediums, Medium) == [Entry(c, High)]
        + (Entries(highs, High) + Entries(mediums, Medium));
  }

  lemma {:induction false} InsertMedium(c: Category, highs: seq<Category>, mediums: seq<Category>)
    ensures InsertEntry(Entry(c, Medium), Entries(highs, High) + Entries(mediums, Medium))
         == Entries(highs, High) + Entries([c] + mediums, Medium)
  {
    assert ([c] + mediums)[1..] == mediums;
    var x, y := Entries(mediums, Medium), Entries([c] + mediums, Medium);
    if highs == [] {
      assert [] + x == x && [] + y == y;
    } else {
      InsertMedium(c, highs[1..], mediums);
      var h, t := Entry(highs[0], High), Entries(highs[1..], High);
      Associate([h], t, x);
      Associate([h], t, y);
      assert ([h] + (t + x))[1..] == t + x;
    }
  }

  lemma {:induction false} SortSplits(es: seq<Entry>)
    ensures SortEntries(Prioritized(es)) == Entries(OfPlausibility(es, High), High)
        + Entries(OfPlausibility(es, Medium), Medium)
  {
    if es != [] {
      SortSplits(es[1..]);
      var h, d := OfPlausibility(es[1..], High), OfPlausibility(es[1..], Medium);
      var t := Prioritized(es[1..]);
      assert [] + h == h && [] + d == d && [] + t == t;
      assert ([es[0]] + t)[1..] == t;
      assert SortEntries([es[0]] + t) == InsertEntry(es[0], SortEntries(t));
      match es[0].plausibility
      case High => InsertHigh(es[0].category, h, d);
      case Medium => InsertMedium(es[0].category, h, d);
      case Low =>
      case NoSurface =>
    }
  }

  lemma {:induction false} CategoriesOfConcat(a: seq<Entry>, b: seq<Entry>)
    ensures CategoriesOf(a + b) == CategoriesOf(a) + CategoriesOf(b)
  {
    if a == [] {
      assert a + b == b;
    } else {
      assert (a + b)[1..] == a[1..] + b;
      CategoriesOfConcat(a[1..], b);
    }
  }

  lemma {:induction false} CategoriesOfEntries(a: seq<Category>, p: Plausibility)
    ensures CategoriesOf(Entries(a, p)) == a
  {
    if a != [] {
      CategoriesOfEntries(a[1..], p);
      assert ([Entry(a[0], p)] + Entries(a[1..], p))[1..] == Entries(a[1..], p);
    }
  }

  lemma {:induction false} OfPlausibilityElements(es: seq<Entry>, p: Plausibility)
    ensures forall c :: c in OfPlausibility(es, p) <==> Entry(c, p) in es
    ensures forall c | c in OfPlausibility(es, p) :: c in CategoriesOf(es)
  {
    if es != [] {
      OfPlausibilityElements(es[1..], p);
      assert es == [es[0]] + es[1..];
    }
  }

  lemma {:induction false} OfPlausibilityDistinct(es: seq<Entry>, p: Plausibility)
    requires CategoriesDistinct(CategoriesOf(es))
    ensures CategoriesDistinct(OfPlausibility(es, p))
  {
    if es != [] {
      var cs, t := CategoriesOf(es), OfPlausibility(es[1..], p);
      assert cs == [cs[0]] + CategoriesOf(es[1..]);
      TailDistinct(cs);
      OfPlausibilityDistinct(es[1..], p);
      OfPlausibilityElements(es[1..], p);
      assert forall i | 0 <= i < |t| :: t[i] in t;
    }
  }

  lemma TailDistinct(cs: seq<Category>)
    requires CategoriesDistinct(cs) && cs != []
    ensures CategoriesDistinct(cs[1..]) && cs[0] !in cs[1..]
  {
    assert forall i | 0 <= i < |cs[1..]| :: cs[1..][i] == cs[i + 1];
  }

  lemma {:induction false} CategoryAt(es: seq<Entry>)
    ensures |CategoriesOf(es)| == |es|
    ensures forall i | 0 <= i < |es| :: CategoriesOf(es)[i] == es[i].category
  {
    if es != [] { CategoryAt(es[1..]); }
  }

  lemma EntriesOfOneCategory(es: seq<Entry>, e: Entry, f: Entry)
    requires CategoriesDistinct(CategoriesOf(es)) && e in es && f in es && e.category == f.category
    ensures e == f
  {
    CategoryAt(es);
    var i :| 0 <= i < |es| && es[i] == e;
    var j :| 0 <= j < |es| && es[j] == f;
    assert CategoriesOf(es)[i] == CategoriesOf(es)[j];
  }

  /** The baseline hints: the high categories, then the medium ones, each in surface order; no category
      twice; none of them among the zero-surface categories. */
  lemma ScopeHintsOrdered(m: AppMap)
    ensures
      var es := AttackSurface(m);
      var h := BuildScopeHints(m, es);
      && h.priority == OfPlausibility(es, High) + OfPlausibility(es, Medium)
      && CategoriesDistinct(h.priority)
      && (forall c :: c in h.priority <==> Entry(c, High) in es || Entry(c, Medium) in es)
      && (forall c :: c in h.zeroSurface <==> Entry(c, NoSurface) in es)
      && (forall c | c in h.priority :: c !in h.zeroSurface)
      && NoRepeats(h.routePaths)
  {
    var es := AttackSurface(m);
    OncePerCategory(m);
    SortSplits(es);
    CategoriesOfEntries(OfPlausibility(es, High), High);
    CategoriesOfEntries(OfPlausibility(es, Medium), Medium);
    CategoriesOfConcat(Entries(OfPlausibility(es, High), High), Entries(OfPlausibility(es, Medium), Medium));
    OfPlausibilityElements(es, High);
    OfPlausibilityElements(es, Medium);
    OfPlausibilityElements(es, NoSurface);
    UniqueElements(WeakAuthModelFanOut(m).routePaths, {});
    var h := BuildScopeHints(m, es);
    DisjointParts(es);
    OfPlausibilityDistinct(es, NoSurface);
    forall c | c in h.priority ensures c !in h.zeroSurface {
      if c in h.zeroSurface {
        var p := if Entry(c, High) in es then High else Medium;
        EntriesOfOneCategory(es, Entry(c, p), Entry(c, NoSurface));
      }
    }
  }

  lemma DisjointParts(es: seq<Entry>)
    requires CategoriesDistinct(CategoriesOf(es))
    ensures CategoriesDistinct(OfPlausibility(es, High) + OfPlausibility(es, Medium))
  {
    OfPlausibilityElements(es, High);
    OfPlausibilityElements(es, Medium);
    OfPlausibilityDistinct(es, High);
    OfPlausibilityDistinct(es, Medium);
    var a, b := OfPlausibility(es, High), OfPlausibility(es, Medium);
    forall i, j | 0 <= i < |a| && 0 <= j < |b| ensures a[i] != b[j] {
      assert a[i] in a && b[j] in b;
      if a[i] == b[j] { EntriesOfOneCategory(es, Entry(a[i], High), Entry(b[j], Medium)); }
    }
  }
}
