/** Diff-mode scoping: the changed files and everything on an import path to or from them. */
module DiffScope {
  import opened Options
  import opened Sequences
  import opened Utf16

  // ---- Paths and imports ----

  const SLASH: CodeUnit := '/' as int

  function Slashes(p: Text): (r: Text)
    ensures |r| == |p|
  {
    seq(|p|, i requires 0 <= i < |p| => if p[i] == '\\' as int then SLASH else p[i])
  }

  /** Backslashes become slashes and one leading `./` goes. */
  function Posix(p: Text): Text {
    var s := Slashes(p);
    if StartsWith(s, U("./")) then s[2..] else s
  }

  const SRC: Text := U("src/")
  const DOT_INFIX: Text := U(".")
  const INDEX_INFIX: Text := U("/index.")

  const EXTS: seq<Text> := [U("ts"), U("tsx"), U("js"), U("jsx"), U("mjs"), U("cjs")]

  /** One file of the project: its absolute path and its import specifiers. */
  datatype SourceFile = SourceFile(path: Text, imports: seq<Text>)

  /** `resolvePath(from, spec)` is node's `normalize(join(dirname(from), spec))`. */
  datatype Project = Project(
    dir: Text, sources: seq<SourceFile>, files: set<Text>, resolvePath: (Text, Text) -> Text)

  function DropTwo(t: Text): Text { if |t| >= 2 then t[2..] else [] }

  function Base(p: Project, from: Text, spec: Text): Option<Text> {
    if StartsWith(spec, U(".")) then Some(Posix(p.resolvePath(from, spec)))
    else if StartsWith(spec, U("@/")) || StartsWith(spec, U("~/")) then Some(DropTwo(spec))
    else None
  }

  /** A base equal to the specifier without its first two units is tried under `src/` too. */
  function Bases(base: Text, spec: Text): seq<Text> {
    if base == DropTwo(spec) then [base, SRC + base] else [base]
  }

  function WithExts(b: Text, infix: Text): seq<Text> {
    seq(|EXTS|, i requires 0 <= i < |EXTS| => b + infix + EXTS[i])
  }

  function CandidatesOf(b: Text): seq<Text> { [b] + WithExts(b, DOT_INFIX) + WithExts(b, INDEX_INFIX) }

  function Candidates(bases: seq<Text>): seq<Text> {
    if bases == [] then [] else CandidatesOf(bases[0]) + Candidates(bases[1..])
  }

  /** The first candidate that is a scanned file. */
  function FirstFile(cs: seq<Text>, files: set<Text>): Option<Text> {
    if cs == [] then None else if Posix(cs[0]) in files then Some(Posix(cs[0])) else FirstFile(cs[1..], files)
  }

  function Resolve(p: Project, from: Text, spec: Text): (r: Option<Text>) {
    match Base(p, from, spec)
    case None => None
    case Some(base) => FirstFile(Candidates(Bases(base, spec)), p.files)
  }

  lemma {:induction false} FirstFileIsFirst(cs: seq<Text>, files: set<Text>)
    ensures
      match FirstFile(cs, files)
      case None => forall i | 0 <= i < |cs| :: Posix(cs[i]) !in files
      case Some(f) =>
        f in files && exists i | 0 <= i < |cs| :: Posix(cs[i]) == f && forall j | 0 <= j < i :: Posix(cs[j]) !in files
  {
    if cs != [] && Posix(cs[0]) !in files {
      FirstFileIsFirst(cs[1..], files);
      if f :| FirstFile(cs, files) == Some(f) {
        var i :| 0 <= i < |cs[1..]| && Posix(cs[1..][i]) == f && forall j | 0 <= j < i :: Posix(cs[1..][j]) !in files;
        assert Posix(cs[i + 1]) == f;
        forall j | 0 <= j < i + 1 ensures Posix(cs[j]) !in files {
          if j > 0 { assert Posix(cs[1..][j - 1]) !in files; }
        }
      }
    }
  }

  // ---- What resolution finds ----

  const BACKSLASH: CodeUnit := '\\' as int
  const DOT: CodeUnit := '.' as int

  /** Every backslash is a slash, and a leading `./` or `.\` is gone. */
  lemma PosixExact(p: Text)
    ensures
      var start: nat := if |p| >= 2 && p[0] == DOT && (p[1] == SLASH || p[1] == BACKSLASH) then 2 else 0;
      && |Posix(p)| == |p| - start
      && forall i | 0 <= i < |Posix(p)| ::
           Posix(p)[i] == if p[start + i] == BACKSLASH then SLASH else p[start + i]
  {
    var s := Slashes(p);
    assert StartsWith(s, U("./")) <==> |s| >= 2 && s[0] == DOT && s[1] == SLASH by {
      if |s| >= 2 && s[0] == DOT && s[1] == SLASH { assert s[..2] == U("./"); }
    }
  }

  /** The scanned file of this path. */
  function Scanned(p: Project, path: Text): Option<Text> {
    if Posix(path) in p.files then Some(Posix(path)) else None
  }

  function OrElse(a: Option<Text>, b: Option<Text>): Option<Text> { if a.Some? then a else b }

  const DOT_TS: Text := U(".ts")
  const DOT_TSX: Text := U(".tsx")
  const DOT_JS: Text := U(".js")
  const DOT_JSX: Text := U(".jsx")
  const DOT_MJS: Text := U(".mjs")
  const DOT_CJS: Text := U(".cjs")
  const INDEX_TS: Text := U("/index.ts")
  const INDEX_TSX: Text := U("/index.tsx")
  const INDEX_JS: Text := U("/index.js")
  const INDEX_JSX: Text := U("/index.jsx")
  const INDEX_MJS: Text := U("/index.mjs")
  const INDEX_CJS: Text := U("/index.cjs")

  /** The base as a module with each extension in turn. */
  ghost function WithExtension(p: Project, b: Text): Option<Text> {
    OrElse(Scanned(p, b + DOT_TS), OrElse(Scanned(p, b + DOT_TSX), OrElse(Scanned(p, b + DOT_JS),
    OrElse(Scanned(p, b + DOT_JSX), OrElse(Scanned(p, b + DOT_MJS), Scanned(p, b + DOT_CJS))))))
  }

  /** The base as a directory with an index module of each extension in turn. */
  ghost function WithIndex(p: Project, b: Text): Option<Text> {
    OrElse(Scanned(p, b + INDEX_TS), OrElse(Scanned(p, b + INDEX_TSX),
    OrElse(Scanned(p, b + INDEX_JS), OrElse(Scanned(p, b + INDEX_JSX),
    OrElse(Scanned(p, b + INDEX_MJS), Scanned(p, b + INDEX_CJS))))))
  }

  ghost function AsModule(p: Project, b: Text): Option<Text> {
    OrElse(Scanned(p, b), OrElse(WithExtension(p, b), WithIndex(p, b)))
  }

  ghost function AsModuleOrUnderSrc(p: Project, b: Text): Option<Text> {
    OrElse(AsModule(p, b), AsModule(p, SRC + b))
  }

  /** What an import specifier means: relative to the importing file, or by one of the two aliases from
      the root or `src/`; any other is a package. A relative base that reads like the specifier without
      its first two units is looked for under `src/` too. */
  ghost function ImportTarget(p: Project, from: Text, spec: Text): Option<Text> {
    if |spec| > 0 && spec[0] == DOT then
      var b := Posix(p.resolvePath(from, spec));
      if b == (if |spec| >= 2 then spec[2..] else []) then AsModuleOrUnderSrc(p, b) else AsModule(p, b)
    else if |spec| >= 2 && (spec[0] == '@' as int || spec[0] == '~' as int) && spec[1] == SLASH then
      AsModuleOrUnderSrc(p, spec[2..])
    else None
  }

  lemma {:induction false} FirstFileConcat(a: seq<Text>, b: seq<Text>, files: set<Text>)
    ensures FirstFile(a + b, files) == OrElse(FirstFile(a, files), FirstFile(b, files))
  {
    if a == [] {
      assert a + b == b;
    } else {
      assert (a + b)[1..] == a[1..] + b;
      FirstFileConcat(a[1..], b, files);
    }
  }

  lemma FirstOfFiles(p: Project, cs: seq<Text>, i: nat)
    requires i < |cs|
    ensures FirstFile(cs[i..], p.files) == OrElse(Scanned(p, cs[i]), FirstFile(cs[i + 1..], p.files))
  {
    assert cs[i..][1..] == cs[i + 1..];
  }

  lemma {:induction false} SixFiles(p: Project, cs: seq<Text>)
    requires |cs| == 6
    ensures FirstFile(cs, p.files) ==
              OrElse(Scanned(p, cs[0]), OrElse(Scanned(p, cs[1]), OrElse(Scanned(p, cs[2]),
              OrElse(Scanned(p, cs[3]), OrElse(Scanned(p, cs[4]), Scanned(p, cs[5]))))))
  {
    FirstOfFiles(p, cs, 0);
    FirstOfFiles(p, cs, 1);
    FirstOfFiles(p, cs, 2);
    FirstOfFiles(p, cs, 3);
    FirstOfFiles(p, cs, 4);
    FirstOfFiles(p, cs, 5);
    assert cs[0..] == cs && cs[6..] == [];
  }

  /** The suffixes that the candidates are made of. */
  lemma DotSuffixes()
    ensures |EXTS| == 6
    ensures DOT_INFIX + EXTS[0] == DOT_TS && DOT_INFIX + EXTS[1] == DOT_TSX && DOT_INFIX + EXTS[2] == DOT_JS
    ensures DOT_INFIX + EXTS[3] == DOT_JSX && DOT_INFIX + EXTS[4] == DOT_MJS && DOT_INFIX + EXTS[5] == DOT_CJS
  {
  }

  lemma IndexSuffixes()
    ensures |EXTS| == 6
    ensures INDEX_INFIX + EXTS[0] == INDEX_TS && INDEX_INFIX + EXTS[1] == INDEX_TSX
    ensures INDEX_INFIX + EXTS[2] == INDEX_JS && INDEX_INFIX + EXTS[3] == INDEX_JSX
    ensures INDEX_INFIX + EXTS[4] == INDEX_MJS && INDEX_INFIX + EXTS[5] == INDEX_CJS
  {
  }

  lemma WithExtAt(b: Text, infix: Text, i: nat)
    requires i < |EXTS|
    ensures |WithExts(b, infix)| == |EXTS| && WithExts(b, infix)[i] == b + (infix + EXTS[i])
  {
    Associate(b, infix, EXTS[i]);
  }

  lemma {:induction false} SixExtensions(p: Project, b: Text, infix: Text)
    requires |EXTS| == 6
    ensures FirstFile(WithExts(b, infix), p.files) ==
              OrElse(Scanned(p, b + (infix + EXTS[0])), OrElse(Scanned(p, b + (infix + EXTS[1])),
              OrElse(Scanned(p, b + (infix + EXTS[2])), OrElse(Scanned(p, b + (infix + EXTS[3])),
              OrElse(Scanned(p, b + (infix + EXTS[4])), Scanned(p, b + (infix + EXTS[5])))))))
  {
    WithExtAt(b, infix, 0);
    WithExtAt(b, infix, 1);
    WithExtAt(b, infix, 2);
    WithExtAt(b, infix, 3);
    WithExtAt(b, infix, 4);
    WithExtAt(b, infix, 5);
    SixFiles(p, WithExts(b, infix));
  }

  lemma {:induction false} ExtensionFiles(p: Project, b: Text)
    ensures FirstFile(WithExts(b, DOT_INFIX), p.files) == WithExtension(p, b)
  {
    DotSuffixes();
    SixExtensions(p, b, DOT_INFIX);
  }

  lemma {:induction false} IndexFiles(p: Project, b: Text)
    ensures FirstFile(WithExts(b, INDEX_INFIX), p.files) == WithIndex(p, b)
  {
    IndexSuffixes();
    SixExtensions(p, b, INDEX_INFIX);
  }

  lemma {:induction false} CandidatesAreModule(p: Project, b: Text)
    ensures FirstFile(CandidatesOf(b), p.files) == AsModule(p, b)
  {
    FirstFileConcat([b] + WithExts(b, DOT_INFIX), WithExts(b, INDEX_INFIX), p.files);
    FirstFileConcat([b], WithExts(b, DOT_INFIX), p.files);
    assert FirstFile([b], p.files) == Scanned(p, b) by { FirstOfFiles(p, [b], 0); }
    ExtensionFiles(p, b);
    IndexFiles(p, b);
  }

  lemma {:induction false} OneBase(p: Project, b: Text)
    ensures FirstFile(Candidates([b]), p.files) == FirstFile(CandidatesOf(b), p.files)
  {
    var cs := CandidatesOf(b);
    assert Candidates([b]) == cs + Candidates([b][1..]) == cs;
  }

  lemma {:induction false} TwoBases(p: Project, b: Text, c: Text)
    ensures FirstFile(Candidates([b, c]), p.files)
         == OrElse(FirstFile(CandidatesOf(b), p.files), FirstFile(CandidatesOf(c), p.files))
  {
    assert [b, c][1..] == [c];
    FirstFileConcat(CandidatesOf(b), Candidates([c]), p.files);
    OneBase(p, c);
  }

  lemma {:induction false} SearchOfBases(p: Project, b: Text, spec: Text)
    ensures
      var own, under := FirstFile(CandidatesOf(b), p.files), FirstFile(CandidatesOf(SRC + b), p.files);
      FirstFile(Candidates(Bases(b, spec)), p.files) == if b == DropTwo(spec) then OrElse(own, under) else own
  {
    OneBase(p, b);
    TwoBases(p, b, SRC + b);
  }

  lemma {:induction false} BasesAreModules(p: Project, b: Text, spec: Text)
    ensures FirstFile(Candidates(Bases(b, spec)), p.files)
         == if b == DropTwo(spec) then AsModuleOrUnderSrc(p, b) else AsModule(p, b)
  {
    SearchOfBases(p, b, spec);
    CandidatesAreModule(p, b);
    CandidatesAreModule(p, SRC + b);
  }

  /** The search over candidates finds exactly what the specifier means. */
  lemma {:induction false} ResolveExact(p: Project, from: Text, spec: Text)
    ensures Resolve(p, from, spec) == ImportTarget(p, from, spec)
  {
    assert StartsWith(spec, U(".")) <==> |spec| > 0 && spec[0] == DOT;
    assert StartsWith(spec, U("@/")) <==> |spec| >= 2 && spec[0] == '@' as int && spec[1] == SLASH;
    assert StartsWith(spec, U("~/")) <==> |spec| >= 2 && spec[0] == '~' as int && spec[1] == SLASH;
    var b := Base(p, from, spec);
    if b.Some? { BasesAreModules(p, b.value, spec); }
  }

  method AllCandidates(bases: seq<Text>) returns (candidates: seq<Text>)
    ensures candidates == Candidates(bases)
  {
    candidates := [];
    assert bases[0..] == bases && [] + Candidates(bases) == Candidates(bases);
    for i := 0 to |bases|
      invariant candidates + Candidates(bases[i..]) == Candidates(bases)
    {
      assert bases[i..][0] == bases[i] && bases[i..][1..] == bases[i + 1..];
      Associate(candidates, CandidatesOf(bases[i]), Candidates(bases[i + 1..]));
      candidates := candidates + CandidatesOf(bases[i]);
    }
    Associate(candidates, [], []);
  }

  /** The loop over the candidates. */
  method FindFile(candidates: seq<Text>, files: set<Text>) returns (r: Option<Text>)
    ensures r == FirstFile(candidates, files)
    ensures r.Some? ==> r.value in files
  {
    for i := 0 to |candidates|
      invariant FirstFile(candidates[i..], files) == FirstFile(candidates, files)
    {
      assert candidates[i..][0] == candidates[i] && candidates[i..][1..] == candidates[i + 1..];
      var norm := Posix(candidates[i]);
      if norm in files { return Some(norm); }
    }
    return None;
  }

  method ResolveImport(p: Project, from: Text, spec: Text) returns (r: Option<Text>)
    ensures r == Resolve(p, from, spec)
    ensures r == ImportTarget(p, from, spec)
    ensures r.Some? ==> r.value in p.files
  {
    ResolveExact(p, from, spec);
    var base := Base(p, from, spec);
    if base.None? { return None; }
    var candidates := AllCandidates(Bases(base.value, spec));
    r := FindFile(candidates, p.files);
  }

  function RelPath(p: Project, abs: Text): Text {
    var d := Posix(p.dir);
    if StartsWith(abs, d) then
      var rest := abs[|d|..];
      Posix(if rest != [] && rest[0] == SLASH then rest[1..] else rest)
    else Posix(abs)
  }

  // ---- The import graph ----

  type Graph = map<Text, set<Text>>

  function Next(g: Graph, a: Text): set<Text> { if a in g then g[a] else {} }

  /** Source `i` is file `a`, and one of its imports resolves to another file `b`. */
  ghost predicate EdgeAt(p: Project, i: nat, a: Text, b: Text)
    requires i < |p.sources|
  {
    && RelPath(p, p.sources[i].path) == a && a in p.files && b != [] && b != a
    && ImportsBefore(p, i, |p.sources[i].imports|, a, b)
  }

  ghost predicate Edge(p: Project, a: Text, b: Text) {
    exists i | 0 <= i < |p.sources| :: EdgeAt(p, i, a, b)
  }

  /** A path below the project's directory is taken relative to it. */
  lemma RelPathExact(p: Project, rest: Text)
    ensures RelPath(p, Posix(p.dir) + [SLASH] + rest) == Posix(rest)
    ensures !StartsWith(rest, Posix(p.dir)) ==> RelPath(p, rest) == Posix(rest)
  {
    var abs := Posix(p.dir) + [SLASH] + rest;
    assert abs[|Posix(p.dir)|..] == [SLASH] + rest && ([SLASH] + rest)[1..] == rest;
    assert abs[..|Posix(p.dir)|] == Posix(p.dir);
  }

  /** The edges, in terms of what the imports mean: none to itself, and none to a nameless file. */
  lemma EdgeExact(p: Project, a: Text, b: Text)
    ensures Edge(p, a, b) <==>
              exists i: nat, m: nat :: ImportIs(p, i, m, a, b)
  {
    if i: nat, m: nat :| ImportIs(p, i, m, a, b) {
      ResolveExact(p, a, p.sources[i].imports[m]);
      assert EdgeAt(p, i, a, b);
    }
    if i :| 0 <= i < |p.sources| && EdgeAt(p, i, a, b) {
      var m :| 0 <= m < |p.sources[i].imports| && Resolve(p, a, p.sources[i].imports[m]) == Some(b);
      ResolveExact(p, a, p.sources[i].imports[m]);
      assert ImportIs(p, i, m, a, b);
    }
  }

  /** Import `m` of source `i`, which is the scanned file `a`, means the other file `b`. */
  ghost predicate ImportIs(p: Project, i: nat, m: nat, a: Text, b: Text) {
    && i < |p.sources| && m < |p.sources[i].imports|
    && a == RelPath(p, p.sources[i].path) && a in p.files && a != b && |b| > 0
    && ImportTarget(p, a, p.sources[i].imports[m]) == Some(b)
  }

  ghost predicate Converse(g: Graph, r: Graph) {
    forall a, b :: b in Next(g, a) <==> a in Next(r, b)
  }

  ghost predicate IsImportGraph(p: Project, g: Graph) {
    forall a, b :: b in Next(g, a) <==> Edge(p, a, b)
  }

  function AddEdge(g: Graph, a: Text, b: Text): (r: Graph)
    ensures forall x, y :: y in Next(r, x) <==> y in Next(g, x) || (x == a && y == b)
  {
    g[a := Next(g, a) + {b}]
  }

  ghost predicate ImportsBefore(p: Project, i: nat, m: nat, a: Text, b: Text)
    requires i < |p.sources| && m <= |p.sources[i].imports|
  {
    exists j | 0 <= j < m :: Resolve(p, a, p.sources[i].imports[j]) == Some(b)
  }

  ghost predicate EdgeBefore(p: Project, n: nat, a: Text, b: Text)
    requires n <= |p.sources|
  {
    exists i | 0 <= i < n :: EdgeAt(p, i, a, b)
  }

  /** An edge that the first `m` imports of source `n`, file `rel`, give. */
  ghost predicate NewEdge(p: Project, n: nat, m: nat, rel: Text, a: Text, b: Text)
    requires n < |p.sources| && m <= |p.sources[n].imports|
  {
    a == rel && b != [] && b != rel && ImportsBefore(p, n, m, rel, b)
  }

  method AddImports(p: Project, n: nat, rel: Text, f: Graph, r: Graph) returns (forward: Graph, reverse: Graph)
    requires n < |p.sources| && Converse(f, r)
    ensures Converse(forward, reverse)
    ensures forall a, b ::
              b in Next(forward, a) <==> b in Next(f, a) || NewEdge(p, n, |p.sources[n].imports|, rel, a, b)
  {
    forward, reverse := f, r;
    var imports := p.sources[n].imports;
    for m := 0 to |imports|
      invariant Converse(forward, reverse)
      invariant forall a, b :: b in Next(forward, a) <==> b in Next(f, a) || NewEdge(p, n, m, rel, a, b)
    {
      var target := ResolveImport(p, rel, imports[m]);
      forall a, b
        ensures NewEdge(p, n, m + 1, rel, a, b) <==>
                  NewEdge(p, n, m, rel, a, b) || (a == rel && b != [] && b != rel && target == Some(b))
      {
      }
      if target.None? || target.value == [] || target.value == rel { continue; }
      forward := AddEdge(forward, rel, target.value);
      reverse := AddEdge(reverse, target.value, rel);
    }
  }

  lemma EdgesAreFiles(p: Project, a: Text, b: Text)
    requires Edge(p, a, b)
    ensures a in p.files && b in p.files
  {
    var i :| 0 <= i < |p.sources| && EdgeAt(p, i, a, b);
    var j :| 0 <= j < |p.sources[i].imports| && Resolve(p, a, p.sources[i].imports[j]) == Some(b);
    var spec := p.sources[i].imports[j];
    FirstFileIsFirst(Candidates(Bases(Base(p, a, spec).value, spec)), p.files);
  }

  /** Filled edge by edge, the two graphs stay converses of each other. */
  method BuildGraphs(p: Project) returns (forward: Graph, reverse: Graph)
    ensures IsImportGraph(p, forward) && Converse(forward, reverse)
  {
    forward, reverse := map[], map[];
    for n := 0 to |p.sources|
      invariant forall a, b :: b in Next(forward, a) <==> EdgeBefore(p, n, a, b)
      invariant Converse(forward, reverse)
    {
      var rel := RelPath(p, p.sources[n].path);
      forall a, b
        ensures EdgeBefore(p, n + 1, a, b) <==>
                  EdgeBefore(p, n, a, b) || (rel in p.files && NewEdge(p, n, |p.sources[n].imports|, rel, a, b))
      {
        assert EdgeBefore(p, n + 1, a, b) <==> EdgeBefore(p, n, a, b) || EdgeAt(p, n, a, b);
      }
      if rel !in p.files { continue; }
      forward, reverse := AddImports(p, n, rel, forward, reverse);
    }
  }

  // ---- Reachability ----

  ghost predicate IsPath(g: Graph, p: seq<Text>) {
    |p| > 0 && forall i | 0 <= i < |p| - 1 :: p[i + 1] in Next(g, p[i])
  }

  ghost predicate Reaches(g: Graph, a: Text, b: Text) {
    exists p :: IsPath(g, p) && p[0] == a && p[|p| - 1] == b
  }

  ghost predicate ReachedFrom(g: Graph, start: seq<Text>, b: Text) {
    exists a | a in start :: Reaches(g, a, b)
  }

  lemma ReachesSelf(g: Graph, a: Text)
    ensures Reaches(g, a, a)
  {
    assert IsPath(g, [a]);
  }

  lemma ReachesStep(g: Graph, a: Text, b: Text, c: Text)
    requires Reaches(g, a, b) && c in Next(g, b)
    ensures Reaches(g, a, c)
  {
    var p :| IsPath(g, p) && p[0] == a && p[|p| - 1] == b;
    assert IsPath(g, p + [c]);
  }

  /** A closed set keeps every path that starts in it. */
  lemma {:induction false} ClosedKeepsPath(g: Graph, s: set<Text>, p: seq<Text>)
    requires IsPath(g, p) && p[0] in s
    requires forall v | v in s :: Next(g, v) <= s
    ensures p[|p| - 1] in s
  {
    if |p| > 1 {
      forall i | 0 <= i < |p[1..]| - 1 ensures p[1..][i + 1] in Next(g, p[1..][i]) {
        assert p[i + 1 + 1] in Next(g, p[i + 1]);
      }
      assert p[0 + 1] in Next(g, p[0]);
      ClosedKeepsPath(g, s, p[1..]);
    }
  }

  lemma {:induction false} ReachesBack(g: Graph, r: Graph, a: Text, b: Text)
    requires Converse(g, r) && Reaches(g, a, b)
    ensures Reaches(r, b, a)
  {
    var p :| IsPath(g, p) && p[0] == a && p[|p| - 1] == b;
    var q := seq(|p|, i requires 0 <= i < |p| => p[|p| - 1 - i]);
    forall i | 0 <= i < |q| - 1 ensures q[i + 1] in Next(r, q[i]) {
      var j := |p| - 2 - i;
      assert p[j + 1] in Next(g, p[j]);
    }
    assert IsPath(r, q);
  }

  /** Reaching forwards is being reached backwards. */
  lemma ReachesConverse(g: Graph, r: Graph, a: Text, b: Text)
    requires Converse(g, r)
    ensures Reaches(g, a, b) <==> Reaches(r, b, a)
  {
    if Reaches(g, a, b) { ReachesBack(g, r, a, b); }
    if Reaches(r, b, a) { ReachesBack(r, g, b, a); }
  }

  /** One round: every successor not yet visited is marked and queued. */
  method Visit(successors: set<Text>, visited: set<Text>, queue: seq<Text>) returns (v: set<Text>, q: seq<Text>)
    ensures v == visited + successors
    ensures forall x :: x in q <==> x in queue || x in successors - visited
    ensures v == visited ==> q == queue
  {
    v, q := visited, queue;
    var todo := successors;
    while todo != {}
      invariant todo <= successors
      invariant v == visited + (successors - todo)
      invariant forall x :: x in q <==> x in queue || x in v - visited
      invariant v == visited ==> q == queue
      decreases todo
    {
      var next :| next in todo;
      todo := todo - {next};
      if next !in v {
        v := v + {next};
        q := q + [next];
      }
    }
  }

  lemma ReachedStep(g: Graph, start: seq<Text>, cur: Text)
    requires ReachedFrom(g, start, cur)
    ensures forall v | v in Next(g, cur) :: ReachedFrom(g, start, v)
  {
    forall v | v in Next(g, cur) ensures ReachedFrom(g, start, v) {
      var a :| a in start && Reaches(g, a, cur);
      ReachesStep(g, a, cur, v);
    }
  }

  lemma ClosedHoldsReached(g: Graph, start: seq<Text>, s: set<Text>, b: Text)
    requires forall a | a in start :: a in s
    requires forall v | v in s :: Next(g, v) <= s
    requires ReachedFrom(g, start, b)
    ensures b in s
  {
    var a :| a in start && Reaches(g, a, b);
    var p :| IsPath(g, p) && p[0] == a && p[|p| - 1] == b;
    ClosedKeepsPath(g, s, p);
  }

  /** Every visited file waits in the queue or has all its successors visited. */
  ghost predicate Pending(g: Graph, visited: set<Text>, queue: seq<Text>) {
    && (forall v | v in queue :: v in visited)
    && forall v | v in visited :: v in queue || Next(g, v) <= visited
  }

  lemma PendingStep(g: Graph, visited: set<Text>, queue: seq<Text>, q: seq<Text>)
    requires queue != [] && Pending(g, visited, queue)
    requires forall x :: x in q <==> x in queue[1..] || x in Next(g, queue[0]) - visited
    ensures Pending(g, visited + Next(g, queue[0]), q)
  {
    assert queue == [queue[0]] + queue[1..];
  }

  lemma VisitShrinks(universe: set<Text>, before: set<Text>, after: set<Text>)
    requires before <= after <= universe
    ensures before == after || |universe - after| < |universe - before|
  {
    if before != after {
      var x :| x in after && x !in before;
      assert universe - after <= universe - before - {x};
      SubsetSize(universe - after, universe - before - {x});
    }
  }

  lemma SubsetSize(a: set<Text>, b: set<Text>)
    requires a <= b
    ensures |a| <= |b|
  {
    assert b == a + (b - a);
  }

  /** What every round of the search keeps. */
  ghost predicate Searching(g: Graph, start: seq<Text>, universe: set<Text>, visited: set<Text>, queue: seq<Text>) {
    && visited <= universe && Pending(g, visited, queue)
    && (forall a | a in start :: a in visited)
    && forall v | v in visited :: ReachedFrom(g, start, v)
  }

  method Round(g: Graph, ghost start: seq<Text>, ghost universe: set<Text>, visited: set<Text>, queue: seq<Text>)
    returns (v: set<Text>, q: seq<Text>)
    requires Searching(g, start, universe, visited, queue) && queue != []
    requires forall a, b | b in Next(g, a) :: b in universe
    ensures Searching(g, start, universe, v, q)
    ensures |universe - v| < |universe - visited| || (v == visited && |q| < |queue|)
  {
    var cur := queue[0];
    ReachedStep(g, start, cur);
    v, q := Visit(Next(g, cur), visited, queue[1..]);
    PendingStep(g, visited, queue, q);
    VisitShrinks(universe, visited, v);
  }

  /** The worklist search visits exactly what the start files reach. */
  method Search(g: Graph, start: seq<Text>, ghost universe: set<Text>) returns (visited: set<Text>)
    requires forall a | a in start :: a in universe
    requires forall a, b | b in Next(g, a) :: b in universe
    ensures forall b :: b in visited <==> ReachedFrom(g, start, b)
  {
    visited := set a | a in start;
    var queue := start;
    forall a | a in start ensures ReachedFrom(g, start, a) { ReachesSelf(g, a); }
    while queue != []
      invariant Searching(g, start, universe, visited, queue)
      decreases |universe - visited|, |queue|
    {
      visited, queue := Round(g, start, universe, visited, queue);
    }
    forall b | ReachedFrom(g, start, b) ensures b in visited {
      ClosedHoldsReached(g, start, visited, b);
    }
  }

  // ---- Sorting ----

  ghost predicate StrictlySorted(s: seq<Text>) {
    forall i, j | 0 <= i < j < |s| :: Less(s[i], s[j])
  }

  /** `[...set].sort()`. */
  method SortedElements(s: set<Text>) returns (r: seq<Text>)
    ensures StrictlySorted(r) && forall x :: x in r <==> x in s
  {
    r := [];
    var todo := s;
    while todo != {}
      invariant todo <= s && StrictlySorted(r)
      invariant forall x :: x in r <==> x in s - todo
      decreases todo
    {
      var x :| x in todo;
      todo := todo - {x};
      var i := 0;
      while i < |r| && Less(r[i], x)
        invariant 0 <= i <= |r|
        invariant forall j | 0 <= j < i :: Less(r[j], x)
      {
        i := i + 1;
      }
      forall j | i <= j < |r| ensures Less(x, r[j]) {
        assert r[i] in r && r[j] in r;
        LessTotal(r[i], x);
        if j > i { LessTransitive(x, r[i], r[j]); }
      }
      ghost var was := r;
      r := r[..i] + [x] + r[i..];
      assert was == was[..i] + was[i..];
      assert forall y :: y in r <==> y == x || y in was;
    }
  }

  // ---- The scope ----

  datatype Scope = Scope(changedFiles: seq<Text>, reachable: seq<Text>)

  ghost function Changed(p: Project, raw: seq<Text>): set<Text> {
    set f | f in p.files && exists i | 0 <= i < |raw| :: Posix(raw[i]) == f
  }

  /** On an import path from a changed file, or on one to a changed file. */
  ghost predicate InScope(g: Graph, changed: set<Text>, f: Text) {
    exists c | c in changed :: Reaches(g, c, f) || Reaches(g, f, c)
  }

  /** In scope of the project: by its import edges, whichever graph holds them. */
  ghost predicate InScopeOf(p: Project, changed: set<Text>, f: Text) {
    forall g | IsImportGraph(p, g) :: InScope(g, changed, f)
  }

  /** The graph a project determines is unique up to its edges. */
  lemma SameEdgesSameReach(g: Graph, h: Graph, a: Text, b: Text)
    requires forall x, y :: y in Next(g, x) <==> y in Next(h, x)
    ensures Reaches(g, a, b) <==> Reaches(h, a, b)
  {
    if Reaches(g, a, b) {
      var p :| IsPath(g, p) && p[0] == a && p[|p| - 1] == b;
      assert IsPath(h, p);
    }
    if Reaches(h, a, b) {
      var p :| IsPath(h, p) && p[0] == a && p[|p| - 1] == b;
      assert IsPath(g, p);
    }
  }

  /** Hence any one import graph of the project decides its scope. */
  lemma AnyImportGraph(p: Project, g: Graph, changed: set<Text>, f: Text)
    requires IsImportGraph(p, g)
    ensures InScope(g, changed, f) <==> InScopeOf(p, changed, f)
  {
    forall h | IsImportGraph(p, h) && InScope(g, changed, f) ensures InScope(h, changed, f) {
      var c :| c in changed && (Reaches(g, c, f) || Reaches(g, f, c));
      SameEdgesSameReach(g, h, c, f);
      SameEdgesSameReach(g, h, f, c);
    }
  }

  lemma ScopeFromSearches(g: Graph, r: Graph, changed: seq<Text>, cs: set<Text>, f: Text)
    requires Converse(g, r) && forall c :: c in changed <==> c in cs
    ensures f in changed || ReachedFrom(g, changed, f) || ReachedFrom(r, changed, f) <==> InScope(g, cs, f)
  {
    if f in changed { ReachesSelf(g, f); }
    if c :| c in changed && Reaches(r, c, f) { ReachesConverse(g, r, f, c); }
    if c :| c in cs && Reaches(g, f, c) { ReachesConverse(g, r, f, c); }
  }

  method ComputeDiffScope(p: Project, changedFilesRaw: seq<Text>) returns (r: Scope)
    ensures StrictlySorted(r.changedFiles) && StrictlySorted(r.reachable)
    ensures forall f :: f in r.changedFiles <==>
              f in p.files && exists i | 0 <= i < |changedFilesRaw| :: Posix(changedFilesRaw[i]) == f
    ensures forall f :: f in r.reachable <==> InScopeOf(p, Changed(p, changedFilesRaw), f)
  {
    var forward, reverse := BuildGraphs(p);
    var changed: seq<Text> := [];
    for i := 0 to |changedFilesRaw|
      invariant forall f :: f in changed <==> f in p.files && exists j | 0 <= j < i :: Posix(changedFilesRaw[j]) == f
    {
      var f := Posix(changedFilesRaw[i]);
      if f in p.files { changed := changed + [f]; }
    }
    forall a, b | b in Next(forward, a) ensures a in p.files && b in p.files { EdgesAreFiles(p, a, b); }
    var down := Search(forward, changed, p.files);
    var up := Search(reverse, changed, p.files);
    var seed := set f | f in changed;
    var changedSorted := SortedElements(seed);
    var reachable := SortedElements(seed + down + up);
    ghost var cs := Changed(p, changedFilesRaw);
    forall f ensures f in reachable <==> InScopeOf(p, cs, f) {
      ScopeFromSearches(forward, reverse, changed, cs, f);
      AnyImportGraph(p, forward, cs, f);
    }
    r := Scope(changedSorted, reachable);
  }

  // ---- What the scope means ----

  /** What the forward and the reverse search from one file visit together. */
  ghost predicate Visits(forward: Graph, reverse: Graph, start: Text, f: Text) {
    ReachedFrom(forward, [start], f) || ReachedFrom(reverse, [start], f)
  }

  /** The two searches from `a` visit `b` iff the two searches from `b` visit `a`. */
  lemma SearchesSymmetric(forward: Graph, reverse: Graph, a: Text, b: Text)
    requires Converse(forward, reverse)
    ensures Visits(forward, reverse, a, b) <==> Visits(forward, reverse, b, a)
  {
    VisitsOne(forward, reverse, a, b);
    VisitsOne(forward, reverse, b, a);
    ReachesConverse(forward, reverse, a, b);
    ReachesConverse(forward, reverse, b, a);
  }

  lemma VisitsOne(forward: Graph, reverse: Graph, start: Text, f: Text)
    ensures Visits(forward, reverse, start, f) <==> Reaches(forward, start, f) || Reaches(reverse, start, f)
  {
    assert start in [start];
  }

  /** Hence being in the scope of each other is mutual, and it is what the two searches find. */
  lemma ScopeSymmetric(p: Project, a: Text, b: Text)
    ensures forall forward, reverse | IsImportGraph(p, forward) && Converse(forward, reverse) ::
              && (InScopeOf(p, {a}, b) <==> Visits(forward, reverse, a, b))
              && (InScopeOf(p, {b}, a) <==> Visits(forward, reverse, a, b))
    ensures InScopeOf(p, {a}, b) <==> InScopeOf(p, {b}, a)
  {
    forall forward, reverse | IsImportGraph(p, forward) && Converse(forward, reverse)
      ensures InScopeOf(p, {a}, b) <==> Visits(forward, reverse, a, b)
      ensures InScopeOf(p, {b}, a) <==> Visits(forward, reverse, a, b)
    {
      OneChanged(p, forward, reverse, a, b);
      OneChanged(p, forward, reverse, b, a);
      SearchesSymmetric(forward, reverse, a, b);
    }
    forall g | IsImportGraph(p, g) ensures InScope(g, {a}, b) <==> InScope(g, {b}, a) {
      assert InScope(g, {a}, b) <==> Reaches(g, a, b) || Reaches(g, b, a);
      assert InScope(g, {b}, a) <==> Reaches(g, b, a) || Reaches(g, a, b);
    }
  }

  lemma OneChanged(p: Project, forward: Graph, reverse: Graph, a: Text, b: Text)
    requires IsImportGraph(p, forward) && Converse(forward, reverse)
    ensures InScopeOf(p, {a}, b) <==> Visits(forward, reverse, a, b)
  {
    AnyImportGraph(p, forward, {a}, b);
    ScopeFromSearches(forward, reverse, [a], {a}, b);
    if b == a { ReachesSelf(forward, a); }
    VisitsOne(forward, reverse, a, b);
  }

  lemma ChangedDistributes(p: Project, x: seq<Text>, y: seq<Text>)
    ensures Changed(p, x + y) == Changed(p, x) + Changed(p, y)
  {
    forall c ensures c in Changed(p, x + y) <==> c in Changed(p, x) || c in Changed(p, y) {
      if i :| 0 <= i < |x + y| && Posix((x + y)[i]) == c {
        assert if i < |x| then x[i] == (x + y)[i] else y[i - |x|] == (x + y)[i];
      }
      if i :| 0 <= i < |x| && Posix(x[i]) == c { assert (x + y)[i] == x[i]; }
      if i :| 0 <= i < |y| && Posix(y[i]) == c { assert (x + y)[|x| + i] == y[i]; }
    }
  }

  /** The scope of two change lists together is the union of their scopes. */
  lemma ScopeDistributes(p: Project, x: seq<Text>, y: seq<Text>, f: Text)
    ensures InScopeOf(p, Changed(p, x + y), f) <==> InScopeOf(p, Changed(p, x), f) || InScopeOf(p, Changed(p, y), f)
  {
    ChangedDistributes(p, x, y);
    var all, a, b := Changed(p, x + y), Changed(p, x), Changed(p, y);
    if !InScopeOf(p, a, f) && !InScopeOf(p, b, f) {
      var g :| IsImportGraph(p, g) && !InScope(g, a, f);
      AnyImportGraph(p, g, b, f);
      assert !InScope(g, all, f);
    }
    forall g | IsImportGraph(p, g) && (InScope(g, a, f) || InScope(g, b, f)) ensures InScope(g, all, f) {
      var c :| c in all && (Reaches(g, c, f) || Reaches(g, f, c));
    }
  }
}
