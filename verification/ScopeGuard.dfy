/** The live-probe gate: kill switch, request caps, allowlist and rate limit of one scan. */
module ScopeGuard {
  import opened Options
  import opened Sequences

  // ---- Targets ----

  /** A parsed URL: lower-cased host with its non-default port, and path. */
  datatype Url = Url(host: string, path: string)

  /** URL parsing; `None` where the original throws. */
  type Parser = string -> Option<Url>

  /** `e.pathname || "/"` without one trailing slash. */
  function Root(path: string): string {
    var p := if path == "" then "/" else path;
    if p[|p| - 1] == '/' then p[..|p| - 1] else p
  }

  predicate UnderRoot(path: string, root: string) {
    root == "" || path == root || StartsWith(path, root + "/")
  }

  predicate EntryAllows(parse: Parser, target: string, u: Url, entry: string) {
    || target == entry
    || (parse(entry).Some?
        && parse(entry).value.host == u.host
        && UnderRoot(if u.path == "" then "/" else u.path, Root(parse(entry).value.path)))
  }

  ghost predicate Allowlisted(parse: Parser, target: string, allowlist: seq<string>) {
    parse(target).Some? && exists i | 0 <= i < |allowlist| ::
      EntryAllows(parse, target, parse(target).value, allowlist[i])
  }

  method IsAllowlisted(parse: Parser, target: string, allowlist: seq<string>) returns (r: bool)
    ensures r <==> Allowlisted(parse, target, allowlist)
  {
    var u := parse(target);
    if u.None? { return false; }
    var path := if u.value.path == "" then "/" else u.value.path;
    for n := 0 to |allowlist|
      invariant forall i | 0 <= i < n :: !EntryAllows(parse, target, u.value, allowlist[i])
    {
      var entry := allowlist[n];
      if target == entry { return true; }
      var e := parse(entry);
      if e.None? { continue; }
      if e.value.host != u.value.host { continue; }
      var root := Root(e.value.path);
      if root == "" || path == root || StartsWith(path, root + "/") { return true; }
    }
    return false;
  }

  /** `root` is `q` without its trailing slash, if it has one. */
  ghost predicate Stripped(q: string, root: string) {
    q == root + "/" || (q == root && (q == "" || q[|q| - 1] != '/'))
  }

  /** The entry is the target itself, or it has the target's host and its segments lead to the target. */
  ghost predicate Covers(parse: Parser, entry: string, target: string) {
    || target == entry
    || (&& parse(entry).Some? && parse(target).Some? && parse(entry).value.host == parse(target).value.host
        && exists root ::
             && Stripped(if parse(entry).value.path == "" then "/" else parse(entry).value.path, root)
             && (root == "" || Segments(root)
                                 <= Segments(if parse(target).value.path == "" then "/" else parse(target).value.path)))
  }

  lemma CoversIff(parse: Parser, entry: string, target: string)
    requires parse(target).Some?
    ensures EntryAllows(parse, target, parse(target).value, entry) <==> Covers(parse, entry, target)
  {
    if parse(entry).Some? {
      var e, u := parse(entry).value, parse(target).value;
      var q, path, root := if e.path == "" then "/" else e.path, if u.path == "" then "/" else u.path, Root(e.path);
      assert Stripped(q, root);
      UnderRootSegments(path, root);
      forall other | Stripped(q, other) ensures other == root {
        if q == other + "/" { assert q[..|q| - 1] == other; }
      }
    }
  }

  /** A target is allowlisted iff it parses and some entry covers it. */
  lemma AllowlistedExact(parse: Parser, target: string, allowlist: seq<string>)
    ensures Allowlisted(parse, target, allowlist) <==>
              parse(target).Some? && exists entry | entry in allowlist :: Covers(parse, entry, target)
  {
    if parse(target).Some? {
      forall entry ensures EntryAllows(parse, target, parse(target).value, entry) <==> Covers(parse, entry, target) {
        CoversIff(parse, entry, target);
      }
    }
  }

  /** The `/`-separated segments of a path. */
  function Segments(s: string): (r: seq<string>)
    ensures |r| > 0
  {
    if s == "" then [""]
    else if s[0] == '/' then [""] + Segments(s[1..])
    else var r := Segments(s[1..]); [[s[0]] + r[0]] + r[1..]
  }

  /** The string test means "every segment of the root, in order, then more segments". */
  lemma {:induction false} UnderRootSegments(path: string, root: string)
    ensures path == root || StartsWith(path, root + "/") <==> Segments(root) <= Segments(path)
  {
    if root == "" {
      if path != "" && path[0] == '/' {
      } else if path != "" {
        assert Segments(path)[0] != "";
      }
    } else if path == "" {
      if root[0] != '/' { assert Segments(root)[0] != ""; }
    } else {
      var p, r := Segments(path[1..]), Segments(root[1..]);
      UnderRootSegments(path[1..], root[1..]);
      assert path == [path[0]] + path[1..] && root == [root[0]] + root[1..];
      assert (root + "/")[1..] == root[1..] + "/";
      assert StartsWith(path, root + "/") <==> path[0] == root[0] && StartsWith(path[1..], root[1..] + "/");
      assert r == [r[0]] + r[1..] && p == [p[0]] + p[1..];
      ConsPrefix(r[0], r[1..], p[0], p[1..]);
      if path[0] == '/' && root[0] == '/' {
        ConsPrefix("", r, "", p);
      } else if path[0] != '/' && root[0] != '/' {
        ConsPrefix([root[0]] + r[0], r[1..], [path[0]] + p[0], p[1..]);
        assert r[0] == ([root[0]] + r[0])[1..] && p[0] == ([path[0]] + p[0])[1..];
        assert ([root[0]] + r[0])[0] == root[0] && ([path[0]] + p[0])[0] == path[0];
      } else {
        assert Segments(root)[0] != Segments(path)[0];
      }
    }
  }

  // ---- State ----

  datatype Scope = Scope(maxRequestsPerScan: int, maxRequestsPerSecond: real, maxMutatingRequests: int)

  datatype GuardError = Killed | ScanCap | MutatingCap | NotAllowlisted | Production | Egress

  datatype Outcome = Pass | Fail(error: GuardError)

  datatype State = State(total: nat, mutating: nat, sendTimes: seq<real>)

  const INITIAL := State(0, 0, [])
  const WINDOW_MS := 1000.0

  function Upper(c: char): char { if 'a' <= c <= 'z' then c - 'a' + 'A' else c }

  function ToUpper(s: string): (r: string) {
    seq(|s|, i requires 0 <= i < |s| => Upper(s[i]))
  }

  predicate IsMutating(verb: string) {
    ToUpper(verb) in {"POST", "PUT", "PATCH", "DELETE"}
  }

  /** Equal to a name in capitals when lower-case ASCII letters count as capitals. */
  ghost predicate Spells(verb: string, name: string) {
    && |verb| == |name|
    && forall i | 0 <= i < |verb| ::
         verb[i] == name[i] || ('a' <= verb[i] <= 'z' && verb[i] as int == name[i] as int + 32)
  }

  ghost predicate Mutates(verb: string) {
    Spells(verb, "POST") || Spells(verb, "PUT") || Spells(verb, "PATCH") || Spells(verb, "DELETE")
  }

  lemma UpperSpells(verb: string, name: string)
    requires forall i | 0 <= i < |name| :: 'A' <= name[i] <= 'Z'
    ensures ToUpper(verb) == name <==> Spells(verb, name)
  {
    if Spells(verb, name) {
      assert forall i | 0 <= i < |verb| :: ToUpper(verb)[i] == name[i];
    } else if |verb| == |name| {
      var i :| 0 <= i < |verb|
        && !(verb[i] == name[i] || ('a' <= verb[i] <= 'z' && verb[i] as int == name[i] as int + 32));
      assert ToUpper(verb)[i] != name[i];
    }
  }

  /** Exactly POST, PUT, PATCH and DELETE mutate, in any case. */
  lemma MutatingExact(verb: string)
    ensures IsMutating(verb) <==> Mutates(verb)
  {
    UpperSpells(verb, "POST");
    UpperSpells(verb, "PUT");
    UpperSpells(verb, "PATCH");
    UpperSpells(verb, "DELETE");
  }

  /** What the guard knows about one URL, from the allowlist, the policy and the egress guard. */
  datatype UrlVerdict = UrlVerdict(allowlisted: bool, production: bool, egress: bool)

  /** The pre-flight gate, in the order of the checks. */
  function Gate(
    s: State, scope: Scope, killed: bool, isMutating: bool, productionBlocked: bool, url: UrlVerdict): Outcome {
    if killed then Fail(Killed)
    else if s.total >= scope.maxRequestsPerScan then Fail(ScanCap)
    else if isMutating && s.mutating >= scope.maxMutatingRequests then Fail(MutatingCap)
    else if !url.allowlisted then Fail(NotAllowlisted)
    else if productionBlocked && url.production then Fail(Production)
    else if !url.egress then Fail(Egress)
    else Pass
  }

  function Prune(ts: seq<real>, now: real): seq<real> {
    if ts == [] then []
    else (if now - ts[0] < WINDOW_MS then [ts[0]] else []) + Prune(ts[1..], now)
  }

  /** How long a call at `now` asks to sleep; 0 when it does not. */
  function Wait(ts: seq<real>, scope: Scope, now: real): real {
    var kept := Prune(ts, now);
    if scope.maxRequestsPerSecond > 0.0 && |kept| as real >= scope.maxRequestsPerSecond && |kept| > 0
    then WINDOW_MS - (now - kept[0]) else 0.0
  }

  function Throttled(s: State, scope: Scope, now: real): State {
    if scope.maxRequestsPerSecond > 0.0 then s.(sendTimes := Prune(s.sendTimes, now)) else s
  }

  function Recorded(s: State, isMutating: bool, now: real): State {
    State(s.total + 1, if isMutating then s.mutating + 1 else s.mutating, s.sendTimes + [now])
  }

  lemma {:induction false} PruneKeepsRecent(ts: seq<real>, now: real)
    ensures forall i | 0 <= i < |Prune(ts, now)| :: now - Prune(ts, now)[i] < WINDOW_MS
  {
    if ts != [] { PruneKeepsRecent(ts[1..], now); }
  }

  /** Exactly the times less than a second old are kept, each as often as it was there. */
  lemma {:induction false} PruneExact(ts: seq<real>, now: real, t: real)
    ensures multiset(Prune(ts, now))[t] == if now - t < 1000.0 then multiset(ts)[t] else 0
  {
    if ts != [] {
      PruneExact(ts[1..], now, t);
      assert ts == [ts[0]] + ts[1..];
    }
  }

  // ---- The guard object ----

  class ScopeGuard {
    const scope: Scope
    const allowlist: seq<string>
    const productionBlocked: bool
    const parse: Parser
    const looksLikeProduction: string -> bool
    const egressAllows: string -> bool
    var total: nat
    var mutating: nat
    var sendTimes: seq<real>

    constructor (scope: Scope, allowlist: seq<string>, productionBlocked: bool, parse: Parser,
                 looksLikeProduction: string -> bool, egressAllows: string -> bool)
      ensures Now() == INITIAL
    {
      this.scope, this.allowlist, this.productionBlocked := scope, allowlist, productionBlocked;
      this.parse, this.looksLikeProduction, this.egressAllows := parse, looksLikeProduction, egressAllows;
      total, mutating, sendTimes := 0, 0, [];
    }

    ghost function Now(): State
      reads this
    {
      State(total, mutating, sendTimes)
    }

    ghost function Verdict(url: string): UrlVerdict {
      UrlVerdict(Allowlisted(parse, url, allowlist), looksLikeProduction(url), egressAllows(url))
    }

    /** `assertProbeAllowed` changes nothing and reports the first check that fails. */
    method AssertProbeAllowed(killed: bool, url: string, verb: string) returns (r: Outcome)
      ensures r == Gate(Now(), scope, killed, IsMutating(verb), productionBlocked, Verdict(url))
      ensures
        var capped := total >= scope.maxRequestsPerScan;
        var mutatingCapped := Mutates(verb) && mutating >= scope.maxMutatingRequests;
        var listed := parse(url).Some? && exists entry | entry in allowlist :: Covers(parse, entry, url);
        var blocked := productionBlocked && looksLikeProduction(url);
        && (r == Fail(Killed) <==> killed)
        && (r == Fail(ScanCap) <==> !killed && capped)
        && (r == Fail(MutatingCap) <==> !killed && !capped && mutatingCapped)
        && (r == Fail(NotAllowlisted) <==> !killed && !capped && !mutatingCapped && !listed)
        && (r == Fail(Production) <==> !killed && !capped && !mutatingCapped && listed && blocked)
        && (r == Fail(Egress) <==>
              !killed && !capped && !mutatingCapped && listed && !blocked && !egressAllows(url))
        && (r == Pass <==> !killed && !capped && !mutatingCapped && listed && !blocked && egressAllows(url))
    {
      MutatingExact(verb);
      AllowlistedExact(parse, url, allowlist);
      if killed { return Fail(Killed); }
      if total >= scope.maxRequestsPerScan { return Fail(ScanCap); }
      var isMutating := IsMutating(verb);
      if isMutating && mutating >= scope.maxMutatingRequests { return Fail(MutatingCap); }
      var listed := IsAllowlisted(parse, url, allowlist);
      if !listed { return Fail(NotAllowlisted); }
      if productionBlocked && looksLikeProduction(url) { return Fail(Production); }
      if !egressAllows(url) { return Fail(Egress); }
      return Pass;
    }

    /** `throttle` with the clock at `now`: prunes and returns the time to sleep, or fails if killed.
        `killedBefore` and `killedAfter` say whether the signal is set around the sleep. */
    method Throttle(now: real, killedBefore: bool, killedAfter: bool) returns (wait: real, r: Outcome)
      modifies this`sendTimes
      ensures Now() == Throttled(old(Now()), scope, now)
      ensures wait == Wait(old(sendTimes), scope, now)
      ensures r == if wait > 0.0 && (killedBefore || killedAfter) then Fail(Killed) else Pass
      ensures
        var rps := scope.maxRequestsPerSecond;
        && (rps <= 0.0 ==> sendTimes == old(sendTimes) && wait == 0.0)
        && (rps > 0.0 ==> forall t ::
              multiset(sendTimes)[t] == if now - t < 1000.0 then multiset(old(sendTimes))[t] else 0)
        && (rps > 0.0 && |sendTimes| as real >= rps ==> wait == 1000.0 - (now - sendTimes[0]))
        && (rps > 0.0 && |sendTimes| as real < rps ==> wait == 0.0)
    {
      wait, r := 0.0, Pass;
      var rps := scope.maxRequestsPerSecond;
      if !(rps > 0.0) { return; }
      PruneKeepsRecent(sendTimes, now);
      forall t ensures multiset(Prune(sendTimes, now))[t] == if now - t < 1000.0 then multiset(sendTimes)[t] else 0 {
        PruneExact(sendTimes, now, t);
      }
      sendTimes := Prune(sendTimes, now);
      if |sendTimes| as real >= rps {
        var oldest := sendTimes[0];
        wait := WINDOW_MS - (now - oldest);
        if wait > 0.0 && (killedBefore || killedAfter) {
          r := Fail(Killed);
        }
      }
    }

    method Record(verb: string, now: real)
      modifies this
      ensures Now() == Recorded(old(Now()), IsMutating(verb), now)
      ensures total == old(total) + 1 && sendTimes == old(sendTimes) + [now]
      ensures mutating == if Mutates(verb) then old(mutating) + 1 else old(mutating)
    {
      MutatingExact(verb);
      total := total + 1;
      if IsMutating(verb) { mutating := mutating + 1; }
      sendTimes := sendTimes + [now];
    }
  }
}
