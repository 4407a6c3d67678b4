/** The environment variables of the config loader and the overlay they write. */
module EnvOverlay {
  import opened ConfigLayers

  datatype Kind = Plain | Number | Boolean | List

  datatype EnvVar = EnvVar(name: string, path: Path, kind: Kind)

  const LLM_ROWS: seq<EnvVar> := [
    EnvVar("MONTR_CLIENT_ID", ["clientId"], Plain),
    EnvVar("MONTR_LLM_PROVIDER", ["llm", "provider"], Plain),
    EnvVar("MONTR_LLM_ENDPOINT", ["llm", "endpoint"], Plain),
    EnvVar("MONTR_LLM_API_KEY", ["llm", "apiKey"], Plain),
    EnvVar("MONTR_LLM_API_KEY_REF", ["llm", "apiKeyRef"], Plain),
    EnvVar("MONTR_LLM_KEY_TIER_GUARD", ["llm", "keyTierGuard"], Plain),
    EnvVar("MONTR_MODEL_TRIAGE", ["llm", "modelMatrix", "triage"], Plain),
    EnvVar("MONTR_MODEL_DEFAULT", ["llm", "modelMatrix", "default"], Plain),
    EnvVar("MONTR_MODEL_CONFIRMATION", ["llm", "modelMatrix", "confirmation"], Plain),
    EnvVar("MONTR_LLM_FALLBACK_MODEL", ["llm", "fallbackModel"], Plain)
  ]

  const POLICY_ROWS: seq<EnvVar> := [
    EnvVar("MONTR_BUDGET_MAX_USD", ["budget", "maxUsdPerScan"], Number),
    EnvVar("MONTR_BUDGET_MAX_TOKENS", ["budget", "maxTokensPerScan"], Number),
    EnvVar("MONTR_BUDGET_ENFORCEMENT", ["budget", "enforcement"], Plain),
    EnvVar("MONTR_AUTOFIX_ENABLED", ["autoFix", "enabled"], Boolean),
    EnvVar("MONTR_DAST_ENABLED", ["dast", "enabled"], Boolean),
    EnvVar("MONTR_DAST_ALLOWLIST", ["dast", "allowlist"], List),
    EnvVar("MONTR_TELEMETRY_ENABLED", ["telemetry", "enabled"], Boolean),
    EnvVar("MONTR_FIELD_ENCRYPTION_KEY_REF", ["security", "fieldEncryptionKeyRef"], Plain),
    EnvVar("MONTR_ALLOWED_EGRESS_HOSTS", ["security", "allowedEgressHosts"], List),
    EnvVar("MONTR_KEY_SOURCE", ["security", "keySource"], Plain)
  ]

  const FEATURE_ROWS: seq<EnvVar> := [
    EnvVar("MONTR_DISCOVERY_RULESETS_DIR", ["discovery", "rulesetsDir"], Plain),
    EnvVar("MONTR_QUEUE_PER_TENANT_ISOLATION", ["queue", "perTenantIsolation"], Boolean),
    EnvVar("MONTR_QUEUE_TENANT_IDS", ["queue", "tenantIds"], List),
    EnvVar("MONTR_FIX_AGENT_LOOP_ENABLED", ["fixGeneration", "agentLoop", "enabled"], Boolean),
    EnvVar("MONTR_FIX_AGENT_LOOP_MAX_ITERATIONS", ["fixGeneration", "agentLoop", "maxIterations"], Number),
    EnvVar("MONTR_FIX_AGENT_LOOP_MAX_TOOL_CALLS", ["fixGeneration", "agentLoop", "maxToolCalls"], Number),
    EnvVar("MONTR_SEMANTIC_INDEX_ENABLED", ["semanticIndex", "enabled"], Boolean),
    EnvVar("MONTR_SEMANTIC_INDEX_EMBEDDING_MODEL", ["semanticIndex", "embeddingModel"], Plain)
  ]

  const REVIEW_ROWS: seq<EnvVar> := [
    EnvVar("MONTR_CONFIRMATION_INVESTIGATION_ENABLED", ["confirmation", "investigation", "enabled"], Boolean),
    EnvVar("MONTR_CONFIRMATION_INVESTIGATION_MAX_TURNS", ["confirmation", "investigation", "maxTurns"], Number),
    EnvVar(
      "MONTR_CONFIRMATION_INVESTIGATION_VERIFIER_COUNT", ["confirmation", "investigation", "verifierCount"], Number),
    EnvVar("MONTR_CONFIRMATION_INVESTIGATION_SEVERITIES", ["confirmation", "investigation", "severities"], List),
    EnvVar("MONTR_REPORTING_EXECUTIVE_SUMMARY_ENABLED", ["reporting", "executiveSummary", "enabled"], Boolean),
    EnvVar("MONTR_REPORTING_EXECUTIVE_SUMMARY_MAX_TOKENS", ["reporting", "executiveSummary", "maxTokens"], Number)
  ]

  const VAULT_ROWS: seq<EnvVar> := [
    EnvVar("VAULT_ADDR", ["security", "vault", "addr"], Plain),
    EnvVar("VAULT_TOKEN", ["security", "vault", "token"], Plain),
    EnvVar("VAULT_NAMESPACE", ["security", "vault", "namespace"], Plain),
    EnvVar("VAULT_ROLE_ID", ["security", "vault", "roleId"], Plain),
    EnvVar("VAULT_SECRET_ID", ["security", "vault", "secretId"], Plain),
    EnvVar("VAULT_KV_MOUNT", ["security", "vault", "kvMount"], Plain),
    EnvVar("VAULT_SECRET_PATH", ["security", "vault", "secretPath"], Plain),
    EnvVar("VAULT_KV_FIELD", ["security", "vault", "field"], Plain),
    EnvVar("VAULT_REQUEST_TIMEOUT_MS", ["security", "vault", "requestTimeoutMs"], Number)
  ]

  /** The rows of `envOverlay`, in source order. */
  const TABLE: seq<EnvVar> := LLM_ROWS + POLICY_ROWS + FEATURE_ROWS + REVIEW_ROWS + VAULT_ROWS

  /** Text to config value, per kind; a number that does not parse is `Undef`. */
  type Convert = (Kind, string) -> Conf

  predicate IsSet(env: map<string, string>, v: EnvVar) { v.name in env && env[v.name] != "" }

  function WriteOf(v: EnvVar, env: map<string, string>, convert: Convert): Write
    requires IsSet(env, v)
  {
    Write(v.path, convert(v.kind, env[v.name]))
  }

  /** The writes of the variables that are set and not empty, in table order. */
  function Writes(table: seq<EnvVar>, env: map<string, string>, convert: Convert): seq<Write> {
    if table == [] then []
    else
      var v := table[0];
      (if IsSet(env, v) then [WriteOf(v, env, convert)] else []) + Writes(table[1..], env, convert)
  }

  ghost predicate PathsApart(table: seq<EnvVar>) {
    && (forall i | 0 <= i < |table| :: table[i].path != [])
    && forall i, j | 0 <= i < j < |table| :: Apart(table[i].path, table[j].path)
  }

  /** Different length or different first character. */
  predicate Other(s: string, t: string) { |s| != |t| || (s != "" && t != "" && s[0] != t[0]) }

  /** One of the first three segments differs. */
  ghost predicate Differ(p: Path, q: Path) {
    p != [] && q != [] &&
    (Other(p[0], q[0]) || (|p| > 1 && |q| > 1 && (Other(p[1], q[1]) || (|p| > 2 && |q| > 2 && Other(p[2], q[2])))))
  }

  lemma DifferApart(p: Path, q: Path)
    requires Differ(p, q)
    ensures Apart(p, q)
  {
    if p[0] == q[0] && p[1] == q[1] {
      assert p[1..][1..][0] == p[2] && q[1..][1..][0] == q[2];
    }
  }

  ghost predicate RowsDiffer(rows: seq<EnvVar>) {
    forall i, j | 0 <= i < j < |rows| :: Differ(rows[i].path, rows[j].path)
  }

  ghost predicate RowsDifferFrom(a: seq<EnvVar>, b: seq<EnvVar>) {
    forall i, j | 0 <= i < |a| && 0 <= j < |b| :: Differ(a[i].path, b[j].path)
  }

  lemma RowsConcat(a: seq<EnvVar>, b: seq<EnvVar>)
    requires RowsDiffer(a) && RowsDiffer(b) && RowsDifferFrom(a, b)
    ensures RowsDiffer(a + b)
  {
    var c := a + b;
    forall i, j | 0 <= i < j < |c| ensures Differ(c[i].path, c[j].path) {
      if i < |a| && j < |a| { assert c[i] == a[i] && c[j] == a[j]; }
    }
  }

  lemma LlmRowsDiffer()
    ensures RowsDiffer(LLM_ROWS)
  {
    var r := LLM_ROWS;
    assert |r| == 10;
    assert r[0].path[0] == "clientId";
    assert forall i | 0 < i < 10 :: |r[i].path| > 1 && r[i].path[0] == "llm";
    assert |r[1].path[1]| == 8 && r[1].path[1][0] == 'p' && |r[2].path[1]| == 8 && r[2].path[1][0] == 'e';
    assert |r[3].path[1]| == 6 && |r[4].path[1]| == 9 && |r[5].path[1]| == 12 && |r[9].path[1]| == 13;
    assert forall i | 6 <= i < 9 :: |r[i].path| == 3 && |r[i].path[1]| == 11;
    assert |r[6].path[2]| == 6 && |r[7].path[2]| == 7 && |r[8].path[2]| == 12;
    forall i, j | 0 <= i < j < 10 ensures Differ(r[i].path, r[j].path) {
    }
  }

  lemma PolicyRowsDiffer()
    ensures RowsDiffer(POLICY_ROWS)
  {
    var r := POLICY_ROWS;
    assert |r| == 10 && forall i | 0 <= i < 10 :: |r[i].path| == 2;
    assert forall i | 0 <= i < 3 :: |r[i].path[0]| == 6;
    assert |r[3].path[0]| == 7 && |r[4].path[0]| == |r[5].path[0]| == 4 && |r[6].path[0]| == 9;
    assert forall i | 7 <= i < 10 :: |r[i].path[0]| == 8;
    assert |r[0].path[1]| == 13 && |r[1].path[1]| == 16 && |r[2].path[1]| == 11;
    assert |r[4].path[1]| == 7 && |r[5].path[1]| == 9;
    assert |r[7].path[1]| == 21 && |r[8].path[1]| == 18 && |r[9].path[1]| == 9;
    forall i, j | 0 <= i < j < |r| ensures Differ(r[i].path, r[j].path) {
    }
  }

  lemma FeatureRowsDiffer()
    ensures RowsDiffer(FEATURE_ROWS)
  {
    var r := FEATURE_ROWS;
    assert |r| == 8 && |r[0].path[0]| == 9;
    assert |r[1].path[0]| == |r[2].path[0]| == 5 && |r[1].path[1]| == 18 && |r[2].path[1]| == 9;
    assert forall i | 3 <= i < 6 :: |r[i].path| == 3 && |r[i].path[0]| == 13 && r[i].path[0][0] == 'f';
    assert |r[3].path[2]| == 7 && |r[4].path[2]| == 13 && |r[5].path[2]| == 12;
    assert forall i | 6 <= i < 8 :: |r[i].path[0]| == 13 && r[i].path[0][0] == 's';
    assert |r[6].path[1]| == 7 && |r[7].path[1]| == 14;
    forall i, j | 0 <= i < j < |r| ensures Differ(r[i].path, r[j].path) {
    }
  }

  lemma ReviewRowsDiffer()
    ensures RowsDiffer(REVIEW_ROWS)
  {
    var r := REVIEW_ROWS;
    assert |r| == 6 && forall i | 0 <= i < 6 :: |r[i].path| == 3;
    assert forall i | 0 <= i < 4 :: |r[i].path[0]| == 12;
    assert |r[0].path[2]| == 7 && |r[1].path[2]| == 8 && |r[2].path[2]| == 13 && |r[3].path[2]| == 10;
    assert forall i | 4 <= i < 6 :: |r[i].path[0]| == 9;
    assert |r[4].path[2]| == 7 && |r[5].path[2]| == 9;
    forall i, j | 0 <= i < j < |r| ensures Differ(r[i].path, r[j].path) {
    }
  }

  lemma VaultRowsDiffer()
    ensures RowsDiffer(VAULT_ROWS)
  {
    var r := VAULT_ROWS;
    assert |r| == 9 && forall i | 0 <= i < 9 :: |r[i].path| == 3;
    assert |r[0].path[2]| == 4 && |r[1].path[2]| == 5 && r[1].path[2][0] == 't' && |r[2].path[2]| == 9;
    assert |r[3].path[2]| == 6 && |r[4].path[2]| == 8 && |r[5].path[2]| == 7 && |r[6].path[2]| == 10;
    assert |r[7].path[2]| == 5 && r[7].path[2][0] == 'f' && |r[8].path[2]| == 16;
    forall i, j | 0 <= i < j < |r| ensures Differ(r[i].path, r[j].path) {
    }
  }

  ghost predicate HeadsIn(rows: seq<EnvVar>, heads: set<string>) {
    forall i | 0 <= i < |rows| :: rows[i].path != [] && rows[i].path[0] in heads
  }

  const LLM_HEADS := {"clientId", "llm"}
  const POLICY_HEADS := {"budget", "autoFix", "dast", "telemetry", "security"}
  const FEATURE_HEADS := {"discovery", "queue", "fixGeneration", "semanticIndex"}
  const REVIEW_HEADS := {"confirmation", "reporting"}

  lemma SectionHeads()
    ensures HeadsIn(LLM_ROWS, LLM_HEADS) && HeadsIn(POLICY_ROWS, POLICY_HEADS) && HeadsIn(FEATURE_ROWS, FEATURE_HEADS)
    ensures HeadsIn(REVIEW_ROWS, REVIEW_HEADS) && HeadsIn(VAULT_ROWS, {"security"})
  {
  }

  ghost predicate HeadsDiffer(a: set<string>, b: set<string>) {
    forall x, y | x in a && y in b :: Other(x, y)
  }

  lemma HeadsAllDiffer()
    ensures HeadsDiffer(LLM_HEADS, POLICY_HEADS + FEATURE_HEADS + REVIEW_HEADS)
    ensures HeadsDiffer(POLICY_HEADS, FEATURE_HEADS + REVIEW_HEADS) && HeadsDiffer(FEATURE_HEADS, REVIEW_HEADS)
    ensures HeadsDiffer(FEATURE_HEADS + REVIEW_HEADS, {"security"})
  {
  }

  /** The other policy rows about security are not about the vault. */
  lemma PolicyIsNotVault()
    ensures RowsDifferFrom(POLICY_ROWS, VAULT_ROWS)
  {
    forall i, j | 0 <= i < |POLICY_ROWS| && 0 <= j < |VAULT_ROWS|
        ensures Differ(POLICY_ROWS[i].path, VAULT_ROWS[j].path) {
      assert |VAULT_ROWS[j].path| == 3 && VAULT_ROWS[j].path[0] == "security" && |VAULT_ROWS[j].path[1]| == 5;
      assert |POLICY_ROWS[i].path| == 2 && |POLICY_ROWS[i].path[1]| > 5;
    }
  }

  lemma RowsSeparate(a: seq<EnvVar>, b: seq<EnvVar>, heads: set<string>, others: set<string>)
    requires HeadsIn(a, heads) && HeadsIn(b, others) && HeadsDiffer(heads, others)
    ensures RowsDifferFrom(a, b)
  {
  }

  /** Five sections whose rows differ inside each and across any two. */
  lemma FiveSections(a: seq<EnvVar>, b: seq<EnvVar>, c: seq<EnvVar>, d: seq<EnvVar>, e: seq<EnvVar>)
    requires RowsDiffer(a) && RowsDiffer(b) && RowsDiffer(c) && RowsDiffer(d) && RowsDiffer(e)
    requires RowsDifferFrom(a, b + c + d + e) && RowsDifferFrom(b, c + d + e)
    requires RowsDifferFrom(c, d + e) && RowsDifferFrom(d, e)
    ensures RowsDiffer(a + b + c + d + e)
  {
    RowsConcat(d, e);
    RowsConcat(c, d + e);
    assert c + d + e == c + (d + e) && b + c + d + e == b + (c + d + e);
    RowsConcat(b, c + d + e);
    RowsConcat(a, b + c + d + e);
    assert a + b + c + d + e == a + (b + c + d + e);
  }

  lemma FromConcat(a: seq<EnvVar>, b: seq<EnvVar>, c: seq<EnvVar>)
    requires RowsDifferFrom(a, b) && RowsDifferFrom(a, c)
    ensures RowsDifferFrom(a, b + c)
  {
  }

  lemma SectionsAllDiffer(a: seq<EnvVar>, b: seq<EnvVar>, c: seq<EnvVar>, d: seq<EnvVar>, e: seq<EnvVar>)
    requires RowsDiffer(a) && RowsDiffer(b) && RowsDiffer(c) && RowsDiffer(d) && RowsDiffer(e)
    requires HeadsIn(a, LLM_HEADS) && HeadsIn(b, POLICY_HEADS) && HeadsIn(c, FEATURE_HEADS)
    requires HeadsIn(d, REVIEW_HEADS) && HeadsIn(e, {"security"}) && RowsDifferFrom(b, e)
    ensures RowsDiffer(a + b + c + d + e)
  {
    HeadsAllDiffer();
    RowsSeparate(a, b, LLM_HEADS, POLICY_HEADS);
    RowsSeparate(a, c, LLM_HEADS, FEATURE_HEADS);
    RowsSeparate(a, d, LLM_HEADS, REVIEW_HEADS);
    RowsSeparate(a, e, LLM_HEADS, {"security"});
    FromConcat(a, b, c);
    FromConcat(a, b + c, d);
    FromConcat(a, b + c + d, e);
    RowsSeparate(b, c, POLICY_HEADS, FEATURE_HEADS);
    RowsSeparate(b, d, POLICY_HEADS, REVIEW_HEADS);
    FromConcat(b, c, d);
    FromConcat(b, c + d, e);
    RowsSeparate(c, d, FEATURE_HEADS, REVIEW_HEADS);
    RowsSeparate(c, e, FEATURE_HEADS, {"security"});
    FromConcat(c, d, e);
    RowsSeparate(d, e, REVIEW_HEADS, {"security"});
    FiveSections(a, b, c, d, e);
  }

  lemma DifferingRowsApart(rows: seq<EnvVar>)
    requires |rows| > 1 && RowsDiffer(rows)
    ensures PathsApart(rows)
  {
    forall i, j | 0 <= i < j < |rows| ensures Apart(rows[i].path, rows[j].path) {
      DifferApart(rows[i].path, rows[j].path);
    }
    forall i | 0 <= i < |rows| ensures rows[i].path != [] {
      assert if i == 0 then Differ(rows[0].path, rows[1].path) else Differ(rows[0].path, rows[i].path);
    }
  }

  /** No variable's path is a prefix of another's. */
  lemma {:induction false} TablePathsApart()
    ensures PathsApart(TABLE)
  {
    LlmRowsDiffer();
    PolicyRowsDiffer();
    FeatureRowsDiffer();
    ReviewRowsDiffer();
    VaultRowsDiffer();
    SectionHeads();
    PolicyIsNotVault();
    SectionsAllDiffer(LLM_ROWS, POLICY_ROWS, FEATURE_ROWS, REVIEW_ROWS, VAULT_ROWS);
    DifferingRowsApart(TABLE);
  }

  lemma {:induction false} WritesFromTable(table: seq<EnvVar>, env: map<string, string>, convert: Convert)
    requires PathsApart(table)
    ensures AllApart(Writes(table, env, convert))
    ensures forall w | w in Writes(table, env, convert) ::
              exists i | 0 <= i < |table| :: IsSet(env, table[i]) && w == WriteOf(table[i], env, convert)
    ensures forall i | 0 <= i < |table| && IsSet(env, table[i]) ::
              WriteOf(table[i], env, convert) in Writes(table, env, convert)
  {
    if table != [] {
      WritesFromTable(table[1..], env, convert);
      var rest := Writes(table[1..], env, convert);
      assert table == [table[0]] + table[1..];
      forall i | 0 <= i < |rest| ensures Apart(table[0].path, rest[i].path) {
        assert rest[i] in rest;
        var j :| 0 <= j < |table[1..]| && rest[i].path == table[1..][j].path;
        assert table[1..][j] == table[j + 1];
      }
      forall w | w in rest
        ensures exists i | 0 <= i < |table| :: IsSet(env, table[i]) && w == WriteOf(table[i], env, convert)
      {
        var j :| 0 <= j < |table[1..]| && IsSet(env, table[1..][j]) && w == WriteOf(table[1..][j], env, convert);
        assert table[j + 1] == table[1..][j];
      }
    }
  }

  function Overlay(env: map<string, string>, convert: Convert): Obj {
    TablePathsApart();
    WritesFromTable(TABLE, env, convert);
    Apply(EMPTY, Writes(TABLE, env, convert))
  }

  lemma {:induction false} ApplyKeeps(t: Obj, ws: seq<Write>, p: Path)
    requires AllApart(ws) && forall i | 0 <= i < |ws| :: Apart(ws[i].path, p)
    ensures Lookup(Apply(t, ws), p) == Lookup(t, p)
    decreases ws
  {
    if ws != [] {
      SetLeavesOthers(t, ws[0].path, p, ws[0].value);
      ApplyKeeps(SetPath(t, ws[0].path, ws[0].value), ws[1..], p);
    }
  }

  lemma {:induction false} ApplyWrites(t: Obj, ws: seq<Write>, i: nat)
    requires AllApart(ws) && i < |ws|
    ensures Lookup(Apply(t, ws), ws[i].path) == ws[i].value
    decreases ws
  {
    var t1 := SetPath(t, ws[0].path, ws[0].value);
    if i == 0 {
      forall j | 0 <= j < |ws[1..]| ensures Apart(ws[1..][j].path, ws[0].path) {
        ApartSymmetric(ws[0].path, ws[j + 1].path);
      }
      SetThenGet(t, ws[0].path, ws[0].value);
      ApplyKeeps(t1, ws[1..], ws[0].path);
    } else {
      ApplyWrites(t1, ws[1..], i - 1);
    }
  }

  lemma TableHoldsVariable(table: seq<EnvVar>, env: map<string, string>, convert: Convert, i: nat)
    requires PathsApart(table) && i < |table|
    ensures AllApart(Writes(table, env, convert))
    ensures Lookup(Apply(EMPTY, Writes(table, env, convert)), table[i].path)
         == if IsSet(env, table[i]) then convert(table[i].kind, env[table[i].name]) else Undef
  {
    var ws, v := Writes(table, env, convert), table[i];
    WritesFromTable(table, env, convert);
    if IsSet(env, v) {
      var w := Write(v.path, convert(v.kind, env[v.name]));
      var k :| 0 <= k < |ws| && ws[k] == w;
      ApplyWrites(EMPTY, ws, k);
    } else {
      forall k | 0 <= k < |ws| ensures Apart(ws[k].path, v.path) {
        assert ws[k] in ws;
        var j :| 0 <= j < |table| && IsSet(env, table[j]) && ws[k]
            == Write(table[j].path, convert(table[j].kind, env[table[j].name]));
        ApartSymmetric(table[j].path, v.path);
      }
      ApplyKeeps(EMPTY, ws, v.path);
    }
  }

  /** Every variable that is set is found under its path, whatever else is set; one that is not set
      leaves its path undefined. */
  lemma OverlayHoldsVariable(env: map<string, string>, convert: Convert, i: nat)
    requires i < |TABLE|
    ensures Lookup(Overlay(env, convert), TABLE[i].path)
         == if TABLE[i].name in env && env[TABLE[i].name] != ""
            then convert(TABLE[i].kind, env[TABLE[i].name]) else Undef
  {
    TablePathsApart();
    TableHoldsVariable(TABLE, env, convert, i);
  }

  /** The order in which the variables are applied does not matter. */
  lemma TableOrderIrrelevant(env: map<string, string>, convert: Convert, order: seq<Write>)
    requires multiset(order) == multiset(Writes(TABLE, env, convert))
    ensures AllApart(order) && Apply(EMPTY, order) == Overlay(env, convert)
  {
    TablePathsApart();
    WritesFromTable(TABLE, env, convert);
    OrderOfWritesIrrelevant(EMPTY, Writes(TABLE, env, convert), order);
  }
}
