# Verification of Montr Secure's core algorithms

A Dafny model of the parts of Montr Secure whose correctness spans several functions, loops or whole
runs, with proofs of what they promise. One module per component:

| module | what it models |
|---|---|
| `CanonicalJson`, `JsonText`, `CanonicalText` | canonical JSON: `sortDeep` on JavaScript objects, `JSON.stringify`, and what the text says about the value |
| `AuditEvents`, `AuditLog` | the hash-chained audit log kept per client |
| `ScopeGuard`, `RateRuns`, `AttemptRuns`, `GuardRuns` | the live-probe gate, runs of its rate limiter by recorded sends and by attempts, and runs under its caps and kill switch |
| `DiffScope` | import resolution, the two import graphs, the two worklist searches |
| `Fnv` | 32-bit FNV-1a over UTF-16 code units and the ids built on it |
| `Confirm`, `ConfirmLaws`, `ConfirmChanges`, `InvestigationScope` | the Layer 3 confirmation loop, laws about whole batches, and how a batch changes with the false positives and with the investigation scope |
| `AuthLabels` | gap-only auth labelling from a model's reply |
| `ConfigLayers`, `ConfigPrecedence`, `EnvOverlay`, `ConfigObjects` | path writes and deep merge, precedence of any number of sources, the environment table, and the same writes in place on nested objects |
| `ThreatModel`, `Enrichment` | trust boundaries, attack surface, scope hints, and suggested additions |
| `ExploitShapes` | memory of confirmed exploit shapes between scans |
| `Adapters`, `Redirects`, `Cidr` | the vendored requests library: adapter table, redirect loop, netmasks |
| `Options`, `Sequences`, `Utf16`, `Bits` | shared vocabulary: options, sequence facts, code-unit texts, bit operations on naturals |

Strings whose order, escaping or hashing matters are sequences of UTF-16 code units (`Utf16.Text`).
Code that updates state is a method or a class, proved against a function or predicate; the main
results are lemmas about those functions.

Where the code differs from what its comments or its design suggest, the model follows the code, and
each property that fails has its exact condition:

- `sortDeep` assigns `out[key]`. A key `__proto__` goes to the prototype setter and is lost, so the
  canonical text does not see it (`ProtoMemberIsLost`); `TextDeterminesValue` gives the exact relation.
  Array-index keys come first in the text, by value, whatever the sort did.
- The rate limit holds of recorded sends exactly when probes do not overlap between `throttle` and
  `record`; if two may, no other limit holds either, whatever the rate (`RateLimitIffSequential`).
  `record` runs only after a response, so a send that fails does not count: of attempts, one probe at
  a time, the limit holds exactly when no send fails (`AttemptLimitIffNoneFails`).
- For the same reason the caps bound recorded and in-flight requests, not attempts: the number of
  attempts is bounded exactly when the gate is closed already (`AttemptsBoundedIff`). With C probes at
  a time the bounds are cap + C - 1, which are reached (`CapIsReached`, `MutatingCapIsReached`).
- With live probing on, adding known false positives can add a confirmation, as through a shared probe
  budget (`SharedBudgetBreaksRemoval`). It only removes them exactly when no live attempt influences
  the report on a later finding with another key (`RemovalLawIff`).
- An empty severity list means "no restriction", so leaving it can lose confirmations
  (`LeavingTheEmptyListNarrows`); `GrowthLawIff` and `SettingsWidenIff` say exactly which changes of
  scope only add.
- `deepMerge` is not associative (`MergeNotAssociative`); `MergeAssociativeIff` says exactly when the
  grouping does not matter. One merge layers its two sources exactly when no path is an object in one
  and a leaf in the other, an object without leaves under an overlay's leaf aside
  (`MergeLayersIffCompatible`).
- So the highest-precedence source that sets a path need not win: a section that the file sets to a
  plain value is lost under one variable of that section (`PlainSectionIsLost`). For any number of
  sources `LayerPrecedence` says exactly when it always wins.
- Suggested priority categories are compared neither with each other nor with the zero-surface list;
  `EnrichedDistinctIff` and `EnrichedDisjointIff` say exactly which suggestions do harm.
- A `null` element in the labelling reply makes the loop throw (`LabelAuthBoundaries`).

## Model

| member | source | states |
|---|---|---|
| `CanonicalText.TextDeterminesValue` | apps/api/src/audit-hash.ts:13-26 | Two JSON values of any depth have the same canonical text if and only if they are equal up to object key order and members keyed `__proto__`. |
| `CanonicalText.TextInjective` | apps/api/src/audit-hash.ts:13-26 | On values without a `__proto__` key the text determines the value up to key order, with no exception. |
| `CanonicalText.ProtoMemberIsLost` | apps/api/src/audit-hash.ts:21-23 | An object with a `__proto__` member and the empty object are different values with one text. |
| `CanonicalText.CanonEqualSame` | apps/api/src/audit-hash.ts:17-26 | Equal canonical forms come only from values equal up to key order and lost members. |
| `CanonicalText.SameCanonEqual` | apps/api/src/audit-hash.ts:17-26 | Values equal up to key order and lost members have one canonical form. |
| `JsonText.PrintSplit` | apps/api/src/audit-hash.ts:14 | No printed value followed by a delimiter can be read as another value: value and remaining text are determined (arrays, objects, numbers, strings). |
| `JsonText.ReadQuoted` | apps/api/src/audit-hash.ts:14 | An independent reader recovers every string from its escaped form, control characters and lone surrogates included. |
| `JsonText.Layout` | apps/api/src/audit-hash.ts:14 | Texts have no white space: elements and members separated by commas, in brackets and braces. |
| `JsonText.EscapeLengths` | apps/api/src/audit-hash.ts:14 | Exactly control characters, the quote, the backslash and lone surrogates are escaped; which escapes are short. |
| `CanonicalJson.SortDeep` | apps/api/src/audit-hash.ts:17-26 | Filling a fresh object key by key yields the canonical form, whose members are ordered at every depth. |
| `CanonicalJson.ObjectKeysSorted` | apps/api/src/audit-hash.ts:22 | The sorted key list holds exactly the object's keys, strictly ascending by code unit. |
| `CanonicalJson.CanonOrdered` | apps/api/src/audit-hash.ts:17-26 | In a canonical object array indices come first, by value, then the other keys by code unit. |
| `CanonicalJson.AssignSorted` | apps/api/src/audit-hash.ts:22 | Adding keys in sorted order keeps the engine's own-key order, array indices first, and adds exactly the new member. |
| `CanonicalJson.SortedUnique` | apps/api/src/audit-hash.ts:17-26 | A canonical member list is determined by its set of members. |
| `AuditEvents.BodySameContent` | apps/api/src/store.ts:594-608 | Bodies equal up to key order come from events equal in every field but the hash. |
| `AuditEvents.ContentBodySame` | apps/api/src/store.ts:594-608 | Events with equal content hash bodies that are equal up to key order, whatever order the fields came in. |
| `AuditEvents.BodyExact` | apps/api/src/store.ts:594-608 | The hashed object has exactly the twelve named members: required fields always, optional ones when present, never the hash. |
| `AuditLog.LogIdentity` | apps/api/src/store.ts:590-634 | Two verifying logs that end in the same hash have the same length, the same hashes, and event for event the same content, actor and metadata up to key order and `__proto__` members. |
| `AuditLog.PreimageSplit` | apps/api/src/audit-hash.ts:29-33 | `prevHash + json` of two chained events splits in one way only, first events included. |
| `AuditLog.PrefixVerifies` | apps/api/src/store.ts:625-634 | Every prefix of a verifying chain verifies. |
| `AuditLog.DraftVerifies` | apps/api/src/store.ts:590-613 | The event rebuilt by the schema extends a good chain to a good chain, although another object was hashed. |
| `AuditLog.RebuiltEventVerifiesIff` | apps/api/src/store.ts:594-634 | The rebuilt event keeps the chain verifying if and only if it has the content that was hashed, up to key order. |
| `AuditLog.RunKeepsGood` | apps/api/src/store.ts:590-613 | Any run of appends over any mix of clients keeps every client's chain verifying and numbered 1 to n. |
| `AuditLog.RunIsolatesClients` | apps/api/src/store.ts:590-613 | A client's chain after a run depends on that client's own requests only. |
| `AuditLog.ListWindow` | apps/api/src/store.ts:615-623 | `fromSequence` with `limit` returns exactly the contiguous slice of the events that exist. |
| `AuditLog.ListOfScan` | apps/api/src/store.ts:615-623 | With a scan id, exactly that scan's events from `fromSequence` on, in sequence order; a limit keeps the first of them. |
| `AuditLog.ListUnfiltered` | apps/api/src/store.ts:615-623 | Without options, or with an empty scan id, every event is returned; a limit keeps the first events, a negative one drops from the end. |
| `AuditLog.InMemoryAuditLogClient.Append` | apps/api/src/store.ts:590-613 | Appends one event to that client's chain and touches no other; the event carries every field of the request (id, time, action and summary unchanged, actor and metadata up to key order and `__proto__` members, empty optional texts dropped), the next number and the head hash; a rejected event changes nothing. |
| `AuditLog.InMemoryAuditLogClient.List` | apps/api/src/store.ts:615-623 | Returns the selected events of the client's chain. |
| `AuditLog.InMemoryAuditLogClient.VerifyChain` | apps/api/src/store.ts:625-634 | True if and only if every event names the hash before it and carries its own. |
| `RateRuns.RateLimitIffSequential` | packages/confirm/src/guard.ts:273-295 | For every positive rate: sends i and i+k, with k = ceil(maxRequestsPerSecond), are recorded at least 1000 ms apart in every run with at most C probes at a time if and only if C is at most 1; and if C is 2 or more, no k does it. |
| `RateRuns.RateLimit` | packages/confirm/src/guard.ts:273-295 | One probe at a time on a monotone clock, sends i and i+k are recorded at least 1000 ms apart and in order in every run, with failing and killed probes in between. |
| `RateRuns.WindowHoldsAtMost` | packages/confirm/src/guard.ts:273-295 | A stretch shorter than 1000 ms holds at most k recorded sends. |
| `RateRuns.ProbeIsLate` | packages/confirm/src/guard.ts:273-288 | A probe that resumed after `throttle` is a window later than the k-th last send, although the pruned list is not filtered again after the sleep. |
| `RateRuns.OverlappingProbesBreakRate` | packages/confirm/src/guard.ts:273-295 | With two probes at a time, for every positive rate and every n some run records n + 1 sends within one window. |
| `RateRuns.CrowdGrows` | packages/confirm/src/guard.ts:273-295 | Two probes that sleep until the oldest send leaves the window leave one send more in it than before. |
| `AttemptRuns.AttemptLimitIffNoneFails` | packages/confirm/src/guard.ts:273-295 | One probe at a time, for every positive rate: attempts i and i+k, with k = ceil(maxRequestsPerSecond), resume at least 1000 ms apart in every run if and only if no send may fail; if sends may fail, no k does it. |
| `AttemptRuns.FailuresNeverWait` | packages/confirm/src/guard.ts:273-295 | Any number of sends that fail can be attempted one after the other at one instant. |
| `GuardRuns.CapsHold` | packages/confirm/src/guard.ts:222-295 | Under any interleaving of at most C probes, recorded plus in-flight requests never pass cap + C - 1 (the cap when C = 1), likewise for mutating ones; a mutating cap of 0 admits none; every admission is accounted for. |
| `GuardRuns.CapIsReached` | packages/confirm/src/guard.ts:234-295 | The bound cap + C - 1 is exact: some run reaches it from any idle guard below its cap. |
| `GuardRuns.MutatingCapIsReached` | packages/confirm/src/guard.ts:234-295 | From any idle guard that lets mutating requests through, some run has as many of them as either cap leaves room for, plus C - 1; that is the mutating cap + C - 1 where the scan cap has room. |
| `GuardRuns.MutatingPeakHolds` | packages/confirm/src/guard.ts:234-295 | No run from such a guard has more. |
| `GuardRuns.NothingAfterKill` | packages/confirm/src/guard.ts:222-235 | After the kill signal nothing is admitted, whatever happens next. |
| `GuardRuns.AdmittedAreAllowed` | packages/confirm/src/guard.ts:234-270 | In every run each admitted request is allowlisted, passes egress and is no blocked production target. |
| `GuardRuns.AttemptsBoundedIff` | packages/confirm/src/guard.ts:234-295 | From an idle guard the number of attempts is bounded if and only if the kill signal is set or the scan cap is used up already. |
| `GuardRuns.FailingRun` | packages/confirm/src/guard.ts:234-295 | Any number of sends that fail can be admitted below an open cap, because only completed sends are recorded. |
| `ScopeGuard.ScopeGuard.AssertProbeAllowed` | packages/confirm/src/guard.ts:234-270 | Changes nothing and passes if and only if the signal is not set, neither cap is used up, some entry of the allowlist covers the URL, production is not blocked or not suspected, and egress allows; each error is reported exactly when its check is the first to fail. |
| `ScopeGuard.ScopeGuard.Throttle` | packages/confirm/src/guard.ts:273-288 | Keeps exactly the send times less than 1000 ms old, asks to sleep until the oldest leaves the window when there are as many as the rate, and fails exactly when it sleeps and the signal is set before or after. |
| `ScopeGuard.ScopeGuard.Record` | packages/confirm/src/guard.ts:291-295 | Counts the send, counts it as mutating when its method is, and remembers its time. |
| `ScopeGuard.IsAllowlisted` | packages/confirm/src/guard.ts:69-91 | True if and only if some entry is the target itself or has its host and a root path above its path. |
| `ScopeGuard.AllowlistedExact` | packages/confirm/src/guard.ts:69-91 | A target is allowlisted if and only if it parses and some entry is the target, or has its host and path segments that lead to the target's. |
| `ScopeGuard.MutatingExact` | packages/confirm/src/guard.ts:243 | Exactly POST, PUT, PATCH and DELETE count as mutating, in any ASCII case. |
| `ScopeGuard.UnderRootSegments` | packages/confirm/src/guard.ts:87-88 | The string test on paths means exactly that the root's segments are a prefix of the path's. |
| `DiffScope.ComputeDiffScope` | packages/appmap/src/diff.ts:51-105 | `changedFiles` is exactly the normalised changed paths that were scanned, `reachable` exactly the files on an import path to or from one of them, and both lists are strictly sorted; the searches terminate. |
| `DiffScope.Search` | packages/appmap/src/diff.ts:82-95 | The worklist search terminates and visits exactly what the start files reach. |
| `DiffScope.BuildGraphs` | packages/appmap/src/diff.ts:58-77 | The forward graph has exactly the import edges and the reverse graph is its converse. |
| `DiffScope.ReachesConverse` | packages/appmap/src/diff.ts:58-99 | A path leads forwards from a to b if and only if one leads backwards from b to a. |
| `DiffScope.ResolveImport` | packages/appmap/src/diff.ts:18-42 | A relative specifier is its base if scanned, else the base with the first of six extensions that is scanned, else its index file likewise; `@/x` and `~/x` try x and then `src/x`; a bare specifier gives nothing. |
| `DiffScope.ResolveExact` | packages/appmap/src/diff.ts:18-42 | The candidate search agrees with that meaning for every specifier. |
| `DiffScope.EdgeExact` | packages/appmap/src/diff.ts:58-77 | There is an edge exactly where an import of a scanned file means another file. |
| `DiffScope.PosixExact` | packages/appmap/src/diff.ts:13-16 | Normalising turns every backslash into a slash and drops one leading `./` or `.\`. |
| `DiffScope.RelPathExact` | packages/appmap/src/diff.ts:62-69 | A path below the project's directory is taken relative to it, any other path as it is. |
| `DiffScope.FirstFileIsFirst` | packages/appmap/src/diff.ts:37-41 | The file found is the earliest candidate that is scanned; none is found only when no candidate is. |
| `DiffScope.SearchesSymmetric` | packages/appmap/src/diff.ts:82-99 | The forward and the reverse search from a together visit b if and only if those from b visit a. |
| `DiffScope.ScopeSymmetric` | packages/appmap/src/diff.ts:79-104 | b is in the scope of a if and only if the two searches from a visit it, and if and only if a is in the scope of b. |
| `DiffScope.ScopeDistributes` | packages/appmap/src/diff.ts:79-104 | The scope of two change lists together is the union of their scopes. |
| `Fnv.OneUnitNeverCollides` | packages/correlation/src/hash.ts:7-14 | Changing one code unit of a text always changes its hash. |
| `Fnv.SuffixPreserves` | packages/correlation/src/hash.ts:7-14 | A common suffix preserves both equality and inequality of hashes. |
| `Fnv.RoundInjective` | packages/correlation/src/hash.ts:10-11 | Each round is injective in the state: the prime has an inverse modulo 2^32. |
| `Fnv.EightHexDigits` | packages/correlation/src/hash.ts:13 | The result is always eight lower-case hex digits that spell the 32-bit hash. |
| `Fnv.ComputeFnv1a` | packages/correlation/src/hash.ts:7-14 | The loop computes the padded hexadecimal hash, staying within 32 bits. |
| `Fnv.HashOfEmpty` | packages/correlation/src/hash.ts:8-13 | The empty text has the published hash `811c9dc5`. |
| `Fnv.KnownHash` | packages/correlation/src/hash.ts:8-13 | The text `a` has the published hash `e40c292c`. |
| `Fnv.IdLayout` | packages/correlation/src/hash.ts:17-24 | The layout of both ids, and exactly which joined text each of them hashes. |
| `Fnv.RootCauseIdParts` | packages/correlation/src/hash.ts:17-19 | Two root-cause ids are equal if and only if category and hash are. |
| `Fnv.RootCauseIdScans` | packages/correlation/src/hash.ts:17-19 | For one root cause, ids of two scans collide exactly when the scan ids' own hashes do. |
| `Fnv.RootCauseIdKeys` | packages/correlation/src/hash.ts:17-19 | Keys of one scan and category that differ in one code unit get different ids. |
| `Fnv.ProbableIdScans` | packages/correlation/src/hash.ts:22-24 | For one root cause, probable ids of two scans collide exactly when the scan ids' hashes do. |
| `ConfirmLaws.EveryFindingLandsOnce` | packages/confirm/src/confirm.ts:99-302 | When the batch returns, every probable finding is in exactly one of the two lists (as multisets), each in stable rank order. |
| `ConfirmLaws.ConfirmedIsProved` | packages/confirm/src/confirm.ts:148-290 | A confirmed finding is no known false positive, its route if it names one is registered, and it is confirmed live, else statically, else by an admitted investigation, whichever proved it first. |
| `ConfirmLaws.UnconfirmedIsExplained` | packages/confirm/src/confirm.ts:148-297 | The appendix reason is the true one: a known false positive; else exactly when the named route is not registered, a structural exclusion; else no live attempt, static proof or admitted investigation proved the finding. |
| `ConfirmLaws.VerdictsAreDecisions` | packages/confirm/src/confirm.ts:148-298 | Each verdict is the decision on its own finding, given the outcome of its own live attempt. |
| `ConfirmLaws.AttemptsExact` | packages/confirm/src/confirm.ts:148-219 | A live attempt is made, and moves the probe state, exactly for a finding that is no false positive, whose named route is registered, and whose category is probed live. |
| `ConfirmChanges.RemovalLawIff` | packages/confirm/src/confirm.ts:148-298 | In every batch and whatever is added, adding known false positives removes exactly those findings, keeps the order of the rest and stops no batch, if and only if no live attempt influences what is reported on later findings with other keys. |
| `ConfirmChanges.MoreFalsePositivesOnlyRemove` | packages/confirm/src/confirm.ts:148-298 | The law for one batch, live probing on or off, kill signal included. |
| `ConfirmChanges.InterferenceBreaksLaw` | packages/confirm/src/confirm.ts:213-226 | Where the attempt on f changes a later report, suppressing f breaks the law on the batch of f and the findings up to that report. |
| `ConfirmChanges.IndependentLaw` | packages/confirm/src/confirm.ts:148-298 | The law holds with live probing off, and with it on when no attempt's report depends on earlier attempts. |
| `InvestigationScope.GrowthLawIff` | packages/confirm/src/confirm.ts:54-74 | Another investigation scope only adds confirmations, in every batch, if and only if it admits every finding the old scope admits that only the investigation can still confirm. |
| `InvestigationScope.WideningOnlyAdds` | packages/confirm/src/confirm.ts:54-74 | Admitting at least those findings keeps every confirmation, in order, in any batch, live probing on or off. |
| `InvestigationScope.NarrowingLoses` | packages/confirm/src/confirm.ts:270-296 | Such a finding that is no longer admitted moves from the confirmed list to the appendix. |
| `InvestigationScope.SettingsWidenIff` | packages/confirm/src/confirm.ts:54-74 | Over all tables of base severities: one severity list with its prior shapes admits all that another admits if and only if it is empty, or each shape is prior, or was not and a non-empty list was enlarged. |
| `InvestigationScope.LargerScopeOnlyAdds` | packages/confirm/src/confirm.ts:54-74 | Enlarging a non-empty severity list or adding prior shapes can only add confirmations. |
| `InvestigationScope.LeavingTheEmptyListNarrows` | packages/confirm/src/confirm.ts:55-56 | Going from the empty severity list to any other loses every finding that only an investigation confirms and that neither the list nor a prior shape admits. |
| `ConfirmChanges.SharedBudgetBreaksRemoval` | packages/confirm/src/confirm.ts:213-226 | With a shared probe budget the law fails on any two findings with different keys. |
| `ConfirmLaws.StopsWhenKilled` | packages/confirm/src/confirm.ts:76-84 | The batch stops if and only if the signal is set at some finding or a live attempt aborts. |
| `Confirm.SortByRankCorrect` | packages/confirm/src/confirm.ts:104 | The batch order is a permutation in rank order that keeps input order within each rank. |
| `Confirm.ConfirmFindings` | packages/confirm/src/confirm.ts:99-302 | The loop fills the two lists as the per-finding verdicts say, or stops with the kill switch. |
| `AuthLabels.LabelAuthBoundaries` | packages/appmap/src/llm.ts:141-173 | The indexed loop refines the rule route by route; `applied` is the number of routes changed; it throws exactly on a null entry. |
| `AuthLabels.RelabelRule` | packages/appmap/src/llm.ts:156-170 | Known routes, paths, methods and existing guards are untouched; a gap changes if and only if an entry matches; it takes the first one's state, and its guard where the route has none. |
| `AuthLabels.MatchesExact` | packages/appmap/src/llm.ts:156-163 | An entry matches exactly when it names the path, one of three states, and either no method or the route's. |
| `AuthLabels.RelabelSnoc` | packages/appmap/src/llm.ts:156-170 | One more entry labels exactly the gaps that earlier entries left and it matches. |
| `AuthLabels.IndexGaps` | packages/appmap/src/llm.ts:141-154 | The index holds, per path, exactly the gap routes of that path, in order. |
| `ConfigLayers.SetThenGet` | packages/config/src/loader.ts:45-54 | What is written at a path is read there. |
| `ConfigLayers.SetLeavesOthers` | packages/config/src/loader.ts:45-54 | A write leaves every path that neither extends nor is extended by it. |
| `ConfigLayers.SetOverwrites` | packages/config/src/loader.ts:45-54 | The second of two writes at one path wins. |
| `ConfigLayers.SetsCommute` | packages/config/src/loader.ts:45-54 | Writes commute when neither path is a prefix of the other. |
| `ConfigLayers.OrderOfWritesIrrelevant` | packages/config/src/loader.ts:73-180 | Any reordering of writes to such paths gives the same object. |
| `EnvOverlay.TablePathsApart` | packages/config/src/loader.ts:73-180 | No variable's path in the environment table is a prefix of another's. |
| `EnvOverlay.TableOrderIrrelevant` | packages/config/src/loader.ts:73-180 | The order of the table does not matter. |
| `EnvOverlay.OverlayHoldsVariable` | packages/config/src/loader.ts:73-180 | Every variable that is set is found under its path whatever else is set; one that is not leaves nothing there. |
| `ConfigObjects.ConfigObject.SetPath` | packages/config/src/loader.ts:45-54 | Writing in place into a tree of mutable objects changes its value as the path write does, keeps it a tree, and adds only new objects. |
| `ConfigObjects.BuildOverlay` | packages/config/src/loader.ts:73-180 | The object that the variables are written into one after the other holds exactly the overlay in the end. |
| `ConfigLayers.DeepMerge` | packages/config/src/loader.ts:31-43 | The loop over a copy of the base computes the merge, skipping undefined entries. |
| `ConfigLayers.MergeLayersIffCompatible` | packages/config/src/loader.ts:31-43 | At every path the overlay's leaf wins and else the base's shows, if and only if no path is an object in one and a leaf in the other. |
| `ConfigLayers.MergeGet` | packages/config/src/loader.ts:31-43 | The leaf at each path of a merge of compatible sources. |
| `ConfigLayers.MergeAssociativeIff` | packages/config/src/loader.ts:31-43 | Two groupings of three sources give one object if and only if, at every path that is an object in the outer two, the middle one is no leaf or the last source absorbs the first. |
| `ConfigLayers.MergeIsOverlayIff` | packages/config/src/loader.ts:31-43 | Merging a base below an overlay gives the overlay itself if and only if the overlay has every key of the base, at every depth, and no `undefined` of its own to drop. |
| `ConfigLayers.CompatibleMergeAssociative` | packages/config/src/loader.ts:31-43 | Where the last source is compatible with the middle one the grouping never matters. |
| `ConfigLayers.MergeNotAssociative` | packages/config/src/loader.ts:31-43 | An object, a leaf and an object under one key merge differently in the two groupings. |
| `ConfigPrecedence.LayerPrecedence` | packages/config/src/loader.ts:236-255 | For any number of sources: every path has the leaf of the last source that sets it, if and only if nowhere a leaf of one source meets an object of another that holds a leaf or has no later leaf over it. |
| `ConfigPrecedence.CompatibleSourcesLayer` | packages/config/src/loader.ts:236-255 | Sources that are compatible in pairs meet that condition. |
| `ConfigPrecedence.PlainSectionIsLost` | packages/config/src/loader.ts:236-255 | A section that the file sets to a plain value disappears under one environment variable of that section. |
| `ConfigPrecedence.HighestPrecedenceWins` | packages/config/src/loader.ts:236-255 | Overrides win over secrets over environment over file at every path, if and only if the four do not clash in that way. |
| `ConfigPrecedence.LoadMerged` | packages/config/src/loader.ts:236-252 | The result is the four-fold merge of file, environment, secrets and overrides, an absent one counting as empty; at every path the overrides' leaf wins over the secrets', the environment's and the file's if and only if the four do not clash. |
| `ThreatModel.BoundariesExact` | packages/appmap/src/threat-model.ts:222-259 | The auth boundaries list exactly the (path, auth state) pairs of the routes, one boundary per state, none empty, no path twice. |
| `ThreatModel.StrideExact` | packages/appmap/src/threat-model.ts:135-219 | Threats of a boundary: none unless public or unknown, then spoofing always and the others by what that state's routes do to models. |
| `ThreatModel.ExternalExact` | packages/appmap/src/threat-model.ts:241-257 | The external boundary exists exactly when third parties are called. |
| `ThreatModel.BuildTrustBoundaries` | packages/appmap/src/threat-model.ts:222-259 | Grouping through a map yields the boundaries in the fixed state order. |
| `ThreatModel.IdorHighIffTampering` | packages/appmap/src/threat-model.ts:135-310 | `idor` is `high` if and only if the public or the unknown boundary carries tampering. |
| `ThreatModel.OncePerCategory` | packages/appmap/src/threat-model.ts:319-528 | Each category occurs at most once in the baseline, with the plausibility assessed for it. |
| `ThreatModel.BuildAttackSurfaceBaseline` | packages/appmap/src/threat-model.ts:319-528 | The sequence of conditional pushes computes the category table. |
| `ThreatModel.InjectionsExact` | packages/appmap/src/threat-model.ts:330-382 | When SQL, NoSQL, command injection and XSS are listed, and with which plausibility, from the map's sinks. |
| `ThreatModel.DataFlowsExact` | packages/appmap/src/threat-model.ts:383-439 | The same for SSRF, path traversal, deserialization and XXE, including when they have no surface. |
| `ThreatModel.ConfigurationsExact` | packages/appmap/src/threat-model.ts:441-482 | The same for redirects, cryptography, secrets and CSRF. |
| `ThreatModel.AccessExact` | packages/appmap/src/threat-model.ts:484-497 | `idor` and broken access control: high where a weak route changes a model, medium where that is unresolved. |
| `ThreatModel.AuthenticationExact` | packages/appmap/src/threat-model.ts:499-510 | Broken authentication: medium exactly where some route's state is unknown. |
| `ThreatModel.MassAssignmentExact` | packages/appmap/src/threat-model.ts:512-525 | Mass assignment: medium exactly where some route writes a model. |
| `ThreatModel.FanOutExact` | packages/appmap/src/threat-model.ts:276-310 | The fan-out is resolved if and only if a public or unknown route writes or deletes a model; it then names exactly those routes and those models, and else every such route if there is any model. |
| `ThreatModel.SortSplits` | packages/appmap/src/threat-model.ts:584-588 | The stable sort of any filtered surface is its high entries followed by its medium ones, each in surface order. |
| `ThreatModel.ScopeHintsOrdered` | packages/appmap/src/threat-model.ts:583-598 | The baseline priority list holds exactly the high and the medium categories, high first, without repeats, and is disjoint from the zero-surface list. |
| `Enrichment.EnrichOnlyAppends` | packages/appmap/src/threat-model.ts:763-804 | The baseline is a prefix of the result; additions are bounded and name only real routes and known categories. |
| `Enrichment.CaseCount` | packages/appmap/src/threat-model.ts:765-778 | As many abuse cases are appended as are usable, up to eight. |
| `Enrichment.CasesExact` | packages/appmap/src/threat-model.ts:765-778 | Each of the first eight usable cases is appended in its place, with exactly its real routes and known categories. |
| `Enrichment.UsableHintExact` | packages/appmap/src/threat-model.ts:780-788 | A suggestion is usable exactly when it names a known category that the baseline lacks and gives a reason. |
| `Enrichment.EnrichedDistinctIff` | packages/appmap/src/threat-model.ts:780-801 | A repeat-free priority list stays so if and only if no two of the first five usable suggestions name one category. |
| `Enrichment.EnrichedDisjointIff` | packages/appmap/src/threat-model.ts:780-801 | A priority list disjoint from the zero-surface list stays so if and only if none of the first five usable suggestions names a zero-surface category. |
| `Enrichment.RepeatedSuggestionRepeats` | packages/appmap/src/threat-model.ts:780-790 | One category suggested twice is appended twice. |
| `ExploitShapes.RecordConfirmedExploitShapes` | apps/worker/src/runners.ts:495-543 | The loop records exactly the first five writable distinct shapes, in first-occurrence order, under any write failures. |
| `ExploitShapes.RecordedShapes` | apps/worker/src/runners.ts:495-543 | At most five pairwise distinct shapes, all of confirmed findings; when every write succeeds the first five distinct ones, and the shape of every finding if there are no more than five. |
| `ExploitShapes.FirstsSnoc` | apps/worker/src/runners.ts:502-509 | One more finding appends its shape exactly when no earlier finding has it. |
| `ExploitShapes.KeyInjective` | apps/worker/src/runners.ts:507 | The deduplication key tells shapes apart, since no category contains a colon. |
| `ExploitShapes.MatchesIffRecent` | apps/worker/src/runners.ts:422-450 | A finding matches if and only if its shape is recorded and fewer than 25 facts of the repository are newer. |
| `ExploitShapes.MatchesExact` | apps/worker/src/runners.ts:422-450 | A match means a row of the repository with the finding's category and directory, and fewer than 25 newer rows. |
| `ExploitShapes.HasShapeExact` | apps/worker/src/runners.ts:502-507 | A shape stands for the findings of one category and one directory. |
| `ExploitShapes.OfRepoExact` | apps/api/src/store.ts:567-574 | The facts of a repository are the rows with its client and name, each as often as it occurs. |
| `ExploitShapes.RecordedShapeIsRecalled` | apps/worker/src/runners.ts:422-543 | A shape recorded by one scan matches in a later one while that scan's own shapes and the facts recorded since are together at most 25. |
| `ExploitShapes.SiblingsShareThePattern` | apps/worker/src/runners.ts:399-402 | The pattern of a file is its directory, or `.` for a file without one. |
| `ExploitShapes.LearnedFactStore.ListByRepo` | apps/api/src/store.ts:567-574 | The newest facts of the repository, newest first, as many as the limit allows: result i is the i-th newest. |
| `Adapters.MountsOrdered` | corpus/requests-clean/requests/sessions.py:888-897 | After any sequence of mounts the table is ordered by non-increasing prefix length and holds exactly the last adapter of each prefix. |
| `Adapters.MountKeepsOrder` | corpus/requests-clean/requests/sessions.py:888-897 | One mount keeps the order, replaces its own prefix's adapter and keeps every other. |
| `Adapters.Session.Mount` | corpus/requests-clean/requests/sessions.py:888-897 | Assigning and moving the shorter keys to the end keeps the table ordered, with no prefix twice. |
| `Adapters.Session.GetAdapter` | corpus/requests-clean/requests/sessions.py:870-881 | The first match is a longest matching prefix; none is found if and only if nothing matches. |
| `Adapters.ServesExact` | corpus/requests-clean/requests/sessions.py:876-878 | A prefix serves a URL exactly when the URL starts with it, letter case aside. |
| `Redirects.SendWithRedirects` | corpus/requests-clean/requests/sessions.py:186-307 | For any server the loop stops after at most `max_redirects` follow-ups; each response's history is exactly the responses before it; it raises exactly when the last one still redirects. |
| `Redirects.VerbAlongChain` | corpus/requests-clean/requests/sessions.py:370-392 | GET and HEAD never change along a chain; any other method is kept or becomes GET, and POST survives exactly while every hop is 307 or 308. |
| `Redirects.BodyAlongChain` | corpus/requests-clean/requests/sessions.py:249-258 | The body survives exactly while every hop so far is 307 or 308. |
| `Redirects.FragmentAlongChain` | corpus/requests-clean/requests/sessions.py:203-235 | Each request carries the last fragment a redirect gave, else the original one. |
| `Redirects.TooManyIff` | corpus/requests-clean/requests/sessions.py:204-219 | The limit is exceeded if and only if the first `max_redirects` + 1 responses all redirect. |
| `Redirects.HopExact` | corpus/requests-clean/requests/sessions.py:204-258 | Each next request, status by status: 302 and 303 turn all but HEAD into GET, 301 turns POST into GET, 307 and 308 keep method and body; URL and fragment come from the location. |
| `Redirects.RedirectsExact` | corpus/requests-clean/requests/sessions.py:134-150 | A response redirects exactly when it has one of the five statuses and a non-empty location. |
| `Cidr.InNetworkIffSamePrefix` | corpus/requests-clean/requests/utils.py:726-738 | An address is in the network if and only if the two agree on their first mask bits, whichever byte order the machine has. |
| `Cidr.FirstBitsIsQuotient` | corpus/requests-clean/requests/utils.py:726-738 | The first mask bits are the quotient by 2^(32-mask). |
| `Cidr.InNetworkIffSameOctets` | corpus/requests-clean/requests/utils.py:734-738 | Masking the unpacked words compares the masked octets, in either byte order. |
| `Cidr.NetmaskValue` | corpus/requests-clean/requests/utils.py:741-749 | The netmask is 2^32 - 2^(32-mask), for masks 0 to 32. |

## Left out

Abstractions in what is modelled:

- LogIdentity: SHA-256 is any function to 64 hex digits that does not collide on the texts these two logs hashed. A function that never collides cannot exist at that length, so collision freedom is asked only where it is used.
- RunKeepsGood: the event schema is a parameter that may reject an event or reorder keys inside it; RebuiltEventVerifiesIff says exactly what happens when it does more. Clock and id generator are inputs of each request.
- Append: the returned event and the stored one are the same object in the original; that aliasing is not modelled. A schema rejection is `None`.
- TextDeterminesValue: values are JSON data only. `undefined`, functions and dates are not part of this model, and a number is its JavaScript text.
- RateLimit: clock readings are reals, a sleep lasts at least as long as asked, and a probe that is killed or fails may leave at any time.
- AssertProbeAllowed: URL parsing, the production markers and the egress guard are parameters; method names are upper-cased in ASCII.
- ComputeDiffScope: path joining and the project's files and imports are parameters; a set is iterated in any order; the scanned file set is taken already normalised.
- ConfirmFindings: static proof, live attempt, structural route list, investigation, severity of a category, and authorisation of live probing are parameters; audit writes and titles are left out, and the output schema is the identity.
- LabelAuthBoundaries: reply fields are strings or absent, and one route object listed twice in the map is not modelled. The early returns, the prompt and the call are left out.
- SetPath: the in-place write descends by recursion where the original loops, and only values that are not plain objects are written, as its callers do. Keys that name members of the object prototype are not part of this model.
- DeepMerge: values are merged, so that the result shares unchanged nested objects with its sources is not captured.
- OverlayHoldsVariable: the parsing helpers are a parameter from text to value per kind of variable.
- HighestPrecedenceWins: reading files and secrets, and schema validation of the result, are left out.
- BuildAttackSurfaceBaseline: rationale strings and the per-category STRIDE table are left out; so are abuse-case texts.
- EnrichOnlyAppends: categories are their names; the reply is taken as parsed, with string fields present or absent, and its validation by the schema is the identity.
- RecordConfirmedExploitShapes: fact ids, times and the cosmetic fields of a fact are left out; a failed write stores nothing.
- GetAdapter: lower-casing is ASCII, and adapters are names.
- SendWithRedirects: headers, cookies, authentication, proxies, body rewinding and streaming are left out; resolving and quoting URLs are parameters; histories stand beside the responses.
- InNetworkIffSamePrefix: parsing of dotted addresses and the string checks of `is_valid_cidr` are left out; masks 1 to 32, which it admits, are among those covered.

Not modelled, because the code is plumbing or would add only easy members:

- HTTP routes, the Prisma stores, queues and Redis transports, process entry points, the Vault client, the command line.
- The stub orchestrator, the scheduler, reconcile, the verifier panel, the coverage verdict table.
- LLM calls and prompts, and the bodies of static proof, live probing and investigation.
- Cookie merging and `iter_lines` of the vendored library, and the deliberately vulnerable corpus applications.
