# A verified model of the Atlassian AI Workflow Platform

This project models, in Dafny, the parts of the platform whose behaviour is hard to see from the code alone, and
proves what they promise for every input, every run and every reachable state.

- **Service manifest.** The loader rejects manifests whose `depends_on_services` lists form a cycle, by an iterative
  white/gray/black search with a stack of pending lists and a parent table. `DependencySearch` is the search as a
  state machine on values with its invariant, `Manifest` says what it means for a services list, `FirstCycle` which
  cycle is named, and `ManifestLoader` is the program itself, on mutable lists, together with the duplicate-name scan,
  the filtering, and the schema script's twin of the search.
- **Credential session.** A session bucket with a 60-minute inactivity rule and a process-wide restore cache that
  outlives it. `CredentialModel` gives every operation as a function of the session's value, `CredentialManager` is
  the object that mutates its records in place and is proved to compute those functions, and `CredentialRuns` and
  `CredentialCoherence` prove expiry, coherence, removal and reload over runs. `CredentialEffects` says what single
  operations leave behind.
- **MCP calls.** `McpRetry` proves the candidate and retry loops against a trace specification that fixes the run.
- **Jira template deploy.** `JiraTemplate` proves the idempotency contract with its exact condition.
- **Signed cookies and page tokens.** `Utf8`, `Base64Url` and `Cookie` prove the round trips.
- **Smoke run, issue log, report.** `SmokeProtocol` says which call follows which reply, what every reply means and
  what that implies for whole runs; `SmokeScript` tells the calls and verdicts of a run spot by spot;
  `SmokeRunner` is the four suites as a program, proved to follow it, uncaught exceptions included; `IssueLog` is the
  open-issue log, `Report` the verdicts, `SmokeVerdict` joins them.
- **Concurrency gate and workflow paging.** `ConcurrencyGate` bounds admissions over interleavings;
  `WorkflowPaging` says exactly which entries a page shows.

`Prelude`, `NameOrder` and `Text` hold what these share. `dafny verify dfyconfig.toml` checks everything.

Where the code and its documentation disagree the model follows the code:

- The manifest loader promises unique compose names, but its scan gives up at the first entry without one, and
  `config/services.manifest.json` has four such external entries. `DuplicateCheckIsExact` gives the condition,
  `DuplicateSlipsPastExternalEntry` an accepted duplicate.
- `store` does not look at the inactivity rule, so it can revive an expired bucket; the credential form avoids this by
  calling `get` first. The expiry theorem names the proviso, `StoreRevivesTheRest` shows why it is
  there, and `GuardIsExact` that it excludes no more than it must.
- A logout does not reach a cache entry whose key the session no longer knows, which takes a session loss:
  `RemovalReachesExactly` and `ComesBackExactly` give the conditions, `LossBringsGoneBack` a family of runs.
- The concurrency module says that a zero from Temporal falls back to Postgres; the code falls back on an exception
  only. `BelievedZeroBreaksEveryCap` shows what follows, `CapHoldsExactly` when the cap holds.
- The listing's fetch limit applies before its filter, so a filtered match can be on no page: `ShownExactly` says
  which are shown, `NeverShownExactly` which are not, `FilteredMatchIsLost` gives one.
- Two template fields of one name and different payloads keep every deploy busy: `SecondDeployIsNoOp` is an if and only if,
  on payloads as Python's `==` sees them (`EqualMeansTheSame`).
- The log accepts ids up to R23, and, since its pattern ends in `$`, any of them with a line break behind it; the
  report lists R1 to R19 only. `GraveIssueShowsExactly` says which accepted issues no verdict shows.
- The smoke suites use extracted JSON values untyped and catch nothing, so a key, space key, version, commit hash, diff
  or state of the wrong kind ends the run with status 1, without evidence for its suite, and at nine places without
  clean-up: `FinishesExactly`, `LeftBehindExactly`, `NonTextKeyIsSilent`, `SomeRunLeavesItsBranch`.
- The log is called append-only, but it is written anew for every issue: a text that cannot be encoded, such as a lone
  surrogate in a key, breaks the write off after the old content is gone, the error is swallowed, and the report reads
  an empty list. `LogSurvivesExactly` and `SmokeThenReport` give the conditions, `UnencodableKeyLosesTheLog` a family.

## Model

| member | source | states |
|---|---|---|
| `Manifest.DependencyCheckIsExact` | services/admin-dashboard-api/src/manifest.py:171-250 | For every services list: the search rejects if and only if the dependency graph among manifest names has a cycle; a rejection names a simple cycle of real edges; an acceptance yields a listing of all names with every in-manifest dependency before its dependents, after exactly names + in-manifest edges passes of the inner loop |
| `Manifest.GraphIsDependsOn` | services/admin-dashboard-api/src/manifest.py:188-204 | The adjacency is closed and has exactly the edges that some entry of that name lists and that name another entry; names outside the manifest are no nodes |
| `Manifest.NeighboursContain` | services/admin-dashboard-api/src/manifest.py:197-204 | Membership in the adjacency list of a name, over all entries of that name |
| `Manifest.ResidentPicks` | services/admin-dashboard-api/src/manifest.py:197-204 | The part of one entry's list that is in the manifest is what the list holds at strictly ascending places, exactly those of manifest names |
| `Manifest.NeighboursFollow` | services/admin-dashboard-api/src/manifest.py:197-204 | The lists of entries of one name follow one another in manifest order |
| `Manifest.DegreesCountEdges` | services/admin-dashboard-api/src/manifest.py:223-250 | Summing list lengths over any duplicate-free order of the nodes counts every in-manifest dependency once |
| `Manifest.PassesAreNodesPlusEdges` | services/admin-dashboard-api/src/manifest.py:232-250 | The pass count in terms of the manifest: number of names plus number of in-manifest dependencies |
| `DependencySearch.StepProgress` | services/admin-dashboard-api/src/manifest.py:232-250 | Every step that neither rejects nor ends lowers a measure of unvisited nodes and unconsumed edges: the loops end on every graph |
| `DependencySearch.StepKeepsOnce` | services/admin-dashboard-api/src/manifest.py:232-250 | No step puts a node on the stack or finishes it a second time |
| `DependencySearch.StepKeepsInv` | services/admin-dashboard-api/src/manifest.py:228-250 | One pass keeps the whole invariant: the gray nodes are the stack, consecutive stack nodes are edges, black nodes are closed under edges and listed after their dependencies, what is pending is the untaken rest of each list, and the pass count is finished nodes plus taken edges |
| `DependencySearch.CyclePathIsStackSuffix` | services/admin-dashboard-api/src/manifest.py:212-221 | The extracted path is the stack from the revisited node upwards, closed by that node |
| `DependencySearch.BackEdgeIsCycle` | services/admin-dashboard-api/src/manifest.py:239-246 | Meeting a gray neighbour yields a closed walk of real edges with distinct interior |
| `DependencySearch.RunVerdict` | services/admin-dashboard-api/src/manifest.py:223-250 | From any state satisfying the invariant the run ends in a simple cycle or a topological order of all nodes |
| `DependencySearch.TopologicalMeansAcyclic` | services/admin-dashboard-api/src/manifest.py:223-250 | A graph with a topological order has no closed walk at all, so acceptance excludes every cycle |
| `DependencySearch.SearchDecides` | services/admin-dashboard-api/src/manifest.py:223-250 | On every closed graph and root order: cyclic verdict if and only if a closed walk exists |
| `FirstCycle.ReportedCycleIsFirst` | services/admin-dashboard-api/src/manifest.py:206-250 | Which cycle is named, told without the search: from the first root in order that leads to a cycle, always on to the first listed neighbour that leads to one, until a node comes again; the path is the walk from that node's first visit |
| `FirstCycle.FirstCycleIsUnique` | services/admin-dashboard-api/src/manifest.py:206-250 | Only one path is of this kind, so the named cycle is determined by the manifest |
| `ManifestLoader.CollectNames` | services/admin-dashboard-api/src/manifest.py:188-195 | The name set and one empty list object per name |
| `ManifestLoader.CollectNamesForScript` | scripts/check_services_manifest_schema.py:610-611 | The same table from the script's comprehensions |
| `ManifestLoader.AppendDependencies` | services/admin-dashboard-api/src/manifest.py:197-204 | The list objects end as the adjacency of the graph, entry by entry, repetitions kept |
| `ManifestLoader.ExtractCycle` | services/admin-dashboard-api/src/manifest.py:212-221 | The parent walk stops at `end`, never at a missing parent, and returns the reference path |
| `ManifestLoader.Follow` | services/admin-dashboard-api/src/manifest.py:239-250 | One taken edge: rejects on gray, pushes on white, passes over black, as the reference step does, leaving the adjacency lists unchanged |
| `ManifestLoader.Drain` | services/admin-dashboard-api/src/manifest.py:232-250 | The inner loop on heap lists runs the reference search until the stack is empty, one tick of it per turn of the loop |
| `ManifestLoader.FindCycle` | services/admin-dashboard-api/src/manifest.py:206-250 | The whole search over sorted roots returns the reference verdict and counts the turns of its inner loop; the adjacency is never changed by the pops |
| `ManifestLoader.CheckNoDependencyCycles` | services/admin-dashboard-api/src/manifest.py:171-250 | Rejects exactly as the reference verdict says, with its path; an acceptance took names + in-manifest dependencies turns of the program's own loop |
| `ManifestLoader.DetectDependencyCycle` | scripts/check_services_manifest_schema.py:603-650 | The script's twin gives the same verdict and path on every list, in the same number of turns |
| `ManifestLoader.CheckUniqueComposeServiceName` | services/admin-dashboard-api/src/manifest.py:139-168 | With every entry named: the repeated names, each with all its positions in order; with any unnamed entry: nothing |
| `ManifestLoader.ReportUnique` | services/admin-dashboard-api/src/manifest.py:155-168 | That report is determined by the services list |
| `ManifestLoader.DuplicateCheckIsExact` | services/admin-dashboard-api/src/manifest.py:139-168 | Rejects if and only if every entry carries a compose name and some name repeats |
| `ManifestLoader.DuplicateSlipsPastExternalEntry` | services/admin-dashboard-api/src/manifest.py:150-154 | A schema-valid manifest with a repeated compose name that the check lets through |
| `ManifestLoader.KeepManaged` | services/admin-dashboard-api/src/manifest.py:295-311 | Strictly ascending places list exactly the entries that are not external, and the kept list holds those entries in that order |
| `ManifestLoader.LoadManifest` | services/admin-dashboard-api/src/manifest.py:284-311 | Loads if and only if no reported duplicate and no dependency cycle; the result is what the list holds at strictly ascending places, exactly those of the entries that are not external; a duplicate is reported before a cycle is looked for, and each error carries a true report |
| `ManifestLoader.LoadedDependenciesDescend` | services/admin-dashboard-api/src/manifest.py:292-310 | Between loaded entries the rank falls strictly along every dependency, external entries dropped |
| `NameOrder.SortNames` | services/admin-dashboard-api/src/manifest.py:223-223 | The roots in ascending order, each once |
| `NameOrder.ListsUnique` | services/admin-dashboard-api/src/manifest.py:223-223 | There is only one such listing, so root order is determined |
| `NameOrder.LessAtFirstDifference` | services/admin-dashboard-api/src/manifest.py:223-223 | Names compare by the first character that differs, and a proper beginning comes first |
| `CredentialRuns.SilenceExpiresEverything` | ui/streamlit-app/components/credential_manager.py:590-632 | In every run: after 3600 s without a refreshing event, nothing stored before the gap is handed out again by get, validate or restore, provided no later store lands on an expired bucket that still holds another service's credential |
| `CredentialRuns.IdleStep` | ui/streamlit-app/components/credential_manager.py:687-855 | Each single event keeps old records unrefreshed and hands out none of them |
| `CredentialRuns.StoreRevivesTheRest` | ui/streamlit-app/components/credential_manager.py:771-837 | The proviso is needed: a store keeps every other record of the bucket, expired or not, and makes the next get return it |
| `CredentialRuns.GuardIsExact` | ui/streamlit-app/components/credential_manager.py:771-855 | After the silence a store is followed by a get that returns an old record if and only if the proviso was violated |
| `CredentialRuns.SettledStep` | ui/streamlit-app/components/credential_manager.py:669-899 | No event leaves anything in bucket or cache younger than the clock |
| `CredentialRuns.SettledRun` | ui/streamlit-app/components/credential_manager.py:669-899 | So every reachable state is a starting point for the expiry theorem |
| `CredentialEffects.RefreshLastsAnHour` | ui/streamlit-app/components/credential_manager.py:687-725 | After a refreshing event the session is expired exactly from 3600 seconds behind that event's reading on |
| `CredentialEffects.OthersDoNotRefresh` | ui/streamlit-app/components/credential_manager.py:747-868 | The events that do not touch leave the activity time, the records and the start as they were |
| `CredentialEffects.NewBucketIsEmpty` | ui/streamlit-app/components/credential_manager.py:669-685 | A bucket made anew is empty, without a key, and starts at the clock |
| `CredentialEffects.StorePutsItsRecord` | ui/streamlit-app/components/credential_manager.py:771-837 | A store puts its record under its service and leaves every other record, the key, the start and the cache alone |
| `CredentialEffects.StoredWithoutPadding` | ui/streamlit-app/components/credential_manager.py:771-837 | The stored record of a padded form: exactly the texts within the white space, address and workspace without their slashes, deployment in lower case, not validated |
| `CredentialEffects.RefusedWith` | ui/streamlit-app/components/credential_manager.py:771-837 | Which error a form gives, or that it is accepted: the first of the five conditions it misses, each spelled out |
| `CredentialEffects.DefaultAddresses` | ui/streamlit-app/components/credential_manager.py:771-837 | The address of a form without one, by service and deployment |
| `CredentialEffects.ValidationWritesTheVerdict` | ui/streamlit-app/components/credential_manager.py:872-899 | After a validation that found a record: its verdict is the validator's, its time is the reading if accepted and the old one if not, its other fields and all other records are as before, and the cache shows the same under the key |
| `CredentialEffects.CacheWriteKeepsTheBucket` | ui/streamlit-app/components/credential_manager.py:574-587 | A cache write changes nothing of the bucket but a missing key |
| `CredentialCoherence.SynchronisingEventCoheres` | ui/streamlit-app/components/credential_manager.py:559-587 | After a get or validate hit, a deletion, a cache write or a restore, the cache holds the key exactly when the bucket has credentials, with equal records and times |
| `CredentialCoherence.CoherentStep` | ui/streamlit-app/components/credential_manager.py:687-899 | Only a store breaks that agreement |
| `CredentialCoherence.CoherentSinceLastSync` | ui/streamlit-app/components/credential_manager.py:559-632 | Over runs: the cache agrees from any synchronising event until the next store |
| `CredentialCoherence.DeleteRemovesOneRecord` | ui/streamlit-app/components/credential_manager.py:747-767 | Deletion removes one record from bucket and cache, keeps all others and every other cache entry; the last one drops the entry |
| `CredentialCoherence.ConfinedNeverRestores` | ui/streamlit-app/components/credential_manager.py:590-632 | Without a session loss, a restore finds nothing and changes nothing |
| `CredentialCoherence.ConfinedRun` | ui/streamlit-app/components/credential_manager.py:590-899 | From an empty cache every run without session loss keeps the cache confined to the bucket's key and services |
| `CredentialCoherence.RemovalReachesExactly` | ui/streamlit-app/components/credential_manager.py:713-767 | A deletion, logout or expiry removes a credential from bucket and cache alike if and only if no cache entry under another key has it |
| `CredentialCoherence.ConfinedRemovalIsComplete` | ui/streamlit-app/components/credential_manager.py:713-767 | Without a session loss there is no such entry: every removal is complete |
| `CredentialCoherence.KeysAreUsable` | ui/streamlit-app/components/credential_manager.py:574-632 | No reachable bucket has an empty restore key |
| `CredentialCoherence.UnrecoverableStep` | ui/streamlit-app/components/credential_manager.py:590-899 | An unrecoverable credential stays so and is not exposed by any event but a store for its service, session loss included |
| `CredentialCoherence.GoneStaysGone` | ui/streamlit-app/components/credential_manager.py:590-899 | Over all runs, session losses included, an unrecoverable credential is handed out by none that stores nothing for its service |
| `CredentialCoherence.ComesBackExactly` | ui/streamlit-app/components/credential_manager.py:590-855 | Exactly when a credential can come back without a new store: the bucket has it, expired or not, or the cache has it under a usable key and less than 3600 s old |
| `CredentialCoherence.LossBringsGoneBack` | ui/streamlit-app/components/credential_manager.py:590-745 | From an empty session by real events, for any two services: one visit lost, a second logged out of, and the first one's cookie still yields its credential |
| `CredentialCoherence.ReloadRoundTrip` | ui/streamlit-app/components/credential_manager.py:590-632 | A lost coherent bucket comes back value-equal under its key before 3600 s, and is dropped from the cache from then on |
| `CredentialManager.CopyCredentials` | ui/streamlit-app/components/credential_manager.py:548-556 | A fresh, distinct object per record with equal value |
| `CredentialManager.SyncRestoreCache` | ui/streamlit-app/components/credential_manager.py:559-571 | The cache becomes a copy of the bucket under its key; only fresh objects enter the cache |
| `CredentialManager.Manager.EnsureState` | ui/streamlit-app/components/credential_manager.py:669-685 | An absent bucket is created empty at the clock; an existing one is kept |
| `CredentialManager.Manager.Touch` | ui/streamlit-app/components/credential_manager.py:687-691 | Activity time set and cache synchronised; records stay the same objects |
| `CredentialManager.Manager.ClearAll` | ui/streamlit-app/components/credential_manager.py:727-745 | Bucket and cache entry both go |
| `CredentialManager.Manager.EnforceTimeout` | ui/streamlit-app/components/credential_manager.py:695-725 | Clears exactly at 3600 s or more |
| `CredentialModel.Clean` | ui/streamlit-app/components/credential_manager.py:771-837 | An accepted form has a known service, a token, a valid deployment, and an address with @ on cloud |
| `CredentialManager.Manager.Store` | ui/streamlit-app/components/credential_manager.py:771-837 | A bad form changes nothing; a good one puts a fresh record into an otherwise unchanged bucket, without expiry check or sync |
| `CredentialManager.Manager.Get` | ui/streamlit-app/components/credential_manager.py:839-855 | Returns the session's own record object exactly when found unexpired, and touches |
| `CredentialManager.Manager.GetActiveServices` | ui/streamlit-app/components/credential_manager.py:857-868 | Of Jira, Confluence and Bitbucket, in this order, those with a record; none when expired |
| `CredentialManager.Manager.MarkJudged` | ui/streamlit-app/components/credential_manager.py:895-897 | The in-place update writes the validator's verdict, and on acceptance the time, into the session record, while the cache still shows the old one |
| `CredentialManager.Manager.Validate` | ui/streamlit-app/components/credential_manager.py:872-899 | Get, verdict, touch: the session's own record object ends with the verdict and, if accepted, the time of it; the answer says whether there was one |
| `CredentialManager.Manager.Delete` | ui/streamlit-app/components/credential_manager.py:747-767 | Error on unknown service, otherwise true exactly when a record was there unexpired, with the new state of both places |
| `CredentialManager.Manager.CacheCredentials` | ui/streamlit-app/components/credential_manager.py:574-587 | A key when there was none, and a copy in the cache |
| `CredentialManager.Manager.RestoreFromCache` | ui/streamlit-app/components/credential_manager.py:590-632 | Succeeds exactly for an empty bucket and a known, unexpired, non-empty entry; adopts copies, never the cached objects |
| `McpRetry.RetryDelay` | ui/streamlit-app/chat_mcp.py:301-304 | Every delay lies between 0.7 and 1.6 seconds |
| `McpRetry.ReplyByReply` | ui/streamlit-app/chat_mcp.py:353-431 | Reply by reply: what counts as answered, refused, worth a retry and unknown, told from the payload's failure text or the exception's message |
| `McpRetry.CallsInOrder` | ui/streamlit-app/chat_mcp.py:343-431 | In a legal trace calls follow candidate order, no candidate is tried a fourth time, and a retry follows a transient failure of the same candidate |
| `McpRetry.EveryRetryIsMade` | ui/streamlit-app/chat_mcp.py:343-431 | In a concluded run the first and second transient failure of a candidate are each followed by its next attempt; every other call by the next candidate's first attempt, or by nothing |
| `McpRetry.NoneSkipped` | ui/streamlit-app/chat_mcp.py:343-431 | Every candidate up to the current one had its first attempt |
| `McpRetry.TraceIsDetermined` | ui/streamlit-app/chat_mcp.py:343-431 | The trace specification admits exactly one run per world |
| `McpRetry.NoOtherErrors` | ui/streamlit-app/chat_mcp.py:424-431 | The two error lists partition the failures; unknown-tool errors reach the message only when every candidate was unknown |
| `McpRetry.TextsInOrder` | ui/streamlit-app/chat_mcp.py:343-431 | Each list holds its entries in the order in which the candidates gave up |
| `McpRetry.JoinedByBars` | ui/streamlit-app/chat_mcp.py:430-431 | The final message of up to three errors, a bar between two of them |
| `McpRetry.TryCandidate` | ui/streamlit-app/chat_mcp.py:353-429 | One candidate: a second call exactly after a transient first failure, a third exactly after two of them, no fourth; the last reply decides between answer, refusal and one filed failure; the pauses are 0, 0.7 or 2.3 seconds |
| `McpRetry.McpCallAny` | ui/streamlit-app/chat_mcp.py:343-431 | Refines the trace specification for every reply sequence: legal trace, last call decides, one entry per candidate in order on exhaustion, the exact message, and 0.7 seconds before each second attempt plus 1.6 before each third |
| `McpRetry.PostLlmWithRetry` | ui/streamlit-app/chat_mcp.py:307-340 | A second post exactly after a transitory first, a third exactly after two of them, with the pauses between; the last post decides: a status that is not retryable is returned, a transitory third post or another exception is raised, and the trailing raises are never reached |
| `JiraTemplate.EqualByKind` | scripts/deploy_jira_issue_template.py:149-160 | Numbers and truth values by value, across integer, float and bool; texts by their characters |
| `JiraTemplate.EqualKeepsKinds` | scripts/deploy_jira_issue_template.py:149-160 | Equal values are of one kind: null, number or truth value, text, list, object; lists and objects are equal element by element and key by key |
| `JiraTemplate.EqualMeansTheSame` | scripts/deploy_jira_issue_template.py:149-160 | The comparison, Python's `==` on nested values, holds exactly between values of the same meaning: true is 1, 1.0 is 1, lists by element, dictionaries by key |
| `JiraTemplate.OneMemberDecides` | scripts/deploy_jira_issue_template.py:149-160 | Payloads alike but for one member are unchanged if and only if its two values are equal |
| `JiraTemplate.ChangedNumberIsSeen` | scripts/deploy_jira_issue_template.py:149-160 | Payloads alike but for one integer are unchanged if and only if the integers are the same; unchanged payloads have the same keys |
| `JiraTemplate.UnchangedMeansTheSame` | scripts/deploy_jira_issue_template.py:149-160 | The script finds nothing to change if and only if the two payloads mean the same |
| `JiraTemplate.TrueAndOneAgree` | scripts/deploy_jira_issue_template.py:149-160 | Fields that differ only in spelling a member as true and as 1 agree |
| `JiraTemplate.SecondDeployIsNoOp` | scripts/deploy_jira_issue_template.py:168-259 | For every live state: the second deploy makes no call if and only if fields sharing a name have equal payloads, equal as Python compares them |
| `JiraTemplate.DriftIsOneCallEach` | scripts/deploy_jira_issue_template.py:207-259 | The drift is one call per declared entity that is absent or different, in order of declaration: a creation if and only if it is absent, with the declared payload |
| `JiraTemplate.DriftHealsInOneRun` | scripts/deploy_jira_issue_template.py:149-259 | With distinct field names: exactly one call per drifted entity, creations for the absent and updates for the different; issue type, fields and screen scheme end as declared and every other entity of the three stores as it was; the next run is silent |
| `JiraTemplate.DisagreeingFieldsNeverSettle` | scripts/deploy_jira_issue_template.py:224-242 | A template whose fields disagree and that no live state ever settles |
| `JiraTemplate.NoCallMeansInPlace` | scripts/deploy_jira_issue_template.py:224-242 | A run makes no call exactly when every declared field is in place |
| `JiraTemplate.InPlaceMeansAgree` | scripts/deploy_jira_issue_template.py:224-242 | After a deploy all fields are in place exactly when fields of one name agree |
| `JiraTemplate.CallsAreDrift` | scripts/deploy_jira_issue_template.py:224-242 | With distinct names the calls are those the initial state asks for |
| `JiraTemplate.OverlayDeclared` | scripts/deploy_jira_issue_template.py:224-242 | A declared entity ends with the payload declared for it last |
| `JiraTemplate.OverlayUndeclared` | scripts/deploy_jira_issue_template.py:224-242 | An undeclared entity keeps its payload or absence |
| `JiraTemplate.DeployEntity` | scripts/deploy_jira_issue_template.py:207-221 | The read, compare, write step on payloads as spelled: no call and the old store if nothing changed, otherwise a creation if the name is absent or an update if not, and the declared payload under its name |
| `JiraTemplate.DeployFields` | scripts/deploy_jira_issue_template.py:224-242 | The loop: store, calls in order and count against the reference, every undeclared field spelled as before |
| `JiraTemplate.Deploy` | scripts/deploy_jira_issue_template.py:168-204 | All three stores end overlaid by the template, with the calls of each and its count and the total, undeclared entities spelled as before |
| `Utf8.Layout` | ui/streamlit-app/components/cookie_manager.py:61-81 | The byte patterns of section 3 of RFC 3629: length and lead byte by range, continuation bytes, and the character's bits across them |
| `Utf8.DecodeEncode` | ui/streamlit-app/components/cookie_manager.py:61-81 | Decoding the UTF-8 encoding of any text gives it back |
| `Utf8.EncodeDecode` | ui/streamlit-app/components/cookie_manager.py:84-122 | Whatever decodes is the encoding of what it decodes to |
| `Base64Url.AlphabetInOrder` | ui/streamlit-app/components/cookie_manager.py:61-81 | The alphabet of section 5 of RFC 4648 by code, and the two characters of the standard alphabet that are read as well |
| `Base64Url.ReadableExactly` | ui/streamlit-app/components/cookie_manager.py:84-122 | A character has a value exactly if it is a digit of either alphabet |
| `Base64Url.ThreeAreOneNumber` | ui/streamlit-app/components/cookie_manager.py:61-81 | Three bytes are one 24-bit number, spelled in four six-bit digits |
| `Base64Url.PaddedGroups` | ui/streamlit-app/components/cookie_manager.py:61-81 | One and two bytes are spelled as if zero bits followed, with padding for the empty digits |
| `Base64Url.EncodesByGroup` | ui/streamlit-app/components/cookie_manager.py:61-81 | Four characters for every three bytes begun |
| `Base64Url.UnpaddedExactly` | ui/streamlit-app/components/cookie_manager.py:84-122 | A text without padding is read if and only if its characters of the alphabet make whole groups; others are skipped |
| `Base64Url.EncodedIsPlain` | ui/streamlit-app/components/cookie_manager.py:61-81 | Encoded text has only alphabet and padding characters, so no dot |
| `Base64Url.ReadEncoded` | ui/streamlit-app/components/cookie_manager.py:84-122 | The lenient decoder reads an encoded text back digit by digit, for all lengths and paddings |
| `Base64Url.DecodeEncode` | ui/streamlit-app/components/cookie_manager.py:61-122 | Decoding undoes encoding for every byte string |
| `Cookie.SignVerify` | ui/streamlit-app/components/cookie_manager.py:61-122 | A signed cookie verifies to its value for every text, secret and hash function |
| `Cookie.VerifyExactly` | ui/streamlit-app/components/cookie_manager.py:84-122 | Verification answers a value if and only if the parts decode to its bytes and to their signature |
| `Cookie.QuotesByCharacter` | ui/streamlit-app/components/credential_manager.py:472-519 | Percent-encoding goes character by character: letters, digits and nine marks stay, every byte of anything else is escaped |
| `Cookie.PercentByByte` | ui/streamlit-app/components/credential_manager.py:472-519 | An escaped byte is a percent sign and two upper-case hex digits |
| `Cookie.UnquoteQuote` | ui/streamlit-app/components/credential_manager.py:472-519 | `unquote` undoes the browser's percent-encoding for every text |
| `Cookie.RestoreKeySurvives` | ui/streamlit-app/components/credential_manager.py:435-519 | The restore key comes back through the raw and through the percent-encoded cookie |
| `Cookie.PageTokenRoundTrip` | services/admin-dashboard-api/src/temporal_control.py:188-200 | Decoding an encoded page token gives it back; an empty one becomes none |
| `ConcurrencyGate.ExtractMaxConcurrent` | services/automation-service/src/concurrency.py:405-444 | A cap exactly for an integer of at least 1 under its key; booleans and everything else give none |
| `ConcurrencyGate.CheckDept` | services/automation-service/src/concurrency.py:277-397 | The count is Visibility's whenever it gives one, and the table's when it is absent or raises; admits exactly without a cap or with that count below it; result and error carry the count, its source and the cap |
| `ConcurrencyGate.StepInNumbers` | services/automation-service/src/concurrency.py:325-397 | One step of a request in numbers: a check adds an admitted request exactly when it admits, a start makes one a running workflow, an abort and a finish take one away |
| `ConcurrencyGate.AdmissionIsBounded` | services/automation-service/src/concurrency.py:325-397 | Over every interleaving of all departments' steps: if every check that meets a full department is told a count at its cap or above, and at most k requests are in between, running + admitted never exceed cap - 1 + k |
| `ConcurrencyGate.CapHoldsExactly` | services/automation-service/src/concurrency.py:325-397 | With one request at a time the cap holds along a run if and only if every check that meets a full department is told so |
| `ConcurrencyGate.HonestWarns` | services/automation-service/src/concurrency.py:277-317 | A counter that never under-reports always does so |
| `ConcurrencyGate.BoundIsReached` | services/automation-service/src/concurrency.py:325-397 | The bound is attained with true counts, so no smaller one holds |
| `ConcurrencyGate.BelievedZeroBreaksEveryCap` | services/automation-service/src/concurrency.py:302-317 | A Visibility answer of zero is believed although the table has every row: any number of workflows run one request at a time, and the condition above fails from the cap-th start on |
| `WorkflowPaging.FilterByValue` | services/admin-dashboard-api/src/temporal_control.py:160-185 | What each filter value lets through: none and the empty text everything, a status its lower-case form only, a department its own workflows and those without any |
| `WorkflowPaging.PositionsExactly` | services/admin-dashboard-api/src/temporal_control.py:110-128 | The listed places are those of the matches and no others |
| `WorkflowPaging.PageIsStretch` | services/admin-dashboard-api/src/temporal_control.py:100-136 | Each page is a stretch of the list of all matches, from where it should start |
| `WorkflowPaging.PagesAreOrdered` | services/admin-dashboard-api/src/temporal_control.py:100-136 | With any filter no listing position is on two pages and pages follow listing order |
| `WorkflowPaging.ShownExactly` | services/admin-dashboard-api/src/temporal_control.py:100-136 | A match is on a page if and only if its rank among matches falls into the page's range and its position into what that page fetches |
| `WorkflowPaging.NeverShownExactly` | services/admin-dashboard-api/src/temporal_control.py:100-136 | A match is on no page at all if and only if the page its rank belongs to fetches fewer entries than its position |
| `WorkflowPaging.FilteredMatchIsLost` | services/admin-dashboard-api/src/temporal_control.py:110-128 | A filtered match that no page shows |
| `WorkflowPaging.PagesMakeAPrefix` | services/admin-dashboard-api/src/temporal_control.py:100-136 | Unfiltered pages concatenate to a prefix of the listing |
| `WorkflowPaging.CollectRows` | services/admin-dashboard-api/src/temporal_control.py:110-128 | The loop with its early break collects the matches of the fetched prefix |
| `WorkflowPaging.ListWorkflows` | services/admin-dashboard-api/src/temporal_control.py:100-136 | Item by item the entries at the page's positions, or with a token at those of the stretch behind it; the next token stands behind the page times its size entries that were fetched, or at the end |
| `WorkflowPaging.TokenPageAscends` | services/admin-dashboard-api/src/temporal_control.py:110-136 | A page reached by a token keeps the order of the listing and repeats nothing |
| `WorkflowPaging.TokenShowsExactly` | services/admin-dashboard-api/src/temporal_control.py:110-136 | A call with a token shows an entry if and only if it is a match it fetches with fewer than a page's worth of fetched matches before it |
| `WorkflowPaging.TokenDropsNothingExactly` | services/admin-dashboard-api/src/temporal_control.py:110-136 | Nothing such a call fetches is dropped if and only if no more than a page's worth of it matches, as always on page 1 |
| `WorkflowPaging.WalkShowsEveryMatch` | services/admin-dashboard-api/src/temporal_control.py:100-136 | Following tokens with page 1 shows every match of the entries passed exactly once and in order, with any filter |
| `WorkflowPaging.TokenWithPageTwoDrops` | services/admin-dashboard-api/src/temporal_control.py:110-130 | A token together with page 2 drops a fetched match that the next token is already behind |
| `IssueLog.IssueFile.LogOpenIssue` | scripts/vps_open_issue_logger.py:108-177 | An invalid draft and an unreadable file leave the file alone; otherwise the draft is appended under the new id, unless a text cannot be encoded, which loses the whole file |
| `IssueLog.AcceptedIds` | scripts/vps_open_issue_logger.py:34-34 | The accepted ids: R with a number from 1 to 23, with or without a line break behind it |
| `IssueLog.ValidatesInOrder` | scripts/vps_open_issue_logger.py:48-98 | Which error a draft gives: the first of the six conditions it misses, each with its list, prefix or limit |
| `IssueLog.WrittenExactly` | scripts/vps_open_issue_logger.py:170-172 | The write goes through if and only if the file could be read and every old text and the new one can be encoded |
| `IssueLog.AppendedKeepsTheLog` | scripts/vps_open_issue_logger.py:141-172 | A draft that can be written goes behind the old issues with its logging time, under an id larger than all of theirs; increasing ids stay so |
| `IssueLog.NewIdIsNext` | scripts/vps_open_issue_logger.py:148-152 | The new id is one more than the id of some issue of the file, and 1 in an empty file |
| `IssueLog.NewIdIsLarger` | scripts/vps_open_issue_logger.py:148-152 | The new id is larger than every id in the file |
| `IssueLog.NextId` | scripts/vps_open_issue_logger.py:148-152 | The loop finds that id: one more than the largest, 1 for an empty file |
| `IssueLog.CutSummaryIsValid` | scripts/vps_open_issue_logger.py:77-84 | A summary starting with a visible character passes once cut to the limit |
| `Report.AggregateVerdict` | scripts/vps_report_generator.py:66-101 | Fail if and only if a grave issue exists, partial if and only if only minor ones do, else by the evidence file |
| `Report.GenerateVerdicts` | scripts/vps_report_generator.py:416-433 | One verdict per listed requirement and no other: fail if and only if a grave issue is open, partial if and only if only minor ones are, otherwise pass if its evidence file is there and manual_pending if not |
| `Report.RequirementAt` | scripts/vps_report_generator.py:28-48 | The nineteen listed requirements are R1 to R19 in order |
| `Report.EvidenceIsNumbered` | scripts/vps_report_generator.py:28-48 | Every requirement's file carries its number, but R16's, which is the issue log |
| `Report.SummaryWarnsExactly` | scripts/vps_report_generator.py:109-119 | The summary warns if and only if some grave issue has an id the report lists |
| `Report.ListedExactly` | scripts/vps_report_generator.py:28-48 | Of the ids the log accepts, the report lists all but R20 to R23 and those with a line break behind them |
| `Report.GraveIssueShowsExactly` | scripts/vps_report_generator.py:66-101 | A grave issue the log accepted turns its verdict to fail if and only if its id is not one of those |
| `SmokeProtocol.NextRises` | scripts/vps_smoke_runner.py:345-1440 | The script never goes back: at most 31 calls, whatever the replies |
| `SmokeProtocol.RunIsDetermined` | scripts/vps_smoke_runner.py:345-1440 | Whatever follows the protocol to an end is the one run this gateway gets |
| `SmokeProtocol.FinishesExactly` | scripts/vps_smoke_runner.py:1619-1672 | A run ends regularly if and only if none of its replies holds a value the script cannot use there, both tool lists are readable and the evidence files are written |
| `SmokeProtocol.TameRunsFinish` | scripts/vps_smoke_runner.py:345-1440 | With a gateway whose replies are all usable, every run ends regularly |
| `SmokeProtocol.RulingStays` | scripts/vps_smoke_runner.py:345-1440 | Calls of later scenarios change no earlier entry |
| `SmokeProtocol.OpenIsOwing` | scripts/vps_smoke_runner.py:345-1440 | Along every run the open clean-up is what the latest call says is owed |
| `SmokeProtocol.LeftBehindExactly` | scripts/vps_smoke_runner.py:345-1440 | Everything the run made and can name gets its clean-up call, if and only if it does not break at one of nine places |
| `SmokeProtocol.OpenExactly` | scripts/vps_smoke_runner.py:345-1440 | Open means made by this run and not tried to be destroyed since |
| `SmokeProtocol.DestroysOnlyItsOwn` | scripts/vps_smoke_runner.py:345-1440 | Every destructive call targets something an earlier call of the same run made |
| `SmokeProtocol.CleansExactlyItsOwn` | scripts/vps_smoke_runner.py:345-1440 | A run that leaves nothing open has tried to destroy exactly what it made, among all it can name |
| `SmokeProtocol.NonTextKeyEndsTheRun` | scripts/vps_smoke_runner.py:369-371 | A first reply whose key is no text raises: one call, no entry, nothing to blame |
| `SmokeProtocol.NumericCommitLeavesTheBranch` | scripts/vps_smoke_runner.py:959-971 | A commit hash that is a number or an object raises and leaves exactly the created branch open |
| `SmokeProtocol.SomeRunLeavesItsBranch` | scripts/vps_smoke_runner.py:959-971 | Such a run exists, for every branch name |
| `SmokeScript.LegalIsSettled` | scripts/vps_smoke_runner.py:345-1440 | At any point of any run, up to the latest call exactly the wanted calls have been made, each about what it is wanted for, and none behind it; wanted is told spot by spot from earlier replies, ban list and tool lists |
| `SmokeScript.CallsExactly` | scripts/vps_smoke_runner.py:345-1440 | A run that ends regularly has made exactly the wanted calls: every one that the created issue, page, branches and pull requests ask for, with its target, and no other |
| `SmokeScript.VerdictsExactly` | scripts/vps_smoke_runner.py:345-1440 | A run that ends regularly gives every scenario the verdict its replies say, in a table of its own: passed, failed, pending behind a broken chain, or not applicable for a banned tool or a missing server |
| `SmokeScript.BlamedMeansNotGood` | scripts/vps_smoke_runner.py:345-1440 | What makes a reply a good one, told from its fields: Done or Tamam, trashed, main, DECLINED, the changed page text, the file names a diff must hold |
| `SmokeScript.NamedExactly` | scripts/vps_smoke_runner.py:345-1440 | A creation is named by its first field that says something, and not at all if reading it raises |
| `SmokeScript.MentionsByKind` | scripts/vps_smoke_runner.py:1055-1062 | When a diff names a file: as a part of a text, an element of a list, a key of an object |
| `SmokeRunner.TwentyScenarios` | scripts/vps_smoke_runner.py:345-1440 | The twenty scenarios in order under the names their issues carry |
| `SmokeRunner.DraftInFull` | scripts/vps_smoke_runner.py:1465-1480 | The issue of every scenario, field by field: requirement, severity, category, action, evidence file, and a summary cut at 160 |
| `SmokeRunner.DraftIsValid` | scripts/vps_smoke_runner.py:1465-1480 | No failure is lost to the log's validators, whatever the wording of its summary |
| `SmokeRunner.Runner.Ask` | scripts/vps_smoke_runner.py:169-232 | Every call of the program is the one the protocol has next |
| `SmokeRunner.Runner.Conclude` | scripts/vps_smoke_runner.py:301-325 | An entry is the one the history calls for, and goes to the log exactly when it failed |
| `SmokeRunner.Runner.LogIssue` | scripts/vps_smoke_runner.py:1594-1612 | The log becomes what the failed scenario's issue makes of it: appended, or lost when something cannot be encoded, or left unreadable; the error is swallowed |
| `SmokeRunner.LegibleMeans` | scripts/vps_open_issue_logger.py:141-172 | The condition spelled out: the file could be read and, if anything failed, every issue it holds and every new one can be encoded |
| `SmokeRunner.LogSurvivesExactly` | scripts/vps_open_issue_logger.py:141-172 | Over all failures of a run: the log keeps its old issues if and only if it could be read, they can be encoded again, and so can every failure; it then has exactly one new issue per failure, in order, under growing ids |
| `SmokeRunner.Runner.RunJira` | scripts/vps_smoke_runner.py:345-535 | The five Jira entries are those the replies call for and the protocol goes on to Confluence, or the suite raises where the protocol says so |
| `SmokeRunner.Runner.RunConfluence` | scripts/vps_smoke_runner.py:542-814 | The same for the four Confluence entries |
| `SmokeRunner.Runner.RunBitbucket` | scripts/vps_smoke_runner.py:821-1242 | The same for the eight Bitbucket entries |
| `SmokeRunner.Runner.RunCross` | scripts/vps_smoke_runner.py:1245-1440 | The same for the three cross-token entries |
| `SmokeRunner.Runner.CountFailed` | scripts/vps_smoke_runner.py:1660-1672 | The failed count |
| `SmokeRunner.EntriesExactly` | scripts/vps_smoke_runner.py:1619-1672 | The entries of a run that ends regularly: the twenty scenarios in order, each with the verdict of that table |
| `SmokeRunner.Runner.RunAll` | scripts/vps_smoke_runner.py:1619-1672 | For every gateway and every log: the calls are the protocol's run; every entry, verdict, status and tool, is what those replies call for, all twenty with the table's verdicts unless something raised; failed entries are exactly the blamed scenarios in order, and the log is what these make of it; exit 0 if and only if nothing raised and nothing is blamed |
| `SmokeVerdict.ReportFollowsLog` | scripts/vps_report_generator.py:66-101 | While the log survives, the report fails a requirement if and only if it failed before or a logged scenario is its own |
| `SmokeVerdict.ReportFailsExactly` | scripts/vps_report_generator.py:416-433 | After a run the report fails R10, R11 or R12 if and only if the log survived and one failed before or something failed now |
| `SmokeVerdict.SmokeThenReport` | scripts/vps_smoke_runner.py:1619-1683 | Run, then report, for every gateway and log: the log keeps its old issues exactly when legible and then grows by exactly the blamed scenarios; from a log without failing R10 to R12 the exit code agrees with the report if and only if the run ended regularly with nothing to blame, or had something to blame and the log survived it |
| `SmokeVerdict.NonTextKeyIsSilent` | scripts/vps_smoke_runner.py:369-371 | With a key that is no text: exit code 1, an untouched log and no failing verdict |
| `SmokeVerdict.UnencodableKeyLosesTheLog` | scripts/vps_open_issue_logger.py:170-172 | With a key whose issue cannot be encoded: exit code 1, the log lost, and no failing verdict |

## Left out

- JSON and YAML parsing, JSON Schema validation: the manifest is a schema-valid list, the template well formed.
- HTTP, Temporal, Postgres, Vault and file access: replies, counts and presence of files are parameters.
- HMAC: any function of key and message; no claim about forgery.
- The text classifiers of the MCP engine: parameters.
- How a field is found in a smoke reply: what its extraction yields, any JSON value or an exception, is a parameter; of a number, list or object only what the suites ask of it is kept.
- Clock readings are parameters of each operation; the reads that one call makes directly after one another are one reading.
- The credential form, `get_auth_header`, `snapshot`, the validators' requests and rendering; several sessions that share a restore key.
- Cookie header parsing, and `unquote` on bytes that are not UTF-8, where it would substitute replacement characters.
- Wording of summaries, excerpts and rendered messages, latencies and timestamps; the ban list is read once per smoke run and without an exception. Whether a suite's evidence and summary can be written, which a lone surrogate in a reply prevents, is a parameter.
- The evidence sections of the report other than the verdicts, and the report's `n/a` verdict, which no branch produces.
- FastAPI wiring, settings, readiness probes, proxies, prompt planning, and the web interface: they would add only easy members.
- ManifestLoader.FindCycle: the rendered message is not modelled, only the path it renders.
- SmokeRunner.Runner.LogIssue: of the ways a write of the log can fail, only a text that cannot be encoded is modelled, not a full or read-only disk.
- WorkflowPaging.ListWorkflows: the listing does not change between two calls, and the client's next token stands for the place behind what was fetched.
- JiraTemplate.EqualMeansTheSame: a number is a real number; NaN, which JSON does not have, is no value here.
- ConcurrencyGate.AdmissionIsBounded: the cap of a department does not change during a run.
