# Apohara: models and proofs of its cores

This project models the parts of Apohara whose correctness spans several functions, and proves what they
promise on all inputs, runs and interleavings:

- **Task execution.** The decomposer's validation and cycle check, `SubagentManager.executeAll` as a step
  system in which callbacks settle, release and clean up in any order, the lane pool, and the method that
  follows the step system.
- **The hash-chained ledger.** `JSON.stringify` and `JSON.parse`, the canonical text of a value, the writer
  with restarts, the verifier and the replay planner. The hash is an arbitrary function with results of 64
  characters. Nothing says it is injective: where that would be needed, a theorem hands over the collision.
- **The code index.** The vector search, the length-prefixed frame, concurrent `index_text` calls with
  failures, crashes and restarts, and the blast radius of a file.
- **Budget and cooldowns.** The verification mesh's costs and circuit breaker, and the provider router's
  health records, timers, fallback ring and requests, each over every interleaving.
- **Small exact algorithms.** The layered layout of the task graph, base64url, and tailing a log file.

Three kinds of module recur. A module of definitions holds data and functions; where the source changes
state, a class has the source's fields and its methods are proved against those functions; and concurrent
code is a system of steps, one step from one `await` (or lock, or commit) to the next, about which lemmas
state what holds in every reachable state. `dafny verify dfyconfig.toml` checks everything.

## What the proofs found

- `executeAll` relies on unique task ids, which the decomposer does not check. They are exactly what it needs: for
  every list of ids with a repetition there are accepted tasks and a run that ends normally without a result for one
  of them (`OneResultIff`).
- The comment on `executeAll` says results come in the order of the tasks. The code pushes them as tasks settle.
  `TwoTasksOutOfOrder` is a run of two independent tasks that returns the second result first, and
  `ResultsInOrderIff` says exactly when the comment holds in every run: each task depends only on earlier ones,
  and either there is one lane or each task depends on the one before it.
- Failed tasks enter `completed` too, so "its dependencies are satisfied" means "they have settled".
- A saved index id is never handed out again exactly when `index_text` calls come one at a time or the process
  never crashes (`SavedIdsAreSafeIff`). `ConcurrentCrashReusesAnId` is the failing run. What a call has returned
  is durable in every case.
- A search drops hits whose id has no node. Searches are complete exactly when every indexed id has one
  (`SearchIsCompleteIff`); a failed `put_node` leaves one without (`FailedPutLosesAHit`), and only a call in progress,
  failed or lost can (`MissingNodeIsExplained`).
- After a crash among concurrent calls a search can return one call's vector with another's metadata. It never does
  exactly when calls come one at a time or the process never crashes (`AgreementIff`).
- If the log write after setting a cooldown fails, the handler throws before it arms the timer. A step leaves a
  cooling provider with nothing to end its cooldown exactly when it fails the log of the last handler that would
  have armed a timer (`OrphansIff`). It stays so until a call to it succeeds or a new cooldown starts.
- The circuit breaker stops calls that start later, so verification exceeds its share of the base cost by up to 6
  cents per call in flight, less what the cheapest call adds to the share. `BudgetIsAttained`
  shows the bound exact for every percentage from 0 to below 3000.
- `estimateCost` means local and CLI providers to be free, but `costMap[provider] || 1` makes them cost 1.
- A task with `filesModified` 0 or unknown qualifies for verification, one with 1 or 2 does not. The header
  comment asks for more than 3 files, the code for at least 3.
- `readDelta` finds the new lines whatever their bytes. Its offset is right exactly when every malformed piece in
  them is three bytes long, as its replacement is; otherwise it overshoots and later reads skip bytes of the file.
- Several URL-safe texts decode to one byte string; `ReencodingIff` says which of them the encoder writes.

## Model

| member | source | states |
|---|---|---|
| CycleDetection.CycleDetector.Dfs | src/core/decomposer.ts:429-449 | a result is a closed walk along dependency edges; without one the task and all below it are finished and the path and stack are as before; terminates on every graph |
| CycleDetection.CycleDetector.ExploreDependencies | src/core/decomposer.ts:434-444 | the loop over the dependencies: a closed walk, or all of them finished |
| CycleDetection.DetectCycle | src/core/decomposer.ts:419-459 | null exactly for an acyclic graph, which then has a topological order; otherwise a closed walk |
| CycleDetection.ValidateDecomposition | src/core/decomposer.ts:162-199 | succeeds exactly when dependencies exist and are acyclic; otherwise names the first unknown dependency, or a cycle |
| Tasks.TopologicalOrderIsAcyclic | src/core/decomposer.ts:192-199 | a graph with a topological order has no closed walk |
| Dispatch.ReadyTasks | src/core/subagent-manager.ts:175-187 | exactly the tasks without result, not started, with all dependencies settled, in task order |
| Dispatch.FirstFree | src/core/worktree-manager.ts:130-138 | the first available lane, none exactly when no lane is available |
| DispatchInvariant.StepHolds | src/core/subagent-manager.ts:442-529 | every step, whichever callback runs and whenever the loop resumes, keeps the invariant |
| DispatchInvariant.RunHolds | src/core/subagent-manager.ts:442-529 | the invariant holds in every state of every run |
| DispatchInvariant.LaneIsFree | src/core/subagent-manager.ts:447-497 | below the concurrency cap some lane is free, so `acquire` does not return null |
| DispatchTheorems.DispatchFollowsDependencies | src/core/subagent-manager.ts:442-519 | in every reachable state the dispatched tasks are distinct, each after all its dependencies, which have settled: the start of a topological order |
| DispatchTheorems.LanesAreConserved | src/core/subagent-manager.ts:446-518 | at most `maxConcurrent` tasks are active, free lanes and holders add up to the pool, a lane has one holder, `acquire` finds a lane, all lanes are free at the end |
| DispatchTheorems.StepLowersMeasure | src/core/subagent-manager.ts:442-529 | every step lowers a measure of unsettled work |
| DispatchTheorems.RunsAreBounded | src/core/subagent-manager.ts:442-529 | a run has at most ten steps per task, however callbacks interleave |
| DispatchTheorems.StepIsPossible | src/core/subagent-manager.ts:521-528 | before the loop is left some step can be taken: no await waits for ever |
| DispatchTheorems.StuckSetHasCycle | src/core/subagent-manager.ts:525-527 | tasks that all wait for one another contain a cycle |
| DispatchTheorems.BreakMeansCycle | src/core/subagent-manager.ts:525-527 | with valid dependencies the "shouldn't happen" break is reached only on a cyclic graph |
| DispatchTheorems.ExecuteAllEnds | src/core/subagent-manager.ts:426-529 | every maximal run leaves through the loop guard exactly when dependencies exist and are acyclic (or there are no tasks), and then with one result per task, a topological dispatch order and all lanes free; otherwise at the break |
| DispatchTheorems.Complete | src/core/subagent-manager.ts:442-529 | every run can be continued until it ends |
| ResultOrder.RunKeepsOrdered | src/core/subagent-manager.ts:498-505 | for backward dependencies, with one lane or a chain, results are in task order in every reachable state |
| ResultOrder.RunFollows | src/core/subagent-manager.ts:175-187 | in every reachable state each result stands after those of the task's dependencies |
| ResultOrder.OutOfOrderRun | src/core/subagent-manager.ts:446-524 | with two lanes, a task that does not wait for the one before it settles before it in some run that ends normally |
| ResultOrder.ResultsInOrderIff | src/core/subagent-manager.ts:417-505 | results come in the order of the tasks in every run exactly when each task depends only on earlier ones and there is one lane or each depends on the one before it |
| ResultOrder.TwoTasksOutOfOrder | src/core/subagent-manager.ts:417-505 | two independent tasks, two lanes: a run with the second result first |
| DuplicateIds.OneResultIff | src/core/subagent-manager.ts:426-529 | for every list of ids: every run of every accepted task list with these ids that ends normally has one result per task, exactly when no id is repeated |
| DuplicateIds.RepeatedIdLosesATask | src/core/subagent-manager.ts:434-518 | the smallest case: two tasks with one id, an accepted list and a run with one result |
| SubagentManager.WorktreePool.constructor | src/core/worktree-manager.ts:119-122 | one available lane per number below the maximum |
| SubagentManager.WorktreePool.Acquire | src/core/worktree-manager.ts:130-138 | takes the first available lane and no other, null exactly when none is available |
| SubagentManager.WorktreePool.Release | src/core/worktree-manager.ts:140-142 | makes the lane available and adds one it does not know |
| SubagentManager.WorktreePool.GetAvailableCount | src/core/worktree-manager.ts:144-150 | counts the available lanes |
| SubagentManager.ExecuteTask | src/core/subagent-manager.ts:237-404 | calls the provider once more than it reports retries, at most `maxRetries` + 1 times; retries only retryable errors; completed exactly when the last attempt succeeded |
| SubagentManager.AwaitRace | src/core/subagent-manager.ts:521-524 | any callbacks run until one of the raced promises is done; results keep saying what the provider did |
| SubagentManager.ExecuteAll | src/core/subagent-manager.ts:237-529 | the nested loops follow a run of the step system, and return one result per task exactly when the dependencies exist and are acyclic; each result names the last attempt the provider made at its task, which succeeded exactly if the status is completed, all earlier ones being retried |
| JsonRoundTrip.UnitRoundTrip | src/core/ledger.ts:24-35 | each escaped or literal code unit is read back, by section 7 of RFC 8259 |
| JsonRoundTrip.EscapeIsShortest | src/core/ledger.ts:24-35 | no other spelling of a code unit that is not a surrogate is shorter than the printed one, and one as short is the same but for upper-case hexadecimal digits |
| JsonRoundTrip.ValueRoundTrip | src/core/ledger.ts:24-35 | parsing a printed value gives the value and leaves the text after it |
| Canonical.StringifyRoundTrip | src/core/ledger.ts:133-133 | parsing a stringified value gives it back up to dropped undefined members and undefined items read as null |
| Canonical.CanonicalRoundTrip | src/core/ledger.ts:22-37 | the canonical text is JSON, and parses to a value of the same meaning |
| Canonical.CanonicalTextIsMeaning | src/core/ledger.ts:22-37 | two values have one canonical text exactly when they are equal up to key order, dropped undefined members and undefined items read as null |
| Canonical.CanonicalKeysAscend | src/core/ledger.ts:30-36 | in every object of the canonical text, however deep, a key stands before a later one because it is a prefix of it or has the smaller code unit where they first differ; the text is the `JSON.stringify` text of any value ordered like that with the same meaning |
| Canonical.CanonicalSurvivesStorage | src/core/ledger.ts:131-133 | storing and parsing a value does not change its canonical text |
| Ledger.EventLedger.WriteGenesis | src/core/ledger.ts:80-95 | appends the sealed genesis line and remembers its hash |
| Ledger.EventLedger.Init | src/core/ledger.ts:60-78 | writes the genesis event on an empty file, else picks up the last hash; once per process |
| Ledger.EventLedger.LogEvent | src/core/ledger.ts:112-137 | appends the event chained to the last hash, after opening the file if need be |
| LedgerVerifier.Scan | src/core/ledger.ts:193-237 | accepts lines up to the first that is neither legacy nor chained, and says which kinds it saw |
| LedgerVerifier.Verify | src/core/ledger.ts:179-248 | accepts exactly the readable files that are hashed or legacy throughout, in the terms of the next row |
| LedgerVerifier.VerifyContent | src/core/ledger.ts:190-248 | accepted as hashed exactly if each line is an object whose `prev_hash` is 64 zeros or the `hash` of the line before, and whose `hash` is that of `prev_hash` and the canonical text of the rest; as legacy exactly if no line has either; otherwise the first line at fault and what is wrong with it |
| LedgerVerifier.AcceptedFiles | src/core/ledger.ts:193-237 | the files in which the verifier chains every line, and those in which it finds every line legacy, in the same terms |
| LedgerLines.LinesAreBetweenBreaks | src/core/ledger.ts:190-190 | the lines of a file are exactly the stretches between line breaks that are not empty, in order |
| Ledger.PlanEvents | src/commands/replay.ts:32-60 | the loop collects the requests in order and the last genesis data |
| Ledger.BuildPlan | src/commands/replay.ts:28-61 | the plan of a file: its requests in order, run id, version and number of events; throws exactly when a line cannot be read |
| LedgerChain.AppendLine | src/core/ledger.ts:133-133 | a printed value and a newline add exactly one line to a file at a line boundary |
| LedgerChain.SealedLineIsChained | src/core/ledger.ts:131-134 | a line written for any event re-hashes to the hash it carries after stringify and parse |
| LedgerChain.RestartFindsHash | src/core/ledger.ts:97-110 | after a restart the writer finds the hash the chain ended with |
| LedgerChain.RunStands | src/core/ledger.ts:60-137 | after any sequence of calls and restarts the file is the chained file of the genesis event and the logged events |
| LedgerChain.RunVerifies | src/core/ledger.ts:80-248 | the verifier accepts the file of every run as hashed, with one event per call and one genesis event |
| LedgerBinding.ParsedIsWellFormed | src/core/ledger.ts:200-200 | whatever text is parsed, no object has a key twice |
| LedgerBinding.ChainsThatMeet | src/core/ledger.ts:193-237 | two hash chains that end in one hash had the same inputs all the way, or show a collision, or an input hashed to the genesis constant |
| LedgerBinding.LastHashBindsEvents | src/core/ledger.ts:39-247 | two accepted hashed files with one last hash have the same events up to key order, or a concrete collision (or pre-image of the genesis constant) is extracted; the numbers of events need not be equal beforehand |
| LedgerReplay.RunReplays | src/commands/replay.ts:28-61 | the plan of every run's file holds exactly the logged `llm_request` events in call order, with the provider, model and messages each call named |
| LedgerReplay.RunPlans | src/commands/replay.ts:28-61 | unless a call logs a genesis event of its own, the plan names the run id of the process that wrote to the file first and the ledger version, and counts one event per call and one genesis event |
| LedgerReplay.RunIdIsOfLastGenesis | src/commands/replay.ts:32-43 | for any file the plan's run id is that of the last genesis event that has one |
| LedgerReplay.VersionIsOfLastGenesis | src/commands/replay.ts:32-43 | and its version that of the last genesis event, null if that states none |
| LedgerReplay.LoggedLineSays | src/core/ledger.ts:112-137 | the line written for a call is read as an object with the call's id, time, type, severity, task, payload and metadata, and the two hashes |
| VectorIndex.DotAddsUp | crates/apohara-indexer/src/index.rs:264-264 | the dot product adds over parts of the vectors, down to products of single components |
| VectorIndex.NormalizedDotIsCosine | crates/apohara-indexer/src/index.rs:252-267 | the dot product of normalised vectors is the cosine of the raw ones, 0 with a zero vector |
| VectorIndex.DotBound | crates/apohara-indexer/src/index.rs:260-267 | Cauchy-Schwarz in the form the distance needs |
| VectorIndex.DistanceIsOneMinusCosine | crates/apohara-indexer/src/index.rs:252-267 | the distance is 1 minus the cosine, in [0, 2], and the clamp never changes it |
| VectorIndex.SortHitsOrders | crates/apohara-indexer/src/index.rs:132-133 | sorting by distance gives an ordered permutation |
| VectorIndex.VectorIndex.Insert | crates/apohara-indexer/src/index.rs:51-84 | stores the vector under its id, or refuses a wrong dimension or a component that is not finite, and changes nothing else |
| VectorIndex.Distances | crates/apohara-indexer/src/index.rs:123-130 | one hit per stored vector with its distance, whatever the map's order |
| VectorIndex.VectorIndex.Search | crates/apohara-indexer/src/index.rs:98-146 | min(k, n) distinct stored ids, nearest first by cosine of the raw vectors, nothing nearer left out; an error exactly for a wrong dimension or a component that is not finite, on a non-empty index |
| VectorIndex.TopKDistancesAgree | crates/apohara-indexer/src/index.rs:132-146 | any two such results have the same distances position by position: equal up to ties |
| Framing.ToBytes | crates/apohara-indexer/src/index.rs:167-198 | the output is the frame of the two payloads, lengths truncated to 32 bits |
| Framing.FromBytes | crates/apohara-indexer/src/index.rs:207-248 | the result and the kind of error, in the order of the checks |
| Framing.FrameIsRead | crates/apohara-indexer/src/index.rs:207-248 | data that start with a frame decode to its payloads, whatever follows |
| Framing.AcceptedIsFrame | crates/apohara-indexer/src/index.rs:207-248 | only data that start with a frame are accepted |
| Framing.FramedIsPrefix | crates/apohara-indexer/src/index.rs:167-198 | reading a frame at the start of data is the same as the written frame being a prefix of them |
| Framing.FrameRoundTrip | crates/apohara-indexer/src/index.rs:167-248 | a frame decodes to its payloads exactly when both lengths are below 2^32 |
| Framing.IndexRoundTrip | crates/apohara-indexer/src/index.rs:167-248 | with decoders that undo the encoders an index is restored as it was |
| Framing.PrefixIsRejected | crates/apohara-indexer/src/index.rs:207-248 | a prefix that cuts the frame is rejected, one that keeps it decodes as before |
| IndexerProtocol.NextFreeId | crates/apohara-indexer/src/indexer.rs:141-142 | one more than the largest node id, 1 without nodes |
| IndexerProtocol.SavedIsLoaded | crates/apohara-indexer/src/indexer.rs:304-312 | an index that fits its frame is loaded as it was saved |
| IndexerProtocol.StepKeepsInv | crates/apohara-indexer/src/indexer.rs:163-191 | every step of any call, failure or restart keeps the invariant |
| IndexerProtocol.ReturnedIsDurable | crates/apohara-indexer/src/indexer.rs:163-191 | once a call returned an id, nodes, index and saved index hold its entry for ever, across failures, crashes and concurrent calls |
| IndexerProtocol.ReturnedIdsDiffer | crates/apohara-indexer/src/indexer.rs:169-174 | no two calls return one id, even across crashes |
| IndexerProtocol.HandedOutIdsDiffer | crates/apohara-indexer/src/indexer.rs:169-174 | between crashes, from any state, all ids handed out to concurrent calls are distinct and not below the first next id, whatever fails |
| IndexerProtocol.CrashFreeIdsAreNew | crates/apohara-indexer/src/indexer.rs:163-191 | in a run without a crash from a consistent state the next id is in no table, with any number of concurrent calls |
| IndexerProtocol.SuccessMeansAgreement | crates/apohara-indexer/src/indexer.rs:163-191 | once all concurrent calls have returned successfully, node table, index and saved index hold the same entries: the earlier ones and one per call |
| IndexerProtocol.SavedIdsAreNotReused | crates/apohara-indexer/src/indexer.rs:98-191 | with one call at a time, whatever fails or crashes, saved ids are at most the largest node id, and the next id is in no table |
| IndexerProtocol.ConcurrentCrashReusesAnId | crates/apohara-indexer/src/indexer.rs:163-191 | at most two concurrent calls and a crash: a saved id is handed out again |
| IndexerProtocol.SavedIdsAreSafeIff | crates/apohara-indexer/src/indexer.rs:98-191 | a saved id is never about to be handed out in any run with at most `w` calls in flight exactly when `w` is at most 1 or there are no crashes |
| IndexerProtocol.WithinNodesIff | crates/apohara-indexer/src/indexer.rs:98-191 | saved ids stay within the node ids in all such runs exactly when `w` is at most 1 |
| IndexerSearch.LookUp | crates/apohara-indexer/src/indexer.rs:286-296 | the hits at increasing positions, exactly those whose id has a node |
| IndexerSearch.SearchIsCompleteIff | crates/apohara-indexer/src/indexer.rs:269-301 | every search, whatever the query and the limit, returns all the index finds exactly when every indexed id has a node |
| IndexerSearch.FailedPutLosesAHit | crates/apohara-indexer/src/indexer.rs:163-191 | one call whose `put_node` fails is a run that ends with an indexed id without a node, which searches drop |
| IndexerSearch.MissingNodeIsExplained | crates/apohara-indexer/src/indexer.rs:163-191 | in every run an indexed id without a node belongs to a call between insertion and storing, one that failed, or one lost in a crash |
| IndexerSearch.SuccessfulSearchIsComplete | crates/apohara-indexer/src/indexer.rs:163-301 | so searches are complete in every state of every run in which no call is at that point, has failed or is lost |
| IndexerSearch.ReusedIdMixesEntries | crates/apohara-indexer/src/indexer.rs:98-191 | a run of at most two concurrent calls with two crashes, after which the index holds one call's vector and the node table another's metadata under one id |
| IndexerSearch.AgreementIff | crates/apohara-indexer/src/indexer.rs:98-301 | index and node table hold entries of one call under every id they share, in all runs with at most `w` calls in flight, exactly when `w` is at most 1 or there are no crashes |
| IndexerProtocol.AfterCallIsRun | crates/apohara-indexer/src/indexer.rs:163-191 | a call on its own takes the steps of the protocol |
| IndexerProtocol.Indexer.IndexText | crates/apohara-indexer/src/indexer.rs:163-191 | the new state and result for each step that may fail |
| IndexerProtocol.Indexer.Reopen | crates/apohara-indexer/src/indexer.rs:131-150 | takes the restart step exactly when the saved index loads |
| BlastRadius.DependencyGraph.AddFile | crates/apohara-indexer/src/dependency.rs:33-38 | adds a node and no edge |
| BlastRadius.DependencyGraph.AddDependency | crates/apohara-indexer/src/dependency.rs:44-62 | adds both nodes and the edge, once |
| BlastRadius.DependencyGraph.EdgeCount | crates/apohara-indexer/src/dependency.rs:157-159 | the number of distinct import pairs |
| BlastRadius.ReverseEdges | crates/apohara-indexer/src/dependency.rs:90-104 | lists exactly the importers of each file |
| BlastRadius.Visit | crates/apohara-indexer/src/dependency.rs:124-133 | marks the new dependents, all of which reach the target, and keeps the worklist complete |
| BlastRadius.DependencyGraph.GetBlastRadius | crates/apohara-indexer/src/dependency.rs:80-142 | exactly the files with a non-empty import path to the target, strictly sorted; terminates on cycles |
| BlastRadius.StrictlySortedIsUnique | crates/apohara-indexer/src/dependency.rs:138-141 | the result is determined by its members, so no map order shows in it |
| Layout.DepthSearch.ComputeDepth | packages/desktop/src/components/SwarmCanvas.tsx:119-131 | the longest parent chain of a task that reaches no cycle, with memo and guard shared among the calls; earlier memo entries are kept |
| Layout.DepthIsLongestChain | packages/desktop/src/components/SwarmCanvas.tsx:117-132 | the memo holds the longest chain of a task exactly when no cycle can be reached from it |
| Layout.DepthsAreUnique | packages/desktop/src/components/SwarmCanvas.tsx:132-132 | on an acyclic graph the depths do not depend on the visiting order |
| Layout.PlaceNodes | packages/desktop/src/components/SwarmCanvas.tsx:134-151 | each task in the column of its depth, below the earlier tasks of that column |
| Layout.PositionsDiffer | packages/desktop/src/components/SwarmCanvas.tsx:134-151 | no two tasks share a position |
| Layout.ConnectNodes | packages/desktop/src/components/SwarmCanvas.tsx:153-165 | an edge for each entry of a dependency list that is a task, as often as it is listed, and no other |
| Layout.BuildGraph | packages/desktop/src/components/SwarmCanvas.tsx:117-165 | depths, positions and edges of the whole graph |
| Layout.EdgesPointRightIff | packages/desktop/src/components/SwarmCanvas.tsx:117-165 | every edge leads to a strictly larger column exactly when the graph is acyclic |
| Router.CoolsAtThreshold | src/providers/router.ts:466-508 | from any record without failures that is not cooling, failures in a row start a cooldown at the first of class AUTH_FAILURE or RATE_LIMIT, the third NETWORK one, the configured MODEL_ERROR one, and not before |
| RouterHistory.CountIsFailuresSince | src/providers/router.ts:458-563 | in every run a provider's failure count is the number of its failures since its last success or timer, or since the start |
| RouterHistory.CoolsAfresh | src/providers/router.ts:466-563 | right after a success or a timer, whatever the record was, the provider is not cooling, and failures of one class in a row cool it exactly from the threshold on |
| RouterHistory.FailureCoolsFromThreshold | src/providers/router.ts:466-515 | in every run a failure not of class MODEL_ERROR leaves the provider cooling exactly if it was or its failures since its last success or timer reach the threshold; when the cooldown then ends |
| RouterHistory.ModelErrorCoolsFromThreshold | src/providers/router.ts:487-511 | in every run a MODEL_ERROR is logged first, and is to start a cooldown exactly if those failures reach the configured number |
| RouterHistory.LoggedModelErrorCools | src/providers/router.ts:487-511 | when it is logged the cooldown it was to start begins |
| Router.FirstHealthyIsFirst | src/providers/router.ts:605-613 | what the search finds is healthy, and nothing visited before it is |
| Router.FallbackPrefersHealthy | src/providers/router.ts:570-618 | a cooling provider is chosen only if the whole ring is cooling, and then the first of the ring |
| Router.ExhaustedIff | src/providers/router.ts:782-795 | a request is given up exactly when every other provider is cooling and the failed one is healthy or heads the ring |
| Router.SourceRingFallback | src/providers/router.ts:570-618 | both results on the ring the source lists, which `anthropic-api` heads |
| Router.StepKeepsSound | src/providers/router.ts:458-563 | every step keeps all health records sound and every handler with a tracked provider |
| Router.HealthIsSound | src/providers/router.ts:458-563 | in every interleaving `isOnCooldown` holds exactly when the expiry is set, and `needsAuthRefresh` implies the last class is AUTH_FAILURE |
| Router.OrphansIff | src/providers/router.ts:510-546 | a step leaves a cooling provider without timer and without handler about to arm one exactly when it fails the log write of the last such handler |
| Router.OrphanStays | src/providers/router.ts:528-563 | such a provider stays so until a call to it succeeds or a failure starts a new cooldown |
| Router.OrphanedSince | src/providers/router.ts:458-563 | in every run such a provider has been so without a gap since a log write of its own failed |
| Router.CoolingIsWatched | src/providers/router.ts:458-563 | in every interleaving a cooling provider has an armed timer or a handler about to arm one, unless the log write of the last such handler has failed |
| Router.LoggedCooldownsAreWatched | src/providers/router.ts:458-563 | in particular while all its cooldown logs are written |
| Router.FailedLogAbandonsProvider | src/providers/router.ts:510-546 | a run that ends with a cooling provider nothing will wake |
| Router.NeverOrphanedIff | src/providers/router.ts:510-546 | per provider: the runs considered never leave it so exactly when failed log writes of a last handler are excluded |
| Router.RequestsAreModest | src/providers/router.ts:743-803 | a request calls at most two providers, and they differ |
| Router.SecondProviderIsHealthy | src/providers/router.ts:767-797 | the second provider is healthy when chosen, unless the whole ring is cooling |
| Router.ProviderRouter.RecordProviderFailure | src/providers/router.ts:458-525 | one more failure with its time, class and hint, and what is awaited at the first await |
| Router.ProviderRouter.RecordProviderSuccess | src/providers/router.ts:553-563 | no failures, no cooldown, no class and no hint are left in the record; nothing else changes |
| Router.ProviderRouter.Fallback | src/providers/router.ts:570-618 | the first healthy provider in ring order from after the given one, healthy exactly when some provider is |
| VerificationMesh.EstimateCost | src/core/verification-mesh.ts:658-693 | a price from 0.2 to 3 cents: the listed one, but 1 for the four providers listed at 0 |
| VerificationMesh.QualifyingTasks | src/core/verification-mesh.ts:107-136 | a task is verified exactly when policy and mesh are enabled, its complexity reaches the minimum, and it touches neither 1 nor 2 files |
| VerificationMesh.StepKeepsConserved | src/core/verification-mesh.ts:142-326 | every step keeps session costs equal to what the calls have paid |
| MeshBudget.VerificationIsWithinBudget | src/core/verification-mesh.ts:254-282 | with at most `width` calls in flight, verification cost stays within the policy's share of the base cost less the lowest price, plus 6 cents for each call in flight; and within the share itself if the lowest price alone adds 6 cents to it |
| MeshBudget.BudgetHoldsIff | src/core/verification-mesh.ts:254-282 | at every width the bound holds in all sessions exactly when the percentage is not negative |
| MeshBudget.BudgetIsAttained | src/core/verification-mesh.ts:254-282 | at every width, and for every percentage from 0 for which the lowest price adds less than 6 cents to the share (below 3000), some session attains the bound exactly |
| VerificationMesh.TrippedStaysTripped | src/core/verification-mesh.ts:107-113 | once the breaker trips, no call started later applies the mesh |
| VerificationMesh.TotalsAddUp | src/core/verification-mesh.ts:171-324 | when every call has returned, returned totals add up to base plus verification cost |
| VerificationMesh.ExecutedIsReachable | src/core/verification-mesh.ts:142-326 | a call during which the others take no step is part of a session, at every width |
| VerificationMesh.SequentialCalls | src/core/verification-mesh.ts:142-326 | any list of calls made one after another is a session of width 1 and leaves nothing in flight |
| MeshBudget.SequentialCallsAreWithinBudget | src/core/verification-mesh.ts:142-326 | such a list stays within the bound for width 1 |
| VerificationMesh.VerificationMesh.Execute | src/core/verification-mesh.ts:142-326 | session costs, breaker and returned total for every way the awaits settle, ledger writes included |
| Base64Url.Decode | src/lib/oauth-pkce.ts:40-49 | the padding loop and replacements give the decoding of the padded text |
| Base64Url.RoundTrip | src/lib/oauth-pkce.ts:32-49 | decoding undoes encoding for every byte string |
| Base64Url.EncodingShape | src/lib/oauth-pkce.ts:12-35 | only the alphabet of section 5 of RFC 4648, ceil(4n/3) characters, 43 for 32 bytes as in section 4.1 of RFC 7636 |
| Base64Url.EncodedIsAlphabetAtBits | src/lib/oauth-pkce.ts:32-35 | character `i` of the encoding is the one at the number bits `6i` to `6i + 5` form in the alphabet of section 5 of RFC 4648, zeros following the last bit |
| Base64Url.ReencodingIff | src/lib/oauth-pkce.ts:32-49 | URL-safe text decodes, and encoding the bytes gives it back exactly when it has no lone last character and no stray bits |
| LogTail.SplitJoins | packages/desktop/src/server.ts:126-126 | the pieces of a text contain no newline and give it back when joined by newlines |
| LogTail.NonBlankLinesAre | packages/desktop/src/server.ts:126-126 | what is kept of them are the stretches between newlines with something besides white space, each once and in order |
| LogTail.TheLinesAreUnique | packages/desktop/src/server.ts:126-126 | a text has only one such list |
| LogTail.DecodeAfterText | packages/desktop/src/server.ts:120-120 | well-formed text decodes to itself whatever follows it |
| LogTail.DecodeBeforeNewline | packages/desktop/src/server.ts:120-126 | no malformed sequence swallows a newline: any bytes decode line by line |
| LogTail.DecodingNeverShrinks | packages/desktop/src/server.ts:120-125 | decoding and encoding again never loses a byte, and keeps the length exactly when every replaced piece is three bytes long |
| LogTail.ReadDelta | packages/desktop/src/server.ts:108-131 | delivers exactly the non-blank lines completed since, as stretches between newlines of the decoded bytes, from any offset; after a read at a line boundary the next offset is never short of the end of the complete lines, and is that end exactly when every malformed piece is three bytes long |
| LogTail.Utf8ReplacesOnlyThrees | packages/desktop/src/server.ts:120-127 | well-formed lines meet that condition |
| LogTail.PrefixHasUtf8Lines | packages/desktop/src/server.ts:108-131 | the complete lines of a UTF-8 file cut anywhere are well-formed |
| LogTail.Utf8IsIntact | packages/desktop/src/server.ts:108-131 | a file that is UTF-8 at every read meets the condition at every read |
| LogTail.LogStream.Deliver | packages/desktop/src/server.ts:349-358 | one watch callback sends the right lines, and leaves the offset at a line boundary exactly under that condition |
| LogTail.LogStream.Follow | packages/desktop/src/server.ts:341-358 | for any schedule of appends and reads the offset is at a line boundary after every read exactly under that condition, and then what was sent are the stretches between newlines of the file as last read that are complete and not blank, each once and in order |
| LogTail.MalformedLineIsMiscounted | packages/desktop/src/server.ts:120-127 | one malformed line that misleads the offset, and one that does not |

## Left out

- SubagentManager.ExecuteAll: assumes unique task ids, as its callers do, and that logging, routing and `acquire` do not throw; timeouts, backoff times and output texts are not modelled.
- SubagentManager.ExecuteTask: says nothing about time, memory lookups or the texts of results.
- CycleDetection.ValidateDecomposition: the parsing of the model's answer and the defaults for role and files are not modelled.
- Canonical.CanonicalTextIsMeaning: numbers are integers (no fractions, exponents or minus zero), and `Date`, `toJSON`, functions and the special order of integer-like keys are not part of the values.
- JsonRoundTrip.ValueRoundTrip: parsing covers integers only; a number with a fraction or an exponent is rejected by the model.
- LedgerChain.RunStands: restarts happen between two writes; a line torn by a crash, failing file operations, two ledgers writing one file and the UTF-8 encoding of the file are not modelled. The write queue appears as the order of the calls.
- Ledger.EventLedger.Init: a last line whose `hash` is truthy but not a string is not modelled.
- LedgerBinding.LastHashBindsEvents: a file truncated after an accepted line is itself accepted; no property excludes that.
- VectorIndex.VectorIndex.Insert: finite components are real numbers, so rounding is not modelled, and the square root enters as a given number whose square is the sum of squares.
- VectorIndex.VectorIndex.Search: which of several equally near vectors is returned depends on the map's order and is left open.
- Framing.FromBytes: the JSON decoders of the two payloads are parameters.
- IndexerProtocol.ReturnedIsDurable: assumes that the serialized index stays below 2^32 bytes and that database commits are atomic; ids do not overflow 64 bits; `delete_node` is not among the steps.
- BlastRadius.DependencyGraph.GetBlastRadius: paths are compared by any total order, of which the order of `PathBuf` is one.
- Layout.BuildGraph: takes the tasks as already collected from the events; task states, provider labels and the sentinels of mesh verdicts are not modelled.
- Router.CoolingIsWatched: excludes runs in which the log write of a last handler fails, as `Router.NeverOrphanedIff` shows it must; says nothing about how long a cooldown lasts; an earlier timer can end a later cooldown, as in the code.
- Router.RequestsAreModest: provider calls, error classification and retry hints are inputs; the logs before the first call are not modelled.
- VerificationMesh.EstimateCost: prices are exact reals, so the rounding of sums of 0.2 and 0.3 as floating-point numbers is not modelled.
- VerificationMesh.VerificationMesh.Execute: responses, the arbiter's verdict and the choice of the response are not modelled; an await that throws, a ledger write among them, is an input.
- Base64Url.Decode: returns none for characters outside both alphabets, which `Buffer` skips instead.
- LogTail.LogStream.Follow: watch callbacks do not overlap, and each read sees the whole file.
- Provider HTTP calls, CLI drivers, OAuth flows, GitHub, MCP, Inngest and git merging: input and output over services not shown.
- The terminal and desktop user interfaces apart from the layout, and the `ParallelScheduler`, whose lanes repeat the subagent manager's.
- Tree-sitter parsing, embeddings, capability sampling and the sandbox: foreign grammars, models, distributions and kernel behaviour.
