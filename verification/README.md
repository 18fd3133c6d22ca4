# BigHead, verified

A Dafny 4.11 model of the algorithms and protocols of BigHead: the workflow graph validator, the CRM
incremental sync with its store, the retry, paging and room operations of the collaboration repository,
the message timeline, the LLM router with its circuit breakers, search escaping, the clamd stream, the
realtime feed, the refresh coordinator, run leases and run pricing. `dafny verify dfyconfig.toml` checks
everything.

Each file is one module. Code that computes is a function; code that works step by step is a method of a
class, or a method with a loop, proved equal to a function; protocols with several actors are functions from
a state and an event to the next state, and their theorems speak about every list of events.

- **Workflow validator** - `Graphs`, `WorkflowValidation`, `WorkflowAcceptance`. The graph is the set of
  arcs of the resolved edges; cycles and reachability are defined on it, without reference to the traversals.
- **CRM sync** - `CrmStore` (the transaction of `apply_crm_sync_page`), `CrmWorkers` (any number of workers,
  crashes, lost replies), `CrmBlocks` (what each of their syncs has done), `CrmSync` (one worker's loop), `CrmReplay`.
  The comment in the gateway calls a page idempotent; the SQL does not make every page so, and `CrmReplay` gives the
  exact condition on a page's stamps and the exact condition on a stream for all its pages. The protocol does not
  depend on it, because the version check keeps a page from being committed twice.
- **Retry of a run** - `RetryRun`, `RetryTheorems`, `RetryAnswers`. Each statement of `retry_run` is a step of its
  own, between which other callers, other writers and the dispatcher act. A row carries the attempt number it was
  inserted with.
- **Keyset paging** - `KeysetPaging`, `CursorCodec`, `CursorPosition`. The table may change between two pages.
- **Message timeline** - `MessageReconciliation`, `TimelineTheorems`, `TimelineSources` (which messages a row is made
  of), `TimelineTwice` and `TimelineExact` (reconciling the same messages again). `localeCompare` is any total preorder of
  strings, so different strings may compare equal.
- **LLM router** - `CircuitBreaker`, `BreakerBound`, `BreakerHistory`, `LlmRouter`. The clock, the answers of the
  providers and the cancellation of a call are inputs.
- **Search** - `LikeSearch`. **Malware scan stream** - `ScanFraming`.
- **Browser closures** - `RealtimeFeed`, `RefreshCoordinator`. A timer is a flag and an input "the timer fires".
- **Runs** - `EffectKeys`, `RunLease` (the SQL transitions of many runs, and providers that deduplicate by the key
  they receive), `RunEffects`, `RunCharges`, `RunDispatch` (the loop of a worker), `RunCost`. The
  fingerprint of an execution is an input of its claim: the claim puts together anew what it hashes.
- **Rooms** - `RoomModeration`.

Assumptions about the environment: a database transaction is one step, except inside `retry_run`; a provider
answers a repeated idempotency key with its first result; equal hashes mean equal contents;
clocks do not go back; the array sort is stable.

## Model

| member | source | states |
|---|---|---|
| WorkflowValidation.Validate | apps/web/src/lib/sprint2-domain-rules.ts:8-51 | The returned errors are the report written in terms of cycles and reachability, each message once |
| WorkflowValidation.CycleSearch.Visit | apps/web/src/lib/sprint2-domain-rules.ts:23-29 | A call that answers true has found a cycle; one that answers false leaves its node done, the open nodes as they were, and the done nodes closed under arcs and free of cycles. It terminates because each descent shrinks the nodes in neither set |
| WorkflowValidation.FindCycle | apps/web/src/lib/sprint2-domain-rules.ts:21-30 | The three-colour search answers true exactly when the relation has a directed cycle |
| WorkflowValidation.Traversal.Visit | apps/web/src/lib/sprint2-domain-rules.ts:42-46 | Every node added is reachable from the root and has all its neighbours in the set when the call returns |
| WorkflowValidation.ReachableFrom | apps/web/src/lib/sprint2-domain-rules.ts:34-47 | The collected set is exactly the set of ids reachable from the first node |
| WorkflowValidation.LinkEdges | apps/web/src/lib/sprint2-domain-rules.ts:12-20 | The adjacency lists hold exactly the arcs of the resolved edges, and the edge errors come in edge order |
| WorkflowValidation.LinkBothWays | apps/web/src/lib/sprint2-domain-rules.ts:35-41 | The second adjacency map holds exactly the arcs in either direction |
| WorkflowValidation.FindSplit | apps/web/src/lib/sprint2-domain-rules.ts:33-49 | The size test compares the reachable ids with the number of nodes; the empty graph skips it |
| WorkflowValidation.IdsCount | apps/web/src/lib/sprint2-domain-rules.ts:11 | The set of ids is as large as the list of nodes exactly when the ids are distinct |
| WorkflowValidation.LaterNodeStays | apps/web/src/lib/sprint2-domain-rules.ts:12 | Of several nodes with one id the last one is in the map |
| WorkflowValidation.DistinctKeeps | apps/web/src/lib/sprint2-domain-rules.ts:50 | Spreading the Set keeps every message and repeats none |
| WorkflowAcceptance.EdgeErrorsMeaning | apps/web/src/lib/sprint2-domain-rules.ts:14-20 | No edge error means every edge resolves and matches output to input; the dangling message means some edge does not resolve |
| WorkflowAcceptance.SplitMeaning | apps/web/src/lib/sprint2-domain-rules.ts:33-49 | With distinct ids the size test fails exactly for graphs that are not weakly connected |
| WorkflowAcceptance.DuplicatesAlwaysSplit | apps/web/src/lib/sprint2-domain-rules.ts:11-48 | With duplicate ids the size test always reports a disconnected component |
| WorkflowAcceptance.AcyclicHasEntryAndExit | apps/web/src/lib/sprint2-domain-rules.ts:31-32 | A finite non-empty acyclic graph without dangling edges has an entry and an exit |
| WorkflowAcceptance.AcceptedIffWellFormed | apps/web/src/lib/sprint2-domain-rules.ts:8-51 | No error is returned exactly for non-empty, non-blank, distinct, resolved, matching, acyclic and weakly connected workflows; the entry and exit checks are implied |
| WorkflowAcceptance.CycleReportedIffCyclic | apps/web/src/lib/sprint2-domain-rules.ts:21-30 | The cycle message appears exactly when the resolved edges contain a directed cycle, self-loops and duplicate ids included |
| WorkflowAcceptance.NodeMessages | apps/web/src/lib/sprint2-domain-rules.ts:10-20 | The messages about nodes and edges are reported exactly for a blank field, for ids that are not distinct and for an edge that does not resolve |
| WorkflowAcceptance.GraphMessages | apps/web/src/lib/sprint2-domain-rules.ts:21-49 | The messages about the graph are reported exactly for a directed cycle, for no entry, for no exit and for a failing size test |
| WorkflowAcceptance.CausesMean | apps/web/src/lib/sprint2-domain-rules.ts:10-32 | What these are: some id, input or output is blank; every node has an edge into it; every node has an edge out of it |
| WorkflowAcceptance.EveryNodeOnEntryToExitPath | apps/web/src/lib/sprint2-domain-rules.ts:8-51 | In an accepted workflow every node lies on a walk from an entry to an exit |
| Graphs.EntryToExit | apps/web/src/lib/sprint2-domain-rules.ts:21-32 | In a finite acyclic graph every node is reached from an entry and reaches an exit |
| CrmStore.LocalWatermarkAgrees | apps/worker/src/bighead_worker/crm_gateway.py:199 | Once a page is accepted, the watermark the worker keeps is the one the store keeps |
| CrmStore.PageApplied | supabase/migrations/20260713182259_crm_sync_worker_bridge.sql:101-158 | A page is accepted exactly when the version is the expected one, its watermark is not older and all its records are valid. Then the version goes up by one, the position is the page's, the watermark does not go back, no row is lost, only the page's entities get new rows, no row goes back in time, and the last record of each entity is there unless the row is newer |
| CrmSync.SyncStore.ApplyPage | supabase/migrations/20260713182259_crm_sync_worker_bridge.sql:101-158 | A caller learns that its page was accepted (same condition, same effects, and the new version) or why it was not, and then nothing changed |
| CrmSync.SyncIncremental | apps/worker/src/bighead_worker/crm_gateway.py:188-202 | The sync ends with the store after some number of pages, each asked for where the previous one ended; it ends well at the first page without a next cursor, fails at the first refused page, or fails after max_pages, and it counts the records of those pages |
| CrmSync.EndIsUnique | apps/worker/src/bighead_worker/crm_gateway.py:188-202 | The ending of a sync is determined by the store and the provider |
| CrmWorkers.RunKeepsInv | apps/worker/src/bighead_worker/crm_gateway.py:191-201 | Over any interleaving and crashes: the version counts the committed pages, the store is their replay, and a worker whose version is current has the current cursor and watermark |
| CrmWorkers.SoloReplays | apps/worker/src/bighead_worker/crm_gateway.py:188-202 | One undisturbed worker leaves exactly the replay of its pages |
| CrmWorkers.AnyRunIsASoloRun | apps/worker/src/bighead_worker/crm_gateway.py:195-197 | The store of any run equals the store one undisturbed worker leaves after the same pages, and each page was fetched from exactly where the pages before it ended |
| CrmWorkers.StaleWorkerChangesNothing | supabase/migrations/20260713182259_crm_sync_worker_bridge.sql:112 | A worker with a stale version changes neither store nor log and its sync fails |
| CrmWorkers.LocalIsStored | apps/worker/src/bighead_worker/crm_gateway.py:197-199 | After a successful apply the local cursor, watermark and version are the stored ones |
| CrmWorkers.VersionDeterminesStore | apps/worker/src/bighead_worker/crm_gateway.py:195-197 | With a provider that answers by position, the version alone determines mirror, cursor and watermark, whatever the interleaving |
| CrmBlocks.SyncsAreBlocks | apps/worker/src/bighead_worker/crm_gateway.py:188-202 | Over any interleaving: the pages of one sync are a block of the committed pages with nobody else's in between, all but the last announcing another; a sync that ends well has committed the last one and reports exactly the records of its block, one that is still going on has counted its block so far, and one that stops at max_pages has committed that many |
| CrmBlocks.LostReplyCommits | apps/worker/src/bighead_worker/crm_gateway.py:197 | A worker that does not hear of its commit has committed all the same, and has to start anew |
| CrmReplay.UpsertAllByRow | supabase/migrations/20260713182259_crm_sync_worker_bridge.sql:116-153 | A page acts on each external entity separately |
| CrmReplay.SecondPassChangesNothing | supabase/migrations/20260713182259_crm_sync_worker_bridge.sql:144-151 | A row that has seen a page whose stamps are realigned is not changed by seeing it again |
| CrmReplay.PageSafeIffRealigned | supabase/migrations/20260713182259_crm_sync_worker_bridge.sql:116-153 | Replaying a page changes nothing, whatever its records contain and whatever is mirrored, exactly when its stamps are realigned: whenever an entity goes back to a time, the last of its earlier records that are not later carries exactly that time |
| CrmReplay.GoingBackBreaksReplay | supabase/migrations/20260713182259_crm_sync_worker_bridge.sql:144-151 | For every page that is not realigned, contents for which its replay changes a row |
| CrmReplay.SafeIffOrdered | supabase/migrations/20260713182259_crm_sync_worker_bridge.sql:116-153 | Every page that can be cut from a change stream is safe to replay exactly when the timestamps of each entity never go back in the stream |
| CrmReplay.SafeWithoutOrder | supabase/migrations/20260713182259_crm_sync_worker_bridge.sql:144-151 | A page that goes back in time and is safe all the same: stamps 1, 2, 1 |
| CrmReplay.ReplayCanResurrect | apps/worker/src/bighead_worker/crm_gateway.py:195-196 | A concrete page whose replay is not idempotent: a record skipped the first time for equal contents is applied the second time |
| RetryRun.AdvanceKeepsInv | apps/api/src/bighead_api/collaboration/service.py:1176-1290 | No step of a caller breaks key uniqueness, lock exclusion or the agreement between callers and rows; under the row lock that is a parent without a live lease and below its limit, at the attempt the caller knows |
| RetryRun.StepKeepsInv | apps/api/src/bighead_api/collaboration/service.py:1175-1290 | The same for every step of the system, other writers and the dispatcher included |
| RetryTheorems.SameAttemptSameRun | apps/api/src/bighead_api/collaboration/service.py:1195-1204 | Callers that retried the same run at the same attempt return the same new run, whose key names that retry |
| RetryTheorems.AllCallersGetOneRun | apps/api/src/bighead_api/collaboration/service.py:1207-1289 | While the attempt of a run does not change, all its successful callers return one run, in every interleaving |
| RetryTheorems.RunKeepsLineage | apps/api/src/bighead_api/collaboration/service.py:1242-1258 | Every retry has the organization, task and limit of its parent and an attempt above the parent's, within the limit |
| RetryTheorems.HandlerIsUnreachable | apps/api/src/bighead_api/collaboration/service.py:1279-1289 | If only retries write retry keys, the unique-violation handler is never entered, because the check is repeated under the lock |
| RetryTheorems.RetryChainIsBounded | apps/api/src/bighead_api/collaboration/service.py:1229-1256 | A chain of retries is no longer than the limit minus the first attempt number |
| RetryAnswers.CheckedExactly | apps/api/src/bighead_api/collaboration/service.py:1185-1194 | Both checks answer 404 exactly for callers that are not active members or do not see the run, 423 exactly for a run with a live lease, 429 exactly for one without a lease at its limit, and otherwise go on with its present attempt |
| RetryAnswers.LockedRunIsRetryable | apps/api/src/bighead_api/collaboration/service.py:1212-1230 | Over any run: whoever holds the row lock retries a run of its organization without a live lease, below the limit and at its present attempt |
| RetryAnswers.RetriesAreOfRetryableRuns | apps/api/src/bighead_api/collaboration/service.py:1242-1258 | Over any run: a step adds a retry only as the answer to its caller, while the parent has no live lease and attempts left, with the parent's organization, task and limit and the next attempt |
| RetryAnswers.RefusalsHaveTheirCause | apps/api/src/bighead_api/collaboration/service.py:1185-1230 | Over any run: whoever was refused 404, 423 or 429 met that cause in the rows at one of its two checks; any other failure is a request broken off, or a key lost to a row that was gone again |
| RetryAnswers.AnswerStays | apps/api/src/bighead_api/collaboration/service.py:1204 | An answer is final |
| RetryAnswers.LoneCaller | apps/api/src/bighead_api/collaboration/service.py:1175-1290 | A caller on its own is refused exactly for its cause and then changes nothing; if a retry of that attempt exists it is returned that one, and otherwise a new row with the next attempt, and only that row is added |
| RetryAnswers.LoneCallerIsAnswered | apps/api/src/bighead_api/collaboration/service.py:1175-1290 | From every reachable state a lone active member gets a retry of a run without a live lease and below its limit |
| KeysetPaging.QueryIsTopRows | apps/api/src/bighead_api/collaboration/service.py:195-206 | The ordered and limited query returns the greatest selected rows in strictly descending order |
| KeysetPaging.ReadIsUpToCursor | apps/api/src/bighead_api/collaboration/service.py:193-214 | With rows inserted and deleted between pages: strictly descending, so nothing twice; every row that was there throughout is read or still below the cursor |
| KeysetPaging.PageExtends | apps/api/src/bighead_api/administration/service.py:666-677 | One more page keeps that, and its cursor is its last row when there is another |
| KeysetPaging.ChainTerminates | apps/api/src/bighead_api/collaboration/service.py:853-879 | The chain of cursors ends after at most as many pages as the rows ever there fill, and one |
| KeysetPaging.FixedTable | apps/api/src/bighead_api/collaboration/service.py:674-694 | On a table that does not change, the pages together are the unpaginated query |
| CursorCodec.DecodeEncode | apps/api/src/bighead_api/collaboration/service.py:154-163 | Base64url decoding inverts encoding for every byte string |
| CursorCodec.StripThenRepad | apps/api/src/bighead_api/collaboration/service.py:156-163 | Stripping the padding and adding -len mod 4 characters restores the text; stripped lengths are never 1 mod 4 and no padding remains inside |
| CursorCodec.LoadsDumps | apps/api/src/bighead_api/collaboration/service.py:155-164 | Reading the JSON pair back gives the two strings |
| CursorCodec.CursorRoundTrip | apps/api/src/bighead_api/collaboration/service.py:154-167 | Through base64 and JSON, decoding a cursor gives back the two texts it was made from, for all texts that JSON copies unchanged |
| CursorPosition.MomentRoundTrip | apps/api/src/bighead_api/collaboration/service.py:155-165 | isoformat() of a moment in UTC, with and without microseconds, is read back as that moment |
| CursorPosition.UuidRoundTrip | apps/api/src/bighead_api/collaboration/service.py:155-165 | str() of a UUID is read back as that UUID |
| CursorPosition.PlaceRoundTrip | apps/api/src/bighead_api/collaboration/service.py:154-167 | Decoding the cursor of a row gives back its creation moment and its id |
| CursorPosition.CursorsDiffer | apps/api/src/bighead_api/collaboration/service.py:154-156 | Rows have the same cursor exactly when they have the same creation moment and id |
| CursorCodec.CursorIsInjective | apps/api/src/bighead_api/collaboration/service.py:154-156 | Two positions never share a cursor |
| MessageReconciliation.SpliceOut | apps/web/src/lib/message-reconciliation.ts:35 | Splicing in descending index order removes exactly the matching rows and keeps the order of the others |
| MessageReconciliation.Reconcile | apps/web/src/lib/message-reconciliation.ts:19-42 | The in-place algorithm computes the fold that absorbs each message in turn, followed by a stable sort |
| TimelineTheorems.AbsorbAllHasNoDuplicates | apps/web/src/lib/message-reconciliation.ts:25-37 | After any messages, no two rows share an id or a non-empty client id |
| TimelineTheorems.TimelineIsClean | apps/web/src/lib/message-reconciliation.ts:39-41 | The timeline has no duplicates, holds exactly the absorbed rows, and is sorted; strictly, when the collation tells different strings apart |
| TimelineSources.EveryMessageHasOneRow | apps/web/src/lib/message-reconciliation.ts:25-37 | Followed through the removals and merges of the loop, every message goes into exactly one row |
| TimelineSources.RowsGatherTheirMessages | apps/web/src/lib/message-reconciliation.ts:34-36 | A row has exactly the keys that its own messages set, a client id exactly if one of them has one, and the id, date and values of the last of them |
| TimelineSources.NoKeyIsLost | apps/web/src/lib/message-reconciliation.ts:34-36 | Every key that a message sets is a key of the row that the message went into |
| TimelineTheorems.LastRowWins | apps/web/src/lib/message-reconciliation.ts:34 | A key that the new message does not set comes from the last row it replaces |
| TimelineTheorems.RowsComeFromMessages | apps/web/src/lib/message-reconciliation.ts:36 | Every row has the id, date and set values of one of its source messages |
| TimelineTheorems.ReconcilingAgainChangesNothing | apps/web/src/lib/message-reconciliation.ts:14-42 | Reconciling a timeline with nothing or with itself returns it unchanged |
| TimelineTwice.FirstTime | apps/web/src/lib/message-reconciliation.ts:25-37 | Reconciling leaves the untouched rows in order, followed by one row for each incoming id in the order of its last message, in which the incoming messages would change nothing |
| TimelineTwice.ReconcilingTwiceIsOnce | apps/web/src/lib/message-reconciliation.ts:14-42 | Where one client id has one id among the incoming messages, reconciling them again returns the same timeline, order included, if none of them takes over a row that earlier ones have renewed: whenever one shares the client id of a rendered row of another id that an earlier one has, some earlier one took that row over already or gave its id another client id |
| TimelineExact.TwiceIsOnceIff | apps/web/src/lib/message-reconciliation.ts:14-42 | That condition is exact: twice is once for all dates and contents of the rendered and incoming messages if and only if it holds |
| TimelineExact.RenewedTakeoverShows | apps/web/src/lib/message-reconciliation.ts:25-37 | For every list that violates it, contents for which the second time differs |
| TimelineExact.TwoIdsForOneClientIdShow | apps/web/src/lib/message-reconciliation.ts:25-37 | With two ids for one client id the condition does not help: a as 1, a as 2, b as 1 |
| TimelineTwice.ReconcilingTwiceIsOnceOnTimelines | apps/web/src/lib/message-reconciliation.ts:14-42 | The same with the condition on the rendered rows themselves, when they have no duplicates |
| TimelineExact.TakingOverANewRowShows | apps/web/src/lib/message-reconciliation.ts:25-37 | The smallest violation: row (a, c), incoming (a, no client id) and (b, c) give one row the first time and two the second |
| CircuitBreaker.OpensAtThreshold | apps/worker/src/bighead_worker/llm_gateway.py:96-103 | A reset breaker opens at exactly the threshold-th failure in a row, and its opening time is that of the last failure |
| BreakerHistory.RefusedOnlyAfterFailures | apps/worker/src/bighead_worker/llm_gateway.py:85-103 | Over any history: a provider is refused only if the last threshold calls that ended have all failed, cancelled ones aside, the last of them less than the recovery time ago |
| BreakerHistory.RefusedAfterRecentFailures | apps/worker/src/bighead_worker/llm_gateway.py:85-103 | And it is refused whenever the last threshold calls that ended have all failed within the recovery time |
| BreakerBound.RunStaysBounded | apps/worker/src/bighead_worker/llm_gateway.py:87-103 | The account of periods, calls and abandoned calls that every history without success keeps |
| BreakerBound.CallRateBound | apps/worker/src/bighead_worker/llm_gateway.py:80-131 | Without a success and with at most c overlapping calls, at most (threshold - 1 + c) times (elapsed / recovery, rounded down, plus one) calls start, and one more for each call that was cancelled, because a cancellation is no Exception and reaches neither success() nor failure() |
| BreakerBound.CallRateBoundWithoutAbandons | apps/worker/src/bighead_worker/llm_gateway.py:80-131 | The bound without the last term, when no call is cancelled |
| BreakerBound.AbandonsAreUnlimited | apps/worker/src/bighead_worker/llm_gateway.py:123-131 | It needs that: n calls one after another, each cancelled after any pause, all start, and a closed breaker is as if nothing had happened |
| BreakerBound.BudgetIsReached | apps/worker/src/bighead_worker/llm_gateway.py:80-103 | For every threshold, recovery time, c of at least 1 and n, a history without cancelled calls that starts exactly (threshold - 1 + c)(n + 1) calls in n recovery times: the bound is tight |
| BreakerBound.BudgetAndAbandonsAreReached | apps/worker/src/bighead_worker/llm_gateway.py:80-131 | With m cancelled calls beside them some history starts m calls more than that: the term for cancelled calls is tight too |
| BreakerBound.ThresholdBoundIsExact | apps/worker/src/bighead_worker/llm_gateway.py:80-131 | threshold times (elapsed / recovery, rounded down, plus one) bounds all histories without success, with at most c overlapping and at most m cancelled calls, exactly when c is 0, or c is 1 and m is 0 |
| BreakerBound.BurstIsNotLimited | apps/worker/src/bighead_worker/llm_gateway.py:113-125 | The bound on overlapping calls is needed: any number of simultaneous requests pass a closed breaker |
| LlmRouter.Router.Generate | apps/worker/src/bighead_worker/llm_gateway.py:113-132 | The loop over the adapters, with breaker objects it creates and shares by provider name, changes breakers and errors as the routing function says, also when it is cancelled |
| LlmRouter.FirstGoodAdapterWins | apps/worker/src/bighead_worker/llm_gateway.py:115-131 | A request ends at the first adapter that has all required capabilities, is allowed and whose call does not fail, with its result or cancelled; every earlier one left one note with the true reason |
| LlmRouter.EachPassedOver | apps/worker/src/bighead_worker/llm_gateway.py:116-132 | If none is chosen, every adapter left a note with the true reason |
| LlmRouter.CircuitOpensByFailures | apps/worker/src/bighead_worker/llm_gateway.py:120-131 | In any session an adapter is noted as open only after the last three calls of its provider that ended have failed, the last of them less than 30 seconds before |
| LlmRouter.SessionFollows | apps/worker/src/bighead_worker/llm_gateway.py:119-131 | Over any sequence of requests, some of them cancelled, each stored breaker is the one that its provider's own history leads to |
| LlmRouter.SessionRateBound | apps/worker/src/bighead_worker/llm_gateway.py:106-132 | In a session of sequential requests a provider name that never answers well is called at most 3 times per 30 seconds elapsed, and 3 more, and once for each cancelled call |
| LlmRouter.SessionRateBoundWithoutCancelling | apps/worker/src/bighead_worker/llm_gateway.py:106-132 | The same without the last term, when none of its calls is cancelled |
| LlmRouter.CancelledRequestsAllCall | apps/worker/src/bighead_worker/runs.py:652-665 | Requests cancelled from outside, as by the timeout of a run, all reach a provider that hangs, at any pace |
| LlmRouter.ARunTimeoutOutrunsTheBreaker | apps/worker/src/bighead_worker/runs.py:652-665 | A hundred of them with a timeout of 5 seconds make 100 calls in 500 seconds, not 51 |
| LikeSearch.ThreeReplacesAreOnePass | apps/api/src/bighead_api/discovery/service.py:92-93 | The three chained replaces are one escaping pass over the characters |
| LikeSearch.OrderMatters | apps/api/src/bighead_api/discovery/service.py:93 | Replacing the backslash last would give a pattern with another meaning |
| LikeSearch.EscapedIsPrefix | apps/api/src/bighead_api/discovery/service.py:16 | The escaped text before a percent sign matches exactly the texts that begin with it |
| LikeSearch.SearchIsLiteral | apps/api/src/bighead_api/discovery/service.py:16-24 | The search pattern matches a text exactly when the query occurs in it literally, up to case |
| LikeSearch.PatternIsWellFormed | apps/api/src/bighead_api/discovery/service.py:16 | No query makes a pattern that ends in a lone escape character |
| ScanFraming.SendStream | apps/worker/src/bighead_worker/artifact_scan.py:92-97 | The bytes written are the command, one frame per chunk and the zero length; reading them back gives the content, in full chunks but for the last, none of them empty |
| ScanFraming.ChunkCount | apps/worker/src/bighead_worker/artifact_scan.py:93-94 | The number of chunks is the content length divided by the chunk size, rounded up |
| ScanFraming.StreamRoundTrip | apps/worker/src/bighead_worker/artifact_scan.py:92-97 | Reading the stream gives back exactly the chunks that were framed, for every content and chunk size |
| ScanFraming.TruncatedStreamIsRejected | apps/worker/src/bighead_worker/artifact_scan.py:97 | No proper prefix of a complete stream is a complete stream |
| RealtimeFeed.Connection.Accept | apps/web/src/lib/realtime-refresh.ts:35-44 | Accepts by id and version; the eviction loop leaves the last maxSeen ids |
| RealtimeFeed.RunKeepsInv | apps/web/src/lib/realtime-refresh.ts:22-68 | Over any run: the remembered ids are the last accepted ones, the stored versions the greatest accepted, and a pending timer exactly when a refresh is owed |
| RealtimeFeed.AcceptedIffNew | apps/web/src/lib/realtime-refresh.ts:36-40 | An event is accepted exactly when its id is not among the last maxSeen accepted and its version is above all accepted ones of its entity |
| RealtimeFeed.VersionedEventOnce | apps/web/src/lib/realtime-refresh.ts:38-41 | A versioned event is accepted at most once, even after its id is forgotten |
| RealtimeFeed.MemoryIsBounded | apps/web/src/lib/realtime-refresh.ts:42 | At most maxSeen ids are remembered, and an id repeats only after maxSeen other acceptances |
| RealtimeFeed.NoChangeIsForgotten | apps/web/src/lib/realtime-refresh.ts:27-33 | While open, a refresh that is owed and not yet performed has its timer; refreshes never outnumber triggers |
| RealtimeFeed.RefreshedExactly | apps/web/src/lib/realtime-refresh.ts:27-33 | Over any run: one more refresh happens exactly when the timer fires before the connection is closed and a refresh is owed |
| RealtimeFeed.OwedIffAskedSince | apps/web/src/lib/realtime-refresh.ts:27-60 | Before the close a refresh is owed exactly if an open, a ready or an accepted event asked for one after the timer fired last |
| RealtimeFeed.OwedRefreshArrives | apps/web/src/lib/realtime-refresh.ts:27-33 | A refresh that is owed happens when the timer fires, once |
| RealtimeFeed.ClosedStaysQuiet | apps/web/src/lib/realtime-refresh.ts:63-68 | Nothing refreshes after the connection is closed |
| RefreshCoordinator.RunKeepsInv | apps/web/src/lib/mutation-refresh-coordinator.ts:20-59 | Over any run: a timer implies a queued refresh, and while no mutation is open a queued refresh lacks a timer exactly when the last check met a block |
| RefreshCoordinator.DepthIsOpen | apps/web/src/lib/mutation-refresh-coordinator.ts:41-51 | Until the coordinator is disposed its depth is the number of open mutations, counted from the begins and ends alone |
| RefreshCoordinator.RefreshOnlyWhenIdle | apps/web/src/lib/mutation-refresh-coordinator.ts:28-37 | Over any run: a refresh happens exactly when the timer fires unblocked, before any dispose, with no mutation open, and a refresh is owed that no block has stalled |
| RefreshCoordinator.RefreshesAreAskedFor | apps/web/src/lib/mutation-refresh-coordinator.ts:35-53 | Refreshes never outnumber requests plus forced ends |
| RefreshCoordinator.OwedRefreshIsUnderWay | apps/web/src/lib/mutation-refresh-coordinator.ts:26-54 | Never blocked, a refresh that is asked for and not yet performed has a timer or an open mutation |
| RefreshCoordinator.OwedRefreshArrives | apps/web/src/lib/mutation-refresh-coordinator.ts:26-54 | ... and ending the mutations that are open and letting the timer fire performs it exactly once |
| RefreshCoordinator.StrandedIff | apps/web/src/lib/mutation-refresh-coordinator.ts:26-38 | A refresh is stranded, with nothing that will perform it, exactly when it is owed, every mutation begun has ended, there was no dispose and the last check met a block |
| RefreshCoordinator.StrandedUntil | apps/web/src/lib/mutation-refresh-coordinator.ts:26-59 | It stays so, and no refresh happens, until a mutation begins, a request or an end comes without a block, or the coordinator is disposed |
| RefreshCoordinator.BlockCanStrandARequest | apps/web/src/lib/mutation-refresh-coordinator.ts:31-34 | A block when the timer fires leaves the request queued without a timer |
| EffectKeys.KeysNeverCollide | apps/worker/src/bighead_worker/runs.py:49-53 | Two calls have the same idempotency key exactly when they are the same call of the same run, for all run ids; rounds add their number to the run's key (runs.py:338) |
| RunEffects.SameKeyIffSameCall | apps/worker/src/bighead_worker/runs.py:336-344 | Over any history of any number of runs: two requests carried the same key exactly when they were the same call of the same run, whatever their attempts, executions and workers; then a provider answered both alike |
| RunEffects.RegisteredBeforeCalls | apps/worker/src/bighead_worker/runs.py:647-659 | Over any history: no provider is called for a run before its key is in the ledger, with the fingerprint of the caller |
| RunEffects.AnswersAreRegistered | supabase/migrations/20260713164527_apply_run_worker_recovery_and_dedupe.sql:120-122 | So a completion is never refused for want of its registration |
| RunEffects.OneEffectPerCall | apps/worker/src/bighead_worker/runs.py:647-650 | However often a run is executed, it has exactly as many effects at a provider as it made different calls there |
| RunEffects.EffectsAreBounded | apps/worker/src/bighead_worker/runs.py:49-53 | So an executor with a single call has at most one effect per run and provider, and one with rounds at most five |
| RunEffects.EffectsBelongToOneRun | apps/worker/src/bighead_worker/runs.py:49-53 | Every effect was applied for exactly one run |
| RunEffects.RegistersIffUnchanged | supabase/migrations/20260713170138_validate_run_effect_fingerprint.sql:11-37 | Over any history: an execution that holds the lease gets its effect registered exactly if its run has none registered yet or has one with the same fingerprint; keys of other runs never stand in its way |
| RunEffects.FirstFingerprintStays | supabase/migrations/20260713170138_validate_run_effect_fingerprint.sql:18-37 | The fingerprint a run registered first stays registered, whatever happens |
| RunEffects.AChangedRunCannotRegister | supabase/migrations/20260716010356_harden_anything_llm_tenant_scope.sql:280-305 | So a run whose claim differs after a failed attempt, as when one of its skills was disabled, holds the lease and cannot register |
| RunEffects.OneFingerprintPerRun | apps/worker/src/bighead_worker/runs.py:55-78 | What the check is for: everything ever sent under the keys of one run came from executions with the same fingerprint |
| RunCharges.RunKeepsInv | supabase/migrations/20260713164527_apply_run_worker_recovery_and_dedupe.sql:110-131 | Over any run: every result is an answer received by an execution of its own run, every cost event is some run's result, and an execution that is done completed its run alone |
| RunCharges.CompletedOnce | supabase/migrations/20260713164527_apply_run_worker_recovery_and_dedupe.sql:110-131 | A run is completed at most once, by one execution, with an answer to one of its own requests |
| RunCharges.ChargedIffNew | supabase/migrations/20260713164527_apply_run_worker_recovery_and_dedupe.sql:123-127 | A completion is charged exactly when its provider event has not been charged before |
| RunCharges.ChargedForOwnResult | supabase/migrations/20260713164527_apply_run_worker_recovery_and_dedupe.sql:123-127 | Over any history: a cost event belongs to a run that has succeeded with that provider event as its result |
| RunCharges.ChargedOnceIffNoneShared | supabase/migrations/20260713164527_apply_run_worker_recovery_and_dedupe.sql:123-127 | Every succeeded run is charged for exactly its own provider event, and every other run for none, exactly when no two succeeded runs share a provider event |
| RunCharges.DistinctIdsAreNotShared | supabase/migrations/20260713164527_apply_run_worker_recovery_and_dedupe.sql:123-127 | Providers that never give two keys one event id see to that |
| RunCharges.SharedEventGoesUncharged | supabase/migrations/20260713164527_apply_run_worker_recovery_and_dedupe.sql:123-127 | Two runs that are given the same event id: both succeed, one is charged |
| RunLease.ExecutionsAreBounded | supabase/migrations/20260713174105_emit_run_failed_outbox.sql:33-59 | Whatever crashes, expires or races, a run is claimed at most maxAttempts - attempt + 1 times |
| RunLease.ClaimTakesFreeRun | supabase/migrations/20260713174105_emit_run_failed_outbox.sql:33-59 | A claim succeeds only without a live lease and without a pending delay, and grants 10 to 900 seconds |
| RunLease.ClaimedIffFree | supabase/migrations/20260713174105_emit_run_failed_outbox.sql:37-50 | A run can be claimed exactly if it is queued and due or its lease has run out, and a retry only with attempts left; the attempt goes up exactly for retries and expired runs |
| RunLease.ClaimGivesUpExhausted | supabase/migrations/20260713174105_emit_run_failed_outbox.sql:18-24 | A claim gives up exactly the other runs whose lease ran out on the last attempt and leaves the rest as they are |
| RunLease.ClaimTakesOver | supabase/migrations/20260713164527_apply_run_worker_recovery_and_dedupe.sql:86-119 | Who claims a run takes it from the executions of every other worker: they can neither extend, complete nor fail it |
| RunLease.CrashedRunIsRecovered | supabase/migrations/20260713174105_emit_run_failed_outbox.sql:18-52 | A run whose worker crashed is claimable exactly once its lease has run out, for the next attempt, or is given up if there is none |
| RunLease.HeartbeatExtends | supabase/migrations/20260713164527_apply_run_worker_recovery_and_dedupe.sql:84-91 | A heartbeat in time moves the end of the lease to 10 to 900 seconds from now and changes nothing else; a late one changes no row and breaks the execution |
| RunLease.CallReachesProvider | apps/worker/src/bighead_worker/runs.py:652-665 | A call reaches the provider under its key whether or not its reply comes back; without the reply the execution breaks |
| RunLease.TerminalIsFinal | supabase/migrations/20260713174105_emit_run_failed_outbox.sql:34-44 | A succeeded or abandoned run never changes again |
| RunLease.RetryWaits | supabase/migrations/20260713174105_emit_run_failed_outbox.sql:71-74 | A failed run is left alone by everyone until its delay is over |
| RunLease.DelayDoubles | supabase/migrations/20260713174105_emit_run_failed_outbox.sql:71-74 | The delay starts at the backoff and doubles with each attempt, up to a day |
| RunLease.LeaseIsPerWorker | supabase/migrations/20260713164527_apply_run_worker_recovery_and_dedupe.sql:117-119 | An execution that lost the run cannot complete it, but can once its own worker has claimed it again |
| RunDispatch.DispatchRuns | apps/worker/src/bighead_worker/runs.py:635-683 | Every claimed run gets its turn and is counted once, every execution has ended, and completed counts exactly the jobs that are done and whose worker learnt it |
| RunDispatch.CompletedIffSucceeds | apps/worker/src/bighead_worker/runs.py:644-668 | A job is done after the dispatch exactly if, from the state its turn finds, its policy fits, its registration is accepted and heard of, its execution comes back with an answer and its worker still holds the lease at the completion |
| RunDispatch.UndisturbedDispatch | apps/worker/src/bighead_worker/runs.py:635-683 | A dispatch that nothing disturbs, over runs it holds and whose policies fit, completes all its jobs |
| RunDispatch.ReportedFailure | apps/worker/src/bighead_worker/runs.py:669-682 | A failed job whose report reaches the store while its worker holds the lease leaves its run queued for a retry after its delay, or given up on the last attempt |
| RunDispatch.MisfitSendsNothing | apps/worker/src/bighead_worker/runs.py:646-650 | A policy snapshot that is out of range or differs from its run registers nothing, sends nothing and charges nothing |
| RunDispatch.CompletedJobsSucceeded | apps/worker/src/bighead_worker/runs.py:666-668 | The runs behind completed jobs have succeeded, each with one completion |
| RunCost.ChargeRounds | apps/worker/src/bighead_worker/runs.py:346-450 | The tool loop charges once, on the summed tokens |
| RunCost.HalfUpIsNearest | apps/worker/src/bighead_worker/runs.py:508 | Half-up rounding gives the nearest integer, ties away from zero, and no other integer qualifies |
| RunCost.CostIsNearest | apps/worker/src/bighead_worker/runs.py:498-508 | The cost is within half a millionth of the exact price |
| RunCost.CostGrows | apps/worker/src/bighead_worker/runs.py:498-508 | With non-negative prices the cost is monotone in both token counts |
| RunCost.ChargedOnceOrPerRound | apps/worker/src/bighead_worker/runs.py:346-450 | Charging n rounds once instead of one by one differs by at most (n + 1) / 2 millionths |
| RoomModeration.Repository.Create | apps/api/src/bighead_api/collaboration/service.py:216-243 | Refused exactly for users who are not active members, as forbidden. Otherwise there is one more room, which if private has its creator as only member and moderator, who may manage it, and all other rooms are as before |
| RoomModeration.Repository.Patch | apps/api/src/bighead_api/collaboration/service.py:245-345 | Accepted exactly for managers of an existing room when no entry lets in a user who is not active and none takes its only moderator, counting the entries before it, from a room that will be private; each refusal is for its own cause, that of the first such entry. Then every flag is what the last delta about the user says, unless a private room would be left without moderator and the caller becomes it; a private room has a moderator; staff, requests and other rooms are as before; a refusal changes nothing |
| RoomModeration.AcceptedIffAcceptable | apps/api/src/bighead_api/collaboration/service.py:274-314 | The deltas go through exactly if each of them is acceptable where it stands, in terms of the flags that the deltas before it leave |
| RoomModeration.RefusedForTheFirst | apps/api/src/bighead_api/collaboration/service.py:274-298 | The first delta that is not acceptable gives the reason: 422 for a user who is not active, 409 for the only moderator |
| RoomModeration.BarredOrManaging | apps/api/src/bighead_api/collaboration/service.py:249-260 | Forbidden are exactly those who are not active members and the plain members who do not moderate the room |
| RoomModeration.Repository.Review | apps/api/src/bighead_api/collaboration/service.py:467-535 | Accepted exactly for managers, a pending request of that room and, to approve, an active requester; each refusal is for its own cause. Then the requester has joined as a plain member if approved, moderators and other rooms are as before, and only that request is decided, as asked; a refusal changes nothing |
| RoomModeration.Repository.Invite | apps/api/src/bighead_api/collaboration/service.py:569-621 | Accepted exactly for managers, an existing room and an active target; each refusal is for its own cause. Then the target has joined as a plain member or keeps the flag it had, and moderators, requests and other rooms are as before; a refusal changes nothing |
| RoomModeration.DecidedOnce | apps/api/src/bighead_api/collaboration/service.py:489-505 | No operation reopens a decided request, and a second review of it is refused |
| RoomModeration.LastModerator | apps/api/src/bighead_api/collaboration/service.py:288-294 | The query holds exactly for the only moderator |
| RoomModeration.PrivateRoomsKeepAModerator | apps/api/src/bighead_api/collaboration/service.py:216-345 | Over all runs of all four operations every private room has a moderator |
| RoomModeration.OnlyManagersChangeRooms | apps/api/src/bighead_api/collaboration/service.py:249-647 | An existing room is changed only by someone who may manage it; approvals and invitations remove nobody and leave the moderators as they are |
| RoomModeration.LastDeltaDecides | apps/api/src/bighead_api/collaboration/service.py:274-314 | Of several deltas about one user the last decides; users without a delta keep what they had |
| RoomModeration.GuardHoldsWithoutDemotingAdd | apps/api/src/bighead_api/collaboration/service.py:285-298 | Removals and updates alone never leave a private room without moderators |
| RoomModeration.DemotingAddPromotesCaller | apps/api/src/bighead_api/collaboration/service.py:305-330 | An add that demotes the last moderator makes the caller the moderator |
| RoomModeration.HandoverNeedsOrder | apps/api/src/bighead_api/collaboration/service.py:274-314 | Removing the last moderator is refused before the successor is added and accepted after |

## Left out

- HTTP, SSE, Redis, Supabase and authentication plumbing, React components, routers and generated contracts: wiring without a hard property.
- Page fetching, webhook signatures, endpoint pinning and CRM job leases: I/O around the sync protocol.
- The columns of the mirrored accounts, contacts, leads and opportunities: the mirror keeps the fields and the timestamp of each external entity.
- A page for a connection that is no longer active: the transaction fails as a crash does.
- The moment between returning an existing run under the lock and the end of that transaction: the model releases the lock with the return, which allows more interleavings.
- Deleting runs, so a retried run that disappears under its retry; hash collisions of the advisory lock only make more callers wait.
- Base64 text with characters outside the alphabet, which Python's decoder skips, and JSON other than a pair of plain strings: here they are invalid cursors.
- The JSON objects of the administration cursors: they go through the same base64 and padding steps as the collaboration pair.
- Filters of the list queries (status, assignee, risk, room): a table is the rows that pass the filter.
- TimelineExact.TwiceIsOnceIff: incoming lists in which one client id has two ids have no condition here, only the example that they can differ.
- CursorPosition.PlaceOf: only moments in UTC, as the database returns them; further texts that fromisoformat and UUID accept (other offsets and forms, braces, urn prefixes) are refused here.
- Breakers with other thresholds placed in the router beforehand, and requests that overlap in one router: `LlmRouter` runs requests one after another, `BreakerBound` covers overlapping calls.
- PostgreSQL folds case with the locale's lower(); here it is any per-character folding that keeps the three special characters apart.
- Chunk sizes below 1 or above 4294967295, which the length field cannot carry.
- A negative maxSeen, for which the eviction loop would not end; malformed messages, which the feed drops before this model begins.
- `hasActiveWorkspaceMutation` and the window events: a counter beside the coordinator.
- Organizations (all runs belong to one), the amount of a cost event, and the order and limit by which a claim chooses among runs: here a claim names its run.
- The race between execution and heartbeat inside one execution: each may fail at any step. A dispatch that is itself cancelled does not return; its executions have crashed.
- Decimal context precision: prices are exact reals.
- RoomModeration.Repository.Review: the RETURNING list of the statement names columns of `rooms` that the access request table of the migrations does not have. The DDL of the bighead copy of that table is not part of the repository; the model takes the statement as succeeding. If it failed, approval would change nothing and the room invariant would hold all the same.
- Moderators who are no longer active members of the organization still count as moderators, as in the source.
