# Verified model of the agent harness

The harness runs short-lived workers over a task graph, integrates their patches, records
every model call so that a run can be replayed, and supervises workflows through failure.
This project models its logic in Dafny and proves what each part promises over all inputs,
all runs and all interleavings. `dafny verify dfyconfig.toml` checks everything.

The modules follow the program:

- `TaskGraphs`, `Overlaps`: the task graph, its order and its validation.
- `Hunks`, `Diffs`, `DiffTexts`, `PatchFolds`, `Integration`, `PatchOverlaps`: patches over a tree of
  files and directories and the text they are read from, the integration round with its
  rollback, and the file-level overlap check as a predictor of conflicts.
- `NoProgress`, `Orchestrator`, `FanIn`: the no-progress detectors, the review/fix loop and
  its termination policy, concurrent fan-out with graph-ordered fan-in.
- `Payloads`, `Traces`, `Dialogues`, `Adapters`, `Conversations`, `Replays`: messages and
  their JSON form, pairing of trace events, the scripted, replaying and failure-injecting
  adapters, and the refinement between a recorded run and its replay.
- `Gains`, `StageTraces`, `Engine`, `EngineRuns`: several stages in one trace file, the
  loop-free workflow table, and the engine that runs, stops and resumes over it.
- `Failures`, `RetryPolicy`, `Recovery`, `RecoveryRuns`, `RecoveryTraces`, `WorkerAttempts`:
  classification, retry table, circuit breaker, the attempt loops, escalation and cost accounting.
- `Consolidation`: review findings. `ProviderTurns`: the two provider message mappings.
- `WorkflowStates`, `SnapshotNames`, `StateStore`: the serialized state and its versioned
  store. `GitHub`: draft pull requests. `Checkpoints`: the Go checkpoint map.
- `Sequences`, `Numerals`: what the others share.

Loops and stateful objects are methods and classes proved against specification functions;
the properties are lemmas about those functions. A client of an adapter, the work of a
stage, the outcomes of attempts, the answers of an approver and the iteration order of a map
are parameters, so that a statement covers all of them.

Ten promises turn out to hold only under a condition. For each the condition is proved
necessary and sufficient, and a lemma shows an input that fails:

- File-level overlap detection sees every shared file only for a visible patch, all of whose
  paths are listed (or are of files created where a listed one is deleted). An empty file, a
  bare mode change, a plain rename, a binary file and a path that git quotes, such as one past
  ASCII, are not listed. And an empty report predicts a clean integration only if no two
  patches create files one above the other, as `foo` and `foo/bar`.
- Protecting a path from overlaps works only if both patches have header lines for it and git
  writes it plainly: neither in quotes nor, as any path with a space, with a tab behind it.
- A resumed workflow does what the uninterrupted one would only if every result that a later
  stage reads is persisted; the engine needs all three of its in-memory results.
- Escalation by the reliability controller is documented as legal from every stage that is
  not over; the transition table allows it from Investigate, Plan and Implement only.
- The unaccounted cost of an aborted run is the spending of its unfinished stages only if
  the workflow's budgets were empty when the controller took over.
- Four-digit snapshot names sort like their versions only up to 9999, so the injection that
  tampers with the latest snapshot misses it from 10000 on, save for numbers whose digits
  before the last are all nines; and nothing is noticed if it writes the current version.
- Stage namespaces keep event ids apart unless one run id and a colon begin another.
- A replay stops a client that departs from the recording only where its messages differ:
  tools, response schema and token limit are not compared, and in the arguments of a tool
  call true equals one.
- The Anthropic wire carries the whole conversation only if no message but a tool result
  has a call id.
- The repositories chosen from the checkpoint map are independent of iteration order only if
  the keys that parse to a repository's lowest number agree, and the error of a failing call
  only if there is one key to report.

Where the source is silent or ambiguous the model takes one reading: a consolidation with
conflicting findings escalates before anything else is looked at; a review iteration is
counted when its review starts; a failed send is audited and raised again without a further
event; a hunk with context on both sides sits at the first place where its old lines match,
one without context before or after its changes at that end of the file; an empty captured
diff is not re-applied, the reset having restored its tree; a stage reads the results that
its request to the model or its check is made from.

## Model

| member | source | states |
|---|---|---|
| `TaskGraphs.GraphOrder` | src/anse_harness/workflows/graph.py:136-151 | returns an order exactly when a topological order exists; the one returned is least by declaration index |
| `TaskGraphs.KahnDecides` | src/anse_harness/workflows/graph.py:136-151 | repeatedly taking the first available node succeeds exactly when some topological order exists, and gives a permutation of the nodes that respects every dependency and precedes every other such order lexicographically |
| `TaskGraphs.OrderExistsIffAcyclic` | src/anse_harness/workflows/graph.py:136-151 | with unique worker ids an order exists exactly when every dependency is declared and no dependency cycle exists |
| `TaskGraphs.StuckHasCycle` | src/anse_harness/workflows/graph.py:136-151 | a graph with declared dependencies on which the algorithm gets stuck contains a concrete dependency cycle |
| `TaskGraphs.ValidateTaskGraph` | src/anse_harness/workflows/graph.py:111-133 | passes exactly the runnable graphs (ids, dependencies, acyclicity, ownership, criteria, worker limit) and then reports, in order, each pair of nodes that own a common path, with just those paths |
| `Overlaps.ReportExact` | src/anse_harness/workflows/graph.py:111-133 | every reported overlap names a pair of workers and exactly their common paths |
| `Overlaps.OverlapReported` | src/anse_harness/workflows/graph.py:111-133 | every pair of workers that share a path is reported, and a pair that shares none is not |
| `Overlaps.SharedPathByPath` | src/anse_harness/workflows/graph.py:111-133 | what two share comes path by path in the order of the first |
| `Overlaps.ReportInOrder` | src/anse_harness/workflows/graph.py:111-133 | overlaps are reported in pair order, each pair once |
| `DiffTexts.ChangedPaths` | src/anse_harness/workflows/integration.py:156-174 | the loop over diff lines returns the paths they name, in order of first appearance |
| `DiffTexts.MentionsExact` | src/anse_harness/workflows/integration.py:156-174 | a path is listed exactly when some header line names it |
| `DiffTexts.MentionsInOrder` | src/anse_harness/workflows/integration.py:156-174 | no path is listed twice and the listing follows first mention |
| `DiffTexts.ChangedPathsExact` | src/anse_harness/workflows/integration.py:156-174 | on a rendered diff, renames and binary sections included, a path is listed exactly when some section shows it, hunk lines that look like headers included |
| `DiffTexts.ChangedPathsCoverIffReadable` | src/anse_harness/workflows/integration.py:156-174 | the listing has every path the diff touches, letter for letter, exactly when some line shows each |
| `PatchOverlaps.NamedIff` | src/anse_harness/workflows/integration.py:163-167 | apart from changed lines that look like headers, a diff names a path it touches exactly when its section has header lines, git does not quote the path, and it holds no space |
| `DiffTexts.ListedIff` | src/anse_harness/workflows/integration.py:163-167 | a file is listed, with its tab if it has one, exactly when its section has header lines and git does not quote its path, or when a changed line looks like its header |
| `Diffs.SectionsDecide` | src/anse_harness/workflows/integration.py:177-199 | a diff goes through exactly when each section fits the tree as it was, and then each file becomes what its own section makes of it and nothing else changes |
| `Diffs.ApplyExact` | src/anse_harness/workflows/integration.py:177-199 | a patch applies exactly when it is not empty, each section fits, and no file it creates is obstructed by a file left above or below it |
| `Diffs.StaysATree` | src/anse_harness/workflows/integration.py:177-199 | what a patch leaves never has one path as both a file and a directory |
| `Diffs.CreatedNeedsRoom` | src/anse_harness/workflows/integration.py:177-199 | a file in the way of a created or moved one has to be deleted or moved away by the same patch |
| `Diffs.ApplyIsLocal` | src/anse_harness/workflows/integration.py:177-199 | whether a patch applies, and what it leaves there, depends only on the paths it touches and on those above and below the files it creates |
| `Diffs.ApplyFrame` | src/anse_harness/workflows/integration.py:177-199 | applying a patch leaves every path it does not touch as it was |
| `Hunks.HunkAppliesIff` | src/anse_harness/workflows/integration.py:177-199 | one hunk applies to a text with a certain outcome exactly when the lines it keeps and removes stand where it is tied (the beginning, the end, or their first place), and there, in the outcome, stand the lines it keeps and adds, with everything around them unchanged |
| `Hunks.ChangeInContext` | src/anse_harness/workflows/integration.py:177-199 | a hunk of leading context, removed, added and trailing lines applies exactly to pre + lead + old + trail + post, tied there, and leaves pre + lead + new + trail + post |
| `Hunks.HunksApplyIff` | src/anse_harness/workflows/integration.py:177-199 | a list of hunks applies exactly when the text goes through a chain of texts in which each hunk turns one into the next |
| `Hunks.HunksInContext` | src/anse_harness/workflows/integration.py:177-199 | hunks that each find their own lines replace what they remove by what they add and keep their context and everything between them |
| `Diffs.PatchMeaning` | src/anse_harness/workflows/integration.py:177-199 | a patch turns one tree into another exactly when it is not empty, what each section says of its files before and after is true of the two trees, and no other file differs |
| `Hunks.TurnsBackIff` | src/anse_harness/workflows/integration.py:177-199 | the reverse of a hunk fits where the hunk went in exactly when the new lines tie it there |
| `Hunks.ReverseGoesAstray` | src/anse_harness/workflows/integration.py:177-199 | a hunk whose new lines also stand further up: its reverse goes there and does not restore the file |
| `Diffs.ReverseRestores` | src/anse_harness/workflows/integration.py:177-199 | a patch whose hunks can each be turned back is undone by its reverse, whatever it creates, deletes, moves or changes |
| `Diffs.DiffRestores` | src/anse_harness/workflows/integration.py:177-219 | whatever diff leads from one tree to another, with renames or without and however it is cut into hunks, applied as a patch to the one gives the other; the empty one leads nowhere |
| `Integration.StagedRestores` | src/anse_harness/workflows/integration.py:202-219 | such a diff exists for every tree: one section per changed file in any order, a modification as one hunk; it is empty exactly when nothing changed |
| `Integration.StagedReverses` | src/anse_harness/workflows/integration.py:202-219 | the staged diff read backwards, additions as removals and creations as deletions, leads from the captured tree to the base |
| `Integration.Worktree.Recover` | src/anse_harness/workflows/integration.py:269-302 | hard reset plus the captured diff, any that leads from the base to the tree before the failed patch, through the same patch application restores exactly that tree, whatever the failed attempts left behind |
| `Integration.IntegratePatches` | src/anse_harness/workflows/integration.py:269-302 | the final tree, applied and rejected workers, captured diffs, conflict records and integrated diff are those of the round; refused exactly on base-revision drift, the worktree then destroyed |
| `PatchFolds.TreeIsAppliedFold` | src/anse_harness/workflows/integration.py:269-302 | the tree is the base with exactly the applied patches folded in, in order; a rejected patch changes nothing |
| `PatchFolds.PositionsPartition` | src/anse_harness/workflows/integration.py:121-142 | applied and rejected patches keep input order and together are all patches, each decided on the tree the earlier ones left |
| `PatchFolds.RerunOfAppliedIsClean` | src/anse_harness/workflows/integration.py:121-142 | running only the applied patches again rejects nothing and gives the same tree |
| `Integration.LastStepIsIntegratedDiff` | src/anse_harness/workflows/integration.py:121-142 | the integrated diff is the capture of the last step, or empty when nothing applied |
| `PatchOverlaps.IndependentPatchFits` | src/anse_harness/workflows/integration.py:269-302 | among independent patches, none touching what matters to another, one is applied exactly when it applies to the base on its own |
| `PatchOverlaps.IndependentPatchesCommute` | src/anse_harness/workflows/integration.py:269-302 | in every order independent patches give the same tree and the same ones are applied |
| `PatchOverlaps.OrderDecidesAfterDeletion` | src/anse_harness/workflows/integration.py:269-302 | sharing no file is not enough: where one patch deletes a file and the other creates one above or below it, the order decides whether the second is rejected |
| `PatchOverlaps.DisjointIsIndependent` | src/anse_harness/workflows/integration.py:269-302 | patches that each apply to the base, share no file and do not nest their creations are independent |
| `PatchOverlaps.NestedIsRejected` | src/anse_harness/workflows/integration.py:269-302 | of patches that share no file but create one file above or below another, some one is rejected |
| `PatchOverlaps.DetectOverlaps` | src/anse_harness/workflows/integration.py:251-266 | reports every pair of patches with common named paths, classified by the policy; the report is empty exactly when there is no such pair |
| `PatchOverlaps.EmptyReportIff` | src/anse_harness/workflows/integration.py:251-266 | nothing is reported exactly when no two patches share a named path |
| `PatchOverlaps.VisibleMeansDisjoint` | src/anse_harness/workflows/integration.py:251-266 | two visible patches that apply to one tree and share no listed path touch no common file |
| `PatchOverlaps.VisibleIffSound` | src/anse_harness/workflows/integration.py:251-266 | for a patch that applies, an empty report proves that no file is shared, whatever visible patch it runs beside, exactly when it is visible itself |
| `PatchOverlaps.HiddenCompanion` | src/anse_harness/workflows/integration.py:251-266 | for every hidden path there is a visible patch that touches a common file unreported, and it is rejected after the first whenever that one changes the file at all |
| `PatchOverlaps.DetectorPredictsIff` | src/anse_harness/workflows/integration.py:251-302 | when visible patches apply on their own and nothing is reported, an order rejects none of them exactly when no two create files one above the other, and then all orders give one tree |
| `PatchOverlaps.NestedCreationsAreUnreported` | src/anse_harness/workflows/integration.py:251-302 | creating any two files one above the other, as foo and foo/bar: nothing reported, each applies on its own, the second is rejected in either order |
| `PatchOverlaps.EmptyFilesEscapeDetection` | src/anse_harness/workflows/integration.py:156-174 | two patches that create the same empty file are not reported, apply on their own, and yet the second is rejected |
| `PatchOverlaps.RenamesEscapeDetection` | src/anse_harness/workflows/integration.py:156-174 | two patches that move the same file unchanged to two places are not reported, apply on their own, and yet the second is rejected |
| `PatchOverlaps.ProhibitedIff` | src/anse_harness/workflows/integration.py:222-234 | an overlap is classified as prohibited exactly when both diffs name some protected path letter for letter |
| `PatchOverlaps.SafeIff` | src/anse_harness/workflows/integration.py:222-234 | an overlap is safe exactly when every path that both diffs name ends in a safe suffix and is not protected; what is neither safe nor prohibited asks for a review |
| `PatchOverlaps.ProtectionHoldsIff` | src/anse_harness/workflows/integration.py:222-234 | of two patches that touch the one protected path the overlap is prohibited exactly when both have header lines for it, git does not quote it, and it holds no space, changed lines that look like its header and a path it equals but for a tab aside |
| `PatchOverlaps.SpacedPathIsNotProtected` | src/anse_harness/workflows/integration.py:222-266 | two patches change the protected file "a b": each applies on its own, they are reported, and every report only asks for a review |
| `NoProgress.DetectNoProgressWindow` | src/anse_harness/reliability/policy.py:171-196 | the backward scan as a loop equals its specification |
| `NoProgress.DetectWindowExact` | src/anse_harness/reliability/policy.py:171-196 | iteration j is named exactly when it is the latest earlier one equal to the newest and at most `window` back, as identical if it is the one just before, as oscillating if others lie between |
| `NoProgress.WindowOneIsConsecutiveTest` | src/anse_harness/budgets/policy.py:66-78 | a window of one is the consecutive-repeat test |
| `NoProgress.FiresExactlyOnCloseRepeat` | src/anse_harness/reliability/policy.py:171-196 | run after every iteration, the detector has fired exactly when two equal snapshots at most `window` apart were seen |
| `NoProgress.FewSnapshotsFire` | src/anse_harness/reliability/policy.py:171-196 | a loop over at most `window` distinct snapshots is stopped by iteration window + 1 |
| `NoProgress.CycleWithinWindowFires` | src/anse_harness/reliability/policy.py:171-196 | a deterministic loop with tail m and period p within the window is first stopped at iteration m + p + 1, naming m + 1, as identical for p = 1 and as oscillating otherwise |
| `NoProgress.CycleBeyondWindowNeverFires` | src/anse_harness/reliability/policy.py:171-196 | a deterministic loop whose period exceeds the window is never stopped |
| `Orchestrator.MultiWorkerOrchestrator.Run` | src/anse_harness/workflows/orchestrator.py:386-405 | drives the workflow through the stages its reports lead to, to a terminal stage or a refused transition, within the transition bound |
| `Orchestrator.MultiWorkerOrchestrator.Cancel` | src/anse_harness/workflows/orchestrator.py:407-414 | cancels from every stage that is not over and is refused otherwise |
| `Orchestrator.ConsolidationDecides` | src/anse_harness/budgets/policy.py:81-101 | a consolidation leads to Fix exactly when nothing conflicts, findings were accepted, rounds, cost and workers are below each limit that is set and the snapshot is a new one; to PrepareResult exactly when nothing was accepted and nothing conflicts; to Escalated in the rest, with the first limit reached as the reason |
| `Orchestrator.RunDecides` | src/anse_harness/budgets/policy.py:81-101 | the same over every run, from what the run has shown: reviews begun, costs and workers reported, and what the last consolidation saw |
| `Orchestrator.RefusedIff` | src/anse_harness/workflows/orchestrator.py:113-143 | a step is refused exactly when the workflow is over, fails at intake or consolidation, or escalates at intake, validation or the result |
| `Orchestrator.StepExact` | src/anse_harness/workflows/orchestrator.py:113-143 | an allowed step goes one further on the happy path, back from a fix to validation, or to the terminal its ending names, and adds to rounds, costs and workers |
| `Orchestrator.RunIsBounded` | src/anse_harness/workflows/orchestrator.py:113-143 | every run takes at most 4 max(1, max_review_iterations) + 3 transitions although the table has a loop |
| `Orchestrator.BoundIsReached` | src/anse_harness/budgets/policy.py:81-101 | no smaller bound holds: without cost and worker limits some run takes exactly that many and completes |
| `Orchestrator.CompletionIsReviewed` | src/anse_harness/workflows/orchestrator.py:386-405 | a completed run ended Validate, Review, Consolidate, PrepareResult, and that consolidation accepted nothing |
| `Orchestrator.CompletionFollowsCleanReview` | src/anse_harness/workflows/orchestrator.py:113-143 | between any Fix and Completed lie a Validate, then a Review, then a Consolidate without findings |
| `FanIn.FanOut` | src/anse_harness/workflows/orchestrator.py:386-405 | whichever enabled step the scheduler takes, the log is that of the sequential graph-order run |
| `FanIn.FanInIsGraphOrdered` | src/anse_harness/workflows/orchestrator.py:21-28 | at every moment of every schedule the bound holds and what was recorded is a prefix of the graph-order run |
| `FanIn.SchedulesAreConfluent` | src/anse_harness/workflows/orchestrator.py:21-28 | any two complete schedules, under any bounds, leave the same log |
| `FanIn.NeverStuck` | src/anse_harness/workflows/orchestrator.py:386-405 | with room for one worker some step is always enabled until everything is recorded |
| `FanIn.BoundOneRunsInOrder` | src/anse_harness/workflows/orchestrator.py:386-405 | with a bound of one each worker starts only after all earlier ones finished |
| `FanIn.LedgerIsGraphOrdered` | src/anse_harness/workflows/orchestrator.py:289-322 | entry k of the invocations and patches is worker k's, its events have the ids that follow those of the workers before it, and the cost is the sum |
| `Payloads.MessagesToPayload` | src/anse_harness/models/types.py:127-137 | the loop builds the payload of every message, in order |
| `Payloads.MessagesRoundTrip` | src/anse_harness/models/types.py:127-150 | decoding an encoded message list gives the list |
| `Payloads.MessagesPayloadInjective` | src/anse_harness/models/types.py:127-137 | different message lists have different payloads |
| `Payloads.ResponseRoundTrip` | src/anse_harness/models/types.py:163-189 | decoding an encoded response gives the response |
| `Traces.PairInteractions` | src/anse_harness/models/replay.py:38-57 | the two loops pair every response event with its request, or fail when one cannot be paired |
| `Traces.PairingExact` | src/anse_harness/models/replay.py:38-57 | pairing fails exactly when some response has no request under its parent id or one of the two cannot be read; otherwise it finds one interaction for every response, in order, with the last request of that id |
| `Conversations.TracePairsToAnswered` | docs/trace-events.md:46-64 | pairing a recorded trace recovers exactly the answered calls, in order, whatever other events surround them |
| `Conversations.TraceCensus` | docs/trace-events.md:46-64 | a trace holds one request a call and one response a call that did not raise |
| `Adapters.ScriptedAdapter.Complete` | src/anse_harness/models/scripted.py:71-86 | one call of the script; a refusal leaves the position where it was |
| `Adapters.ScriptAnswers` | src/anse_harness/models/scripted.py:71-86 | a script answers with its next step exactly when there is one and the last message holds the text it expects; mismatch and exhaustion are told apart and move nothing |
| `Adapters.ReplayAdapter.Complete` | src/anse_harness/models/replay.py:69-84 | one call of the replay; a mismatch or exhaustion leaves the position where it was |
| `Adapters.FailureInjectionAdapter.Complete` | src/anse_harness/reliability/injection.py:138-150 | counts the call, fails the configured one without touching the inner adapter, and otherwise passes through |
| `Replays.ReplayFollowsRecording` | src/anse_harness/models/replay.py:69-84 | a client wired to a replay of its own run asks and hears the same as it did of the script, call by call |
| `Replays.RecordedRunReplays` | src/anse_harness/models/replay.py:38-84 | the trace of any scripted run, with or without an injected failure, replays to the same client as the identical conversation and is then exhausted |
| `Replays.ScriptedRunReplays` | src/anse_harness/models/replay.py:38-84 | the same for the bare adapters when the script answered every call |
| `Payloads.PayloadsCompareEqualIff` | src/anse_harness/models/replay.py:75-76 | message payloads compare equal exactly when the messages agree up to true and one, false and zero, among the arguments of tool calls |
| `Replays.DepartureIsCaughtAtItsCall` | src/anse_harness/models/replay.py:69-84 | a client that asked as recorded up to call i is served there exactly when its messages compare equal to the recorded ones, and otherwise gets a mismatch at call i with the position unchanged |
| `Replays.UncomparedDepartureIsServed` | src/anse_harness/models/replay.py:69-84 | a request that departs only in tools, schema, token limit, or a true for a one, is served the recorded reply |
| `Replays.ReplayServesInOrder` | src/anse_harness/models/replay.py:69-84 | whatever a client asks, what a replay has served is the recording up to its position, in order and under messages that compare equal to the recorded |
| `Dialogues.InjectionDeletesOneCall` | src/anse_harness/reliability/injection.py:138-150 | around any inner adapter: it sees every request but the injected call's, and the caller gets its replies unchanged around the failure |
| `Dialogues.NoSpecIsTransparent` | src/anse_harness/reliability/injection.py:138-150 | without a specification the wrapper changes nothing |
| `Dialogues.RunUpToInjection` | src/anse_harness/reliability/injection.py:138-150 | a run up to the injected call is the unwrapped run followed by the failure |
| `Replays.InjectedTraceNeedsItsSpec` | tests/runtime/test_replay_conformance_reliability.py:219-236 | a trace recorded up to a failure at call k has k requests and k - 1 responses, replays identically with its specification, and without it is exhausted at exactly call k |
| `StageTraces.StageTraceWriter.Write` | src/anse_harness/workflows/engine.py:263-271 | appends the event with its own and its parent id under the stage's namespace |
| `StageTraces.Recorder.Emit` | src/anse_harness/workflows/engine.py:286-310 | gives out the next id, written or not, and writes the event when there is a trace |
| `StageTraces.StagesApartIff` | src/anse_harness/workflows/engine.py:249-274 | two stages can collide in the file exactly when one run id followed by a colon begins the other |
| `StageTraces.ColonFreeRunsAreApart` | src/anse_harness/workflows/engine.py:249-274 | distinct run ids without a colon never collide, whatever ids their events have |
| `StageTraces.ColonFreeRunsAreSeparated` | src/anse_harness/workflows/engine.py:249-274 | run ids without a colon meet the condition that the statements about the shared file need |
| `StageTraces.PrefixedRunsMixRequests` | src/anse_harness/workflows/engine.py:249-274 | runs r and r:x: an id of each is one id in the file, and the request of the one is replaced there by the other's |
| `StageTraces.FileIdsAreUniqueIff` | src/anse_harness/workflows/engine.py:249-274 | all ids of the merged file are unique exactly when each writer's own are |
| `StageTraces.EngineIsApart` | src/anse_harness/workflows/engine.py:295 | the engine's colon-free ids collide with no stage's |
| `StageTraces.EngineIdsAreDistinct` | src/anse_harness/workflows/engine.py:295 | recorder ids stay distinct for every sequence number, past four digits too |
| `StageTraces.FilePairsByStage` | src/anse_harness/workflows/engine.py:249-274 | under any interleaving the file's pairing restricted to a stage is the stage's own pairing |
| `StageTraces.FilePairsIffStagesDo` | src/anse_harness/workflows/engine.py:249-274 | the shared file pairs exactly when every stage's own trace does |
| `StageTraces.SequentialStagesConcatenate` | src/anse_harness/workflows/engine.py:249-274 | stages that write one after another pair to the concatenation of their own pairings |
| `EngineRuns.WorkflowEngine.Run` | src/anse_harness/workflows/engine.py:404-425 | gives each stage the results it reads, walks the table to a terminal stage or past the named one, and at every boundary persists the kept results and a snapshot that refers to them; refused when the workflow is over |
| `EngineRuns.WorkflowEngine.Cancel` | src/anse_harness/workflows/engine.py:427-439 | cancels from every stage that is not over, with a final snapshot, and is refused otherwise |
| `EngineRuns.Resume` | src/anse_harness/workflows/engine.py:371-402 | an engine with the task, revision, stage and reloaded results of the latest snapshot, the resume recorded; or the error of the first check that fails: unknown, schema version, over, other task, moved revision, missing artifact |
| `EngineRuns.ResumeAnswersComplaints` | src/anse_harness/workflows/engine.py:387-402 | the checks of resume: without a snapshot the workflow is unknown, otherwise the first complaint that the newest snapshot gives reason for is the error, and without one there is none |
| `EngineRuns.ResumeIsExactIff` | src/anse_harness/workflows/engine.py:365-425 | whatever the stages do, and wherever and however often a run is stopped, the resumed runs give every stage what the uninterrupted one would, lead to the same stages and persist the same, if and only if every result that an earlier stage produces and a later one reads is persisted |
| `EngineRuns.LostResultIsMissed` | src/anse_harness/workflows/engine.py:365-368 | a result that is produced, read later and not persisted: stopped right after its stage, the resumed run gives the reader less |
| `EngineRuns.EveryResultMustBeKept` | src/anse_harness/workflows/engine.py:365-368 | the feature-task stages resume exactly if and only if investigation answer, plan and write result are all persisted |
| `EngineRuns.StoppedRunIsAccepted` | src/anse_harness/workflows/engine.py:387-394 | a stopped run that is not over passes all the checks, and the engine built holds exactly the persisted results |
| `EngineRuns.DriveWalksTheTable` | src/anse_harness/workflows/engine.py:404-425 | every run is a path of the table, each boundary crossed at the stage the path is at, and without an error it ends at a terminal stage |
| `EngineRuns.StagesGetTheLatest` | src/anse_harness/workflows/engine.py:404-425 | at every boundary of every run the stage was given each of its inputs as it was last produced, went where it said, and the store holds the last of everything persisted; a run fails only on a transition that the table does not have |
| `EngineRuns.StopsWhereTold` | src/anse_harness/workflows/engine.py:404-411 | a run stops right after the boundary it is told to, and without an error nowhere else before it is over |
| `Engine.CompletedRunsPassEveryStage` | src/anse_harness/workflows/engine.py:107-119 | the table is loop-free; a run that completes passed every stage, approval and validation included, once and in order |
| `Engine.WhoMayStop` | src/anse_harness/workflows/engine.py:107-119 | cancellation is allowed from every stage that is not over, escalation exactly from Investigate, Plan and Implement |
| `Engine.TableExact` | src/anse_harness/workflows/engine.py:107-119 | the whole table: a stage that is not over goes one rank on or is cancelled, only the model-driven ones escalate, and intake and approval cannot fail |
| `Failures.RuleDecidesIff` | src/anse_harness/reliability/classify.py:96-110 | for any rules: some reason is decided by rule j exactly when no earlier rule's substring occurs in rule j's |
| `Failures.FirstTypeClassifies` | src/anse_harness/reliability/classify.py:152-183 | of the exception types in the documented order the first that matches decides class, boundary and retryability, and the text is kept |
| `Failures.FirstRuleClassifies` | src/anse_harness/reliability/classify.py:186-203 | the first rule whose substring the reason holds decides class and boundary, none leaves it unknown, and only a failed, escalated or cancelled workflow with a reason is classified |
| `Failures.EveryOutcomeRuleDecides` | src/anse_harness/reliability/classify.py:99-110 | every one of the ten rules decides some reason |
| `Failures.ConflictMustComeLater` | src/anse_harness/reliability/classify.py:96-110 | with "conflict" ahead of "conflicting findings" no reason would ever be decided by the latter |
| `Failures.HandledFailuresAreNotRetryable` | src/anse_harness/reliability/classify.py:186-203 | what the engine handled is never offered a same-input retry and keeps its whole reason |
| `RetryPolicy.RetriedIff` | src/anse_harness/reliability/policy.py:134-169 | a failure is retried exactly when its class has a rule with attempts left that is no escalation and, on the same input, could succeed; a denial only after an approval changed, whatever the table |
| `RetryPolicy.FirstCheckDecides` | src/anse_harness/reliability/policy.py:134-169 | the first of the ordered checks that applies gives the reason; a retry is of the next attempt in the mode of the table, or on the same input after a changed approval, and anything else escalates to a human |
| `RetryPolicy.DefaultCrashAttempts` | src/anse_harness/reliability/policy.py:61-77 | how many attempts classification and default table together give each kind of exception |
| `Recovery.CircuitBreaker.RecordFailure` | src/anse_harness/reliability/breaker.py:37-41 | counts at one boundary and opens no other circuit |
| `Recovery.CircuitBreaker.RecordSuccess` | src/anse_harness/reliability/breaker.py:43-47 | closes the circuit of its boundary |
| `Recovery.ObservedCost` | src/anse_harness/reliability/controller.py:66-77 | the sum of the costs in a trace |
| `Recovery.ReliabilityController.Run` | src/anse_harness/reliability/controller.py:300-360 | the attempt loop over breaker, store and trace ends as the specified run does and leaves its state, counts, decisions, events and report |
| `Recovery.FailureTakesRoom` | src/anse_harness/reliability/breaker.py:23-54 | each failure that leaves its circuit closed uses up one of the failures the seven boundaries can take |
| `RecoveryRuns.AttemptsAreBounded` | src/anse_harness/reliability/controller.py:300-360 | every run ends within max(1, largest max_attempts) attempts and within 7 (t - 1) + 1 for a breaker of threshold t, however it stood at the start |
| `RecoveryRuns.BreakerBoundIsReached` | src/anse_harness/reliability/breaker.py:23-54 | no smaller bound holds: from closed circuits some run takes exactly 7 (t - 1) + 1 attempts |
| `RecoveryRuns.RunKeepsItsBooks` | src/anse_harness/reliability/controller.py:300-360 | all decisions but possibly the last are retries, a run the controller stops ends in exactly one escalation, retry_count grows by the attempts after the first, and each classified crash leaves one failure event |
| `RecoveryRuns.EveryRetryIsAnnounced` | src/anse_harness/reliability/controller.py:300-360 | the trace announces every retry once, in order and with its decision, and nothing else |
| `RecoveryRuns.BreakerOpensOnTime` | src/anse_harness/reliability/breaker.py:49-54 | a breaker closed at the start stops a run exactly at its threshold |
| `RecoveryTraces.ResultClosesTheCircuit` | src/anse_harness/reliability/controller.py:300-360 | after every run the count at each boundary is the initial one plus the failures of the run there, but for a result, which sets the boundary of the last failure (the model when nothing failed) to zero |
| `RecoveryTraces.DecisionsFollowThePolicy` | src/anse_harness/reliability/controller.py:300-360 | every decision is the policy's on its own attempt, turned into an escalation exactly when it would retry and the failures at that boundary have reached the threshold; it carries the attempt's cost when that is traced |
| `RecoveryTraces.TraceTellsTheRun` | src/anse_harness/reliability/controller.py:300-360 | the events of a run are, failure by failure, both artifacts, the checkpoint and the retry, and then its end: the hand-off, or one artifact and no decision for a terminal that the engine handled |
| `RecoveryTraces.StateTellsTheRun` | src/anse_harness/reliability/controller.py:300-360 | each failure is recorded at the stage its attempt had got to and as what its exception is; the final stage, the escalated flag and how the last attempt ended are those of the attempts |
| `RecoveryTraces.LeftWhereStagesLed` | src/anse_harness/workflows/engine.py:404-425 | an attempt leaves the workflow where its last finished stage led, with the status and reason that go with it |
| `WorkerAttempts.RunWorkerAttempts` | src/anse_harness/reliability/controller.py:416-445 | the tries of one worker end as specified and leave the breaker's counts |
| `WorkerAttempts.EveryTryHasItsOwnNumber` | src/anse_harness/reliability/controller.py:416-445 | tries are numbered upwards from the start and end at the first that is not to be retried, with its result or its own exception, within the bounds of the table and of the breaker; a try is retried exactly when the policy says so and its boundary is below the threshold, a success hands over the policy's decisions, and the breaker counts every failure |
| `RecoveryRuns.EscalationNeedsAModelDrivenStage` | src/anse_harness/reliability/controller.py:363-413 | a stopped run reaches the escalated terminal, with its report, exactly when the last failure happened in Investigate, Plan or Implement; elsewhere the transition is refused and nothing is reported |
| `RecoveryRuns.CrashAtIntakeCannotEscalate` | src/anse_harness/reliability/controller.py:380-381 | an unknown error at intake ends in a refused transition, not in the documented hand-off |
| `RecoveryRuns.DisciplineErrorsStayLoud` | src/anse_harness/reliability/controller.py:300-360 | a replay or script error escapes with nothing classified, decided or counted |
| `RecoveryRuns.TraceSplits` | src/anse_harness/reliability/controller.py:20-24 | an attempt's trace holds what its completed stages folded into the budgets and what its unfinished stage spent |
| `RecoveryRuns.UnaccountedIsUnfinished` | src/anse_harness/reliability/controller.py:348-355 | the reported unaccounted cost is the spending of stages that never completed, each once, exactly when the budgets were empty at the start, and then it is not negative |
| `RecoveryRuns.EarlierSpendingIsSubtracted` | src/anse_harness/reliability/controller.py:348-355 | a workflow that had spent before: the report of its very first crash is short of what that attempt spent |
| `Consolidation.ConsolidationIsAPartition` | src/anse_harness/review/consolidation.py:67-87 | every finding comes out in exactly one group, stamped and otherwise unchanged, each group in report order |
| `Consolidation.DuplicateOfAccepted` | src/anse_harness/review/consolidation.py:67-87 | every duplicate has an earlier accepted finding with its key and action |
| `Consolidation.AcceptedKeysAreUnique` | src/anse_harness/review/consolidation.py:67-87 | accepted keys are unique and disjoint from the conflicting ones |
| `Consolidation.ConsolidationIsIdempotent` | src/anse_harness/review/consolidation.py:67-87 | consolidating the accepted findings again returns them unchanged and nothing else |
| `Consolidation.ConsolidatesAsPromised` | src/anse_harness/review/consolidation.py:67-87 | each group holds, stamped and in report order, exactly: no evidence, rejected; another backed finding with the key recommends another action, conflicting; otherwise the first backed one with its key accepted and the later ones duplicates |
| `Consolidation.AgreedKeyIsAcceptedOnce` | src/anse_harness/review/consolidation.py:67-87 | where the backed findings with one key all recommend one action the first in report order is accepted and every other one is a duplicate |
| `Consolidation.AcceptedKeysAreAgreedKeys` | src/anse_harness/review/consolidation.py:67-87 | a key is accepted exactly when some backed finding has it and the backed findings with it recommend one action |
| `Consolidation.OrderDoesNotMatter` | src/anse_harness/review/consolidation.py:67-87 | the same findings in another order give the same accepted keys and the same rejected and conflicting findings |
| `ProviderTurns.SplitMessages` | src/anse_harness/models/live_anthropic.py:41-70 | the wire holds one entry for each turn |
| `ProviderTurns.ToContents` | src/anse_harness/models/live_gemini.py:41-72 | the contents hold one entry for each of the same turns, each response under the name of its call |
| `ProviderTurns.ContentsReadBack` | src/anse_harness/models/live_gemini.py:41-72 | the contents read back as every message but the system's, in order, with text, calls without ids, and tool results under their names |
| `ProviderTurns.SystemTextOfBoth` | src/anse_harness/models/live_gemini.py:41-72 | the system text of a conversation cut anywhere is that of both parts with a blank line between |
| `ProviderTurns.TurnsAreMaximal` | src/anse_harness/models/live_anthropic.py:41-70 | the turns hold every message but the system's, in order, and never split a run of tool results |
| `ProviderTurns.MaximalTurnsAreUnique` | src/anse_harness/models/live_gemini.py:41-72 | there is only one such grouping |
| `ProviderTurns.LatestNameIsLatest` | src/anse_harness/models/live_gemini.py:41-72 | the name comes from the latest earlier message that called with the id; "tool" when there is none |
| `ProviderTurns.NameAmongIsLast` | src/anse_harness/models/live_gemini.py:41-72 | within one message the last call with the id gives the name |
| `ProviderTurns.WireReadsBackIff` | src/anse_harness/models/live_anthropic.py:41-70 | the wire gives back the messages that are not the system's exactly when only tool results carry a call id |
| `ProviderTurns.OtherCallIdsAreLost` | src/anse_harness/models/live_anthropic.py:41-70 | a message with a call id that is no tool result has the same wire entry as without it |
| `WorkflowStates.StateRoundTrip` | src/anse_harness/workflows/state.py:190-325 | a state of schema version "1" reads back exactly; any other is refused for its version |
| `StateStore.WorkflowStateStore.Versions` | src/anse_harness/state/store.py:78-84 | exactly the versions with a snapshot file, ascending |
| `StateStore.WorkflowStateStore.Save` | src/anse_harness/state/store.py:91-103 | writes one new file under the next version, which cannot exist yet, and extends the history of saves |
| `StateStore.WorkflowStateStore.LoadLatest` | src/anse_harness/state/store.py:118-123 | loads the highest version, missing exactly when there is none |
| `StateStore.WorkflowStateStore.SaveArtifact` | src/anse_harness/state/store.py:125-130 | an artifact replaces an earlier one of its identifier and nothing else |
| `StateStore.WorkflowStateStore.LoadArtifact` | src/anse_harness/state/store.py:136-141 | an artifact loads as last saved, missing exactly when it was never saved |
| `StateStore.LatestIsTheLastSave` | src/anse_harness/state/store.py:118-123 | the highest version is the last save of the workflow |
| `StateStore.VersionsOfHistory` | src/anse_harness/state/store.py:78-103 | after any saves the versions of a workflow are exactly 1 to the number of its saves |
| `StateStore.SaveExtends` | src/anse_harness/state/store.py:91-103 | a save appends to its own workflow and leaves every other alone |
| `StateStore.LoadReturnsTheSave` | src/anse_harness/state/store.py:105-116 | version k loads as the k-th save of its workflow, whatever was saved since; other versions are missing, other schema versions refused |
| `StateStore.HistoryOnlyGrows` | src/anse_harness/state/store.py:91-103 | later saves never displace earlier ones |
| `StateStore.WorkflowStateStore.CorruptLatestSnapshot` | src/anse_harness/reliability/injection.py:161-178 | rewrites the snapshot file whose name sorts last, and only its schema version |
| `SnapshotNames.SnapshotNameIff` | src/anse_harness/state/store.py:39-40 | a snapshot file is one named by four or more digits, which say its version |
| `SnapshotNames.NewestSortsLastIff` | src/anse_harness/state/store.py:39-40 | name order finds the newest of versions 1 to n exactly for n up to 9999 and, beyond, while every digit but the last is a nine; it fails first at 10000 |
| `StateStore.TamperingIsNoticedIff` | src/anse_harness/reliability/injection.py:161-178 | tampering makes the latest snapshot unreadable exactly while name order finds the newest version and the version written is not the current one; otherwise the latest still loads |
| `StateStore.CurrentVersionGoesUnnoticed` | src/anse_harness/reliability/injection.py:161-178 | written with the current version, the tampering is not noticed at any number of snapshots |
| `GitHub.LocalGitHubDouble.Send` | src/anse_harness/integrations/local_double.py:72-116 | records the request, then times out, serves, deduplicates or refuses it |
| `GitHub.SendKeepsNumbers` | src/anse_harness/integrations/local_double.py:95-116 | whatever is sent, numbers run 101, 102, ... with one per key and every stored pull request is a draft |
| `GitHub.CreateAnswers` | src/anse_harness/integrations/local_double.py:95-116 | a key seen before returns its number, a new draft the next one, a new non-draft a permanent refusal |
| `GitHub.GitHubAdapter.PrepareDraftPr` | src/anse_harness/integrations/github.py:153-188 | one create through gate, cancellation, transport and audit; the gate is asked with action, risk, diff and validation status |
| `GitHub.GitHubAdapter.ReadThrough` | src/anse_harness/integrations/github.py:133-151 | the two reads go through the transport and the trace without asking for approval |
| `GitHub.RunIsNumbered` | src/anse_harness/integrations/github.py:153-188 | after any run of the adapter the numbers are 101, 102, ... in order of creation, one per distinct key |
| `GitHub.OneNumberPerKey` | src/anse_harness/integrations/github.py:153-188 | two answered creates have the same number exactly when they have the same key |
| `GitHub.EverySendWasApproved` | src/anse_harness/integrations/github.py:153-188 | the creates that reached the transport are, in order, exactly those whose own request was approved and not cancelled |
| `GitHub.EveryRequestIsVouched` | src/anse_harness/integrations/github.py:153-188 | in any run each create in the trace directly follows the APPROVED resolution of its own key, and the gate logged that answer to the approval request of such a create |
| `GitHub.TraceShowsEverySend` | src/anse_harness/integrations/github.py:153-188 | the creates in the trace are, in order, those the transport received |
| `GitHub.EveryCreateIsAuditedOnce` | src/anse_harness/integrations/contracts.py:103-122 | every create call leaves exactly one audit record, in order, and what it says follows from the calls alone: rejected, cancelled, failed on a timeout, completed for the first of its key, deduplicated for a later one; reads leave none |
| `GitHub.StoredIsTheFirst` | src/anse_harness/integrations/local_double.py:95-116 | what is stored for a key stays the open draft of the first call that created it, with that call's title |
| `Checkpoints.LoadCheckpoints` | coursectl/internal/course/checkpoints.go:40-60 | the modules, or the error of the first check that fails, with the first key in map order that lacks a field |
| `Checkpoints.LoadRefusesTheFirst` | coursectl/internal/course/checkpoints.go:40-60 | the load refuses an empty map and otherwise the first module in the order without repository or revision |
| `Checkpoints.AtoiExact` | coursectl/internal/course/checkpoints.go:85-97 | a key is a number exactly when it is digits behind at most one sign and fits 64 bits |
| `Checkpoints.TargetRepos` | coursectl/internal/course/checkpoints.go:78-102 | the chosen checkpoints in strictly ascending order of repository, or the error of the first check that fails and its key |
| `Checkpoints.ScanPicksLowest` | coursectl/internal/course/checkpoints.go:85-97 | for every repository referenced the checkpoint of a lowest-numbered key is chosen |
| `Checkpoints.ScanKeepsTheFirst` | coursectl/internal/course/checkpoints.go:85-97 | of the keys of a repository that share its lowest number the one met first is kept |
| `Checkpoints.SortCheckpoints` | coursectl/internal/course/checkpoints.go:104-111 | the insertion sort in place leaves a sorted permutation |
| `Checkpoints.ListsAgreeIff` | coursectl/internal/course/checkpoints.go:98-101 | the sorted list is determined by what was chosen, and determines it |
| `Checkpoints.TargetReposIsDeterminedIff` | coursectl/internal/course/checkpoints.go:78-102 | the returned list or error, key included, is the same for all map iteration orders exactly when no failing check has two keys to report and, none failing, all keys of a repository that parse to its lowest number carry one checkpoint |
| `Checkpoints.NoTiesAgree` | coursectl/internal/course/checkpoints.go:85-97 | the lowest keys agree when no two keys of a repository are the same number |
| `Checkpoints.PlainKeysNeverTie` | coursectl/internal/course/checkpoints.go:85-97 | keys written as plain decimal numerals are never the same number twice |
| `Checkpoints.TiesDiffer` | coursectl/internal/course/checkpoints.go:85-97 | with keys "1" and "01" for one repository no check fails and yet the result depends on the order |

## Left out

- Git itself, subprocesses, the file system, sockets and clocks: a working tree is a map from
  path to lines in which no file is also a directory, a store a map from file to document, a
  transport a state.
- Paths are any strings that are not empty and do not begin with a slash; what else git and
  the file system refuse (`.`, `..`, empty components, case folding, links) is not modelled.
- Diff syntax beyond the headers and hunks that `changed_paths` reads: line numbers of hunks,
  the escapes inside quoted paths, exotic line separators, the missing newline at the end of a
  file; copies, links, submodules, and diffs with one path in two sections.
- Whether git has the content of a binary file at hand: a binary section applies when the
  content before it matches.
- What a failed `git apply`, plain or `--3way`, leaves in the tree: any tree at all, since the
  rollback discards it.
- Provider calls of the live adapters; capability and cost metadata.
- Hashing: patch fingerprints are compared as given and idempotency keys are an arbitrary
  function of their inputs.
- Prompts, context packets, repository search, tools, command rules, security tables,
  evaluation, configuration files and the command line.
- Texts of errors and reasons; where a program matches on a reason its text is kept.
- Conversions that decoders apply to values of another kind (a number read as text, say),
  apart from the schema version; JSON text itself, redaction and timestamps.
- Floating-point numbers: costs and JSON numbers are integers, and rounding is not modelled.
- The contents of the resume record beyond the snapshot it continues from.
- The contents of the escalation request and the collection of surviving artifacts.
- The parsers of review answers (`findings_from_text`, `conclusion_from_text`).
- Payloads of graphs, integration results, plans and audit records.
- The text of a pull request's body.
- Recovery.ReliabilityController.Run: does not model a store that cannot be read back, because
  what the controller then does is not stated; snapshots are seen as the latest one only.
- EngineRuns.WorkflowEngine.Run: does not model what a stage computes or spends, which is a
  parameter, nor artifacts that no stage reads back.
- Integration.IntegratePatches: does not model the error text of a conflict record; captures
  modifications as one hunk over the whole file, where git cuts several with context.
- Hunks.HunkAppliesIff: does not model line numbers, by which git prefers one of several places
  where a hunk matches; nor does Diffs.ApplyExact.
- GitHub.EveryRequestIsVouched: does not model the reason and the affected paths of an approval
  request, because what they hold is not stated.
- Orchestrator.MultiWorkerOrchestrator.Run: does not model artifacts, checkpoints and the
  integration inside a stage, only where stages lead and what the loop policy counts.
- TaskGraphs.OrderExistsIffAcyclic: does not cover duplicate worker ids, because validation
  refuses them; TaskGraphs.KahnDecides holds for them too.
- FanIn.FanOut: does not cover a concurrency bound below one, under which no worker may start;
  it does not fix when a finished worker is recorded, as soon as its turn comes or
  at the end, because the results are the same.
- GitHub.EveryCreateIsAuditedOnce: does not model the trace when no writer is configured.
