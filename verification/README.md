# AutoScholar, verified

AutoScholar is a durable research-agent service. This project models its state
machines and checked algorithms in Dafny and proves what they promise over
every input, every run and every point of failure. `dafny verify dfyconfig.toml`
checks everything.

## What is modelled

| files | component |
|---|---|
| `Budgets`, `BudgetRuns`, `BudgetLaws` | request budgets, the operation journal, the language-model wrapper that charges one to the other, other external operations, runs of all of these, and exactly how each ends and what it costs |
| `Texts`, `Paths`, `Workspaces`, `WorkspaceLaws` | substring search and newline decoding, relative paths, the coding workspace with its quotas and previews, and exactly which operations it accepts |
| `CodingAgents`, `CodingRuns`, `CodingLaws`, `CodingNodes` | the author, tool, validate, finalize graph: the pure transitions, what holds over runs, exactly when each node goes where, and the nodes over real budget, journal and workspace objects |
| `EventPages`, `EventDelivery`, `EventSafety`, `EventProgress`, `EventLaws`, `EventProjection` | event paging, the server stream, the client's frame automaton, the viewer, every interleaving of them, how runs without faults show a finished log to its end, and when a viewer gives up |
| `ServerSentEvents`, `ServerSentEventLaws` | the printer and the incremental parser of the event stream, and its reading of every text |
| `Governance`, `GovernanceOutcomes`, `GovernedRequests`, `GovernanceLaws`, `GovernanceCases` | admission, audit, body, dispatch, reply and release of one HTTP request: its effects, what becomes of it under every choice of the environment, the methods, the laws, and the cases by request and by failure |
| `Holm`, `SignFlip`, `DocumentBlocks` | the statistics of the ablation audit |
| `Archives`, `ArchiveLaws` | backup inventory, extraction and packing |
| `SecurityGate`, `DockerLogs` | the npm advisory walk, image waivers, container log demultiplexing |
| `ComputeLoops`, `Metering`, `EvidenceSelection`, `ResearchReports`, `ResearchLaws` | the compute graph, usage accounting, evidence selection and report validation |

A protocol is a function from a state and one environment choice to the next
state; a run is a sequence of such choices, and the theorems quantify over all
of them. Objects that the source updates in place are classes whose methods are
proved equal to those functions, or whose contracts state the promise outright.
The functions in turn are pinned by lemmas that do not name them in what they
promise: exactly when each outcome occurs, in terms of the inputs.
Where an awaited call of a modelled step can fail, its outcome is a choice of the
environment; the awaits that are not modelled are listed under "Left out".

## What the proofs found

- A model request whose start is refused by the audit sink or the journal has
  already been charged, and nothing refunds it (`BudgetRuns.RefusedStartIsCharged`).
  The model-call counter is the plain count of sent requests exactly when no
  request of the run meets the guard of that refusal
  (`BudgetRuns.CounterIsExactUnlessRefused`).
- The saved usage can exceed the usage in memory, by one model call: when a
  request is proved unsent and the journal cannot record it
  (`BudgetRuns.LostWithdrawalOverstates`). It happens in no other way, and lasts
  until the next model call is charged (`BudgetRuns.SavedOverstatesExactlyWhen`).
- Editing a file rewrites every CR and CRLF line ending outside the edited
  stretch (`Workspaces.EditRewritesLineEndings`); the stored text keeps the rest
  exactly when there is none (`Workspaces.EditChangesOneStretch`).
- A write preview and the write disagree exactly in two cases: an existing file
  is a proper ancestor of the target (`Workspaces.PreviewMissesFileAncestor`), or
  some source file cannot be read back, such as one over the size limit that
  another program left (`Workspaces.OversizeFailsPreview`). `PreviewPredictsWrite`
  has the exact condition. A file whose name has a backslash is read as another
  path, and then the previewed sources are wrong
  (`Workspaces.BackslashMisleadsPreview`).
- A journal write drops the saved amount of every resource that the worker's own
  counters lack (`BudgetRuns.UncountedIsLost`); it keeps all of them exactly when
  none is lacking (`BudgetRuns.MergeKeepsSavedExactlyWhen`).
- A submission left pending by a failed validation is not cleared by a rejected
  reply; the correction turn goes straight back to validation
  (`CodingRuns.StaleSubmissionRevalidates`). Such a run exists wherever a repair is
  allowed (`CodingRuns.StaleSubmissionIsReachable`). Termination holds nevertheless.
- The server can end a stream of a finished workflow with a rotation, which the
  browser rejects. It happens exactly when time runs out on a finished page with
  more behind it (`EventSafety.TerminalRotationIsSentExactlyWhen`,
  `EventSafety.LongFinishedHistoryIsRejected`); no other frame is rejected.
- A granted lease is kept exactly when a cancellation hits the join of the lease
  keeper in the middleware's final block (`GovernanceLaws.LeaseIsKeptExactlyWhen`),
  which can happen to a request in which everything else went well
  (`GovernanceLaws.LeaseCanBeKept`).
- A backup that fails the final inventory leaves its archive file behind, while a
  failure during the walk removes it. `ArchiveLaws.Pack` says exactly which trees
  do this; one file called "a:b" is enough (`ArchiveLaws.ColonLeavesArchiveBehind`).
- A container log cut inside its first frame header shows header bytes as output
  (`DockerLogs.CutHeaderIsShown`). What is shown is a prefix of what was written
  exactly under the condition of `DockerLogs.CutIsPrefixExactlyWhen`.

## Model

| member | source | states |
|---|---|---|
| Budgets.Budget.Check | src/autoscholar/core/budget.py:60-64 | refuses with the first limit that is reached, and names it |
| Budgets.Budget.Consume | src/autoscholar/core/budget.py:66-75 | charges exactly when the clock, the tokens and this resource allow it, names what does not, and a refusal changes nothing |
| Budgets.Budget.Account | src/autoscholar/core/budget.py:168-177 | known usage is added in full to total, input and output tokens even past the limit; missing usage sets the total to the limit |
| Budgets.Journal.Start | src/autoscholar/orchestration/durable_repository.py:488-493 | an operation starts only when none is pending, and is then the only one pending |
| Budgets.Journal.Finish | src/autoscholar/orchestration/durable_repository.py:494-499 | only the pending operation of that kind can finish; usage is saved by the larger amount for each resource the worker counts |
| Budgets.Journal.Withdraw | src/autoscholar/orchestration/durable_repository.py:478-487 | a proved-unsent request is removed and its saved model call undone |
| Budgets.BudgetedLLM.Generate | src/autoscholar/core/budget.py:110-166 | at every failure point the budget, the journal and the reply are those of the request's specification |
| Budgets.ExternalOperation | src/autoscholar/core/journal.py:27-46 | any other external operation: at every failure point the journal is that of its specification, and it succeeds exactly when it was closed and its end audited |
| Budgets.ResultsAreSettled | src/autoscholar/core/budget.py:110-166 | a caller who gets a result leaves nothing pending, was charged exactly one call, and the budget is still open |
| BudgetLaws.RequestsEndExactlyWhen | src/autoscholar/core/budget.py:110-166 | a request is declined, refused, proved unsent, lost or received exactly by the first thing that stops it |
| BudgetLaws.RequestsCostExactly | src/autoscholar/core/budget.py:129-177 | every counter rises by one call once charged and not proved unsent, by the tokens of the response, or to the token limit if usage is missing, and by nothing else |
| BudgetLaws.RepliesExactlyWhen | src/autoscholar/core/budget.py:129-166 | a caller gets an answer or a protocol error exactly when a response came, everything was recorded and the budget is still open |
| BudgetLaws.UnsentRequestsSave | src/autoscholar/core/journal.py:21-24 | a request that is not dispatched leaves the journal alone, but for usage saved when the preview rejects it |
| BudgetLaws.OperationsEndExactlyWhen | src/autoscholar/core/journal.py:27-46 | any other operation starts, stays uncertain or closes exactly by its hooks, and saves the larger amount for each resource counted |
| BudgetRuns.LimitsHold | src/autoscholar/core/budget.py:66-75 | over every run, every counted resource other than tokens stays within its limit |
| BudgetLaws.TokensAddUp | src/autoscholar/core/budget.py:148-177 | over every run the token total is what it was plus every response and grant, until usage is missing; then it is the limit for good |
| BudgetRuns.ModelCallsCounted | src/autoscholar/core/budget.py:129-144 | the model-call counter is exactly the requests handed over and not proved unsent, plus the refused starts |
| BudgetRuns.CounterIsExactUnlessRefused | src/autoscholar/core/journal.py:27-46 | the counter equals the requests sent if and only if no request of the run meets, when its turn comes, the guard of a refused start |
| BudgetRuns.RefusalIsGuarded | src/autoscholar/core/budget.py:129-132 | a request is refused after its charge exactly when it was admitted and charged and then the start audit fails or is followed by a journal that is away or has something pending |
| BudgetRuns.RefusedStartIsCharged | src/autoscholar/core/budget.py:129-132 | a concrete request that was never handed over and stays charged |
| BudgetRuns.ExhaustedTokensBlock | src/autoscholar/core/budget.py:60-75 | once tokens reach the limit, no later action of any run is charged and no request is sent; other operations charge nothing and are not stopped |
| BudgetRuns.OvershootIsOneResponse | src/autoscholar/core/budget.py:148-177 | tokens exceed the limit by at most one response, after which nothing is charged and no request is sent |
| BudgetRuns.PendingExactlyWhenUnsettled | src/autoscholar/core/journal.py:27-46 | the pending set returns to its value exactly when the request settled; otherwise exactly this request is added |
| BudgetRuns.PendingExactlyWhenUncertain | src/autoscholar/core/journal.py:27-46 | the same for any other operation: it starts exactly when nothing is pending and both hooks succeed, and stays pending exactly when it started and was not closed |
| BudgetRuns.UncertaintyBlocksDispatch | src/autoscholar/orchestration/durable_repository.py:488-493 | while anything is pending, no request is handed over, no other operation starts and the pending set stays as it is, over every run |
| BudgetRuns.AtMostOneUncertain | src/autoscholar/orchestration/durable_repository.py:488-497 | from a journal with nothing pending, at most one operation, of any kind, is ever pending |
| BudgetRuns.SettledRequestIsSaved | src/autoscholar/orchestration/durable_repository.py:460-498 | after a settled request the saved usage is the usage in memory |
| BudgetRuns.MergeKeepsSavedExactlyWhen | src/autoscholar/orchestration/durable_repository.py:498-498 | a journal write lets no saved amount fall if and only if the worker counts every resource that has one |
| BudgetRuns.UncountedIsLost | src/autoscholar/orchestration/durable_repository.py:494-499 | a concrete write that loses a saved amount |
| BudgetRuns.SavedNeverFalls | src/autoscholar/orchestration/durable_repository.py:460-499 | for a worker that counts every saved resource, no saved amount falls over any run, but for one model call per request proved unsent |
| BudgetRuns.SavedOverstatesExactlyWhen | src/autoscholar/orchestration/durable_repository.py:460-498 | over every run the saved usage exceeds the usage in memory exactly when a proved-unsent request was not withdrawn from the journal and no model call has been charged since; and then by exactly one model call |
| BudgetRuns.RequestOverstatesExactlyWhen | src/autoscholar/core/budget.py:129-144 | from an accurate journal, one request overstates exactly when it is dispatched, proved unsent, and the journal is away |
| BudgetRuns.LostWithdrawalOverstates | src/autoscholar/core/budget.py:137-144 | a concrete request that leaves one saved model call and none in memory |
| BudgetRuns.SavedNeverOverstates | src/autoscholar/orchestration/durable_repository.py:460-498 | a run that leaves nothing pending has saved no more than the usage in memory |
| Texts.CountOne | src/autoscholar/coding/workspace.py:222-237 | a leftmost non-overlapping count is one exactly when one position is the only hit in that sense |
| Texts.ReplaceFirstAt | src/autoscholar/coding/workspace.py:222-237 | replacing the single hit changes that stretch and nothing else |
| Texts.OverlapCountsOnce | src/autoscholar/coding/workspace.py:232-233 | overlapping hits count as one |
| Texts.TwoPassIsUniversal | src/autoscholar/coding/workspace.py:135-160 | the two newline replacements of a preview equal one pass of universal-newline decoding |
| Texts.EditRewritesStretch | src/autoscholar/coding/workspace.py:222-237 | replacing the one hit in the decoded text keeps the rest of the stored text exactly when no carriage return is in the rest, and decoding the result changes nothing exactly when the new text has none |
| Paths.SplitJoin | src/autoscholar/coding/workspace.py:288-325 | splitting a joined relative path gives back its components |
| Workspaces.ListedNamesResolve | src/autoscholar/coding/workspace.py:263-268 | the name a file is listed under resolves to that file |
| Workspaces.ResolvedIsListable | src/autoscholar/coding/workspace.py:288-325 | every accepted path can be listed and read back |
| WorkspaceLaws.PathsResolveExactlyWhen | src/autoscholar/coding/workspace.py:288-325 | a path is accepted exactly as what it spells, and only if no part is empty, a dot, two dots, ends in a dot or space, or has a colon, slash or NUL |
| Workspaces.Workspace.CheckQuota | src/autoscholar/coding/workspace.py:327-340 | refuses exactly when the file count or the total size would be exceeded |
| Workspaces.Workspace.PrepareTextWrite | src/autoscholar/coding/workspace.py:114-133 | the checks before a write, with their errors as `WorkspaceLaws.ChecksFailExactlyWhen` states them |
| Workspaces.Workspace.WriteText | src/autoscholar/coding/workspace.py:93-112 | the tree changes by exactly this file, or not at all |
| Workspaces.Workspace.EditText | src/autoscholar/coding/workspace.py:212-220 | an edit writes the edited text, or leaves the tree alone |
| Workspaces.Workspace.DeleteFile | src/autoscholar/coding/workspace.py:239-241 | removes exactly one existing file |
| WorkspaceLaws.CreatesExactlyWhen | src/autoscholar/coding/workspace.py:93-133 | a create succeeds exactly in a free place with no file above it and within all three quotas; it keeps every existing file, and otherwise changes nothing |
| WorkspaceLaws.EditsExactlyWhen | src/autoscholar/coding/workspace.py:212-237 | an edit succeeds exactly on a readable file with one hit whose new text fits; it changes that file only |
| WorkspaceLaws.DeletesExactlyWhen | src/autoscholar/coding/workspace.py:239-241 | a delete succeeds exactly on a file, and removes nothing else |
| WorkspaceLaws.ChecksFailExactlyWhen | src/autoscholar/coding/workspace.py:114-133 | which check a write fails first: size, path, existence, number of files, total size |
| WorkspaceLaws.WritesRaiseExactlyWhen | src/autoscholar/coding/workspace.py:93-112 | a write fails in the file system exactly when there is room for it below a file |
| WorkspaceLaws.SizesAreBytes | src/autoscholar/coding/workspace.py:114-133 | sizes are UTF-8 bytes: they add up, and equal the number of characters exactly for ASCII |
| Workspaces.Workspace.SourceSnapshot | src/autoscholar/coding/workspace.py:263-268 | every source file read back under its listed name, or the error of one that cannot be |
| Workspaces.Workspace.PreviewText | src/autoscholar/coding/workspace.py:135-160 | a preview equals its specification and changes nothing; a failure reports the first failed check, or what an unreadable file reports |
| Workspaces.Workspace.PreviewEdit | src/autoscholar/coding/workspace.py:162-174 | previews the edited text the way the edit would be written |
| Workspaces.RunsStaySound | src/autoscholar/coding/workspace.py:93-133 | over every sequence of writes, edits and deletes: no file lies inside a file, every name can be listed and read back, and all three quotas hold |
| Workspaces.PreviewPredictsWrite | src/autoscholar/coding/workspace.py:93-160 | on every tree: the preview succeeds exactly when the checks pass and every file can be read, the write exactly when the checks pass and no file is above the target, so the two agree exactly when these conditions do; when both succeed, the previewed sources are the sources afterwards exactly unless another file's name is read as the one written |
| Workspaces.PreviewPredictsEdit | src/autoscholar/coding/workspace.py:162-241 | the same for an edit of an existing file, which has no file above it: preview and edit differ exactly when the checks pass and some file cannot be read |
| Workspaces.ListedSourcesRead | src/autoscholar/coding/workspace.py:81-92 | when every name is one this workspace could have given, a snapshot fails exactly on a file over the size limit, with that error, and otherwise shows every file decoded |
| Workspaces.ListedIsNotMisread | src/autoscholar/coding/workspace.py:288-325 | when every name is one this workspace could have given, no name is read as another file, so previewed sources are always the sources afterwards |
| Workspaces.PreviewMissesFileAncestor | src/autoscholar/coding/workspace.py:135-160 | a concrete workspace in which the preview succeeds and the write fails |
| Workspaces.OversizeFailsPreview | src/autoscholar/coding/workspace.py:135-160 | a concrete workspace with one over-size file in which a preview elsewhere fails and the write succeeds |
| Workspaces.BackslashMisleadsPreview | src/autoscholar/coding/workspace.py:135-160 | a concrete workspace in which a file name is read as another path, so that the sources previewed for an edit are not those afterwards |
| Workspaces.EditChangesOneStretch | src/autoscholar/coding/workspace.py:212-237 | a successful edit rewrites one file and no other; the stored text is the decoded text with one stretch replaced, and so keeps the rest exactly when there is no carriage return outside that stretch |
| Workspaces.EditNeedsOneHit | src/autoscholar/coding/workspace.py:222-237 | an edit is accepted exactly when the decoded text has one hit of the old text |
| Workspaces.EditRewritesLineEndings | src/autoscholar/coding/workspace.py:212-237 | a concrete edit of one line that rewrites the line ending of another |
| CodingRuns.RunsAreBounded | src/autoscholar/coding/agent.py:414-684 | over every run: model calls at most min(8, max_file_tool_calls) + max_repairs + 1 in snapshot mode and 2 * (max_file_tool_calls + max_repairs) otherwise; edits, repairs and corrections within their limits |
| CodingRuns.RunsTerminate | src/autoscholar/coding/agent.py:232-253 | every run ends within a number of steps fixed by the configuration |
| CodingRuns.StepDecreases | src/autoscholar/coding/agent.py:767-784 | one number, lexicographic in repairs, tool calls and turn, falls at every step |
| CodingLaws.AuthoringEndsExactlyWhen | src/autoscholar/coding/agent.py:364-425 | without asking the model: settled work is handed over with its reason exactly when edits or calls are used up, anything else raises |
| CodingLaws.RepliesAreCarriedOutExactlyWhen | src/autoscholar/coding/agent.py:451-511 | the calls of a usable reply are carried out as they are, and validated at once if the first submits; nothing else is |
| CodingLaws.RepliesAreCorrectedExactlyOnce | src/autoscholar/coding/agent.py:433-486 | any other reply is corrected once and never carried out; a schema violation drops what was pending, an unusable reply leaves it |
| CodingLaws.ChecksAreMadeExactlyWhen | src/autoscholar/coding/agent.py:622-655 | each check is charged, run and stored in turn, and the test run follows only a static check that passed |
| CodingLaws.FinalizesExactlyWhen | src/autoscholar/coding/agent.py:622-664 | passing checks on readable, nonempty, unchanged sources finalize, whatever repairs or calls are left, and nothing else does |
| CodingLaws.RepairsExactlyWhen | src/autoscholar/coding/agent.py:665-684 | a failing check sends the run back with one more repair exactly while a repair is left and granted and authoring is not over; each error otherwise |
| CodingLaws.ValidationRaisesExactlyWhen | src/autoscholar/coding/agent.py:622-655 | what stops the checks raises: unreadable or empty sources, a charge, a run or a record that fails, sources that changed |
| CodingLaws.ToolIsRefusedExactlyWhen | src/autoscholar/coding/agent.py:550-566 | no call is carried out without a pending call, beyond the limits or unpaid |
| CodingLaws.ToolTakesEffectExactlyWhen | src/autoscholar/coding/agent.py:566-600 | a call changes the sources exactly when it is offered, previewed, fits and is reached; it raises exactly when the tool or the file system does |
| CodingLaws.ToolIsRecordedExactlyWhen | src/autoscholar/coding/agent.py:600-620 | a call carried out is charged, recorded with its verdict and taken off, and the next is taken up or the work handed over |
| CodingLaws.PreviewPassesExactlyWhen | src/autoscholar/coding/agent.py:513-548 | the preview of an edit passes exactly when every source can be read and the edit would succeed, or only raise |
| CodingRuns.ReserveIsNeverSpent | src/autoscholar/coding/agent.py:364-412 | under a shared budget that nobody else spends, the agent never spends a model call out of the workflow reserve |
| CodingRuns.GenerationNeedsCallsBeyondReserve | src/autoscholar/coding/agent.py:382-440 | in snapshot mode a generation happens only while more calls than the reserve remain |
| CodingRuns.CorrectionsAccumulate | src/autoscholar/coding/agent.py:451-511 | in snapshot mode no counter ever falls, so there is at most one protocol correction per run |
| CodingRuns.StaleSubmissionRevalidates | src/autoscholar/coding/agent.py:465-486 | a rejected reply keeps a stale pending submission and routes to validation |
| CodingRuns.StaleSubmissionIsReachable | src/autoscholar/coding/agent.py:232-253 | a run that gets there from the start, under every configuration with a repair and a tool call, for a worker without budget and journal |
| CodingRuns.FinalizeMeansValidated | src/autoscholar/coding/agent.py:622-688 | at finalize, the sources equal the one snapshot on which both mandatory checks passed, in full |
| CodingRuns.SnapshotToolStep | src/autoscholar/coding/agent.py:513-620 | one tool step applies at most one edit; a refused preview or a failed edit changes nothing |
| CodingRuns.SourcesAreTheRecordedEdits | src/autoscholar/coding/agent.py:513-620 | over a run in which nobody else changes the sources during validation, from any tree, the sources are the initial ones with exactly the recorded successful edits applied, at most min(8, max_file_tool_calls) of them |
| CodingNodes.CodingAgent.AuthorTurn | src/autoscholar/coding/agent.py:414-511 | the node over real budget and journal objects equals the specified transition |
| CodingNodes.CodingAgent.ExecuteTool | src/autoscholar/coding/agent.py:550-620 | the tool node over the real workspace equals the specified transition, also when the tool raises after an operation that may have been carried out |
| CodingNodes.CodingAgent.RunValidation | src/autoscholar/coding/agent.py:622-684 | the validation node, with both source reads and each check charged, run and stored in turn, equals the specified transition |
| CodingNodes.CodingAgent.Run | src/autoscholar/coding/agent.py:140-253 | the loop always ends, in the state that the run's specification gives |
| EventPages.Fetch | src/autoscholar/api/workbench_repository.py:575-592 | the rows a forward or backward query returns, one more than the page holds |
| EventPages.Events | src/autoscholar/api/workbench_repository.py:560-605 | the page, its cursor and its flags, or a cursor error |
| EventPages.AppendKeepsDense | src/autoscholar/api/workbench_repository.py:152-163 | an append keeps the numbering dense and changes no earlier row |
| EventPages.ForwardPage | src/autoscholar/api/workbench_repository.py:560-605 | a forward page is the run of events after the cursor, and `has_more` says exactly whether more follow |
| EventPages.BackwardPage | src/autoscholar/api/workbench_repository.py:560-605 | a backward page is the run that ends just before its bound, with exact flags |
| EventPages.HistoryAdjoins | web/src/events.tsx:98-109 | paging back from the earliest event shown leaves no gap and no overlap |
| EventDelivery.EventViewer.Receive | web/src/api.ts:414-434 | the frame automaton and the viewer after one frame, including every rejection |
| EventLaws.FramesAreAcceptedExactlyWhen | web/src/api.ts:414-434 | a frame is accepted exactly once greeted and before an ending, and an ending only if it fits the task |
| EventLaws.FramesTakeEffectExactly | web/src/events.tsx:69-78 | the next event is shown and resets the failures, an old one is ignored, a gap, an error frame or a rejected frame ends the stream |
| EventLaws.StreamsEndExactly | web/src/events.tsx:79-93 | a terminal end completes, an unsupported one stops following, a rotation reconnects with no failure counted, anything else is a lost connection |
| EventLaws.ConnectionsChangeExactly | web/src/events.tsx:65-93 | a connection resumes at a place already shown; losing one, or failing to get one, costs one of five retries |
| EventLaws.GivesUpExactlyWhen | web/src/events.tsx:65-93 | over every run the viewer gives up exactly after six losses in a row with no new event and no rotation between them |
| EventLaws.ViewersStartWithTheFirstPage | web/src/events.tsx:59-65 | the first page is shown as it is, and only a durable task is followed |
| EventSafety.NextIsSafe | src/autoscholar/api/workbench_events.py:113-163 | every append, status change, connection, server turn, delivery and disconnection keeps the delivery invariant |
| EventSafety.DeliveryIsExactlyOnce | web/src/events.tsx:59-95 | from any dense log and under every interleaving: the shown events are a contiguous, duplicate-free run of the log ending at the cursor; of the first page and everything received since, none is missing up to the 200 retained; no gap error fires, no cursor is rejected, and a complete viewer has everything the ending was computed from |
| EventProgress.FaultFreeRunsComplete | src/autoscholar/api/workbench_events.py:113-163 | on a finished log, every run of connections, server turns in time and deliveries is bounded by a number fixed at its start, and can only stop with the viewer complete at the last event |
| EventProgress.CanAlwaysComplete | web/src/events.tsx:59-95 | from every safe state of a finished log in which the viewer is connecting or has a retry left, some run shows everything and completes, with at most one disconnection |
| EventProgress.StartIsLive | web/src/events.tsx:59-95 | a page opened on a finished durable log is a start for such runs |
| EventSafety.OnlyTerminalRotationIsRejected | web/src/api.ts:424-433 | the client rejects a frame of this server if and only if it is a rotation with a terminal status |
| EventSafety.TerminalRotationIsSentExactlyWhen | src/autoscholar/api/workbench_events.py:135-147 | the server sends such a rotation exactly when its time is up on a finished page with more behind it |
| EventSafety.LongFinishedHistoryIsRejected | src/autoscholar/api/workbench_events.py:125-147 | any finished log with more than a page behind the cursor leads to it |
| EventSafety.PageIsSentInOrder | src/autoscholar/api/workbench_events.py:125-134 | after n turns the server has sent the first n events of its page and its cursor is at the last |
| EventLaws.FramesAreSentExactlyWhen | src/autoscholar/api/workbench_events.py:113-163 | each frame of the server is sent exactly when due: a terminal or unsupported end after the last page, a rotation when time is up on any other page |
| EventLaws.FramesSayWhatIsSent | src/autoscholar/api/workbench_events.py:113-163 | each frame says what the page holds, and a poll resumes at the cursor |
| EventProjection.PublicEvent | src/autoscholar/api/workbench_events.py:54-100 | the disclosed fields are exactly the allowed, recognised ones, and the browser accepts the result |
| EventProjection.ShownIsAccepted | web/src/guards.ts:20-31 | no disclosed value is refused by the browser's guard |
| EventProjection.FieldsAreAllowedExactlyWhen | src/autoscholar/api/workbench_events.py:59-71 | the fields disclosed of each kind of event, and none of any other |
| EventProjection.ValuesAreShownExactlyWhen | src/autoscholar/api/workbench_events.py:72-94 | listed words, flags and numbers are shown in their own fields, and no name of an internal tool |
| ServerSentEvents.EventReader.Parse | web/src/sse.ts:29-37 | the character loop computes the parser's state |
| ServerSentEvents.EventReader.Consume | web/src/sse.ts:38-45 | the outcome depends on the text only, not on how it was cut into chunks |
| ServerSentEvents.RoundTrip | src/autoscholar/api/workbench_events.py:103-110 | parsing any printed frames and heartbeats within the cap gives back exactly those frames and a clean end |
| ServerSentEvents.CutDeliversPrefix | web/src/sse.ts:29-45 | a connection cut anywhere has delivered an intact prefix of the frames |
| ServerSentEvents.LineEndingsDoNotMatter | web/src/sse.ts:29-37 | every text, with LF, CRLF and CR endings in any mixture, gives the frames and the verdict of the same text with LF endings |
| ServerSentEvents.ParserReadsLines | web/src/sse.ts:15-37 | within the cap the automaton computes the line-by-line reading of sections 9.2.5 and 9.2.6 of the WHATWG HTML Living Standard, with the id reset per frame |
| ServerSentEventLaws.EveryTextIsRead | web/src/sse.ts:14-45 | of any text whatever: it is too large exactly if a block with its line ends exceeds 32,768 units, incomplete exactly if a line or data is left open, and otherwise its frames are those of its lines |
| ServerSentEventLaws.FieldsAreReadExactly | web/src/sse.ts:15-28 | a line is a name and a value without the one space after the colon, a bare name, or a comment; an id with NUL and unknown names are ignored |
| ServerSentEventLaws.DataIsJoinedExactly | web/src/sse.ts:15-28 | data lines are joined by line feeds |
| ServerSentEventLaws.NumbersArePrintedExactly | src/autoscholar/api/workbench_events.py:103-110 | event numbers are printed in decimal without leading zeros |
| Governance.ReplayIsTheBody | src/autoscholar/api/governance.py:215-224 | the replayed pieces join to the body, hold 64 KiB each but for the last, and only the last is final |
| GovernedRequests.ReadBody | src/autoscholar/api/governance.py:386-419 | a body is accepted exactly when it is complete, within the cap and of the declared length, and is then returned whole |
| GovernedRequests.GovernedRequest.GovernedSend | src/autoscholar/api/governance.py:128-152 | held back or passed on: what the client may see is what stayed within the cap, in order |
| GovernedRequests.GovernedRequest.Replay | src/autoscholar/api/governance.py:215-224 | one read hands over the next piece of the received body, until it is over; later reads hand over nothing of it |
| GovernedRequests.GovernedRequest.Call | src/autoscholar/api/governance.py:226-384 | for every failure point the effects are lawful and exactly those of the specification: the application ran exactly when admitted, audited and fully received, and was handed one piece of the body per read; a started application leaves a closing audit; the whole reply is sent when all goes well, and otherwise one error exactly when nothing was sent and nothing is cancelled; the end is normal exactly then; the lease is released exactly when granted, but for a cancelled keeper join |
| GovernanceOutcomes.BodyReadExactly | src/autoscholar/api/governance.py:386-419 | the body function of the specification accepts exactly complete, capped bodies of the declared length |
| GovernanceOutcomes.CourseIsNormalExactlyWhen | src/autoscholar/api/governance.py:226-302 | the main path ends normally exactly when the request was ready, the application finished under its lease, the completed audit was written and no held-back send failed; the whole reply has then been sent |
| GovernanceOutcomes.RequestSettles | src/autoscholar/api/governance.py:226-384 | what the specification says of a whole request: when the application ran, what it read, when the reply, an error or neither is sent, when the lease is released and when the end is normal |
| GovernanceLaws.AppRunsOnlyAdmitted | src/autoscholar/api/governance.py:226-249 | before the application starts, exactly two things have happened: admission and its written audit |
| GovernanceLaws.CriticalReplyIsAudited | src/autoscholar/api/governance.py:284-302 | a critical reply reaches the client only after its completed audit was written |
| GovernanceLaws.AtMostOneStart | src/autoscholar/api/governance.py:303-330 | at most one response start is sent, unless the application itself sends more |
| GovernanceLaws.ReplyFitsCap | src/autoscholar/api/governance.py:133-146 | what the client is sent of the application's reply never exceeds the cap |
| GovernanceLaws.DeniedNeverRan | src/autoscholar/api/governance.py:303-315 | a request audited as denied never reached the application |
| GovernanceLaws.AppReadsTheBody | src/autoscholar/api/governance.py:215-224 | a started application has read one piece per read: a prefix of the received body, and all of it exactly when it read often enough, which is exactly when a piece was marked final |
| GovernanceLaws.LeaseIsKeptExactlyWhen | src/autoscholar/api/governance.py:373-384 | a granted lease is not released exactly when the join of its keeper is cancelled |
| GovernanceLaws.LeaseCanBeKept | src/autoscholar/api/governance.py:373-384 | a concrete request in which all else goes well and the lease is kept |
| GovernanceCases.RequestsAreGovernedExactlyWhen | src/autoscholar/api/governance.py:94-146 | which requests bypass the middleware, which replies are held back, and the caps on body and reply, by method and path |
| GovernanceCases.WritesAreAuditedBeforeReplies | src/autoscholar/api/governance.py:123-302 | the client of any request but GET, HEAD and OPTIONS hears of it only after its completed audit was written |
| GovernanceCases.RepliesAreWholeExactlyWhen | src/autoscholar/api/governance.py:128-152 | what the client may see is the whole reply of the application exactly if it fits the cap |
| GovernanceCases.RepliesGoOutExactly | src/autoscholar/api/governance.py:128-302 | what the client gets: all that was passed on, nothing, or what was flushed until a send failed |
| GovernanceCases.BodiesAreRefusedExactly | src/autoscholar/api/governance.py:386-419 | why a body is refused, with its status: by its declared lengths, or by the first message that ends the reading |
| GovernanceCases.RefusalsAreReportedExactly | src/autoscholar/api/governance.py:226-251 | what went wrong before the application ran, first things first, with its status and code |
| GovernanceCases.InterruptionsAreReportedExactly | src/autoscholar/api/governance.py:251-302 | what went wrong once it ran: the lease, the application, the completed audit, or a send |
| GovernanceCases.AuditsAreWrittenExactly | src/autoscholar/api/governance.py:226-372 | the audits of a request in order, and denied exactly when refused before it ran |
| GovernanceCases.ErrorsAreSentExactly | src/autoscholar/api/governance.py:303-372 | the error reply and its status, once, and only to a client who has heard nothing |
| GovernanceCases.RequestsEndExactly | src/autoscholar/api/governance.py:303-384 | whether the request ends cancelled, failed or normally |
| Holm.SortedIndicesSort | src/autoscholar/evaluation/ablation_audit.py:69-69 | the indices are a permutation in ascending order of value |
| Holm.RunningMaximum | src/autoscholar/evaluation/ablation_audit.py:67-72 | the loop stores at each index the largest positional term so far |
| Holm.HolmAdjust | src/autoscholar/evaluation/ablation_audit.py:64-72 | each adjusted value is the order-free maximum over p(j) <= p(i) of min(1, (m - #{k : p(k) < p(j)}) * p(j)); other inputs are refused |
| Holm.AdjustedIsUnique | src/autoscholar/evaluation/ablation_audit.py:64-72 | the order-free specification determines the value |
| Holm.TieOrderDoesNotMatter | src/autoscholar/evaluation/ablation_audit.py:69-71 | any sorted order gives the same result, whatever it does with ties |
| Holm.AdjustedBounds | src/autoscholar/evaluation/ablation_audit.py:64-72 | adjusted values lie between the raw value and one |
| Holm.AdjustmentIsMonotone | src/autoscholar/evaluation/ablation_audit.py:64-72 | a larger raw value has no smaller adjusted value |
| Holm.AdjustmentCommutesWithRearrangement | src/autoscholar/evaluation/ablation_audit.py:64-72 | rearranging the inputs rearranges the outputs |
| Holm.AdjustedBelowAlphaIffRejected | src/autoscholar/evaluation/ablation_audit.py:64-72 | an adjusted value is below alpha exactly when the step-down test rejects that hypothesis |
| SignFlip.EveryVectorIsListed | src/autoscholar/evaluation/ablation_audit.py:51-61 | the enumeration holds every sign vector |
| SignFlip.ProductIsDistinct | src/autoscholar/evaluation/ablation_audit.py:51-61 | and none twice |
| SignFlip.ZeroBlocksDropOut | src/autoscholar/evaluation/ablation_audit.py:44-61 | the p-value over the nonzero blocks equals the share over all blocks' sign vectors |
| SignFlip.PValueBounds | src/autoscholar/evaluation/ablation_audit.py:44-61 | with k > 0 nonzero blocks it lies between 2 / 2^k and 1 |
| SignFlip.OrderDoesNotMatter | src/autoscholar/evaluation/ablation_audit.py:44-61 | reordering the blocks changes nothing |
| SignFlip.NegationDoesNotMatter | src/autoscholar/evaluation/ablation_audit.py:44-61 | negating all blocks changes nothing |
| SignFlip.TestIsExact | src/autoscholar/evaluation/ablation_audit.py:44-61 | among all sign flips of the same data, at most a share `level` gets a p-value of at most `level` |
| SignFlip.PValueIsTheShare | src/autoscholar/evaluation/ablation_audit.py:44-61 | the p-value is the share, among all sign vectors of all blocks, of sums at least as far from zero, up to 1e-12 |
| SignFlip.BlocksAreTestedExactlyWhen | src/autoscholar/evaluation/ablation_audit.py:44-51 | one to twenty nonempty blocks are tested, each by its sum; others are refused |
| DocumentBlocks.Component | src/autoscholar/evaluation/ablation_audit.py:86-93 | the inner fixpoint ends with everything that a chain of shared documents connects to the seed |
| DocumentBlocks.FindBlocks | src/autoscholar/evaluation/ablation_audit.py:75-97 | ends for every labelling, refuses exactly those with an unlabelled query, and settles every query |
| DocumentBlocks.SameBlockIffConnected | src/autoscholar/evaluation/ablation_audit.py:75-97 | two queries get the same identifier exactly when a chain of shared documents connects them |
| DocumentBlocks.BlocksAreDisjoint | src/autoscholar/evaluation/ablation_audit.py:75-97 | different blocks share no document |
| DocumentBlocks.BlocksAreUnique | src/autoscholar/evaluation/ablation_audit.py:75-97 | the result does not depend on the order of the loops |
| SecurityGate.WalkIsReachability | src/autoscholar/deployment/security_gate.py:34-45 | on every graph, cyclic or not, the walk succeeds exactly when everything reached is auditable, and then returns exactly the serious advisories of all packages reached |
| SecurityGate.WalkCovers | src/autoscholar/deployment/security_gate.py:34-45 | paths that revisit a package can be cut, so the walk's restriction loses nothing |
| SecurityGate.NpmFindings | src/autoscholar/deployment/security_gate.py:28-55 | a report is accepted exactly when its header and every entry are auditable, and the findings are exactly the serious packages with the advisories they reach; each error has its cause |
| SecurityGate.BlockedImages | src/autoscholar/deployment/security_gate.py:101-121 | a key is blocked exactly when some occurrence blocks it and some occurrence of any severity is not waived |
| SecurityGate.AdvisoriesCountExactlyWhen | src/autoscholar/deployment/security_gate.py:34-45 | an advisory counts exactly if high or critical, by the last part of its address, which must start with GHSA- |
| SecurityGate.WaiversApplyExactlyWhen | src/autoscholar/deployment/security_gate.py:101-121 | a waiver covers one package, advisory and version in one image profile, and nothing else |
| Archives.Inventory | src/autoscholar/deployment/archives.py:32-54 | accepts exactly the archives that meet the order-free rules, and otherwise reports the first broken one |
| Archives.FaultlessIsAcceptable | src/autoscholar/deployment/archives.py:37-49 | the checks made member by member add up to rules that do not mention order |
| ArchiveLaws.ArchivesAreAcceptedExactlyWhen | src/autoscholar/deployment/archives.py:25-54 | an archive is accepted exactly when every member stays inside, is a plain file or directory with an ordinary owner, no path repeats or lies below a file, within 200,000 members and 32 GiB |
| ArchiveLaws.MembersAreRefusedExactlyWhen | src/autoscholar/deployment/archives.py:25-49 | which rule a member breaks first |
| ArchiveLaws.MembersAreRestoredExactly | src/autoscholar/deployment/archives.py:109-125 | a member keeps its owner, content and permission bits |
| Archives.Destination.MakeDirectory | src/autoscholar/deployment/archives.py:111-114 | creates exactly the missing directories on the way, and fails exactly on a file |
| Archives.Extract | src/autoscholar/deployment/archives.py:109-119 | one member of an accepted archive never meets an existing file or a file used as a directory |
| Archives.Unpack | src/autoscholar/deployment/archives.py:102-125 | succeeds exactly for the expected, acceptable archive and an empty destination, which then holds the members; a refusal changes nothing |
| ArchiveLaws.OrderDoesNotMatter | src/autoscholar/deployment/archives.py:32-54 | archives with the same members are both accepted or both refused, and restore the same tree |
| ArchiveLaws.NameReadsBack | src/autoscholar/deployment/archives.py:25-29 | a packed name is read back as its path, and is safe exactly when it has no backslash or colon |
| ArchiveLaws.PackedIsAcceptable | src/autoscholar/deployment/archives.py:57-94 | the final inventory accepts exactly the packable trees |
| ArchiveLaws.EntriesArePackedExactly | src/autoscholar/deployment/archives.py:57-94 | an entry is packed under its own name with its owner, its permission bits, its size and its content |
| ArchiveLaws.Pack | src/autoscholar/deployment/archives.py:57-94 | succeeds exactly for a new archive and a packable tree; leaves a new archive behind exactly for trees that pass the walk and hold a name or an owner the inventory refuses |
| ArchiveLaws.ColonLeavesArchiveBehind | src/autoscholar/deployment/archives.py:57-94 | a concrete tree that leaves its archive behind |
| ArchiveLaws.UnpackUndoesPack | src/autoscholar/deployment/archives.py:57-125 | unpacking what was packed restores the tree, with permissions cut to 0o777 |
| DockerLogs.DecodeDockerStream | src/autoscholar/coding/sandbox.py:702-716 | the loop computes the demultiplexed streams |
| DockerLogs.FramesComeApart | src/autoscholar/coding/sandbox.py:702-716 | well-formed frames come apart into what was written to each stream |
| DockerLogs.StreamsAreToldApart | src/autoscholar/coding/sandbox.py:702-716 | stream 2 is standard error, every other one standard output, each in order |
| DockerLogs.FramesAreWrittenExactly | src/autoscholar/coding/sandbox.py:702-716 | the layout of a frame: stream, padding, big-endian length, payload |
| DockerLogs.CutLogs | src/autoscholar/coding/sandbox.py:702-716 | a cut after 0 or at least 8 bytes shows prefixes of both streams; a cut in the first header shows those bytes |
| DockerLogs.CutIsPrefixExactlyWhen | src/autoscholar/coding/sandbox.py:702-716 | a cut log shows a prefix of what was written if and only if the cut is at 0, at 8 bytes or more, or shows bytes that standard output starts with |
| DockerLogs.CutHeaderIsShown | src/autoscholar/coding/sandbox.py:714-715 | a concrete cut whose output is not a prefix of what was written |
| DockerLogs.Logs | src/autoscholar/coding/sandbox.py:581-604 | what is kept, shown and reported depends on the bytes only, not on the chunks |
| DockerLogs.LogsAreCutExactly | src/autoscholar/coding/sandbox.py:581-604 | of any log: the first bytes of each stream up to the maximum, out of at most twice that and 64 KiB, and exactly when it is marked truncated |
| DockerLogs.CompleteLogs | src/autoscholar/coding/sandbox.py:581-604 | marked complete exactly when the raw log is below its limit and both streams fit, and then both are returned in full |
| ComputeLoops.LoopKeepsInvariant | src/autoscholar/agent/runner.py:1503-1625 | over every run: one generation per iteration and never beyond the limit, traces numbered and within both limits, every call answered at each executor entry, the writer reached within budget only on evidence |
| ComputeLoops.LoopTerminates | src/autoscholar/agent/runner.py:1835-1844 | the loop ends within two steps per iteration and one more |
| ComputeLoops.ExecutorGoesOnExactlyWhen | src/autoscholar/agent/runner.py:1503-1579 | the executor takes up the first call, ends on an answer once there is evidence, forgives one answer without, and stops at the limit |
| ComputeLoops.ToolsRunExactlyWhen | src/autoscholar/agent/runner.py:1581-1625 | a pending call is run, recorded with its verdict and answered, unless the calls are used up |
| EvidenceSelection.ValidateSelection | src/autoscholar/agent/runner.py:1351-1411 | the selections are sound and distinct, and are exactly the candidates picked soundly; every other item is rejected |
| EvidenceSelection.ReadingIsSound | src/autoscholar/agent/runner.py:1351-1411 | reading item by item selects exactly the candidates that were picked soundly, each once |
| ResearchLaws.SelectionsAreTheFirstGoodPicks | src/autoscholar/agent/runner.py:1351-1411 | the selections are the first good pick of each candidate, as submitted and in that order; everything else is rejected |
| ResearchLaws.AnswersAreReadExactly | src/autoscholar/agent/runner.py:1351-1363 | only the first items up to the limit are read; an answer that is no list is one rejection |
| EvidenceSelection.ExtractEvidence | src/autoscholar/agent/runner.py:1140-1349 | a second answer is asked for exactly when the first neither raises nor is good enough; a result is returned exactly when there are candidates, no attempt raised and the best answer selects anything; it is the best answer, sound; usage is the usage before plus everything received, corrected schema errors included |
| EvidenceSelection.BestReadingIsBest | src/autoscholar/agent/runner.py:1140-1349 | the best answer is one of those received and none of them ranks above it |
| ResearchLaws.AnswersRankExactly | src/autoscholar/agent/runner.py:1224-1276 | answers rank by open sources, then open topics, then rejections, then by selecting more |
| ResearchLaws.AnswersSettleExactlyWhen | src/autoscholar/agent/runner.py:1233-1281 | the first answer settles the matter exactly if asking again could not close a gap, or must not be done |
| EvidenceSelection.CompleteMeansCovered | src/autoscholar/agent/runner.py:1442-1469 | a result is not partial exactly when every required source and topic is covered by clean, plural evidence |
| ResearchLaws.EvidenceIsCompleteExactlyWhen | src/autoscholar/agent/runner.py:1306-1325 | complete exactly when nothing is open, two addresses are cited, and nothing was rejected or warned about |
| ResearchLaws.UsageIsCountedExactly | src/autoscholar/agent/runner.py:1846-1858 | every completion received is counted with its tokens, schema errors included, and a lost one is not |
| EvidenceSelection.KeysAreCitable | src/autoscholar/agent/runner.py:1413-1440 | stored evidence has distinct keys, each of which the inline marker syntax can name |
| EvidenceSelection.ReportCitesStoredEvidence | src/autoscholar/agent/runner.py:1764-1807 | an accepted report cites only stored evidence E1 to En |
| ResearchReports.MarkersAreTheBracketedKeys | src/autoscholar/agent/runner.py:1777-1777 | the marker scan finds exactly the bracketed keys of the text |
| ResearchReports.ValidateReport | src/autoscholar/agent/runner.py:1764-1807 | a report is accepted exactly when its markers are known and agree with the kept mappings, which are returned; missing markers and unknown evidence have their own errors |
| ResearchReports.AcceptedReportAgrees | src/autoscholar/agent/runner.py:1787-1807 | in an accepted report the inline markers are the union of the kept citations' evidence |
| ResearchLaws.ReportsAreAcceptableExactlyWhen | src/autoscholar/agent/runner.py:1764-1807 | acceptable exactly when it has markers, all of stored evidence, and the marked evidence is what counting mappings cite |
| ResearchLaws.CitationsAreKeptExactly | src/autoscholar/agent/runner.py:1789-1801 | the citations are the mappings that count, in order, with their claims and identifiers |
| ResearchLaws.IdentifiersAreKeptInOrder | src/autoscholar/agent/runner.py:1797-1797 | identifiers are kept once each, in the order of their first places |
| ResearchReports.ResearchWriter | src/autoscholar/agent/runner.py:1722-1762 | the first acceptable of two attempts is returned, and a result only then; a second is made exactly when the first is neither acceptable nor raises; an error of the provider is reported exactly when the last attempt made raises; usage is that of everything received |

## Left out

- LangGraph, its recursion limit, provider adapters, prompts and schema wording: a generation is an arbitrary outcome.
- SQL sessions, locks and migrations: a read is one atomic snapshot and an append one atomic increment with its row; the log is taken to be dense at the start.
- Admission, audit and journal storage behind their hooks: each call succeeds, fails or is cancelled.
- Wall-clock time, heartbeat timing, retry delays and asyncio scheduling: a timeout is a choice of the environment.
- Links, reserved file names, UTF-8 decoding errors, the tar byte layout and SHA-256: trees, member sequences, characters and injective digests.
- Windows, where extraction sets no owner: extraction is modelled on a posix system.
- Floating-point rounding and the pseudo-random interval of the ablation audit (`clustered_interval`): reals with the tolerance as a constant.
- `BudgetLimits.bounded_by` and the request preflight of the language-model wrapper: a fieldwise minimum and an arbitrary refusal.
- The combined size of a coding reply's arguments: whether it is too large is a choice of the environment.
- The journal entries of the coding agent's sandbox runs: their charges are part of the agent's nodes, their pending state only of `BudgetRuns`.
- A second cancellation while a cancelled dispatch is being joined, which can leave the application's cleanup running.
- The text of error replies, response headers and the identifiers copied into the completed audit.
- Input and output tokens of the research nodes: they are summed the same way as the total.
- Python dependency reports and the expiry rules of exceptions in the release gate.
- `_source_archive`, artifact collection and the remaining Docker plumbing of the sandbox.
- React rendering, type guards other than the event guard, configuration, redaction and logging.
- ArchiveLaws.Pack: the order in which the walk yields entries is arbitrary rather than that of the directory walk, because no result depends on it.
- Workspaces.Workspace.SourceSnapshot: listing order is not modelled, so of several unreadable files any one may be reported.
