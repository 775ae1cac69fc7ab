# Verified model of the Ragivka kernels

This Dafny project models the parts of Ragivka where behaviour spans many steps, and proves what the
code keeps over all runs: the graph engine, the session state machine with optimistic locking and the
workers built on it, document ingestion, the prompt sanitizer, the in-memory broadcaster, the history
window, two-stage retrieval and the rate limiter.

`dafny verify dfyconfig.toml` checks everything.

## How it is organised

Code that updates state is a class or a method with loops, as in the source. Each such method is proved
against a specification: a function on values, a relation on its inputs and results, or one step of a
state machine. The theorems are lemmas about those specifications, over every input, every run or every
interleaving. Where a specification function computes something, a law says what it means in other terms:
by fields, by characters, by literal limits, or by a description that determines it.

| files | subject |
|---|---|
| `Graph.dfy`, `GraphTheorems.dfy`, `GraphEngine.dfy` | the walk as a state machine over histories; its invariant, run bound and measure; `Execute` with stack, index map and counters, which refines it |
| `GraphOutcomes.dfy` | what `Execute` returns, read off the graph and the completed runs alone |
| `GraphClosedForm.dfy`, `GraphAcyclic.dfy`, `GraphCounters.dfy`, `GraphRegistry.dfy` | the exact result of unconditional runs; acyclic graphs; what the counters count; `BuildGraph` |
| `Sessions.dfy`, `ExpirySweep.dfy` | state machine, session table, clients in every interleaving; the sweep among other clients |
| `AtLeastOnce.dfy`, `WorkerRuns.dfy` | accounts of check, act, record under crashes and retries; interleaved runs on the message and audit tables, which keep these accounts |
| `Workers.dfy`, `Messages.dfy` | the two job workers, whose attempts are such runs; the message table and the history window |
| `SanitizerRegex.dfy`, `SanitizerReplacement.dfy`, `Sanitizer.dfy`, `SanitizerPhrases.dfy`, `SanitizerSearch.dfy` | regular expressions with Go's search order, replacement, the five patterns and the phrases they stand for; which match is replaced |
| `Chunker.dfy`, `Ingestion.dfy` | chunking; ingestion attempts as steps, and the pipeline that performs them |
| `Broadcaster.dfy`, `BroadcastLedger.dfy` | the broadcaster as a state machine, its accounts, and the class |
| `Retrieval.dfy`, `RateLimit.dfy`, `Common.dfy` | two-stage top-K; the fixed window; shared vocabulary |

Nodes, predicates and cancellation are functions of the number of node runs so far, so a node may answer
differently each time it is visited. Failures of databases, models and networks are parameters of one
attempt (`World`, `Writing`, `Fate`); a write may also happen and still report an error. Clocks and new identifiers are parameters too.

## What the code does not keep

Each of these has a lemma with an input on which the property fails, and a lemma saying exactly when it
holds (for the last, exactly what happens).

- **Loop-back counters.** Keys are `from + ":" + to`, so identifiers with colons can share a counter, and
  a hop never taken is refused (`SharedCounterRefusesUntakenHop`). Over a set of names all counters of all
  runs are exact if and only if the concatenation tells all pairs of names apart (`CountersExactIff`), as it
  does for names without colons.
- **Version-only UPDATE.** The row's state is not compared. With snapshots this is safe
  (`EveryRunIsConsistent`); a caller that names another state can commit a forbidden edge, unless the
  named state is terminal (`ForgedExpiry`, `ForgedStateSafeIff`).
- **Expiry sweep.** `docs/architecture.md:257` shows WaitingForHuman → Expired, `pkg/runtime/fsm.go:7-10`
  forbids it, and the model follows the code: the sweep stops with an error at the first overdue session
  that waits for a human, and all later ones stay (`WaitingSessionBlocks`, `SweepCompleteIff`).
- **Negative overlap.** The chunker then skips text between chunks; every character is kept if and only if
  the overlap is not negative or the text fits one chunk (`NegativeOverlapSkips`, `CoversAllIff`).
- **Cancel functions.** Calling one twice closes a closed channel; nothing else panics
  (`SecondCancelExample`, `PanicsIffCancelledTwice`).
- **Overlapping attempts.** Two attempts of one job at the same time can store two replies
  (`OverlapRepliesTwice`), or execute a tool twice (`OverlapExecutesTwice`); attempts that do not overlap
  cannot (`AtMostOneReply`, `ExecutionsAccounted`). Starting an attempt is safe if and only if no other attempt
  of that job, or for that key, is in flight (`StartIsSafeIff` of either protocol).
- **Top-K.** The result is guaranteed to be a true top-K by vector score if and only if alpha is 1 or the
  corpus fits the candidate list (`GloballyBestIff`, `BestVectorCanBeMissed`); the scores that show the
  only-if are ones cosine similarity and text ranking can have.
- **Rate limit.** `docs/requirements.md:80` asks for a sliding window; the code has a fixed one. Sixty
  seconds can pass twice the limit (`BurstReachesBound`), never more (`SixtySecondBound`), and the sliding
  bound holds only for limits that let nothing through (`SlidingBoundIff`).
- **Human in the loop.** An uncertain write on a session that already waits for a human makes the job
  fail with an invalid transition (`EscalationParksActive`).

## Model

| member | source | states |
|---|---|---|
| GraphTheorems.InvariantHolds | pkg/graph/engine.go:36-109 | At every turn of every run: the stack is a repetition-free walk along edges from the start to the current node, completed runs are chained by edges and data, every loop-back taken is within the largest limit of its hop, and the number of runs is below nodes × loop-backs + stack length |
| GraphTheorems.Termination | pkg/graph/engine.go:46-109 | Every run halts after at most nodes × (1 + sum over hops of the largest limit) node runs, the run of a node that returns an error included |
| GraphTheorems.TurnMakesProgress | pkg/graph/engine.go:46-109 | Each turn ends the run for good or shrinks the measure (loop-backs left, room on the stack) |
| GraphTheorems.RunsWithinBound | pkg/graph/engine.go:82-103 | A walk that satisfies the invariant has made fewer runs than the bound |
| GraphTheorems.LoopStaysWithinLimits | pkg/graph/engine.go:88-92 | A loop-back the engine allows keeps every hop within its largest limit |
| GraphTheorems.TurnKeepsInvariant | pkg/graph/engine.go:46-109 | One turn from any walk that satisfies the invariant keeps it |
| GraphTheorems.HaltIsFinal | pkg/graph/engine.go:46-111 | A halted run stays as it is |
| GraphModel.FirstEdgeIs | pkg/graph/engine.go:63-74 | The edge chosen is the first in list order whose predicate is absent or holds |
| GraphEngine.Execute | pkg/graph/engine.go:29-112 | With stack, index map and string-keyed counters, returns the outcome and makes the node runs of the state machine, for any graph, stateful nodes and cancellation; terminates. What that outcome is, is said without the state machine by `GraphOutcomes.ResultIff` |
| GraphEngine.MoveAlong | pkg/graph/engine.go:80-103 | From agreeing stack, index map and counters: refuses exactly the loop-backs the state machine refuses, with its error, and otherwise leaves all three agreeing with its next walk |
| GraphEngine.PopTo | pkg/graph/engine.go:93-98 | Popping leaves the stack up to the target, and the index map is again its exact inverse |
| GraphEngine.IndexMapIsSearch | pkg/graph/engine.go:82 | The map test and index equal a linear search of the stack |
| GraphEngine.SelectEdge | pkg/graph/engine.go:63-74 | The loop over the edges picks the specified edge |
| GraphEngine.ShallowCopyData | pkg/graph/engine.go:114-125 | Nil stays nil; otherwise a new map with the same entries |
| GraphEngine.CountersGrow | pkg/graph/engine.go:88 | Incrementing one key records one more loop-back for all hops sharing the key and for no other |
| GraphOutcomes.ResultIff | pkg/graph/engine.go:29-112 | For every graph, predicates, stateful nodes and cancellation: an outcome with visits is the result if and only if each visit is the run of the node due then, uncancelled and with what the node answered, and the outcome names the reason why it ends: no open edge on the last output, cancellation, the error the node due returned, a missing start or target, or a first open edge back onto the stack whose limit is zero or used up |
| GraphOutcomes.ChosenLeaves | pkg/graph/engine.go:63-74 | The walk leaves by the first edge without predicate or with one that holds, and ends exactly if there is none |
| GraphOutcomes.TurnTraced | pkg/graph/engine.go:36-109 | At every turn stack, counters, node and input are those that follow from the completed runs alone |
| GraphOutcomes.RunsAgree | pkg/graph/engine.go:46-109 | Graph, input and cancellation leave no choice about the runs |
| GraphOutcomes.OutcomeUnique | pkg/graph/engine.go:46-111 | At most one reason to end fits given runs |
| GraphClosedForm.LongestFirstEdgeWalkExists | pkg/graph/engine.go:63-71 | Every well-formed graph has a longest repetition-free walk of first edges |
| GraphClosedForm.LongestWalkEnds | pkg/graph/engine.go:63-82 | Such a walk ends without an edge or closes at one of its own positions, so the next two rows cover all runs |
| GraphClosedForm.StraightRun | pkg/graph/engine.go:46-111 | Without a closing edge: success after running each node of the walk once, in order |
| GraphClosedForm.LoopingRun | pkg/graph/engine.go:80-103 | Closing at j with limit k: the runs are the walk and max(k,0) more rounds of its loop, m + max(k,0)·(m−j) in all; ErrCycleDetected if k is 0, otherwise ErrMaxIterationsExceeded |
| GraphClosedForm.Rounds | pkg/graph/engine.go:88-103 | Every allowed round is completed, and the counter equals the rounds closed |
| GraphClosedForm.FollowLoopBack | pkg/graph/engine.go:82-98 | An allowed loop-back pops to the edge's target and counts once under its key |
| GraphTheorems.HaltIsResult | pkg/graph/engine.go:46-111 | Whatever turn a run halts in, that is what `Execute` returns |
| GraphAcyclic.AcyclicRunsAreSafe | pkg/graph/engine.go:63-108 | With a topological rank: runs climb the ranks, no node runs twice, each receives its predecessor's output, and neither cycle error is returned |
| GraphAcyclic.HaltedVisitsChained | pkg/graph/engine.go:105-108 | On any graph, each run of a finished walk follows an edge and receives the previous output |
| GraphAcyclic.AcyclicHalt | pkg/graph/engine.go:82-92 | A ranked graph never ends with a cycle error, whatever predicates and limits say |
| GraphCounters.ColonFreeKeysDistinct | pkg/graph/engine.go:80 | With colon-free sources the counter key determines the hop |
| GraphCounters.CounterExactIff | pkg/graph/engine.go:80-88 | A counter is at least the loop-backs of its hop, and equal if and only if no other hop with that key was taken |
| GraphCounters.DistinctCountersExact | pkg/graph/engine.go:80-88 | If no two edges of the graph share a key, every edge's counter is exact at every turn |
| GraphCounters.CountersExactIff | pkg/graph/engine.go:80-88 | For any set of names: the counters are exact in every run of every graph over these names if and only if `from + ":" + to` tells all pairs of them apart |
| GraphCounters.ColonFreeSourcesDistinct | pkg/graph/engine.go:80 | With colon-free sources no two edges share a key, whatever the targets |
| GraphCounters.ColonFreeNamesInjective | pkg/graph/engine.go:80 | Colon-free names meet that condition |
| GraphCounters.ColonFreeCountersExact | pkg/graph/engine.go:80-88 | With colon-free sources every counter is exact at every turn |
| GraphCounters.LimitErrorExact | pkg/graph/engine.go:82-92 | If no two edges share a key, ErrMaxIterationsExceeded is returned exactly when the chosen edge returns to the stack, has a non-zero limit and was taken that often |
| GraphCounters.SharedCounterRefusesUntakenHop | pkg/graph/engine.go:80-92 | With colons, a hop taken zero times is refused with limit 1 |
| GraphRegistry.NodeRegistry.constructor | pkg/graph/registry.go:15-18 | A new registry has no factories |
| GraphRegistry.NodeRegistry.Register | pkg/graph/registry.go:32-35 | Replaces or adds exactly that kind's factory |
| GraphRegistry.NodeRegistry.Build | pkg/graph/registry.go:37-44 | The factory's answer, or an error for an unknown kind |
| GraphRegistry.NodeRegistry.BuildNodes | pkg/graph/registry.go:50-57 | All nodes by their own factories, or the error of one that does not build |
| GraphRegistry.NodeRegistry.BuildGraph | pkg/graph/registry.go:46-77 | In any map order: succeeds exactly when all nodes build, the start is defined and every target is defined; keeps nodes, and per source the order, targets and limits of the edges; an error names a real fault |
| GraphRegistry.BuildEdges | pkg/graph/registry.go:63-74 | One source's edges in order without predicates, or the first undefined target |
| GraphRegistry.NodesAreFactoryMade | pkg/graph/registry.go:37-57 | Every node was made by its kind's factory from its own identifier and definition |
| GraphRegistry.UnknownKindFails | pkg/graph/registry.go:38-41 | A definition with an unknown kind is not built |
| GraphRegistry.BuiltGraphsAreWellFormed | pkg/graph/registry.go:49-77 | What is built is well-formed and unconditional, as the closed form requires |
| GraphRegistry.NeverNodeNotFound | pkg/graph/engine.go:30-32 | On a well-formed graph no run ends with ErrNodeNotFound, at the start, at a node or at a target |
| SessionFsm.TransitionTable | pkg/runtime/fsm.go:5-27 | Exactly Completed and Expired have no way out, and between different live states only WaitingForHuman → Expired is missing |
| SessionStore.SessionRepository.Create | pkg/runtime/session_repo.go:19-33 | Adds the row under the caller's tenant; a taken identifier, an expiry that is not in the future, or an unknown tenant or user is refused and changes nothing; an insert whose acknowledgement is lost reports an error |
| SessionStore.SessionRepository.GetByID | pkg/runtime/session_repo.go:35-53 | The tenant's own row, or not found |
| SessionStore.SessionRepository.Transition | pkg/runtime/session_repo.go:77-99 | Checks the edge between the states the caller names, then updates the row whose version, but not state, matches; otherwise one of the two errors and no change |
| SessionStore.CommitsIff | pkg/runtime/session_repo.go:77-99 | It commits exactly for an allowed edge on the tenant's own row at the named version, sets state and version and nothing else, and reports which of the two errors otherwise |
| SessionStore.CreatesIff | pkg/runtime/session_repo.go:28-32 | A session is stored exactly if its identifier is free, its expiry lies ahead and nothing is refused |
| SessionStore.SessionRepository.ListExpired | pkg/runtime/session_repo.go:101-125 | Exactly the overdue live sessions of all tenants, once each |
| SessionProtocol.EveryRunIsConsistent | pkg/runtime/session_repo.go:77-99 | In every interleaving of clients that pass on a snapshot: every committed update is an allowed edge from the row's actual state, version = initial + commits, and snapshots agree with the history |
| SessionProtocol.MatchingVersionMeansCurrent | pkg/runtime/session_repo.go:89-94 | A snapshot with the row's version has the row's state |
| SessionProtocol.OneCommitPerSnapshot | pkg/runtime/session_repo.go:89-97 | Of two commits to one row the later used a snapshot of a higher version, so one snapshot commits at most once |
| SessionProtocol.RunMovesForward | pkg/runtime/session_repo.go:89-94 | Rows stay, versions never fall, an unchanged version means an unchanged row, a terminal row never changes |
| SessionProtocol.TerminalIsAbsorbing | pkg/runtime/fsm.go:5-10 | No continuation of a run changes a Completed or Expired session |
| SessionProtocol.ForgedStateSafeIff | pkg/runtime/session_repo.go:80-94 | With a matching version, a named state can commit only allowed edges if and only if it is the row's own or terminal |
| SessionProtocol.ForgedExpiry | pkg/runtime/session_repo.go:80-94 | A session that waits for a human is expired by a caller naming it Active, an edge the state machine forbids |
| ExpirySweep.ExpireSessionsWorker.Work | pkg/runtime/jobs.go:214-232 | With arbitrary calls of other clients before each turn: sessions before the first listed as WaitingForHuman are moved Active→Expired, or were changed since listing and left alone; at that one the sweep stops with ErrInvalidTransition and touches nothing more |
| ExpirySweep.EveryTurnSettled | pkg/runtime/jobs.go:219-230 | Every turn of such a history met an Active session and settled it, starting from what the others left |
| ExpirySweep.SweepCompleteIff | pkg/runtime/jobs.go:219-231 | Undisturbed, everything listed is expired if and only if nothing listed was waiting for a human; the rest keeps its rows |
| ExpirySweep.SweepSucceedsIff | pkg/runtime/jobs.go:219-231 | Whatever other clients do meanwhile, the sweep succeeds if and only if nothing it listed was waiting for a human |
| ExpirySweep.ListedIsOverdue | pkg/runtime/session_repo.go:104-111 | A session is listed exactly if its expiry has passed and it has not ended |
| ExpirySweep.TurnTouchesOnlyOverdue | pkg/runtime/jobs.go:219-230 | Whatever others do, a turn of the sweep changes no row but that of an Active session whose expiry had passed |
| ExpirySweep.UnexpiredUntouched | pkg/runtime/jobs.go:219-230 | A session whose expiry is still ahead is left alone |
| ExpirySweep.WaitingSessionBlocks | pkg/runtime/jobs.go:219-230 | An overdue Active session listed after a waiting one stays Active, and the sweep fails |
| ExpirySweep.TurnSettles | pkg/runtime/jobs.go:222-229 | What the sweep's call does to a session listed earlier, and that it moves other listed sessions only onward |
| AtLeastOnce.SerialRunsBalance | pkg/runtime/tool_job.go:76-97 | For the pattern shared by both workers, over any interleaving in which attempts for one key do not overlap and may stop anywhere: at most one record per key, and acts = records + acts of attempts that stopped in between + at most one pending |
| AtLeastOnce.NoActAfterRecord | pkg/runtime/tool_job.go:76-83 | Once a key has a record it keeps it and is never acted on again |
| AtLeastOnce.OverlapRecordsTwice | pkg/runtime/jobs.go:68-75 | Two overlapping attempts for one key can act twice and record twice |
| AtLeastOnce.RecordedAgainIff | pkg/runtime/tool_job.go:76-97 | In the accounts, a recorded key can be recorded again if and only if an attempt for it is still in flight |
| AtLeastOnce.EmptyIsBalanced | pkg/runtime/tool_job.go:76-97 | The accounts balance where nothing has happened yet |
| ReplyProtocol.StepIsEntry | pkg/runtime/jobs.go:64-157 | Every check, answer, save and stop on the message table is that step of the accounts, and a message of other origin is none |
| ReplyProtocol.RunIsLedgerRun | pkg/runtime/jobs.go:64-157 | Every interleaved run on the message table is a run of the accounts, and a serial one a serial one |
| ReplyProtocol.AtMostOneReply | pkg/runtime/jobs.go:68-157 | From a table without replies, over every interleaving in which attempts of one job do not overlap and may stop anywhere: no two messages carry the same job of the same tenant |
| ReplyProtocol.AnswersAccounted | pkg/runtime/jobs.go:133-157 | In such runs, per job: the model's answers are its replies in the table, plus answers of attempts that stopped before the insert, plus at most one still to be stored |
| ReplyProtocol.NoAnswerOnceReplied | pkg/runtime/jobs.go:68-75 | Once the table holds a job's reply, the model never answers for that job again |
| ReplyProtocol.OverlapRepliesTwice | pkg/runtime/jobs.go:68-75 | For any wanted job, two overlapping attempts put both replies into the table |
| ReplyProtocol.StartIsSafeIff | pkg/runtime/jobs.go:68-75 | In any accounted state, a wanted job keeps at most one reply in every further run without new overlaps if and only if, when its attempt started, no other attempt of it was in flight |
| ReplyProtocol.RepliedAgainIff | pkg/runtime/jobs.go:68-75 | A job that has its reply can get another one if and only if an attempt of it is in flight |
| ReplyProtocol.AttemptRun | pkg/runtime/jobs.go:64-157 | What one attempt leaves, whatever earlier attempts have answered and lost |
| ReplyProtocol.WantedIff | pkg/runtime/jobs.go:68-85 | A job is wanted exactly if no row carries it for its tenant and its tenant's session is Active or WaitingForHuman |
| ReplyProtocol.ReplyKeysFind | pkg/runtime/jobs.go:68-75 | A key is in the list of replies exactly when some row of that tenant has that job |
| ToolProtocol.StepIsEntry | pkg/runtime/tool_job.go:60-97 | Every check, execution, audit write and stop on the audit table is that step of the accounts; a job that is no write, or needs a human, is none |
| ToolProtocol.RunIsLedgerRun | pkg/runtime/tool_job.go:60-97 | Every interleaved run on the audit table is a run of the accounts, and a serial one a serial one |
| ToolProtocol.ExecutionsAccounted | pkg/runtime/tool_job.go:60-97 | From empty tables, over every interleaving in which attempts for one key do not overlap and may stop anywhere: at most one audit row per key, and executions = audit rows + executions of attempts that stopped before the audit write + at most one pending |
| ToolProtocol.NoExecutionOnceAudited | pkg/runtime/tool_job.go:76-83 | Once a key has its audit row, nothing is executed under it again |
| ToolProtocol.StartIsSafeIff | pkg/runtime/tool_job.go:76-83 | In any accounted state, a key without audit row keeps at most one in every further run without new overlaps if and only if, when its attempt started, no other attempt for it was in flight |
| ToolProtocol.AuditedAgainIff | pkg/runtime/tool_job.go:76-83 | A key that has its audit row can get another one if and only if an attempt for it is in flight |
| ToolProtocol.OverlapExecutesTwice | pkg/runtime/tool_job.go:76-97 | Two overlapping attempts for one key execute the tool twice and write two audit rows |
| ToolProtocol.AttemptRun | pkg/runtime/tool_job.go:60-97 | What one attempt leaves, whatever earlier attempts have left without an audit row |
| ToolProtocol.MoreConfidenceGoesAhead | pkg/runtime/tool_job.go:60-74 | Every write goes ahead or needs a human, at the threshold it goes ahead, and more confidence never takes it back to a human |
| ResponseWorker.GenerateResponseWorker.Work | pkg/runtime/jobs.go:64-170 | The model is asked exactly when the job has no reply, the session is live and the inputs can be read; the request is the one below; the table gains exactly one row exactly when the model answers and the insert happens, with the job's session, tenant and key, role assistant, the model's text and token count, and the citations; which attempts succeed; for all earlier answers and losses, the attempt is a run of the reply protocol |
| ResponseWorker.GenerateResponseWorker.Serve | pkg/runtime/jobs.go:64-170 | From a table without replies, over any sequence of attempts, other messages and session changes: a serial run of the protocol, no job has two replies, and per job answers = replies + answers never stored |
| ResponseWorker.GenerateResponseWorker.CheckJob | pkg/runtime/jobs.go:68-85 | Which attempts end early, and which of those count as done |
| ResponseWorker.GenerateResponseWorker.Prepare | pkg/runtime/jobs.go:87-131 | The request is built from the 4096-token window, the retrieved context and the prompt |
| ResponseWorker.GenerateResponseWorker.RetrieveContext | pkg/runtime/jobs.go:93-109 | Asks about the newest user turn; failure or nothing found means no context and no citations |
| ResponseWorker.GenerateResponseWorker.BuildRequest | pkg/runtime/jobs.go:117-131 | Prompt, then context, each if not empty, then the window with user turns sanitized |
| ResponseWorker.GenerateResponseWorker.BuildTurns | pkg/runtime/jobs.go:125-131 | The window turn by turn, user content sanitized, other content verbatim |
| ResponseWorker.UserTurnsAreClean | pkg/runtime/jobs.go:117-131 | No stretch of a user turn sent to the model matches any of the five expressions |
| ResponseWorker.RequestFields | pkg/runtime/jobs.go:117-131 | Turn by turn: the prompt, then the context, each if there is one, as system turns; then one turn per message with its role, verbatim unless it is a user message in which an expression matches |
| ResponseWorker.ContextIs | pkg/runtime/jobs.go:93-109 | The retriever is asked about the content of the newest user turn, and only found chunks become context and citations |
| ResponseWorker.WindowOf4096 | pkg/runtime/jobs.go:87-91 | The request is that for a window of 4096 tokens |
| ResponseWorker.RequestUnique | pkg/runtime/jobs.go:87-131 | Stored messages and the world determine the request and its citations |
| ToolWorker.ExecuteToolWorker.Work | pkg/runtime/tool_job.go:51-103 | Only tools registered as Write with confidence at or above the threshold are executed and audited, exactly when the key is not audited, the check answers and the tool succeeds; a registered write below the threshold changes neither table and parks an Active session of the tenant; the audit row follows unless the attempt stops; which attempts succeed; for all earlier losses, the attempt is a run of the tool protocol |
| ToolWorker.ExecuteToolWorker.RunWrite | pkg/runtime/tool_job.go:76-97 | The check, the execution and the audit write of a write that goes ahead, with every way to stop in between |
| ToolWorker.ExecuteToolWorker.Serve | pkg/runtime/tool_job.go:51-103 | From empty tables, over any sequence of attempts: a serial run of the protocol, at most one audit row per key, and executions = audit rows + executions never audited |
| ToolWorker.ExecuteToolWorker.Escalate | pkg/runtime/tool_job.go:60-74 | Moves the session to WaitingForHuman through a snapshot; a lost race is not an error |
| ToolWorker.EscalationParksActive | pkg/runtime/tool_job.go:66-73 | A session is parked exactly if it was Active; otherwise it keeps its row and the job fails |
| Messages.MessageRepository.Create | pkg/runtime/message_repo.go:19-33 | Appends the message under the caller's tenant unless the database refuses it, and reports success only if it was written and acknowledged |
| Messages.MessageRepository.GetByJobID | pkg/runtime/message_repo.go:81-98 | A row of that tenant and job, or none exists |
| Messages.MessageRepository.ListForSession | pkg/runtime/message_repo.go:38-79 | In chronological order, the longest suffix of the session's history all of whose suffixes cost at most maxTokens; the whole history if maxTokens is zero or less |
| Messages.ReadNewestFirst | pkg/runtime/message_repo.go:54-70 | The scan stops exactly at the end of that suffix |
| Messages.ReverseInPlace | pkg/runtime/message_repo.go:74-77 | The in-place swap loop reverses the slice |
| Messages.WindowUnique | pkg/runtime/message_repo.go:54-70 | History and budget determine the window |
| Messages.HistoryGrows | pkg/runtime/message_repo.go:43-48 | A new row goes to the end of the history of its own session and tenant, and of no other |
| Messages.TokensAddUp | pkg/runtime/message_repo.go:63-64 | Counts add up, and a message without a count adds nothing |
| Messages.WindowIsWhole | pkg/runtime/message_repo.go:55-70 | A history that costs at most the budget is returned whole, as is any history without a budget |
| Messages.WindowIsLongest | pkg/runtime/message_repo.go:63-68 | With one message more than the window the budget would be exceeded |
| Messages.NewestUserIs | pkg/runtime/jobs.go:172-180 | The query is the content of the user message after which no other user message comes |
| Messages.NewestTurnSurvives | pkg/runtime/jobs.go:172-180 | If the newest message is an uncounted user turn, the worker asks about it for every budget |
| Messages.OlderFreeMessagesAreDropped | pkg/runtime/message_repo.go:63-68 | Everything older than the first unaffordable message is dropped, free messages included |
| Messages.LastUserMessage | pkg/runtime/jobs.go:172-180 | The content of the newest user turn, or the empty string |
| Sanitizer.SanitizeInput | pkg/aicore/sanitize.go:22-27 | The loop computes the chain of replacements, which `SanitizerSearch` describes without the matcher |
| SanitizerSearch.FindIff | pkg/aicore/sanitize.go:8-24 | For the five expressions the match replaced is exactly the leftmost and, from there, the longest one; none is found exactly if nothing matches |
| SanitizerSearch.ExpressionsDescend | pkg/aicore/sanitize.go:8-14 | Leftmost-first choice is longest choice for each of the five expressions |
| SanitizerSearch.FirstReplaced | pkg/aicore/sanitize.go:17-25 | Text up to that match is kept, the match becomes "[filtered]", and the rest is treated likewise |
| SanitizerSearch.SanitizedIsStage | pkg/aicore/sanitize.go:22-27 | The five expressions are replaced one after the other in the order in which they are listed |
| SanitizerSearch.ExpressionsAre | pkg/aicore/sanitize.go:8-14 | Which phrases the first to fifth expression stand for |
| SanitizerSearch.PhraseAlone | pkg/aicore/sanitize.go:8-27 | A text that is one phrase, with no match of an earlier expression, becomes "[filtered]" |
| SanitizerSearch.IgnoreIsFiltered | pkg/aicore/sanitize.go:9-27 | In any mixture of cases and with any white space, a text that is the first phrase becomes "[filtered]" |
| Phrases.FoldSpells | pkg/aicore/sanitize.go:8-14 | Case folding identifies a small letter with itself, its capital, and U+017F for s or U+212A for k, and with nothing else |
| Sanitizer.SanitizedIsClean | pkg/aicore/sanitize.go:8-27 | No stretch of the output matches any of the five expressions, for all strings |
| Sanitizer.SanitizeFixesIff | pkg/aicore/sanitize.go:8-27 | Text is unchanged exactly when no stretch of it matches any of the five expressions |
| Sanitizer.SanitizeIdempotent | pkg/aicore/sanitize.go:22-27 | Sanitizing twice equals sanitizing once |
| Sanitizer.PatternReplaceable | pkg/aicore/sanitize.go:8-14 | A pattern whose expression is a phrase has a leftmost-match search and a language of bracket-free strings with white space |
| Sanitizer.Expression | pkg/aicore/sanitize.go:8-14 | Each of the five concrete expressions is a phrase |
| Sanitizer.PhrasesAreFiltered | pkg/aicore/sanitize.go:8-14 | Text that contains a match of one of the five expressions is changed, whatever stands around it |
| Phrases.IgnorePhrase | pkg/aicore/sanitize.go:9 | The first expression matches exactly: "ignore", white space, "all" and white space if present, one of "previous", "prior" and "above", white space, "instruction" or "instructions", in any case |
| Phrases.ForgetPhrase | pkg/aicore/sanitize.go:10 | The second matches exactly: "forget", white space, "everything" or "all instruction(s)", in any case and with any white space |
| Phrases.YouAreNowPhrase | pkg/aicore/sanitize.go:11 | The third matches exactly: "you are now" in any case and with any white space, then a word |
| Phrases.DisregardPhrase | pkg/aicore/sanitize.go:12 | The fourth matches exactly: "disregard", "all" if present, "previous" or "prior", "instruction(s)", in any case and with any white space |
| Phrases.ActAsPhrase | pkg/aicore/sanitize.go:13 | The fifth matches exactly: "act as", then "a" or "if you are", in any case and with any white space, then a word |
| Replacement.ReplaceAllLiteralString | pkg/aicore/sanitize.go:22-25 | The left-to-right loop over non-overlapping matches computes the specified text |
| Replacement.ReplaceRemovesAll | pkg/aicore/sanitize.go:22-25 | After one replacement the pattern does not occur |
| Replacement.ReplaceIntroducesNothing | pkg/aicore/sanitize.go:17-25 | A replacement creates no match of any pattern that did not occur before |
| Replacement.ReplaceFixesIff | pkg/aicore/sanitize.go:22-25 | One replacement changes the text exactly when the pattern occurs |
| Replacement.FilteredIsClean | pkg/aicore/sanitize.go:22-27 | For any chain of such patterns the result has no match of any of them |
| Regex.EndsSound | pkg/aicore/sanitize.go:8-14 | The backtracking matcher offers only ends of strings in the language |
| Regex.EndsComplete | pkg/aicore/sanitize.go:8-14 | The matcher offers the end of every string in the language |
| Regex.FindLeftmost | pkg/aicore/sanitize.go:22-25 | If a match starts at a position, the search finds one no later |
| Chunker.Split | pkg/knowledge/ingestion/chunker.go:21-53 | With the default for a non-positive size and the step rule, produces the specified windows |
| Chunker.SlideWindow | pkg/knowledge/ingestion/chunker.go:36-52 | The loop yields windows numbered from zero, one step apart, stopping at the first that reaches the end or has no successor inside the text |
| Chunker.ChunkingUnique | pkg/knowledge/ingestion/chunker.go:21-53 | Text and configuration determine the chunks |
| Chunker.StrideIs | pkg/knowledge/ingestion/chunker.go:21-34 | Size minus overlap if that is positive, the size otherwise; 1800 of 2000 for a size that is not positive |
| Chunker.ChunkFields | pkg/knowledge/ingestion/chunker.go:36-47 | Chunk i starts i·(size − overlap) into the text, is numbered i, and counts a token for every four characters |
| Chunker.OverlapIsShared | pkg/knowledge/ingestion/chunker.go:31-51 | Neighbours share exactly the configured overlap |
| Chunker.ChunkingIsLossless | pkg/knowledge/ingestion/chunker.go:31-51 | For overlap ≥ 0, dropping size − step runes from every later chunk and concatenating gives the text |
| Chunker.ConsecutiveChunksShare | pkg/knowledge/ingestion/chunker.go:31-51 | Neighbours share exactly size − step runes, and each chunk adds at least one |
| Chunker.CountForOverlap | pkg/knowledge/ingestion/chunker.go:36-51 | One chunk if the text fits, otherwise 1 + ⌈(total − size)/step⌉ |
| Chunker.CoversAllIff | pkg/knowledge/ingestion/chunker.go:31-51 | Every rune is in a chunk if and only if the overlap is not negative or one chunk suffices |
| Chunker.NegativeOverlapSkips | pkg/knowledge/ingestion/chunker.go:31-51 | With size 1 and overlap −1 the second rune of "abc" is in no chunk |
| IngestionModel.EveryRunIsSound | pkg/knowledge/ingestion/pipeline.go:57-139 | However attempts run, overlap and stop: at most one row per document and index, each with that chunk's own content and embedding, and Ready only when all rows are there |
| IngestionModel.CleanAttemptConverges | pkg/knowledge/ingestion/pipeline.go:57-78 | From whatever earlier attempts left, one undisturbed attempt makes the document Ready with exactly its rows; a Ready document is not touched |
| IngestionModel.FreshIsSound | pkg/knowledge/ingestion/pipeline.go:57-67 | Pending documents without rows are a sound start |
| IngestionModel.InsertGenuine | pkg/knowledge/ingestion/indexer.go:40-43 | A conflict-ignoring insert keeps keys unique and leaves the right row in the table either way |
| IngestionModel.AttemptEnds | pkg/knowledge/ingestion/pipeline.go:68-77 | The database after an attempt that indexed n chunks and ended in any of its ways |
| IngestionPipeline.Pipeline.Ingest | pkg/knowledge/ingestion/pipeline.go:57-78 | Performs steps of the attempt machine; the statuses afterwards for every failure, lost acknowledgements included; succeeds exactly when the document was Ready or every stage and both status updates succeed, and then it is Ready; from a sound start, success means one row per chunk of the text, each with the scrubbed content, the vector of that content and the chunk's token count |
| IngestionPipeline.ReadyRowsHold | pkg/knowledge/ingestion/pipeline.go:111-138 | In a sound database a Ready document has exactly those rows |
| IngestionPipeline.StatusRules | pkg/knowledge/ingestion/pipeline.go:68-77 | The status an attempt leaves, case by case; other documents keep theirs |
| IngestionPipeline.Pipeline.Reprocess | pkg/knowledge/ingestion/pipeline.go:68-77 | The attempt on a document that is there and not Ready: steps of the attempt machine, statuses, and when it succeeds |
| IngestionPipeline.Pipeline.Complete | pkg/knowledge/ingestion/pipeline.go:72-77 | Once marked: the rows looked after, the final status for every failure, and when it succeeds |
| IngestionPipeline.Pipeline.Serve | pkg/knowledge/ingestion/pipeline.go:57-78 | Over any sequence of registrations and attempts in worlds that show the same sources: the stored rows and statuses stay sound, and a document is Ready once any of its attempts met no failure |
| IngestionPipeline.Pipeline.Process | pkg/knowledge/ingestion/pipeline.go:80-139 | Rows of a prefix of the source's chunks are looked after, all of them exactly when every stage succeeds |
| IngestionPipeline.Prepare | pkg/knowledge/ingestion/pipeline.go:81-135 | Succeeds exactly when fetching, size limit, parsing, chunking and every batch do; each chunk then has the scrubbed content, the vector of that content, and the number and token count it was cut with; the embedder is given scrubbed text only |
| IngestionPipeline.ScrubAndEmbed | pkg/knowledge/ingestion/pipeline.go:111-134 | The two in-place steps on the cut chunks, in that order |
| IngestionPipeline.TooLarge | pkg/knowledge/ingestion/pipeline.go:92-94 | A document of more than a hundred mebibytes is not taken |
| IngestionPipeline.Scrub | pkg/knowledge/ingestion/pipeline.go:111-114 | In place, changes each content and nothing else |
| IngestionPipeline.EmbedAll | pkg/knowledge/ingestion/pipeline.go:116-135 | In place, gives each chunk the vector of its own content; the embedder is given all contents in order, in batches of at most 16; fails exactly when some batch fails |
| IngestionPipeline.PreparedChunksNumbered | pkg/knowledge/ingestion/chunker.go:43-47 | Whatever scrubber and embedder do, chunk i is numbered i |
| IngestionPipeline.Indexer.Index | pkg/knowledge/ingestion/indexer.go:29-62 | Inserts the chunks in order, skipping taken keys, up to the point of failure |
| IngestionPipeline.DocumentRepository.Create | pkg/knowledge/ingestion/indexer.go:90-104 | Adds a document with its status unless the identifier is taken or the database refuses; success means written and acknowledged |
| IngestionPipeline.DocumentRepository.GetByID | pkg/knowledge/ingestion/indexer.go:106-123 | The document's status, or not found |
| IngestionPipeline.DocumentRepository.UpdateStatus | pkg/knowledge/ingestion/indexer.go:125-141 | Sets one document's status; an unknown document, a refusal and a lost acknowledgement are errors, the last with the status written |
| BroadcastModel.EveryRunIsRegistered | pkg/channel/web/broadcaster.go:37-71 | In every run: no session maps to an empty set, the sets hold exactly the open channels of their session, no buffer exceeds 16 |
| BroadcastModel.PanicsIffCancelledTwice | pkg/channel/web/broadcaster.go:61-69 | A run panics exactly when a cancel function is called twice; in particular nothing is sent on a closed channel |
| BroadcastModel.SecondCancelExample | pkg/channel/web/broadcaster.go:61-69 | Subscribing and cancelling twice panics |
| BroadcastModel.ClosedIffCancelled | pkg/channel/web/broadcaster.go:61-69 | A channel is closed exactly when it has been cancelled |
| BroadcastLedger.LedgerBalances | pkg/channel/web/broadcaster.go:37-47 | For each subscriber, received plus buffered is an in-order subsequence of what was published to its session while subscribed, and with the lost messages makes up all of it |
| BroadcastLedger.LostIffFull | pkg/channel/web/broadcaster.go:40-45 | A message is lost on a subscriber exactly when it has 16 unread |
| BroadcastLedger.SixteenAreKept | pkg/channel/web/broadcaster.go:40-52 | Of any messages published to a subscriber that does not read, exactly the first sixteen are kept |
| BroadcastLedger.AcceptedStep | pkg/channel/web/broadcaster.go:40-45 | A step adds the published message to what an addressed subscriber with room has accepted, and changes nothing else of it |
| BroadcastLedger.SessionsAreIsolated | pkg/channel/web/broadcaster.go:37-71 | Leaving out all operations on other sessions changes nothing for a session |
| MemoryBroadcast.MemoryBroadcaster.constructor | pkg/channel/web/broadcaster.go:29-32 | A new broadcaster has no subscribers |
| MemoryBroadcast.OfferAll | pkg/channel/web/broadcaster.go:40-45 | In any order, every subscriber is offered the message once and no other channel changes |
| MemoryBroadcast.MemoryBroadcaster.Publish | pkg/channel/web/broadcaster.go:37-47 | The loop of non-blocking sends, in any order, is the publish step |
| MemoryBroadcast.MemoryBroadcaster.Subscribe | pkg/channel/web/broadcaster.go:51-59 | Registers a fresh empty channel, creating the session's set if needed |
| MemoryBroadcast.MemoryBroadcaster.Cancel | pkg/channel/web/broadcaster.go:61-69 | Unregisters and closes the channel, removes an empty set, panics exactly if already closed |
| RateLimit.RedisRateLimiter.Allow | pkg/middleware/ratelimit.go:32-46 | Increment, expiry on the first hit and the comparison; an error is reported exactly when a command that was sent reports one, whether it took effect or not; otherwise the answer is whether the counter is within the limit |
| RateLimit.FirstHitExpires | pkg/middleware/ratelimit.go:35-44 | The first hit of a minute starts its counter at one, due to expire sixty seconds later, and touches no other |
| RateLimit.KeysChangeByMinute | pkg/middleware/ratelimit.go:33 | A tenant has one key per full minute |
| RateLimit.CountersAreExact | pkg/middleware/ratelimit.go:33-44 | On a monotone clock key expiry never resets a counter inside its own minute: it equals the minute's hits |
| RateLimit.PassesIff | pkg/middleware/ratelimit.go:35-45 | A call passes exactly when the minute's hits with this one are within the limit and no command it sends reports an error |
| RateLimit.MinuteBound | pkg/middleware/ratelimit.go:32-46 | Each minute passes at most the limit per tenant |
| RateLimit.SixtySecondBound | pkg/middleware/ratelimit.go:32-46 | Any sixty seconds pass at most twice the limit |
| RateLimit.BurstReachesBound | pkg/middleware/ratelimit.go:33 | For every limit some sixty seconds pass exactly twice the limit |
| RateLimit.SlidingBoundIff | pkg/middleware/ratelimit.go:19-33 | The documented sliding-window bound holds exactly for limits that let nothing through |
| RateLimit.OthersDoNotMatter | pkg/middleware/ratelimit.go:33 | Whether a call passes depends only on the same tenant's earlier calls |
| Retrieval.Retrieve | pkg/knowledge/retrieval/retriever.go:60-113 | Asks for max(10, 2·topK) rows, blends their scores and returns their re-ranking; fails exactly when embedding or query fails |
| Retrieval.CandidateCountIs | pkg/knowledge/retrieval/retriever.go:79-82 | Twice as many candidates as chunks wanted, at least ten |
| Retrieval.BlendedIs | pkg/knowledge/retrieval/retriever.go:50-56 | Alpha one is the vector score, alpha zero the text score, linear in between; null scores are zero |
| Retrieval.ScanAll | pkg/knowledge/retrieval/retriever.go:90-98 | One candidate per row, in order, with null scores as zero and the blended score |
| Retrieval.Rerank | pkg/knowledge/retrieval/reranker.go:13-21 | In place: a permutation sorted by vector score, cut to topK if that is positive |
| Retrieval.ResultShape | pkg/knowledge/retrieval/retriever.go:79-112 | For topK > 0: min(topK, corpus) chunks of the corpus, sorted by vector score |
| Retrieval.NothingCut | pkg/knowledge/retrieval/reranker.go:17-20 | Without a positive topK all candidates come back, sorted |
| Retrieval.CandidatesLeftOut | pkg/knowledge/retrieval/reranker.go:14-20 | No candidate left out beats a returned one on vector score |
| Retrieval.OmittedLostOnBlend | pkg/knowledge/retrieval/retriever.go:45-57 | An omitted chunk that beats a returned one on vector score has a blended score no higher than every candidate |
| Retrieval.GloballyBestWhen | pkg/knowledge/retrieval/retriever.go:79-103 | With alpha 1, or a corpus within the candidate count, the result is a true top-K by vector score |
| Retrieval.GloballyBestIff | pkg/knowledge/retrieval/retriever.go:45-82 | For each corpus size, alpha and topK, and all vector scores in [−1, 1] and text scores in [0, 1], that is guaranteed if and only if alpha is 1 or the corpus fits |
| Retrieval.BestVectorCanBeMissed | pkg/knowledge/retrieval/retriever.go:54-57 | With alpha 0.7 and eleven rows the best vector match can be missed |

## Left out

- HTTP handlers, authentication, WebSocket upgrade, S3, Ollama, document parsers, rendering, artifact jobs, model routing, prompt storage and the intermediate handlers: request plumbing and wrappers around libraries.
- PostgreSQL, Redis, River and pgx internals: a statement is one atomic step. A pgx batch is inserted row by row and may stop after any prefix, which includes all-or-nothing.
- Database errors inside `Transition`, `ListExpired` and the sweep, an update that commits while its acknowledgement is lost among them; missing or malformed tenant identifiers in the context, which return before anything changes.
- GraphEngine.Execute: nodes and predicates are functions of the run number and their input, so a node that writes to its input map, or to a map it handed out earlier, is not captured; that each node gets a freshly allocated map is.
- Nodes that never return.
- Integer widths: counters, token sums and chunk offsets are unbounded; Go's 64-bit overflow is not modelled. Versions are naturals, as the table's CHECK demands.
- Text is a sequence of runes; invalid UTF-8, which `[]rune` and `string` replace, is not modelled. The size limit counts the same units.
- Scores, thresholds and confidences are reals; rounding of floating point and `VectorLiteral` are not modelled.
- Retrieval.SortDescending: the library sort is a selection sort here. The theorems hold for any descending arrangement, so the order of ties is left open.
- GetActiveByUserID and the columns it needs, as well as created_at, updated_at and error_msg: the history is taken in the order of the table, without ties.
- Wall clocks, UUID generation and reuse: times are parameters and identifiers of new rows are given.
- The PII scrubber and the embedder are arbitrary functions from text; that the embedder returns one vector per text is taken from its own check in pkg/knowledge/ingestion/embedder.go:103.
- The rendering of retrieved chunks into the context block, and the logging of cost, coverage and recall.
- MemoryBroadcast.MemoryBroadcaster.Publish: channels are identifiers in a map rather than heap objects, and the mutex is one atomic step per call.
- ToolWorker.ExecuteToolWorker.Work: arguments, results and hashes in the audit row are not modelled, only its key.
- Clients of `Transition` are taken to pass the state and version of one snapshot, as pkg/runtime/jobs.go:222 and pkg/runtime/tool_job.go:70 do; `ForgedStateSafeIff` says what happens otherwise.
