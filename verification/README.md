# Mega CRM delivery core: a verified model

This project models the parts of the CRM that decide whether, when and to whom mail goes out, and proves what
they promise. It covers six components:

- **The send ledger** (`SendStateMachine`, `SendId`, `SendLedger`, `DispatchProtocol`, `TimedDispatch`,
  `SendRecords`, `CampaignProgress`, `CampaignCompletion`, `Reconciler`, `ReconcilerProgress`, `QueueTiming`). Send
  workers, the campaign kickoff and a reconciler share one table of sends. Each SQL statement is a method on the table and a
  function on values; each transaction is one atomic step; a run is any interleaving of steps by any number of
  workers, with a clock. That permissions to send are conserved holds whatever the clock. The record statement has
  no status guard, so for the status table it is shown exactly which records are in order, and then that the lock,
  timeout and margin constants allow no other.
- **The segment compiler** (`SegmentCompiler`, `SqlGrammar`, `SqlEval`, `SegmentMeaning`, `SegmentAnswers`,
  `SegmentPrecedence`, `LikeEscape`). The compiler emits the tokens of a WHERE clause while pushing onto a shared
  parameter list; a precedence parser and a three-valued evaluator, free to leave out operands, stand for the
  database; membership is defined without SQL.
- **Flow validation and runs** (`FlowGraph`, `FlowValidate`, `FlowRun`). The three graph walks with their mutable
  sets, the error list, and what a clean list means for the runs the worker makes within its step budget.
- **Contact identity and consent** (`ContactIdentity`, `ContactLaws`, `ContactRecords`, `SubscriptionLog`,
  `ConsentRuns`, `ConsentRecords`). The two-key upsert with what other transactions commit between its statements, the
  code paths that read a subscription status and write it later, their history, the suppression list and the
  unsubscribe counter.
- **Zone-aware time** (`ZonedTime`). Offset inversion, the end of a quiet window, the next wait-until instant.
- **Repair loops and token rotation** (`DuplicateRepair`, `SuppressionRehash`, `UnsubscribeToken`, `JsText`).

`dafny verify dfyconfig.toml` checks everything.

What comes from outside is a parameter: the name hash, the MAC and the JSON text of a token payload, the zone's
offset function, the clock, the way the driver and the database read and write text (`SqlEval.Env`), the address
hash of the suppression list, and every choice the database is free to make, such as which rows a LIMIT picks,
which operands it leaves out, or which rows another transaction commits in between.

Some results are about where the code does not do what a reader may expect. Each comes with its exact condition and
with a concrete case:

- a record that finds its row in another's hands can break the status table and the counters;
- a campaign that reaches its total by an ambiguous send waits for a later transaction to complete it, if one comes:
  the comment at send-ledger.ts:577-583 says that an ambiguous last recipient does not hold completion up, but no
  transaction that makes a row ambiguous runs the completion test;
- a contact upsert lets a unique violation escape when a key is taken before its UPDATE, or when an identifier given
  as the empty string is already held; and repeating an upsert is not always idempotent;
- the status history breaks when a status read without a lock is stale by the time it is written;
- across an offset change the end of a quiet window, or a wait, can lie before `now`;
- an exit node that shares a branch's id hides that branch from the publish-time check while the worker still runs it,
  and deferrals can use up a run's step budget.

## Model

| member | source | states |
|---|---|---|
| SendStateMachine.AllowedIffSomeoneWrites | packages/delivery-core/src/send-state-machine.ts:126-138 | a transition is allowed exactly when the table lists a writer for it, so the two lookups never disagree |
| SendStateMachine.PathsDescend | packages/delivery-core/src/send-state-machine.ts:82-123 | every path through the table visits a status at most once and makes at most three changes; `failed` is only ever entered from `dispatching` |
| SendStateMachine.TheMatrix | packages/delivery-core/src/send-state-machine.ts:82-123 | the table spelt out: exactly six edges, and for each exactly its writers |
| Reconciler.VerdictsAreReconcilerEdges | packages/delivery-core/src/reconciler.ts:116-155 | every verdict that writes is an edge of the table with the reconciler among its writers, and none leads to `failed` |
| Reconciler.DiscoveryMatchesClassifier | apps/worker/src/queues/send-reconciler.worker.ts:166-186 | the discovery query selects a `dispatching` or `unknown` row exactly when some evidence would make the classifier act on it, at every boundary; it selects every `reconciling` row |
| QueueTiming.ComputeExponentialBackoffSumMs | packages/queue-core/src/queue-options.ts:46-52 | the loop computes delay·(2^(attempts-1)-1) for every attempt count and delay |
| QueueTiming.BackoffClosedForm | packages/queue-core/src/queue-options.ts:46-52 | the pauses after the individual attempts sum to that closed form |
| QueueTiming.ScheduleLength | packages/queue-core/src/queue-options.ts:60-73 | any schedule of attempts within the lock duration and at most the backoff apart ends within attempts·lock plus the backoff sum |
| QueueTiming.NoSweepUnderALiveJob | packages/queue-core/src/queue-options.ts:54-73 | whatever the schedule, the last attempt is over before the job-lifetime bound, and every attempt is over before the reconciler may sweep a row the job queued |
| SendId.SendNameInjective | packages/delivery-core/src/send-id.ts:114-125 | the composed names of two intents are equal only for the same intent, across campaign and flow sends |
| SendId.SendIdsIdentifyIntents | packages/delivery-core/src/send-id.ts:114-125 | when no two composed names that occur share an id, two intents share one exactly when they are the same: re-inserting after a release reproduces the id |
| SendId.CollisionFreeIffHashSeparates | packages/delivery-core/src/send-id.ts:99-125 | for the ids as computed, that holds if and only if the hash bytes left after forcing version and variant differ for different names: the one assumption made about the hash |
| SendId.DeriveId | packages/delivery-core/src/send-id.ts:65-125 | the id of an intent is the version 5 UUID of its composed name under the fixed namespace, and parses back to those sixteen bytes |
| SendId.NamespaceParses | packages/delivery-core/src/send-id.ts:65-65 | the namespace text is a valid UUID, so deriving an id never throws |
| SendId.UuidRoundTrip | packages/delivery-core/src/send-id.ts:75-89 | parsing a formatted UUID gives back the sixteen bytes |
| SendId.Uuidv5 | packages/delivery-core/src/send-id.ts:99-106 | fails exactly on a namespace that does not parse; otherwise the text parses to the truncated hash with version and variant forced (section 4.3 of RFC 4122) |
| SendId.VersionAndVariant | packages/delivery-core/src/send-id.ts:103-105 | the version digit is 5 and the variant digit one of 8, 9, a, b, whatever the hash |
| SendId.OnlySixBitsAreForced | packages/delivery-core/src/send-id.ts:102-105 | every other bit of the sixteen bytes is the hash's own |
| SendId.HyphensOfAUuid | packages/delivery-core/src/send-id.ts:86-89 | the printed form has its four hyphens at 8, 13, 18 and 23 and nowhere else |
| SendLedger.Ledger.FindConflict | packages/delivery-core/src/send-ledger.ts:38-85 | searching by the intent's own columns finds a row exactly when one stands under the derived id: the two unique constraints and the id agree |
| SendLedger.Ledger.DispatchSendGate | packages/delivery-core/src/send-ledger.ts:38-85 | inserts a `dispatching` row or none, and answers proceed, proceed-interrupted or skip from the conflicting row's status; the whole table after is stated |
| SendLedger.Ledger.ReleaseDispatchClaim | packages/delivery-core/src/send-ledger.ts:109-111 | deletes the row if and only if it is `dispatching` |
| SendLedger.Ledger.RecordSendResult | packages/delivery-core/src/send-ledger.ts:136-162 | overwrites the row without looking at its status; `sent_at`, `reconciling_since` and the dispatch times by the update's own cases |
| SendLedger.Ledger.ResolveReconcilingSend | packages/delivery-core/src/send-ledger.ts:232-256 | acts only on an ambiguous row; `sent` dated back to dispatch, ambiguity or queue time; says whether it acted |
| SendLedger.Ledger.SweepStaleDispatchingSend | packages/delivery-core/src/send-ledger.ts:281-290 | moves a `dispatching` row to `reconciling`, keeping an earlier `reconciling_since`; says whether it acted |
| SendLedger.Ledger.RecordExcluded | packages/delivery-core/src/send-ledger.ts:322-337 | inserts an `excluded` row, or refreshes the reason of one that is already excluded, and touches no other |
| SendLedger.Ledger.IncrementCampaignSendCounter | packages/delivery-core/src/send-ledger.ts:518-529 | counts only while the campaign is `sending` |
| SendLedger.Ledger.BackfillCampaignSendCounter | packages/delivery-core/src/send-ledger.ts:555-566 | counts whatever the campaign's status |
| SendLedger.Ledger.TryCompleteCampaign | packages/delivery-core/src/send-ledger.ts:599-612 | completes exactly when `sending`, fanned out, and sent plus failed plus ambiguous rows reach the sendable total |
| SendLedger.Ledger.ClaimSend | apps/worker/src/queues/send-dispatch.ts:312-392 | the claim transaction built from those statements is one step on the tables, with its answer |
| SendLedger.Ledger.FinishSend | apps/worker/src/queues/send-dispatch.ts:500-634 | the recording transaction, for each way an attempt can end, is one step on the tables |
| SendLedger.Ledger.ResolveOneSend | apps/worker/src/queues/send-reconciler.worker.ts:214-278 | the reconciler's transaction re-classifies the locked row and applies the verdict, counters and completion included |
| DispatchProtocol.EveryStatusChangeIsAnEdge | packages/delivery-core/src/send-state-machine.ts:82-123 | in every interleaving of claims, finishes, crashes, exclusions, sweeps and resolutions whose records are on live claims, each status change is an edge made by a listed writer or a stutter; rows appear only as `dispatching` or `excluded` and only a `dispatching` row is removed |
| DispatchProtocol.SettledForever | packages/delivery-core/src/send-ledger.ts:38-290 | a `sent` or `failed` row never changes again; an `excluded` row stays excluded; no settled row is removed or reopened |
| DispatchProtocol.EveryAttemptKeepsItsRow | packages/delivery-core/src/send-ledger.ts:38-111 | in every interleaving, with no assumption on time: at most one attempt holds the permission for an intent, and its row is still there and neither excluded nor failed |
| DispatchProtocol.SendPermissionIsConserved | packages/delivery-core/src/send-ledger.ts:38-111 | over any run, with no assumption on time, fresh permissions granted for an intent equal effective releases plus one exactly when a non-excluded row stands for it |
| DispatchProtocol.NoSecondSendWithoutRelease | packages/delivery-core/src/send-ledger.ts:38-111 | without a release there is at most one permission, and none once the row is terminal or ambiguous |
| DispatchProtocol.NoReleaseOnceSettled | packages/delivery-core/src/send-ledger.ts:109-111 | a settled row is never released by anyone and stays settled, in any run |
| DispatchProtocol.StampsAgreeWithStatus | packages/delivery-core/src/send-ledger.ts:136-290 | at every reachable state `sent_at` is set exactly on `sent` rows, `reconciling_since` exactly on ambiguous ones, and no stamp lies in the future |
| DispatchProtocol.ResolutionIsBackDated | packages/delivery-core/src/send-ledger.ts:232-256 | a send the reconciler resolves is dated to its provider call, else to when it became ambiguous, never to the resolution |
| DispatchProtocol.MatrixIsKeptIff | packages/delivery-core/src/send-ledger.ts:151-161 | in any run at all, every status change is an edge for its writer if and only if each record finds its row `dispatching` or already at the status it records |
| DispatchProtocol.RecordWithoutLiveClaimBreaksTheMatrix | packages/delivery-core/src/send-ledger.ts:151-161 | the record statement can take a `reconciling` row to `failed`, which the table forbids: a concrete run |
| TimedDispatch.LocksKeepClaimsLive | packages/queue-core/src/queue-options.ts:11-43 | the lock duration, the provider timeout and the two margins discharge the live-claim duty in every run that keeps to the clock |
| TimedDispatch.SweptRowsHaveNoWriter | packages/delivery-core/src/reconciler.ts:52-73 | when the reconciler changes a `dispatching` row, no attempt on it can still write |
| TimedDispatch.TimedRunsAreSafe | packages/delivery-core/src/send-ledger.ts:151-161 | the table's edges, the conservation of permissions and the stamps, from the clock assumptions alone |
| CampaignProgress.CountersMatchTheLedger | packages/delivery-core/src/send-ledger.ts:504-612 | for every uncancelled campaign whose non-excluded rows are bounded by the sendable total, the counters equal the rows in `sent` and `failed` at every reachable state, after completion too, and no completed campaign has a row `dispatching` |
| CampaignProgress.CountersMatchIff | packages/delivery-core/src/send-ledger.ts:151-161 | in any run, with no assumption on time or audience: the counters equal the rows in `sent` and `failed` all along if and only if each definite answer is the first one of a row that is there, and each other record leaves those counts alone |
| CampaignProgress.AnswerAfterResolutionCountsTwice | apps/worker/src/queues/send-reconciler.worker.ts:243-257 | an answer recorded after the reconciler has settled the send counts it twice: a concrete run |
| CampaignProgress.ProgressNeverShrinks | packages/delivery-core/src/send-ledger.ts:568-612 | sent, failed and ambiguous rows together never get fewer, in any run |
| CampaignProgress.CounterProgressNeverShrinks | packages/delivery-core/src/send-ledger.ts:568-612 | so neither does the figure the completion test adds up |
| CampaignProgress.CompletesAtMostOnce | packages/delivery-core/src/send-ledger.ts:599-612 | completion fires at most once in any run and is never taken back |
| CampaignCompletion.WaitingStartsSilently | apps/worker/src/queues/send-dispatch.ts:361-392 | a campaign comes to stand at its total uncompleted only by an ambiguous record, an interrupted claim, a sweep or its own launch: the steps that do not run the completion test |
| CampaignCompletion.FinishedIsCompletedIff | packages/delivery-core/src/send-ledger.ts:568-612 | a campaign at its total that nobody cancels is completed if and only if some later transaction runs the test (kickoff, a sent or failed record, an evidence-backed resolution); until then it stays `sending` |
| CampaignCompletion.GivingUpCompletesNothing | apps/worker/src/queues/send-reconciler.worker.ts:259-266 | however many ticks pass without evidence, the reconciler never completes such a campaign |
| CampaignCompletion.LastSendGivenUpIsNeverCompleted | apps/worker/src/queues/send-reconciler.worker.ts:259-266 | a campaign whose last send goes ambiguous and then unknown is left so, with nothing outstanding: a concrete run |
| CampaignCompletion.KickoffWritesItsFigures | apps/worker/src/queues/campaign-kickoff.worker.ts:172-210 | the kickoff's last write, column by column: both figures as counted, once; an empty audience completes a campaign being sent and leaves another alone |
| CampaignCompletion.TotalIsTheSendableAudience | apps/worker/src/queues/campaign-kickoff.worker.ts:172-210 | over any run after it, whatever was excluded: the figures stand, and a campaign being sent is at its total exactly when as many of its sends as the kickoff found sendable are sent, failed or ambiguous |
| SendRecords.ClaimIsGrantedIff | apps/worker/src/queues/send-dispatch.ts:312-392 | a claim is granted if and only if the contact may be sent to, no row stands for the intent and its campaign, if any, is `sending`; the row inserted is given column by column |
| SendRecords.SecondClaim | packages/delivery-core/src/send-ledger.ts:38-85 | a claim on a standing row leaves it alone, save that an unfinished one becomes `reconciling` with every other column kept |
| SendRecords.ExclusionIsRecorded | packages/delivery-core/src/send-ledger.ts:322-337 | an exclusion inserts an `excluded` row with its reason, refreshes the reason of one, and leaves any other row alone |
| SendRecords.StoppedCampaignClaimsNothing | apps/worker/src/queues/send-dispatch.ts:319-324 | a campaign that is not `sending` claims and excludes nothing |
| SendRecords.AnswerIsRecorded | packages/delivery-core/src/send-ledger.ts:136-162 | column by column, after any answer: the status it calls for, its message id, the start and length of the provider call, `sent_at` and `reconciling_since` where due, the rest as it was |
| SendRecords.ReleaseLeavesNothing | packages/delivery-core/src/send-ledger.ts:109-111 | a releasing exit removes the claimed row, or nothing, and changes no campaign |
| SendRecords.ReconcilerKeepsTheAnswer | packages/delivery-core/src/send-ledger.ts:232-290 | the reconciler writes the status and two times and keeps every column the worker recorded |
| SendRecords.WhatTheReconcilerDecides | packages/delivery-core/src/reconciler.ts:33-155 | the status a row ends a tick with, by status, evidence and the three windows in milliseconds; where it does not change the row does not |
| SendRecords.AmbiguousSendIsDatedToItsCall | packages/delivery-core/src/send-ledger.ts:136-256 | a send left ambiguous by a call begun at t is, if ever resolved to `sent`, dated to t: over any run in between, with no assumption on time |
| SendRecords.InterruptedSendIsDatedToItsHandOver | packages/delivery-core/src/send-ledger.ts:136-256 | one handed over unfinished, whose holder is gone, is dated to that moment |
| ReconcilerProgress.TickIsTheTransaction | apps/worker/src/queues/send-reconciler.worker.ts:214-278 | one tick on a row without evidence is exactly the reconciler's transaction |
| ReconcilerProgress.OrphanIsSweptThenGivenUp | packages/delivery-core/src/reconciler.ts:33-73 | a row nobody finishes is swept within the stale age plus one period and given up within the resolution window plus one period more, with the status fixed in between and after |
| LikeEscape.ThreePassesAreOne | packages/segments-core/src/operators.ts:60-62 | the three replacements in their order equal one pass that escapes each special character once |
| LikeEscape.EscapedPatternIsSubstring | packages/segments-core/src/operators.ts:60-62 | the pattern built from a value matches under LIKE exactly the strings in which the value occurs literally |
| LikeEscape.ILikeIsFoldedSubstring | packages/segments-core/src/operators.ts:77-82 | under ILIKE the same holds up to case folding |
| SqlGrammar.ParsePrint | packages/segments-core/src/compile.ts:17-20 | the precedence parser reads the printed form of any tree that respects the precedences back as that tree, whatever follows |
| SqlGrammar.TextReadsBack | packages/segments-core/src/compile.ts:43-49 | so its text has that one reading |
| SegmentCompiler.Compiler.CompileOperator | packages/segments-core/src/operators.ts:64-128 | for each operator the text is that of the operator's tree over the column, and the values pushed are the operator's, placeholders numbered by the shared list |
| SegmentCompiler.Compiler.CompileAttributeCondition | packages/segments-core/src/compile.ts:76-89 | refuses exactly the unknown standard field; otherwise text and pushes of the condition's tree, the custom key pushed first |
| SegmentCompiler.Compiler.CompileBehavioralCondition | packages/segments-core/src/compile.ts:97-118 | text and pushes of the event subquery: name, then days, then the count when more than one is asked for |
| SegmentCompiler.Compiler.CompileGroup | packages/segments-core/src/compile.ts:32-36 | parenthesised OR of the conditions; refused exactly when one of them is |
| SegmentCompiler.Compiler.CompileSegmentDefinition | packages/segments-core/src/compile.ts:30-59 | the whole clause and the whole parameter list; refused exactly when some field is unknown |
| SegmentCompiler.KnownFields | packages/segments-core/src/operators.ts:25-37 | the fields compiled are exactly the seven of the list, by name |
| SegmentMeaning.WhereReadsAsIntended | packages/segments-core/src/compile.ts:43-58 | the emitted clause parses, as the base predicates AND-ed with the groups, each OR inside its parentheses |
| SegmentMeaning.OperatorMeaning | packages/segments-core/src/operators.ts:70-120 | each operator's text, evaluated in three-valued logic, is what the operator means of the field's value |
| SegmentMeaning.FilterMeaning | packages/segments-core/src/compile.ts:97-118 | the subquery's WHERE keeps exactly the events of the same workspace, contact and name inside the timeframe |
| SegmentMeaning.BehavioralMeaning | packages/segments-core/src/compile.ts:97-118 | "at least N" is a count of those events and "none" its negation |
| SegmentMeaning.AtLeastMeansThatMany | packages/segments-core/src/compile.ts:97-118 | in the database a count of N from one up asks for N events, a missing or zero count for one, and "none" for no event whatever the count |
| SegmentMeaning.CondMeaning | packages/segments-core/src/compile.ts:61-118 | a condition's text evaluates to the condition's value wherever its pushes stand on the parameter list |
| SegmentMeaning.GroupMeaning | packages/segments-core/src/compile.ts:32-36 | with every operand evaluated, a group is true iff one of its conditions holds and refused iff one of them is |
| SegmentMeaning.SegmentMeansMembership | packages/segments-core/src/compile.ts:30-59 | for every definition without empty groups, the emitted text parses and, with every operand evaluated, is refused iff some condition is, and otherwise is true exactly for the live contacts of the workspace that satisfy the groups under the chosen combinator |
| SegmentAnswers.FullEvaluationMayBe | packages/segments-core/src/compile.ts:30-59 | full evaluation is one of the answers a database that may leave out operands can give |
| SegmentAnswers.UnrefusedHasOneAnswer | packages/segments-core/src/compile.ts:30-59 | where full evaluation is not refused, every such database gives the same answer |
| SegmentAnswers.EveryAnswerMeansMembership | packages/segments-core/src/compile.ts:30-59 | whatever operands of OR and AND the database leaves out: each answer it can give is true exactly for the members or is an error, and an error only where some condition is refused |
| SegmentPrecedence.ReadableIffNoEmptyGroup | packages/segments-core/src/compile.ts:32-36 | the clause is readable SQL exactly when no group is empty |
| SegmentPrecedence.BareOrAdmitsForeignContacts | packages/segments-core/src/compile.ts:43-56 | without the enclosing parentheses a contact matching any group but the first would pass, whatever its workspace and erasure |
| FlowValidate.IndexEdges | packages/flows-core/src/flow-validate.ts:46-51 | the index lists, for every id, its outgoing edges in order |
| FlowValidate.IndexNodes | packages/flows-core/src/flow-validate.ts:45-45 | the index gives the last node of an id |
| FlowValidate.CycleSearch.Dfs | packages/flows-core/src/flow-validate.ts:108-124 | with a recursion stack: a found id lies on a reachable cycle; silence finishes the node after all its successors |
| FlowValidate.FindCycleReachableFrom | packages/flows-core/src/flow-validate.ts:104-127 | answers nothing iff no cycle is reachable, and otherwise a node on a reachable one |
| FlowValidate.CollectReachable | packages/flows-core/src/flow-validate.ts:130-144 | exactly the reachable ids |
| FlowValidate.ExitCheck.PathReachesExit | packages/flows-core/src/flow-validate.ts:154-181 | the shared visited set is sound: true leaves only good nodes, closed under the followed edges; false has seen a bad one |
| FlowValidate.ReachesExitEverywhere | packages/flows-core/src/flow-validate.ts:87-87 | from a fresh set the answer is true iff every node the followed edges reach is an exit, missing, a branch with both handles, or another node with an edge |
| FlowValidate.ValidateFlowDefinition | packages/flows-core/src/flow-validate.ts:42-95 | the error list, check by check and in order; empty exactly for a publishable flow |
| FlowValidate.WhatTheErrorsName | packages/flows-core/src/flow-validate.ts:42-95 | each error is listed for exactly what it is about, and names that node |
| FlowValidate.SendIsReadyIff | packages/flows-core/src/flow-validate.ts:58-65 | a send node passes with a template id that is not all white space and a sender id or address |
| FlowValidate.GoodMeans | packages/flows-core/src/flow-validate.ts:154-181 | where a followed path may stop: no node, an exit, a branch with an edge for each handle, another node with an edge |
| FlowValidate.FollowedMeans | packages/flows-core/src/flow-validate.ts:154-181 | what the exit check follows: every edge of a trigger, send or delay, an edge for each handle of a branch, none of an exit |
| FlowGraph.TopologicalMeansNoCycle | packages/flows-core/src/flow-validate.ts:97-103 | an order in which every node follows its successors rules out a reachable cycle |
| FlowRun.MovesAreEdges | apps/worker/src/queues/flows/handlers/send-node.ts:42-45 | the worker's graph is part of the definition's: it only ever moves a run along a listed edge |
| FlowRun.TicksFollowTheGraph | apps/worker/src/queues/flows/flow-run-advance.worker.ts:160-257 | whatever a tick finds: a move follows that graph, a dead end or a throw happens only at a node that is not sound, and the forced exit exactly once the step budget is used up |
| FlowRun.WhatATickDoes | apps/worker/src/queues/flows/flow-run-advance.worker.ts:160-257 | each outcome if and only if: the budget first, then the node, then the exit condition, which ends the run at any node before it is sent from or moved, then quiet hours for a send |
| FlowRun.WhereATickMoves | apps/worker/src/queues/flows/flow-run-advance.worker.ts:160-257 | a move is along an edge of the node, of a branch one carrying the answer; a dead end has no such edge |
| FlowRun.EveryRunHasTicks | apps/worker/src/queues/flows/flow-run-advance.worker.ts:160-257 | every run is one driven by some list of ticks |
| FlowRun.TicksOfARun | apps/worker/src/queues/flows/flow-run-advance.worker.ts:160-257 | tick by tick over any run: none but the last found the exit condition, a send in quiet hours stays, every other step follows an edge and a branch its answer |
| FlowRun.StuckIffLeadsToUnsound | apps/worker/src/queues/flows/flow-run-advance.worker.ts:160-257 | for any definition, validated or not: some continuation of a run dead-ends or throws if and only if the worker's first-node, first-edge graph leads from its node, within the budget, to a node that is missing, a trigger, a branch short of a handle, or a send or delay without an edge |
| FlowRun.WalksFromTheTriggerHalt | packages/flows-core/src/flow-validate.ts:67-83 | a flow with no errors has every walk from the trigger visiting distinct nodes, so none is longer than the number of ids |
| FlowRun.FollowedPathsEndInExits | packages/flows-core/src/flow-validate.ts:146-181 | with no dangling edge and no errors, every path the exit check follows from a reachable branch is finite and stops only at an exit |
| FlowRun.RunsNeverRevisit | apps/worker/src/queues/flows/flow-run-advance.worker.ts:16-24 | but for deferrals a run of a publishable flow visits distinct nodes, and its recorded steps are fewer than the ids plus the deferrals |
| FlowRun.BudgetIsNotSpent | apps/worker/src/queues/flows/flow-run-advance.worker.ts:172-181 | the forced exit never happens while ids and deferrals together stay within the budget |
| FlowRun.DeferralsCanSpendTheBudget | apps/worker/src/queues/flows/flow-run-advance.worker.ts:172-181 | past that it can: a valid flow whose run is put off by quiet hours until the budget is spent, short of its exit |
| FlowRun.PastABranchEveryRunReachesAnExit | packages/flows-core/src/flow-validate.ts:146-181 | with unique ids, no dangling edge, and ids plus deferrals within the step budget, a run past a branch is never stuck, refused or forced out: unless an exit condition ends it, each tick moves or defers it, for a bounded number of ticks, until it stands at an exit |
| FlowRun.DuplicateIdsHideABranch | apps/worker/src/queues/flows/flow-run-advance.worker.ts:181-181 | the validator looks up the last node of an id and the worker the first, so a flow that passes validation can dead-end at a branch: a concrete flow |
| ContactIdentity.ContactTable.FindContactIdByIdentity | packages/contacts-core/src/contact-repository.ts:150-170 | the read-only lookup is the upsert's own matching: external id first, then email |
| ContactIdentity.ContactTable.StripReservedPropertyKeys | packages/contacts-core/src/contact-repository.ts:114-122 | everything but the reserved keys |
| ContactIdentity.ContactTable.LockMatch | packages/contacts-core/src/contact-repository.ts:247-283 | the two locking lookups, with what others commit between them: the row found and whether its anchor is to be filled in |
| ContactIdentity.ContactTable.UpdateMatched | packages/contacts-core/src/contact-repository.ts:337-447 | branches A to D: the row after, the history rows, and that the email is skipped exactly when the contact still lacks it; a unique violation exactly when another row holds a key of the row by the time of the UPDATE |
| ContactIdentity.ContactTable.UpsertContactByIdentity | packages/contacts-core/src/contact-repository.ts:247-456 | lookups, email check, insert with its savepoint and one retry, and update come to one outcome on the rows, whatever others commit before each statement |
| ContactLaws.UpsertKeepsConstraints | packages/contacts-core/src/contact-repository.ts:247-456 | external ids and emails stay unique in each workspace and erased rows stay bare, whatever others commit between the statements |
| ContactLaws.UpdateViolatesIffTaken | packages/contacts-core/src/contact-repository.ts:406-435 | the UPDATE of a matched contact violates a constraint exactly when another row has meanwhile taken the new email or the external id being attached |
| ContactLaws.ViolationEscapesIff | packages/contacts-core/src/contact-repository.ts:290-335 | a unique violation escapes the call if and only if the matched contact's new email or attached external id is taken before its UPDATE, or, nobody being matched, an identifier is held at the first insert and the retry then fails in one of these two ways |
| ContactLaws.EmailTakenBeforeTheUpdate | packages/contacts-core/src/contact-repository.ts:343-435 | with no empty string about: the new email is found free and then taken, and the violation escapes; a concrete case |
| ContactLaws.AnchorTakenBeforeTheUpdate | packages/contacts-core/src/contact-repository.ts:355-435 | so it does when the external id being attached is taken; a concrete case |
| ContactLaws.AnchorsNeverChange | packages/contacts-core/src/contact-repository.ts:355-363 | a set external id is never changed, no contact is lost, and of what others left only the matched contact changes |
| ContactLaws.RaceResolvesToTheWinner | packages/contacts-core/src/contact-repository.ts:290-335 | when nobody disturbs the retry it is enough: the call updates the contact first found, else the rival that took an identifier; it creates iff no key was held; and its insert fails exactly when an identifier given as the empty string is already held |
| ContactLaws.UpsertAgreesWithLookup | packages/contacts-core/src/contact-repository.ts:128-170 | with nobody racing it updates exactly the contact the read-only lookup finds, and else creates |
| ContactLaws.IdempotentUnlessASuppressionIsUndone | packages/contacts-core/src/contact-repository.ts:283-289 | a repeated upsert changes nothing but times exactly when it gives a non-empty identifier and the first did not create a contact at a suppressed address while asking for "unsubscribed" |
| ContactRecords.AnchorComesFirst | packages/contacts-core/src/contact-repository.ts:255-283 | the holder of the external id is taken before the holder of the email, only live contacts of the workspace, and nobody exactly where there is neither |
| ContactRecords.LookupPrefersTheAnchor | packages/contacts-core/src/contact-repository.ts:150-170 | the read-only lookup has the same preference |
| ContactRecords.MatchedStatus | packages/contacts-core/src/contact-repository.ts:376-447 | what was asked for is what the matched contact has, save that nobody becomes suppressed and a suppressed contact does not become subscribed; one history row from old to new exactly where they differ |
| ContactRecords.MatchedFields | packages/contacts-core/src/contact-repository.ts:368-435 | each profile field, the tags and each property: what the input gives is what the row holds, the rest stays, reserved keys are dropped |
| ContactRecords.MatchedIdentifiers | packages/contacts-core/src/contact-repository.ts:337-366 | a new email is taken unless another live contact of the workspace held it at the check; an external id only where there was none |
| ContactRecords.CreatedContact | packages/contacts-core/src/contact-repository.ts:283-321 | a created contact, column by column; suppressed exactly if its address is listed or that was asked for |
| SubscriptionLog.Unsubscriber.SetFactColumnOnce | packages/db/src/sends/fact-columns.ts:33-46 | writes the fact only where it is absent, and says whether it did |
| SubscriptionLog.Unsubscriber.ApplyUnsubscribeWithSendFact | packages/contacts-core/src/unsubscribe-apply.ts:73-156 | a total no-op without a UUID-shaped contact; otherwise status and history go by the status read earlier without a lock, the fact by its own guard, whatever others commit between read and write |
| SubscriptionLog.Unsubscriber.Unsubscribe | apps/api/src/modules/delivery/unsubscribe.routes.ts:205-229 | the caller's transaction with the counter gated on the fact |
| SubscriptionLog.Unsubscriber.ApplySuppression | apps/worker/src/queues/webhook-events.worker.ts:245-292 | the update always, the suppression entry from the row as updated, the history row by the status read earlier |
| ConsentRuns.HistoryIsFaithfulIffNoStaleWrite | packages/contacts-core/src/unsubscribe-apply.ts:113-139 | over any interleaving of reads and writes, each contact's history rows change something, chain end to end and replay from its creation status to its current one at every moment, if and only if no write goes by a status that is no longer the contact's |
| ConsentRuns.QuietContactMeansFreshWrite | packages/contacts-core/src/unsubscribe-apply.ts:113-139 | a write is not stale when no other step changed the contact's status since its read |
| ConsentRuns.TwoReadersBreakTheChain | packages/contacts-core/src/unsubscribe-apply.ts:113-139 | the route and the webhook read `subscribed` both and log the same change twice: a concrete run from a faithful log |
| ConsentRuns.CountersMatchTheFacts | packages/contacts-core/src/unsubscribe-apply.ts:33-41 | over any interleaving, stale writes included, a campaign's gated counter is the number of its sends with `unsubscribed_at` set |
| ConsentRuns.FactIsSetAtMostOnce | packages/contacts-core/src/unsubscribe-apply.ts:141-151 | for each send `sendFactJustSet` is answered at most once over any run, and once iff the fact is set at the end |
| ConsentRuns.OneUpsertNeverResubscribes | packages/contacts-core/src/contact-repository.ts:376-403 | one upsert never takes a suppressed contact to subscribed |
| ConsentRuns.TwoUpsertsResubscribe | packages/contacts-core/src/contact-repository.ts:376-403 | two do, through unsubscribed, for every suppressed contact the lookups reach |
| ConsentRecords.UuidShape | packages/contacts-core/src/unsubscribe-apply.ts:60-65 | the shape check: 36 characters, hyphens at four places, hex digits elsewhere |
| ConsentRecords.WhatAnUnsubscribeReads | packages/contacts-core/src/unsubscribe-apply.ts:78-115 | the caller's contact where it names one, else that of the send the workspace has; nobody if that is no UUID; the send and its campaign |
| ConsentRecords.WhatStatusIsRead | packages/contacts-core/src/unsubscribe-apply.ts:113-120 | the status read is that of the workspace's own contact, none where there is none |
| ConsentRecords.UnsubscribeTakesEffect | packages/contacts-core/src/unsubscribe-apply.ts:121-139 | a call that read another status leaves the contact unsubscribed and logs the change; one that did not changes no contact |
| ConsentRecords.FactIsWritten | packages/contacts-core/src/unsubscribe-apply.ts:141-151 | the fact is set to the time of the unsubscribe where it is absent and stands where it is present |
| ConsentRecords.SuppressionTakesEffect | apps/worker/src/queues/webhook-events.worker.ts:245-292 | the contact is suppressed whatever was read; the change is logged from another status read |
| ConsentRecords.SuppressionEntersTheList | apps/worker/src/queues/webhook-events.worker.ts:262-281 | the list gains the hash of the contact's non-empty address, and nothing else |
| ConsentRecords.ListIsTheSuppressedAddresses | apps/worker/src/queues/webhook-events.worker.ts:262-281 | over any run the list holds exactly the addresses suppressed so far; none is ever removed |
| ConsentRecords.AddedContactIsSuppressedIff | packages/contacts-core/src/contact-repository.ts:283-289 | a contact that an upsert adds is suppressed exactly as its lookup of the list said, or as was asked for |
| ConsentRecords.SuppressedAddressStaysSuppressed | packages/contacts-core/src/contact-repository.ts:283-289 | once an address has been suppressed, every upsert that adds a contact at it, and looks the list up after that, adds it suppressed, over any run |
| ZonedTime.InversionIsExact | packages/delivery-core/src/quiet-hours.ts:93-112 | for any zone with at most one change near the target, the two-pass inversion reads as the target whenever some instant does, and inside a gap is off by exactly the jump |
| ZonedTime.InsideIsOnFromTheStart | packages/delivery-core/src/quiet-hours.ts:136-148 | inside means fewer minutes on from the start than the end is, round midnight if need be |
| ZonedTime.WeekdaysFollow | packages/flows-core/src/wait-until.ts:71-73 | weekdays follow one another from Sunday as 0, and the epoch's day is a Thursday |
| ZonedTime.EndIsAfterNowIff | packages/delivery-core/src/quiet-hours.ts:136-172 | for every zone and window: the computed end is later than `now` if and only if the local time left to the end exceeds what the offset gains between `now` and the inversion's second probe |
| ZonedTime.EndAcrossAChange | packages/delivery-core/src/quiet-hours.ts:136-172 | near at most one change it fails to be later exactly when the change lies between `now` and the probe and is at least as large as the local time left; more time left than the jump is always enough |
| ZonedTime.QuietWindowEndsFirst | packages/delivery-core/src/quiet-hours.ts:136-172 | with no change before the end comes round, wrapping midnight or not, the computed end is the least later instant outside the window if and only if the offset at the second probe is the offset now |
| ZonedTime.SpringEndCanPrecedeNow | packages/delivery-core/src/quiet-hours.ts:156-172 | in a gap west of UTC the computed end can lie before `now`: a concrete zone |
| ZonedTime.AutumnEndCanPrecedeNow | packages/delivery-core/src/quiet-hours.ts:156-172 | so it can on the second pass through a repeated hour |
| ZonedTime.ComputeNextWaitUntil | packages/flows-core/src/wait-until.ts:86-109 | throws exactly for a weekday outside 0 to 6; otherwise returns the time on the first eligible day |
| ZonedTime.WaitUntilIsAfterNowIff | packages/flows-core/src/wait-until.ts:86-109 | the result is later than `now` if and only if the local time left exceeds what the offset gains by the second probe |
| ZonedTime.FirstEligibleIsNext | packages/flows-core/src/wait-until.ts:86-109 | with no change before the time comes round, it is the least later instant reading as asked if and only if the second probe has today's offset |
| ZonedTime.AutumnWaitCanPrecedeNow | packages/flows-core/src/wait-until.ts:86-109 | on the second pass through a repeated hour it can lie before `now`: a concrete zone |
| ZonedTime.WaitUntilSurvivesAChange | packages/flows-core/src/wait-until.ts:51-62 | across a change the result still reads as the asked minute on the asked day unless that local time is skipped |
| DuplicateRepair.ExtraSurvives | packages/db/scripts/count-send-event-duplicates.ts:178-196 | deleting any selection of rows past the first of their group leaves every other row in its place |
| DuplicateRepair.CountTotals | packages/db/scripts/count-member-duplicates.ts:79-93 | the groups with more than one row, and the sum of their sizes less one, which is the number of rows past the first of their group |
| DuplicateRepair.RowTable.ResolveDuplicatesForWorkspace | packages/db/scripts/count-send-event-duplicates.ts:163-213 | for any page size and any victims the loop ends with exactly those rows gone; the deleted count is the one counted before, the batches that count over the page size, rounded up |
| DuplicateRepair.RowTable.ResolveAllDuplicates | packages/db/scripts/count-send-event-duplicates.ts:216-240 | over every listed workspace: the rows left, each reported workspace with its rows and batches, and both totals, the deleted one being the rows lost |
| DuplicateRepair.CountAllDuplicates | packages/db/scripts/count-send-event-duplicates.ts:121-138 | the read-only report's totals: the rows past the first of their group over all workspaces, with a group reported iff there is such a row |
| DuplicateRepair.AnnouncedIsDeleted | packages/db/scripts/count-send-event-duplicates.ts:121-240 | a resolution deletes exactly the rows the read-only report announced, whatever the page size |
| DuplicateRepair.SurvivorsAreTheFirst | packages/db/scripts/count-member-duplicates.ts:159-167 | what is left is the least (time, id) row of every group and every row without a key |
| DuplicateRepair.TheOldestStays | packages/db/scripts/count-send-event-duplicates.ts:141-150 | of each workspace and key exactly the earliest row stays, the lowest id among equals, and every row without a key |
| DuplicateRepair.ResolvedHasNoExtras | packages/db/scripts/count-send-event-duplicates.ts:152-156 | a second run finds nothing to delete |
| SuppressionRehash.Rehasher.RehashSuppressionsForWorkspace | packages/db/scripts/rehash-suppressions.ts:85-156 | for any pages: hashes stay unique, hashed plus skipped is the number of rows that began pending, the batches are that number over the page size rounded up, and a settled table is left alone |
| SuppressionRehash.Rehasher.RehashPage | packages/db/scripts/rehash-suppressions.ts:120-138 | row by row in any order, each either hashed or skipped for good |
| SuppressionRehash.UnhashedIffHeldByAnother | packages/db/scripts/rehash-suppressions.ts:47-58 | a row is left unhashed iff another row holds its hash |
| SuppressionRehash.WhatARunLeaves | packages/db/scripts/rehash-suppressions.ts:47-58 | row by row: a pending row ends with the hash of its own address unless another row has that hash; every other row and every address stays |
| JsText.SplitOfJoin | packages/delivery-core/src/unsubscribe-token.ts:38-44 | splitting undoes joining when no part holds the separator |
| JsText.JoinOfSplit | packages/delivery-core/src/unsubscribe-token.ts:38-44 | joining undoes splitting |
| UnsubscribeToken.EncodingRoundTrip | packages/delivery-core/src/unsubscribe-token.ts:59-63 | base64url (section 5 of RFC 4648) decodes to the bytes encoded and never writes a dot |
| UnsubscribeToken.AlphabetInOrder | packages/delivery-core/src/unsubscribe-token.ts:59-63 | the alphabet of section 5 of RFC 4648, in order |
| UnsubscribeToken.QuadIsTheNumber | packages/delivery-core/src/unsubscribe-token.ts:59-63 | four symbols are the base-64 digits of the number the three bytes are |
| UnsubscribeToken.TokenIsPayloadAndMac | packages/delivery-core/src/unsubscribe-token.ts:53-63 | a token is its payload, a dot, and the MAC of the encoded payload under the secret |
| UnsubscribeToken.VerifyUnsubscribeToken | packages/delivery-core/src/unsubscribe-token.ts:72-184 | the exhaustive loop finds the first matching candidate; the payload is returned only under a match, and the logged position is that candidate's when it is not the primary |
| UnsubscribeToken.OnlyTheMacIsHonoured | packages/delivery-core/src/unsubscribe-token.ts:72-131 | a token matches at a position only with the MAC of its own payload part under the secret there |
| UnsubscribeToken.AssertUnsubscribeTokenSecrets | apps/worker/src/server.ts:206-248 | the boot check passes exactly the variables whose secrets are long enough, distinct, free of separators and at most five retired |
| UnsubscribeToken.AcceptedIff | apps/worker/src/server.ts:206-248 | accepted means: at most six secrets, distinct, each of at least 32 characters without commas or white space |
| UnsubscribeToken.AcceptedVariablesAreAList | apps/worker/src/server.ts:206-248 | accepted variables come from, and read back as, a list of distinct comma-free secrets |
| UnsubscribeToken.RetainedSecretVerifies | packages/delivery-core/src/unsubscribe-token.ts:89-109 | a token signed under the primary or any retired secret verifies to its own payload |
| UnsubscribeToken.VerifiesIffRetained | packages/delivery-core/src/unsubscribe-token.ts:89-131 | where no two secrets share the payload's MAC, it verifies exactly while its secret is retained |
| UnsubscribeToken.OnceDroppedStaysDropped | packages/delivery-core/src/unsubscribe-token.ts:23-44 | in a history of secret lists into which no dropped secret is ever put back, the first rotation that drops a secret drops it for good |
| UnsubscribeToken.LinkLivesUntilItsSecretIsDropped | packages/delivery-core/src/unsubscribe-token.ts:23-44 | over such a history a token verifies to its payload at a later deployment if and only if every deployment since its signing has retained its secret |

## Left out

- SQL execution, pools and row security: row security is the workspace a lookup is given.
- Interleaving inside a transaction, where it makes no difference: a ledger transaction is one atomic step, since it
  locks or inserts the send it works on; its read of the campaign's status takes no lock, and a cancellation that commits
  after that read is taken to come after the claim. Where it does make a difference it is modelled: others commit
  before each statement of a contact upsert, save to the row it has locked, and between the reads and writes of an
  unsubscribe or suppression.
- BullMQ, Redis, SendGrid, KMS and logging: a job's deliveries enter only as schedules, a lane or token wait only as
  an attempt that ends in a release; no bound is put on waiting for a worker slot, and a stalled job's lock is taken
  to run out before the next delivery takes its own.
- Cryptography: SHA-1 and HMAC are functions; that the names of the intents that occur, or the secrets that are ever
  set, hash apart is a stated hypothesis.
- The transition table's trigger texts and the audience-exclusion report.
- `claimFlowSend`, `recordFlowStepResult` and `recordFlowExcluded` are the campaign statements with the other unique
  constraint and are modelled once, by the kind of key.
- Test sends, the pre-send gate's own decision, and the reading of provider answers: the gate's answer and the
  attempt's outcome are inputs of the steps.
- Lexing of SQL text: the compiler emits tokens, and the fixed phrases of the subquery are one token each.
- Case folding is character by character, and the day intervals of a timeframe have one length in milliseconds.
- A condition operator outside the known list, on which the compiler throws, cannot be written in the model.
- Flow ids are non-empty, as the definition schema demands, so a found id is never mistaken for an absent one.
- What an exit condition, the quiet hours or a branch's segment check answer at a tick is an input; how long a delay
  or a deferral takes is not modelled.
- The contact paths that update or erase a contact by hand, which also write statuses and, on erasure, the suppression
  list; and the property registry.
- Zone data and its validation; calendar dates are day numbers, and years before 100 are not treated apart.
- SegmentMeaning.SegmentMeansMembership: takes it that the database reads back the booleans and day counts the driver
  writes, and that case folding leaves the three special characters of a pattern alone.
- Role warnings, samples and the printed reports of the repair scripts, and their error paths.
- UnsubscribeToken.VerifyUnsubscribeToken: how the runtime decodes a signature that is not base64url is a parameter,
  and a MAC that throws is not modelled.
- Building the unsubscribe URL, CSV mapping, send-event ingestion, workspace purge and restore.
