# Verification of the FAM federated agent messaging testbed

The repository measures what Matrix federation costs a human and an agent that
exchange small FAM/1 messages. Its evidence is only as good as four claims: the
agent loses no request and answers each one once however often it is killed; an
interaction has one definite outcome; the closed loop really runs at its
concurrency; and the analysis counts what the runner recorded. This project
models that chain in Dafny and proves those claims, or the exact condition under
which they hold.

| file | what it models |
|---|---|
| `Message.dfy`, `Protocol.dfy` | FAM/1 bodies, padding, correlation keys, transaction ids; what is a request, how it is answered, how the answer finds its request |
| `Transport.dfy` | history pagination and reconciliation of a truncated `/sync` slice |
| `Dedup.dfy`, `Recovery.dfy` | the processed registry, the recovery ledger, the agent's `_handle` and `recover` as classes |
| `AgentSystem.dfy`, `AgentInvariant.dfy`, `AgentTheorems.dfy`, `AgentOrigin.dfy`, `AgentProgress.dfy`, `AgentLimits.dfy`, `FamAgent.dfy` | agent, durable checkpoint, network and homeserver as one step system: appends, syncs, pages, dispatch, sends, failures, crashes, restarts; its invariant; what holds over every run; where a fresh agent starts and what one process keeps; when exactly it can catch up after a restart and when never; histories in which stronger claims fail; the same under FAM/1 |
| `Interaction.dfy` | one interaction: the send, the acknowledgements and the deadline racing; the participant's objects |
| `ClosedLoop.dfy` | C slots over all interleavings of their interactions |
| `Window.dfy`, `SweepLine.dfy`, `Percentile.dfy` | window accounting, concurrency from raw timestamps, nearest-rank percentiles and the paired-block bootstrap |
| `Schedule.dfy`, `Campaign.dfy` | counterbalanced schedules, run keys, the resume ledger and the campaign loop |
| `Sorting.dfy`, `Options.dfy` | Python's stable `sorted`, sums over sequences, optional values |

`dafny verify dfyconfig.toml` checks everything.

## What the environment is taken to do

The homeserver is an arbitrary oracle bound only by these rules, which follow the
Matrix Client-Server API ("Syncing", "GET /_matrix/client/v3/rooms/{roomId}/messages",
"Transaction identifiers"):

- a room is an append-only log with distinct event ids, and tokens are positions in it;
- a truncated slice says `limited` and carries the `prev_batch` of its first event
  (the code pages only when both are there, `src/fam/matrix/client.py:538`);
- a history page holds the events just before its token, newest first, and is empty
  or without `end` only when nothing is left before the boundary
  (`src/fam/matrix/client.py:459`); pages may be short and requests may fail;
- a transaction id seen before from the same device changes nothing;
- a send handed to the network may be accepted at any later time, also after the
  agent has crashed, or never;
- writing the agent's checkpoint file succeeds unless the process dies;
- the agent restores its stored session, and serves one room.

The interpreter converts between `int` and `str` up to 4300 digits and raises
ValueError beyond, its default. Evidence of a recorded run that is lost stays lost.

A monotonic clock never goes back. The timer of a deadline may fire arbitrarily
late except where a lemma says otherwise.

## Where the code keeps less than its documentation

Each of these is proved as an exact condition over all inputs or runs, most with a
concrete history in which the stronger statement fails.

- *Reconciliation is exact.* `/sync` keeps any event with a text body, history only
  `m.room.message`. A reconciled window shows what an untruncated sync would have
  shown if and only if no text event of another type fell into the gap
  (`WindowExactIff`). No message is ever lost.
- *Recovery closes the gap.* Startup recovery raises when pagination does not reach
  the checkpoint, and the next restart starts from the same checkpoint. Wherever the
  homeserver truncates the answer, the restarted agent can catch up if and only if
  the gap is at most `page_limit * max_pages` events and reading no foreign text of
  the window raises (`RecoverableIff`). When syncs show at most the last L events, an
  agent that is down can ever catch up if and only if it is at most L events further
  behind than that and no such text is in its way (`RecoverableWithinIff`). Behind by
  more, nothing is handled again, live or after any number of restarts
  (`StuckForever`); every room that large is one a run can leave the agent behind in
  (`StuckHistory`).
- *What is not a FAM/1 message is ignored.* Parsing promises `None` for it. A body that
  matches the expression with more digits than the interpreter converts makes it raise
  instead, uncaught (`ParseDecidesRegex`, `LongSequenceRaises`). No position of the
  agent ever passes such a foreign message (`PoisonNeverPassed`), so one stops it for
  good (`LongSequenceStops`).
- *One acknowledgement per request.* Transaction ids lower-case the run id, which
  the correlation key does not, so ids of two runs can coincide
  (`TxnIdsCollideAcrossRuns`). Two acknowledgements never appear; every accepted
  send has its own one if and only if no two accepted sends share an id
  (`ExactlyOneAckIff`), which holds within a run (`FamExactlyOnce`) and fails in a
  history of two (`RunsShareAcks`). A send that is reported failed is recorded and
  never repeated, so its request can stay without one (`FailedSendHistory`).
- *A timeout carries no completion time.* It does exactly when an acknowledgement
  was handled while a send was suspended that then overran the budget
  (`TimeoutWithoutCompletionIff`, `OvertakenSend`).
- *The terminating acknowledgement is not listed as a duplicate.* For an interaction
  that timed out it is, exactly when an acknowledgement was delivered before the step
  that timed out and a new one after it (`ResponseNotDuplicateIff`, `OvertakenSend`);
  otherwise never (`UntimedResponse`).
- *The completion time is final at the return.* Except for a refused send that is
  acknowledged all the same, later (`CompletionFinalIff`).
- *The sweep-line peak is at most C.* It is at most C plus the number of such
  refused sends (`PeakBound`), and for every C and every such number a run reaches it
  (`LateAcksOverlap`).
- *At the window's end slots stop initiating.* The loop condition is read before T0 is
  stamped. One interaction at most starts after the end (`OneLateStart`), and for
  every delay one starts exactly that late (`LateStartReached`).
- *A success is within its timeout.* With a timer late by at most d a success comes at
  most d after the timeout (`DeadlineBound`), and for every d one comes exactly then
  (`LateTimerSuccess`): for a positive timeout all are within it if and only if d is
  zero (`DeadlineIff`).
- *No overlap means a peak of one, and back.* What the check decides for every sample
  is that of no two records the later one starts before the other has ended
  (`NoOverlapIff`). That bounds the peak by one, and is the same for records of
  positive length (`NoOverlapIffSequential`); an unfinished record can be rejected
  although nothing overlaps (`ZeroLengthRejected`).
- *The ledger counts duplicate observations.* After startup recovery the count is
  always zero, because reconciliation has merged by event id before the ledger sees
  anything (`Recovery.AgentRuntime.Recover`).
- *Run keys identify runs.* If and only if the concurrency levels are distinct
  (`CampaignKeysDistinctIff`).
- *Pagination with full pages raises for gaps beyond the page bound.* With a boundary
  token the bound is exactly `page_limit * max_pages`. Without one a gap that needs
  the last permitted page is collected if and only if that page's reply names no `end`
  (`PageLoopBound`).
- *An interrupted campaign resumes.* The ledger file is rewritten in place, and a torn
  one does not load; a resume is also refused once recorded evidence does not verify.
  After any history a campaign can still record every run once if and only if it has,
  or an invocation is running, or the ledger loads and the evidence verifies
  (`ResumableIff`); all ways to end early are reached (`EndedEarly`, `EndedAtOnce`).

## Model

| member | source | states |
|---|---|---|
| Message.ParseDecidesRegex | src/fam/common/message.py:40-47 | the parser ignores exactly the bodies whose stripped text does not match the body expression, reads its result off any match, and raises exactly when the sequence has more digits than the interpreter converts |
| Message.BuildParse | src/fam/common/message.py:104-189 | for every valid correlation, kind and size: building succeeds exactly when the sequence can be printed and the separator fits, gives exactly that many bytes, and parses back to the same kind and key |
| Message.PadShape | src/fam/common/message.py:111-121 | padding appends one separator and filler, to the exact UTF-8 length, or is refused |
| Message.ParseEnvelope | src/fam/common/message.py:165-189 | filler of any length or trailing blanks leave the parse intact |
| Message.StripUnique | src/fam/common/message.py:174 | stripping removes exactly the blank ends |
| Message.DecimalRoundTrip | src/fam/common/message.py:84 | reading the decimal digits of a sequence number gives it back |
| Message.DecimalShortest | src/fam/common/message.py:84 | printing what was read takes no more digits, so a parsed sequence can be printed |
| Message.SequenceTokenValue | src/fam/common/message.py:82-84 | the zero-filled token is all digits and keeps the value, beyond five digits too |
| Message.SequenceTokenWidth | src/fam/common/message.py:82-84 | the token has five digits at least, and longer numbers are written as they are |
| Message.TxnIdInjectiveInRun | src/fam/common/message.py:89-101 | within one run a transaction id determines direction and sequence number |
| Message.KeyDeterminesTxnId | src/fam/common/message.py:86-101 | requests with one key share their transaction ids, whatever the spelling of the experiment |
| Message.KeyIgnoresCase | src/fam/common/message.py:86-87 | two correlations are one logical request exactly when run and sequence agree and the experiments differ in case at most |
| Message.TxnRunsIff | src/fam/common/message.py:98-101 | for one experiment, sequence and direction two runs share the id if and only if their names differ in case at most |
| Message.TxnExperimentsIff | src/fam/common/message.py:98-101 | the same for two experiments under one run |
| Message.DocumentedBody | tests/test_message.py:18-32 | the request of the tests' example, and its acknowledgement |
| Message.DocumentedTxnIds | tests/test_message.py:43-44 | the transaction ids of the tests' example, for either direction |
| Message.TxnIdsCollideAcrossRuns | src/fam/common/message.py:86-101 | two runs that differ in case have different keys and the same ids |
| Protocol.AnswerDependsOnKeyOnly | src/fam/executors/deterministic.py:35-49 | transaction id and answer are functions of the key, not of spelling, padding or event |
| Protocol.ReplyCorrelates | src/fam/participants/human.py:147-151 | any answer the executor gives is looked up under the key it answers |
| Protocol.AnswerFits | src/fam/executors/deterministic.py:44-48 | when the request fits a size so does the acknowledgement, exactly |
| Protocol.EndToEnd | src/fam/agent/protocol.py:66-77 | for every correlation and every size the request fits: the agent recognises it under its key and nobody takes it for an acknowledgement, the answer has the exact size, the sender finds its interaction, and nobody answers the answer |
| Transport.PaginateBackwards | src/fam/matrix/client.py:424-473 | returns the whole gap in at most max_pages requests or raises; with full pages the outcome is decided by the gap, and without a boundary token in its last page by whether the final reply names an end |
| Transport.PageLoopWhole | src/fam/matrix/client.py:443-473 | from any request on, honest pages of any size add up to the whole gap or the loop raises |
| Transport.PageLoopBound | src/fam/matrix/client.py:448-472 | from any request on, full pages collect the gap if and only if it is at most page_limit events for each request left, given a boundary token, and in no more pages than it takes; the remaining case without one is decided too |
| Transport.PageStep | src/fam/matrix/client.py:448-464 | one page extends what was collected by the events just before it |
| Transport.ReconcileSlice | src/fam/matrix/client.py:506-560 | returns the merged window with direct + parsed history = unique + duplicates, recovered = unique minus distinct direct ids and the pages pagination took; raises exactly when pagination does not reach the boundary |
| Transport.MergeDirect | src/fam/matrix/client.py:528-534 | the first loop merges by event id and counts the rest as duplicates |
| Transport.MergeHistory | src/fam/matrix/client.py:542-550 | the second loop adds the unseen messages and counts the seen ones |
| Transport.MergeFacts | src/fam/matrix/client.py:528-560 | a merge is duplicate-free, has the same ids and holds only what was observed |
| Transport.MergeKeepsFirst | src/fam/matrix/client.py:530-549 | of the events with one id the merge has the one observed first |
| Transport.KeepConcat | src/fam/matrix/client.py:562-568 | filtering keeps the order |
| Transport.WindowOrder | src/fam/matrix/client.py:528-560 | the window is the slice as it came, then the gap newest first |
| Transport.WindowMembers | src/fam/matrix/client.py:536-575 | a window holds the text events of the slice and the text messages of the gap, each once |
| Transport.WindowHoldsMessages | src/fam/matrix/client.py:506-560 | text messages in the window are exactly those strictly after the old token up to the new one |
| Transport.WindowExactIff | src/fam/matrix/client.py:562-575 | the window equals the untruncated one if and only if no text event of another type is in the gap |
| Dedup.AtMostOnce | src/fam/common/dedup.py:36-49 | over any delivery sequence each event id and each key is processed at most once, both sets have one entry per processing, and nothing offered is left out |
| Dedup.TrackCommit | src/fam/common/dedup.py:43-49 | one commit keeps the registry in step with the processings |
| Dedup.TracksIff | src/fam/common/dedup.py:33-49 | a registry is in step with its processings exactly when it is the one they leave and none of them repeats an event or a key |
| Dedup.ProcessedRegistry.Decide | src/fam/common/dedup.py:36-41 | a delivery is skipped exactly when an earlier commit had its event or its key |
| Dedup.ProcessedRegistry.Commit | src/fam/common/dedup.py:43-45 | the two sets go on standing for the history of commits, one longer |
| AgentInvariant.StepKeeps | src/fam/matrix/client.py:577-657 | every step of agent, network and homeserver keeps the system invariant |
| AgentInvariant.SyncKeeps | src/fam/matrix/client.py:585-620 | a sync answer, truncated or not, leaves the whole window still to be handled |
| AgentInvariant.PageKeeps | src/fam/matrix/client.py:448-473 | each history page keeps the collected gap contiguous, and the last one completes the window |
| AgentInvariant.PlanCovers | src/fam/agent/runtime.py:267-296 | the dispatch list, live or startup, holds every request message of the window |
| AgentInvariant.BeginKeeps | src/fam/agent/runtime.py:405-488 | deciding, committing and executing one event keeps the invariant, for ignored, duplicate, silent and answered events |
| AgentInvariant.EndKeeps | src/fam/agent/runtime.py:485-512 | finishing a handler, with the send accepted or failed, keeps it |
| AgentInvariant.AcceptKeeps | src/fam/matrix/client.py:330-347 | a send accepted at any time, also after a crash, keeps it |
| AgentInvariant.RepeatedSend | src/fam/matrix/client.py:330-347 | a repeated transaction id adds no event |
| AgentInvariant.CommitKeeps | src/fam/matrix/client.py:652-657 | advancing the token after the whole batch leaves nothing below it unhandled |
| AgentInvariant.LifecycleKeeps | src/fam/agent/runtime.py:114-164 | priming, restart, giving up, saving, shutdown and crash keep it |
| AgentTheorems.Reachable | src/fam/agent/runtime.py:564-578 | the invariant holds in every state of every run |
| AgentTheorems.NoLoss | src/fam/matrix/client.py:577-657 | durable token <= committed token <= log, and every foreign request message from the first primed position up to the committed token was handled in some incarnation |
| AgentTheorems.PoisonNeverPassed | src/fam/agent/runtime.py:417 | no position of the agent ever passes a foreign message on which reading raises |
| AgentTheorems.StepForward | src/fam/matrix/client.py:633-652 | no step moves the durable or committed position back |
| AgentTheorems.PositionsOnlyGrow | src/fam/agent/runtime.py:516-521 | between any two states of a run the durable position only grows and the first one stays |
| AgentTheorems.AtMostOncePerIncarnation | src/fam/agent/runtime.py:429-447 | over startup recovery, live sync and redispatched batches the executor runs at most once per event and per key, and both registry sets count those runs |
| AgentTheorems.AtMostOneAck | src/fam/agent/runtime.py:485-491 | in every reachable state the room holds at most one acknowledgement of a request |
| AgentTheorems.NoSpuriousAck | src/fam/agent/runtime.py:418-447 | every acknowledgement follows a request with its key |
| AgentTheorems.SharedTxn | src/fam/common/message.py:89-101 | of two requests that share a transaction id at most one is acknowledged |
| AgentTheorems.ExactlyOneAckIff | src/fam/agent/runtime.py:485-491 | every accepted send has exactly one acknowledgement if and only if no two accepted sends share a transaction id |
| AgentTheorems.AckIffAccepted | src/fam/agent/runtime.py:485-491 | then a request has one acknowledgement exactly when a send for it was accepted in some incarnation, and none otherwise |
| AgentTheorems.ExactlyOnceDelivery | src/fam/agent/runtime.py:405-521 | each answerable request the checkpoint has passed, whose send was not reported failed, has exactly one acknowledgement |
| AgentOrigin.SinceKeeps | src/fam/agent/runtime.py:405-512 | every step keeps that all the agent handles, executes and sends goes back to an event written since it primed |
| AgentOrigin.OriginIsPrimedEnd | src/fam/matrix/client.py:475-486 | an agent's first position is exactly the end of the room at its last priming |
| AgentOrigin.NoReplay | src/fam/matrix/client.py:475-486 | what was in the room when the agent primed is never handled or executed in any incarnation, and a request that stands only there is never acknowledged |
| AgentOrigin.ExecutedWasAsked | src/fam/agent/runtime.py:408-447 | every execution is of someone else's event and of the key it asks for, and every accepted send answers such an event |
| AgentOrigin.AckWorded | src/fam/agent/runtime.py:485-494 | over every run each acknowledgement in the room is a message and says what the executor answers to its key |
| AgentOrigin.ProcessGoesOn | src/fam/matrix/client.py:593-651 | a failed sync, page or batch is retried by the same live process, which forgets nothing it has executed |
| AgentOrigin.CheckpointWritten | src/fam/agent/runtime.py:516-521 | the checkpoint is written by priming, a finished send, a commit and a shutdown, each time with the position reached, and by nothing else |
| AgentOrigin.SendIsExecution | src/fam/agent/runtime.py:429-491 | a send is handed to the network only by executing a new request; duplicates are not answered again |
| AgentOrigin.FailedWasReported | src/fam/agent/runtime.py:485-494 | a send counts as failed only when it was reported so while it was waited for |
| AgentProgress.PageAll | src/fam/matrix/client.py:448-473 | the step system walks through history exactly as the pagination loop does: if the loop collects, the window is merged |
| AgentProgress.VainForever | src/fam/matrix/client.py:465-472 | and if the loop does not collect, the incarnation never gets past paging |
| AgentProgress.ToilingForever | src/fam/agent/runtime.py:267-272 | and if a text of the window raises, it never gets past reading or dispatching it |
| AgentProgress.PlanAll | src/fam/agent/runtime.py:267-292 | from the merged window recovery reaches dispatch with every request message of it on the list |
| AgentProgress.OneEvent | src/fam/agent/runtime.py:405-512 | an undisturbed incarnation can take the next event of a batch in which no text raises, ignored, duplicate or sent, to its end with its request answered |
| AgentProgress.DispatchAll | src/fam/agent/runtime.py:292-296 | and so the whole batch |
| AgentProgress.CommitAndSave | src/fam/agent/runtime.py:298-300 | then the durable position is the end of the batch |
| AgentProgress.RecoverableIff | src/fam/agent/runtime.py:189-310 | from every reachable state and for every truncation point: the restarted agent can bring the checkpoint to the end of the room, every request message handled and every answerable one after the old checkpoint answered, if and only if pagination collects the gap, for full pages if and only if it is at most page_limit * max_pages, and reading no foreign text of the window raises |
| AgentProgress.LiveRetryIff | src/fam/matrix/client.py:577-657 | from every reachable state of a live agent, not in a send or a commit, and for every truncation point: failing and trying again can complete the batch to the end of the room in the same process if and only if pagination collects and reading no text of the window raises |
| AgentProgress.BlockedStep | src/fam/matrix/client.py:595-651 | too far behind, no step helps: not another page, sync, retry or restart |
| AgentProgress.StuckForever | src/fam/matrix/client.py:577-657 | then no continuation under truncated syncs handles an event or moves the position, live or restarted |
| AgentProgress.RecoverableWithinIff | src/fam/agent/runtime.py:189-310 | under syncs truncated to the last L events an agent that is down can ever catch up if and only if it is at most page_limit * max_pages + L events behind and no text raises among those the shortest sufficient answer and its gap show |
| AgentProgress.FacingStays | src/fam/matrix/client.py:633-651 | a text that raises and that every sufficient sync shows is never passed |
| AgentProgress.PoisonForever | src/fam/matrix/client.py:633-651 | nor is a message that raises, by any continuation at all |
| AgentLimits.StuckHistory | src/fam/matrix/client.py:465-472 | for every page bound, every truncation and every room larger than both together a run exists after which nothing in it is ever handled or answered |
| AgentLimits.PoisonHistory | src/fam/agent/runtime.py:417 | for every room with a message that raises a run exists after which no continuation gets past it |
| AgentLimits.FailedSendHistory | src/fam/agent/runtime.py:485-512 | for every request a run exists in which its send failed and the checkpoint passed it without an acknowledgement, and one in which the network delivers that send after a crash |
| AgentLimits.SharedIdHistory | src/fam/common/message.py:89-101 | requests whose answers share an id: a run exists in which both sends were accepted and one of the two has no acknowledgement |
| FamAgent.FamCoherent | src/fam/agent/protocol.py:66-77 | FAM/1 with the deterministic executor meets the protocol the theorems ask for |
| FamAgent.FamInjective | src/fam/common/message.py:89-101 | response ids are injective within a run, as the agent uses them |
| FamAgent.SingleRunOwnsTxns | src/fam/common/message.py:89-101 | if all requests belong to one run no two accepted sends share an id |
| FamAgent.FamExactlyOnce | src/fam/agent/runtime.py:405-521 | one run of the study: after any failures, crashes and restarts a request has one acknowledgement if a send for it was accepted and none otherwise, and one if the checkpoint has passed it, its send was not reported failed and its answer fits |
| FamAgent.FamAnswers | src/fam/agent/runtime.py:405-491 | over every run an acknowledgement has exactly the configured size and is what the executor answers to a request of someone else before it in the room |
| FamAgent.RunsShareAcks | src/fam/common/message.py:86-101 | two runs differing in the case of their name: both sends accepted, one request without acknowledgement |
| FamAgent.LongSequenceRaises | src/fam/common/message.py:177-184 | an otherwise well-formed request makes reading raise exactly when its sequence has more than 4300 digits |
| FamAgent.LongSequenceStops | src/fam/agent/runtime.py:312-321 | one such message in the room stops the agent for good, through any restarts |
| Recovery.RecoveryLedger.Observe | src/fam/agent/recovery.py:55-62 | the first sighting fixes the source; a repeated one adds one to the duplicate count, a first one none |
| Recovery.SightingCounts | src/fam/agent/recovery.py:55-96 | for every ledger a repeated sighting adds exactly one to the sum of repeats, however the sum is taken |
| Recovery.RecoveryLedger.MarkProcessed | src/fam/agent/recovery.py:104-105 | one id more is processed |
| Recovery.NoRepeats | src/fam/agent/recovery.py:91-96 | a ledger that saw each id once counts no duplicate observation |
| Recovery.AgentRuntime.constructor | src/fam/agent/runtime.py:82-110 | a started process has an empty history and ledger and no position |
| Recovery.AgentRuntime.Connect | src/fam/agent/runtime.py:114-164 | the stored position becomes the recovery boundary, a missing one is primed, and either is durable |
| Recovery.AgentRuntime.SaveCheckpoint | src/fam/agent/runtime.py:516-521 | the checkpoint holds the position reached |
| Recovery.HandleFacts | src/fam/agent/runtime.py:429-447 | one delivery never rewrites the history of processings, repeats no event or key in it, and leaves the request served |
| Recovery.HandledInSequence | src/fam/agent/runtime.py:290-296 | handled in sequence order, new processings ascend in their sequence numbers behind those there were |
| Recovery.RecoveredInSequence | src/fam/agent/runtime.py:290-296 | so recovery's do |
| Recovery.HandlersAgree | src/fam/agent/runtime.py:405-447 | the step system and the handler do the same to the history, and the system's registry is the one it leaves |
| Recovery.AgentRuntime.Handle | src/fam/agent/runtime.py:405-512 | it raises exactly on a foreign text that does, changing nothing; otherwise the registry object follows that history, and the position reached is saved exactly when a new request is answered |
| Recovery.AgentRuntime.CountForeign | src/fam/agent/runtime.py:221-225 | counts the direct requests, or raises exactly when reading one of the events does |
| Recovery.AgentRuntime.ObserveAll | src/fam/agent/runtime.py:267-275 | the ledger holds exactly the foreign requests, those also seen directly counted as sync, each observed once; it raises exactly when reading an event does |
| Recovery.AgentRuntime.ProcessAll | src/fam/agent/runtime.py:290-296 | every pending request is handled and marked, one after the other in sequence order |
| Recovery.AgentRuntime.Complete | src/fam/agent/runtime.py:267-300 | processed = recovered = requests, the two sources partition them, and the position moves last |
| Recovery.AgentRuntime.Recover | src/fam/agent/runtime.py:189-310 | with a checkpoint recovery raises exactly when pagination does not collect or reading a text of the window raises, and then nothing is processed and the position stands; otherwise it returns completed, with the pages it took counted; without a checkpoint it does nothing |
| Recovery.RecoveryBound | src/fam/agent/runtime.py:252-257 | with full pages it raises exactly when more than page_limit * max_pages events separate the slice from the checkpoint |
| Recovery.DirectIsMerged | src/fam/agent/runtime.py:267-269 | every directly delivered request is in the reconciled window |
| Recovery.RecoveredMessages | src/fam/agent/runtime.py:252-275 | the recovered request messages are exactly those between checkpoint and next_batch |
| Interaction.CompletionWrittenOnce | src/fam/participants/human.py:154-184 | the completion time is written at most once and never after timed_out |
| Interaction.OutcomeImmutable | src/fam/benchmark/engine.py:108-121 | after request() returns no acknowledgement, duplicate or late, changes the outcome |
| Interaction.AfterReturn | src/fam/participants/human.py:216-266 | only acknowledgements follow the return, and they touch neither timed_out nor the send error |
| Interaction.ReturnOutcome | src/fam/participants/human.py:242-266 | what ended a request decides its outcome: a refusal a send error under its code, a send at the deadline or later and a timer a timeout, never before the deadline, a resumed wait a success |
| Interaction.SendLeavesBudget | src/fam/participants/human.py:255-260 | a send that returns before the deadline leaves the request waiting, one that returns later ends it |
| Interaction.NeverTimedOutEarly | src/fam/participants/human.py:255-266 | no interaction is timed out before its deadline |
| Interaction.EarlyReturnIsSuccess | src/fam/benchmark/engine.py:108-121 | a request that returned before its deadline and was not refused is a success |
| Interaction.InTimeAckSucceeds | src/fam/participants/human.py:172-180 | a first acknowledgement that comes while the request waits can complete it at its own time |
| Interaction.AlwaysReturns | src/fam/participants/human.py:261-266 | a request that has not returned always can, by its send or its timer, however late |
| Interaction.CompletionOfFirst | src/fam/participants/human.py:172-178 | completion time and recovery episode are those of the first acknowledgement |
| Interaction.LateAckOfFirstNew | src/fam/participants/human.py:160-170 | the late acknowledgement and the response are those of the first new one after the timeout |
| Interaction.CompletionFinalIff | src/fam/participants/human.py:242-248 | a completion time changes after the return if and only if the send was refused, nothing was acknowledged yet and an acknowledgement follows |
| Interaction.DeadlineBound | src/fam/participants/human.py:250-266 | with a timer late by at most d every success has T3 - T0 <= timeout + d, also when the acknowledgement overtook the send |
| Interaction.LateTimerSuccess | src/fam/participants/human.py:261-266 | for every d a success exactly d after the timeout is reachable |
| Interaction.DeadlineIff | src/fam/participants/human.py:250-266 | all successes are within the timeout if and only if the timer is never late |
| Interaction.AckEvidenceInvariant | src/fam/participants/human.py:70-82 | over every delivery sequence the ids are the distinct ones in first-arrival order, ack_count = duplicates + (1 if there is a response), and the response is one of them |
| Interaction.EvidenceOfRun | src/fam/participants/human.py:154-184 | when the response id is the first acknowledgement and when a later one |
| Interaction.ResponseNotDuplicateIff | scripts/final_audit.py:169-191 | the response of an interaction that timed out is listed as a duplicate if and only if an acknowledgement was delivered before the step that timed out and a new one after it |
| Interaction.UntimedResponse | scripts/final_audit.py:169-191 | that of any other interaction never is |
| Interaction.TimeoutWithoutCompletionIff | scripts/final_audit.py:164-167 | a timeout carries no completion time if and only if no acknowledgement was handled before the step that timed out |
| Interaction.OvertakenSend | src/fam/participants/human.py:255-260 | both audit rules fail in one reachable history, for every timeout |
| Interaction.PendingInteraction.Deliver | src/fam/participants/human.py:154-184 | the in-place update of one acknowledgement is the specified one |
| Interaction.HumanParticipant.Register | src/fam/participants/human.py:202-210 | a request registers a fresh interaction under its key and counts as unreturned |
| Interaction.HumanParticipant.Release | src/fam/participants/human.py:213-214 | the request no longer counts as unreturned, and the counter goes on counting those that do |
| Interaction.HumanParticipant.OutstandingCount | src/fam/participants/human.py:321-327 | the number of unreturned requests, zero exactly when every one has returned |
| Interaction.HumanParticipant.Handle | src/fam/participants/human.py:131-184 | an acknowledgement changes the interaction with its key and no other; anything else changes nothing, and the handler raises exactly when the parser does |
| ClosedLoop.MoveKeeps | src/fam/benchmark/engine.py:278-292 | every step of a slot or an interaction keeps the loop invariant |
| ClosedLoop.ScheduleInv | src/fam/benchmark/engine.py:278-294 | it holds in every state of every interleaving |
| ClosedLoop.ClosedLoopBound | src/fam/benchmark/engine.py:246-303 | at most C in flight, sequence ids exactly 1..N, and at the end nothing in flight and each interaction listed once |
| ClosedLoop.StopsAtWindowEnd | src/fam/benchmark/engine.py:284-292 | no slot stops before the window ends, and once time has moved past its end none initiates |
| ClosedLoop.OneLateStart | src/fam/benchmark/engine.py:278-292 | over every interleaving one interaction at most, the last, has its T0 at the window's end or later |
| ClosedLoop.LateStartReached | src/fam/benchmark/engine.py:279-284 | and for every delay one has, exactly that late |
| ClosedLoop.ListedInReturnOrder | src/fam/benchmark/engine.py:287-292 | the interactions are accounted for in the order in which their requests returned |
| ClosedLoop.PeakBound | src/fam/benchmark/engine.py:276-346 | the sweep-line peak of the records is at most C plus the refused sends acknowledged after their return |
| ClosedLoop.LateIsRefused | src/fam/participants/human.py:242-248 | a completion stamped after the return belongs to a refused send |
| ClosedLoop.LateAcksOverlap | src/fam/participants/human.py:172-180 | the bound is met: for every C and every number k a finished run reaches an overlap of C + k with k refused sends acknowledged late |
| ClosedLoop.RecordsForward | src/fam/benchmark/engine.py:336-342 | no record ends before it starts |
| Window.FlowConservation | src/fam/analysis/e3.py:203-246 | outstanding at start + initiated in window = successes + failures completed in window + outstanding at end |
| Window.CountedLength | src/fam/analysis/e3.py:131-147 | the counted records are exactly the successes completed in the window |
| Window.HalvesPartition | src/fam/analysis/e3.py:178-201 | the second half, taken as a difference, is the count from the midpoint to the end |
| Window.Account | src/fam/benchmark/engine.py:305-346 | one record for each interaction with its times and outcome, and the engine's outstanding counts are the ones recomputed from the records |
| Window.WindowLabelIsCount | src/fam/benchmark/engine.py:310-321 | a record is counted exactly when it is a success labelled with the window |
| Window.WindowLabelCount | src/fam/analysis/e3.py:131-147 | and the two numbers agree, repeated records included |
| Window.LabelsByTimes | src/fam/benchmark/engine.py:310-321 | what was initiated before the window is labelled warm-up or outstanding at its opening, what completed at its close or later, and nothing else, is labelled drain, and every record has one label |
| Window.LoopConservesFlow | src/fam/benchmark/engine.py:246-346 | over every interleaving the raw records of a run conserve flow |
| SweepLine.PeakConcurrency | scripts/e3_pilot.py:481-496 | the sweep returns the greatest number of records in flight at one instant, ties and unfinished records included |
| SweepLine.Sweep | scripts/e3_pilot.py:492-496 | the counting loop returns the greatest running count |
| SweepLine.NetPeak | scripts/e3_pilot.py:491-496 | the greatest running count over sorted marks is the maximum net count over all instants |
| SweepLine.NetIsOverlap | scripts/e3_pilot.py:489-490 | starts minus ends up to t is the number in flight at t |
| SweepLine.NoOverlap | scripts/e3_pilot.py:234-243 | accepts exactly when of no two records the later one starts before the other has ended, unfinished records and ties included, and no start is negative |
| SweepLine.NoOverlapIff | scripts/e3_pilot.py:236-242 | comparing neighbours after a stable sort decides that condition on the unsorted list |
| SweepLine.NoOverlapBoundsPeak | scripts/e3_pilot.py:234-243 | an accepted sample never has two records in flight |
| SweepLine.NoOverlapIffSequential | scripts/e3_pilot.py:234-243 | for records of positive length acceptance is the same as a peak of at most one |
| SweepLine.ZeroLengthRejected | scripts/e3_pilot.py:241-242 | with an unfinished record it can reject although nothing overlaps |
| Percentile.ShareIsProduct | src/fam/analysis/e3.py:65 | the share is q * n |
| Percentile.NearestRankMeaning | src/fam/analysis/e3.py:55-66 | the result is the one sample value that at least a share q of the sample does not exceed and less than q lies below |
| Percentile.NearestRankMonotone | src/fam/analysis/e3.py:55-66 | a greater quantile never gives a smaller value |
| Percentile.SortedDominates | src/fam/analysis/e3.py:455-458 | sorting pooled samples keeps elementwise domination |
| Percentile.Bootstrap | src/fam/analysis/e3.py:469-528 | the replicate loop computes the replicates and intervals that the lemmas below describe |
| Percentile.ReplicateEntries | src/fam/analysis/e3.py:473-482 | entry by entry: the two pooled percentiles of each usable draw, their difference, and their ratio where the local one is not zero |
| Percentile.PoolHolds | src/fam/analysis/e3.py:455-458 | a pool is sorted and has every time of every selected block, once for each time it was drawn, and no other |
| Percentile.IntervalMeaning | src/fam/analysis/e3.py:425-432 | the interval's ends are the quantiles of the values that leave half of what the confidence leaves on either side |
| Percentile.NearestRankEnds | src/fam/analysis/e3.py:65-66 | shares that are not positive give the least value, whole ones the greatest |
| Percentile.ReplicateDominates | src/fam/analysis/e3.py:470-475 | in every replicate the pooled federated percentile is at least the local one |
| Percentile.PooledDomination | src/fam/analysis/e3.py:435-529 | blockwise domination puts the low end of the difference interval at zero or above and, for positive times, of the ratio interval at one or above, for every resampling, quantile and confidence |
| Percentile.IntervalOrdered | src/fam/analysis/e3.py:425-432 | the interval's ends are in order |
| Schedule.ShuffledHalf | src/fam/benchmark/schedule.py:94-104 | any shuffle leaves floor(blocks / 2) local-first orders |
| Schedule.GenerateWorkload | src/fam/benchmark/schedule.py:107-139 | the nested loops produce the specified runs |
| Schedule.Counterbalanced | src/fam/benchmark/schedule.py:94-139 | whatever the shuffle: each block an adjacent pair of both topologies, exactly floor(blocks / 2) leading local |
| Schedule.KeyInjective | src/fam/benchmark/schedule.py:80-91 | a key names workload, concurrency, block and topology without ambiguity, for numbers of any size |
| Schedule.WorkloadKeysDistinct | src/fam/benchmark/schedule.py:80-139 | no two runs of a workload share a key |
| Schedule.CampaignKeysDistinctIff | src/fam/benchmark/schedule.py:142-166 | campaign keys are distinct if and only if the concurrency levels are |
| Schedule.CampaignContents | src/fam/benchmark/schedule.py:142-166 | a campaign holds the latency blocks first, one interaction in flight, then the blocks of every level in turn, each as its shuffle ordered it, and nothing else |
| Schedule.GenerateCampaign | src/fam/benchmark/schedule.py:142-166 | the generator's loops produce that campaign |
| Schedule.DocumentedBlockIds | tests/test_remediation.py:39 | the block ids the tests name |
| Campaign.PendingAfterPrefix | src/fam/benchmark/schedule.py:379-382 | after a completed prefix exactly the rest is pending, in order |
| Campaign.PendingMembers | src/fam/benchmark/schedule.py:379-382 | for every ledger the pending runs are exactly those whose key is not in it |
| Campaign.PendingConcat | src/fam/benchmark/schedule.py:379-382 | in schedule order |
| Campaign.StepKeeps | experiments/e3_benchmark.py:216-288 | start, execution, recording and interruption at any point, also inside the ledger write, keep completion a prefix of the schedule |
| Campaign.CompletedIsPrefix | experiments/e3_benchmark.py:216-288 | over every history of interruptions the completed keys are a prefix of the schedule, each recorded once |
| Campaign.NeverExecutedAgain | src/fam/benchmark/schedule.py:297-298 | a run that starts executing is not in the ledger |
| Campaign.FinishedIff | experiments/e3_benchmark.py:290-298 | the ledger is smaller than the schedule if and only if something is pending, and nothing is if and only if every run has been recorded once, in order |
| Campaign.TornIsFinal | src/fam/benchmark/schedule.py:346-357 | after a torn ledger write nothing is executed or recorded any more |
| Campaign.ResumableIff | src/fam/benchmark/schedule.py:233-316 | after every history: all runs can still be recorded, once each and in order, if and only if they have been, or an invocation is running, or the ledger loads and the evidence of what is recorded verifies |
| Campaign.EndedEarly | experiments/e3_benchmark.py:187-193 | for every schedule of two runs or more both a torn ledger and lost evidence are reached with one run recorded, and nothing more is recorded after either |
| Campaign.EndedAtOnce | src/fam/benchmark/schedule.py:346-357 | a ledger torn when it is first written ends a campaign of any schedule with nothing recorded |
| Campaign.LoopIsSteps | experiments/e3_benchmark.py:216-288 | what the main loop executes and records before an interruption is a path of those steps |
| Campaign.CampaignRecordsOnce | src/fam/benchmark/schedule.py:142-166 | for every generated campaign with distinct levels, finished means each run recorded exactly once: every latency block and every block of every level, two runs each |
| Campaign.CampaignState.Record | src/fam/benchmark/schedule.py:300-316 | a recording changes its own key only |
| Campaign.CampaignState.ListPending | src/fam/benchmark/schedule.py:379-382 | the pending runs are listed up front as specified |
| Campaign.RunCampaign | experiments/e3_benchmark.py:187-288 | a resume that does not verify is refused with the ledger as it was; otherwise the pending runs are executed and recorded in order until the interruption |
| Campaign.RecordAllKeys | src/fam/benchmark/schedule.py:300-316 | recording adds exactly the executed keys and leaves the other entries |
| Campaign.RecordAllValues | experiments/e3_benchmark.py:233-282 | each executed run is recorded with what its execution gave |
| Campaign.InvocationExtendsPrefix | experiments/e3_benchmark.py:216-288 | one invocation takes a completed prefix to a longer one and leaves earlier records as they were |
| Sorting.SortSorted | scripts/e3_pilot.py:491 | sorting yields ascending keys |
| Sorting.SortPermutes | scripts/e3_pilot.py:491 | and a permutation |
| Sorting.SortStable | scripts/e3_pilot.py:236 | elements with equal keys keep their order |

## Left out

- Message.ParseDecidesRegex: `\d` is taken as the digits 0 to 9 and `$` as the end of the text; negative sequence numbers, which the constructor refuses, do not occur.
- Message.TxnIdInjectiveInRun: is about one run. Ids of different runs can coincide, in case or because the fields are joined by a character they may contain; TxnRunsIff and TxnExperimentsIff say when, for one field changed at a time.
- Transport.PaginateBackwards: HTTP, encoding of tokens and the shape of JSON replies are replaced by an oracle; a failed request stands for every exception.
- AgentTheorems.NoLoss: speaks of requests sent as `m.room.message`; a request in the body of another event type may be dropped by the history path (WindowExactIff says exactly when).
- AgentTheorems.ExactlyOnceDelivery: a send that raises is recorded and never repeated, so requests whose send was reported failed are not covered; AckIffAccepted covers them.
- Recovery.AgentRuntime.Handle: the send is not part of this class; its effect on the room and its failures are in AgentSystem.
- AgentProgress.RecoverableIff: says that a continuation exists, not that every continuation makes progress; the timing of retries and back-off is not modelled. A restarted agent raises on a text of the slice before it pages, the step system after.
- Interaction.DeadlineBound: the conversion of nanoseconds to floating-point seconds is not modelled.
- Interaction.HumanParticipant.Register: a request whose transaction id or body cannot be built raises; such calls are not modelled.
- Interaction.HumanParticipant.Handle: the room filter, since there is one room; what the participant's own sync loop does after a raise is not modelled.
- ClosedLoop.PeakBound: a workload ended by an exception other than a refused send is not modelled.
- Percentile.PooledDomination: reals are exact; rounding to milliseconds and to four digits and Python's random draws are replaced by exact values and arbitrary index sequences.
- Schedule.GenerateWorkload: the seeded shuffle is an arbitrary permutation.
- Campaign.RunCampaign: digests, manifests and run ids are not modelled, and a run's status is an arbitrary value; verification of recorded evidence is a Boolean. Torn ledger writes are in Campaign.Step.
- The Matrix client library, login, joins, the password fallback after a rejected session, a corrupted checkpoint file, untracked rooms and switched-off gap recovery lie outside the stated guarantees.
- `run_latency_workload` is the closed loop with one slot and a count in place of a window; `send_offline` and `await_acks` have no deadline race.
- `compare` in `recovery.py`, `median`, `pair_blocks`, `incomplete_blocks`, outcome counts, drain counts and the throughput bootstrap would add only simpler members.
- The natural-language protocol, the LLM executor, telemetry, figures, environment collection and the other experiments' scripts are input, output or reporting.
