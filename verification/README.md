# Evidence, delivery and policy models

Dafny models of the parts of the STS2 platform whose correctness is decided by code rather than by
the game: the command fence of the in-game policy panel, the verifiers of human and agent evidence,
the crash-safe delivery of evidence bundles, the receiver that stores them, the live action feed,
the actor/learner smoke, the registry of pending relic choices and the artifact manifest codec.

`dafny verify dfyconfig.toml` checks everything.

How the models are built:

- Code that updates fields or dictionaries step by step is a class or a method with loops, proved
  against a specification; the laws are lemmas about that specification.
- Concurrency (policy commands) is a state machine whose steps are the code between two awaits or two
  accesses to shared state; the lemmas quantify over every schedule.
- Crashes and remote answers (delivery, contention smoke, receiver) are parameters of each step: every
  request, durable write and place to die has its own answer, so the lemmas quantify over every
  behaviour of the environment. A crash keeps the files written so far and rolls the SQLite row back.
- SHA-256 is a function that a lemma assumes injective only where the conclusion needs it; directories
  are maps; JSON is a tree with a token stream as its text.
- Checks of one field of one event (types, schemas, timestamps) are folded into a flag of that event.
- Each main operation is also described from outside, by which answers, events or calls lead to which result,
  and an if-and-only-if connects the two (`HubOutcomes`, `DeliveryIncidents`, `PolicyProgress`,
  `HumanAcceptance`, `AgentRunChains`, `LiveActionRows`, `ContentionEvidence`, `ContentionPlay`,
  `RelicRegistration`, `ReceiverOutcomes`, `ManifestFields`).

Files by component:

- Policy commands: `PolicyLedger` (unknown and recovered runs), `PolicyFence` (schedules),
  `PolicyFenceSafety` (recovery fence, when and how often superseded commands are dispatched),
  `PolicyOneStep` (mode and tick), `PolicyProgress` (what a command can still send, and what stops it),
  `PolicyCommands` (the class).
- Human evidence: `HumanTrace`, `HumanLineage`, `HumanCoverage`, `HumanSummary`, `HumanEvidence` (what an
  accepted session says), `HumanAcceptance` (what may come next), `InterruptedRecovery`,
  `RecoveredTrace` (the trace file as bytes, lines and events).
- Agent evidence: `AgentRunLog`, `AgentRunChains` (which event may come next, and what each links).
- Delivery: `HubProtocol` and `HubTransport` (one upload), `HubOutcomes` (which answers lead to which
  outcome), `DeliveryRows` (one attempt), `DeliveryIncidents` (what it makes of its row), `DeliveryRuns`
  (draining), `DeliveryRecovery` (credential recovery), `DeliveryHistory` (any history),
  `DeliveryLiveness` (which rows can still be delivered), `DeliveryBlockedRows` (held rows that recovery
  refuses), `DeliveryOutbox` (the class), `DeliverySession` and `DeliveryCompletion` (completion receipt),
  `TransferFiles`, `DirectoryReceiver`, `ReceiverOutcomes`.
- Live feed: `LiveActionFeed`, `LiveActionRows`, `LiveActionAggregation` (the class).
- Learning smoke: `ContentionEpisode`, `ContentionPlay` (what a record says), `ContentionSmoke`,
  `ContentionVerdict`, `ContentionEvidence` (what a pass takes).
- Relic choices: `RelicRegistry`, `RelicRegistration`. Artifact manifests: `StringOrder`, `CanonicalJson`,
  `ArtifactManifest`, `ManifestFields`.
- `Prelude`: Option, Result and counting.

Five results say where the code stops short of what one might expect, each with its exact condition and
an input at which it does:

- A superseded model command can still be dispatched, because the currency check and the delegate call
  are separate steps: exactly when a superseded call is already past the check
  (`PolicyFenceSafety.LateDispatchIff`), at most once (`PolicyFenceSafety.AtMostOneOlderDispatch`), and even
  after a newer recovery of the same run was confirmed (`PolicyFenceSafety.LateDispatchAfterRecovery` for every
  such state, `PolicyOneStep.SupersededDispatchIsPossible` for one schedule from the start).
- A passing recovery gives every action exactly one disposition if and only if the original part had at
  most one terminal event per accepted action (`InterruptedRecovery.RecoveryClosesTrace`); recovery itself does
  not check that, and a twice proved action passes it (`InterruptedRecovery.DoubleTerminalPasses`).
- A row held for credentials is requeued if and only if its source, its pack and its receipt file are as they
  should be and no other session has since obtained an upload for the same manifest
  (`DeliveryRecovery.RequeuedIff`); a receipt file left by a crash, or the delivery of a copy of the same
  recording, blocks it whatever the source answers (`DeliveryBlockedRows.LeftReceiptBlocksRecovery`,
  `DeliveryBlockedRows.LateSidecarBlocksRecovery`).
- A promoted object is always the manifest's files, but a reused one is if and only if the source still
  was when it was read the second time (`DirectoryReceiver.ReceiptMeans`, `DirectoryReceiver.SuccessLasts`,
  `DirectoryReceiver.ReusedCanDiffer`). So two successes for one content id can have different file lists
  (`DirectoryReceiver.SameContentCanDiffer`), and when the first received its files they have the same list if
  and only if the second did too (`DirectoryReceiver.SameContentSameFiles`).
- A relic choice that is current and unambiguous is found by its option list if and only if no older
  registration has the same list (`RelicRegistry.ChoiceFoundIff`); one under another parent hides it
  (`RelicRegistry.OlderListHides`).

## Model

| member | source | states |
|---|---|---|
| PolicyLedger.UnknownIffOutstanding | apps/ingame-ui/PlatformPolicyCommands.cs:38-46 | whatever the completion order, a run is unknown exactly when some intent ended unknown and every confirmed recovery is older; the recorded intent is then the largest such |
| PolicyLedger.CompletionOrderIrrelevant | apps/ingame-ui/PlatformPolicyCommands.cs:116-134 | the same completions in another order leave the same answer and the same recorded intent |
| PolicyFence.OneModelMutationInFlight | apps/ingame-ui/PlatformPolicyCommands.cs:105-142 | in every schedule at most one model mutation is in flight |
| PolicyFence.ModelDispatchesInIntentOrder | apps/ingame-ui/PlatformPolicyCommands.cs:54-142 | in every schedule model mutations are dispatched in nondecreasing intent order |
| PolicyFenceSafety.NoDispatchBeforeRecovery | apps/ingame-ui/PlatformPolicyCommands.cs:105-134 | after a model mutation ends unknown none is dispatched on that run before a newer recovery is confirmed |
| PolicyFenceSafety.AtMostOneOlderDispatch | apps/ingame-ui/PlatformPolicyCommands.cs:105-150 | from any reachable state, at most one model mutation older than its newest intent is dispatched afterwards |
| PolicyOneStep.OneStepUninterrupted | apps/ingame-ui/PlatformPolicyCommands.cs:92-97 | the tick of a OneStep comes after its own mode change, with no model mutation in between |
| PolicyFenceSafety.LateDispatchIff | apps/ingame-ui/PlatformPolicyCommands.cs:112-115 | at any reachable state, a model command older than the newest intent can still be dispatched exactly when one is already past the currency check |
| PolicyFenceSafety.LateDispatchAfterRecovery | apps/ingame-ui/PlatformPolicyCommands.cs:109-134 | from any reachable state with such a call, a newer recovery of its own run can be dispatched and confirmed first and the superseded call dispatched afterwards |
| PolicyOneStep.SupersededDispatchIsPossible | apps/ingame-ui/PlatformPolicyCommands.cs:112-115 | a concrete schedule from the start: Human dispatched, Human confirmed, then the Auto command that it superseded |
| PolicyProgress.SendsIff | apps/ingame-ui/PlatformPolicyCommands.cs:74-97 | at any reachable state, a call that has not passed the currency check for its next mutation yet, on a run that may be commanded, can still send it exactly when its intent is the newest; for a OneStep whose mode was answered that is the tick |
| PolicyProgress.AloneShows | apps/ingame-ui/PlatformPolicyCommands.cs:54-142 | a command that runs alone with every operation succeeding shows exactly its mutations: a OneStep its mode and then its tick, any other command its one, a recovery its confirmation too, and the slot is as before |
| PolicyProgress.FailureEndsCall | apps/ingame-ui/PlatformPolicyCommands.cs:74-150 | a preparation or mutation that does not succeed, a fenced run, or a token or intent found stale where it is checked ends the call, and it sends nothing more |
| PolicyProgress.InvalidateStopsAll | apps/ingame-ui/PlatformPolicyCommands.cs:99-103 | after the panel is torn down no call sends what it was not already past the check for |
| PolicyProgress.FencedIffLost | apps/ingame-ui/PlatformPolicyCommands.cs:38-46 | at any reachable state a run is fenced exactly when its history holds a lost command that no confirmed recovery has overtaken, and exactly then a model command on it is not admitted |
| PolicyProgress.LossFences | apps/ingame-ui/PlatformPolicyCommands.cs:116-125 | a mutation whose outcome is lost fences its run at once, unless a recovery at least as new has been confirmed |
| PolicyCommands.PolicyCommands.Resume | apps/ingame-ui/PlatformPolicyCommands.cs:54-150 | the object's code between two awaits is exactly the step function the schedule lemmas are about |
| PolicyCommands.PolicyCommands.HasUnknownCommand | apps/ingame-ui/PlatformPolicyCommands.cs:38-41 | true exactly when, among all completions noted so far, some lost command of the run is newer than every confirmed recovery; never for a missing run id |
| PolicyCommands.PolicyCommands.NoteUnknown | apps/ingame-ui/PlatformPolicyCommands.cs:116-125 | a lost command that a confirmed recovery has overtaken changes nothing, any other leaves its run unknown, and the dictionaries stay what the noted completions mean |
| PolicyCommands.PolicyCommands.NoteRecovery | apps/ingame-ui/PlatformPolicyCommands.cs:126-134 | after a confirmed recovery the run is unknown only if it was so for a command newer than the recovery, and then for that same command |
| HumanTrace.PassesIffValid | components/evidence/sts2_platform_evidence/human_session_bundle_v3.py:370-420 | the dictionary checks on one event hold exactly when the positional specification of the trace does |
| HumanTrace.VerifyReferences | components/evidence/sts2_platform_evidence/human_session_bundle_v3.py:357-475 | accepts exactly the traces with valid events, one disposition per action and canonical rows that match their unique proof; returns the count of every disposition |
| HumanAcceptance.TraceValidIff | components/evidence/sts2_platform_evidence/human_session_bundle_v3.py:357-420 | a trace with one more event is valid exactly when the trace is and the event may come next; the empty trace is valid |
| HumanAcceptance.RowsValidIff | components/evidence/sts2_platform_evidence/human_session_bundle_v3.py:424-474 | one more canonical row is valid exactly when its transition id is new and it tells the only proof of its action |
| HumanEvidence.SequencesIncrease | components/evidence/sts2_platform_evidence/human_session_bundle_v3.py:370-383 | event sequences of a valid trace are positive and strictly increase |
| HumanEvidence.EventOfAcceptance | components/evidence/sts2_platform_evidence/human_session_bundle_v3.py:384-420 | every event has a recognized kind and its action's run, and is about the one action accepted under its witness, at that event or before |
| HumanEvidence.DispositionFollows | components/evidence/sts2_platform_evidence/human_session_bundle_v3.py:415-423 | the one disposition of an accepted action comes after its acceptance |
| HumanEvidence.DecisionKinds | components/evidence/sts2_platform_evidence/human_session_bundle_v3.py:485-512 | an accepted decision is a root and its own causal root, nested with a parent, or a native selector with evidence for its origin |
| HumanEvidence.RowTellsAction | components/evidence/sts2_platform_evidence/human_session_bundle_v3.py:424-474 | a canonical row tells the action accepted under its witness and the two different states its only proof links |
| HumanEvidence.RowDetermined | components/evidence/sts2_platform_evidence/human_session_bundle_v3.py:424-474 | the trace determines its canonical rows: two rows for one action agree in everything but who vouches for the catalogue |
| HumanTrace.VerifyDispositions | components/evidence/sts2_platform_evidence/human_session_bundle_v3.py:422-423 | passes exactly when every accepted action has exactly one terminal event |
| HumanTrace.VerifyRows | components/evidence/sts2_platform_evidence/human_session_bundle_v3.py:424-474 | accepts exactly the rows with distinct transition ids, each equal to the only proof of its action |
| HumanLineage.LineageEndsAtOrigin | components/evidence/sts2_platform_evidence/human_session_bundle_v3.py:384-404 | every parent chain is finite, strictly descends in position and action sequence, keeps run and causal root, and ends at a root or native selector that names that causal root |
| HumanLineage.ParentUnique | components/evidence/sts2_platform_evidence/human_session_bundle_v3.py:394-402 | a parent id names one earlier position |
| HumanLineage.OneRootPerCausalRoot | components/evidence/sts2_platform_evidence/human_session_bundle_v3.py:485-512 | a causal root has at most one root decision |
| HumanCoverage.VerifyInvalidations | components/evidence/sts2_platform_evidence/human_session_bundle_v3.py:224-255 | accepts exactly the invalidation rows whose disposition and failure identity are consistent with the trace and the canonical rows |
| HumanAcceptance.InvalidationIff | components/evidence/sts2_platform_evidence/human_session_bundle_v3.py:224-255 | a failure row is valid exactly when it is closed just in case it names a failure, and that is a capture failure of its own occurrence or a persistence failure of an accepted action without a canonical row |
| HumanCoverage.VerifyProjectionCoverage | components/evidence/sts2_platform_evidence/human_session_bundle_v3.py:515-544 | accepts exactly the bundles in which every proved action is canonical, lost or unsupported, one of the three, and every omission names a proved action |
| HumanAcceptance.CoveredIff | components/evidence/sts2_platform_evidence/human_session_bundle_v3.py:515-544 | a proof is covered exactly when it is canonical once and nothing else speaks of it, or has one fitting loss, or one fitting omission |
| HumanCoverage.AcceptedEqualsTerminals | components/evidence/sts2_platform_evidence/human_session_bundle_v3.py:384-423 | a valid trace has as many terminal events as accepted actions |
| HumanSummary.ProofsSplit | components/evidence/sts2_platform_evidence/human_session_bundle_v3.py:525-542 | the proved actions split into canonical, persistence-lost and unsupported, without overlap |
| HumanSummary.RowsAreCanonicalProofs | components/evidence/sts2_platform_evidence/human_session_bundle_v3.py:424-444 | canonical rows and canonical proofs are equally many |
| HumanSummary.CanonicalIsSettled | components/evidence/sts2_platform_evidence/human_session_bundle_v3.py:251-255 | a canonical action has no other disposition than proved and no persistence failure |
| HumanSummary.ChildRowsBounded | components/evidence/sts2_platform_evidence/human_summary.py:47-57 | canonical children never exceed accepted children |
| HumanSummary.FailuresCoverLosses | components/evidence/sts2_platform_evidence/human_summary.py:43-45 | unresolved and persistence-lost actions are disjoint and all are real failures |
| HumanSummary.SummaryBalances | components/evidence/sts2_platform_evidence/human_summary.py:39-58 | accepted = proved + unresolved + cancelled + aborted, and the other conservation laws of the counters, for every valid bundle |
| HumanEvidence.OneMoreEvent | components/evidence/sts2_platform_evidence/human_summary.py:39-58 | what one more event of each kind adds to each counter |
| HumanEvidence.OneMoreRow | components/evidence/sts2_platform_evidence/human_summary.py:47-57 | what one more canonical row adds |
| HumanEvidence.OneMoreInvalidation | components/evidence/sts2_platform_evidence/human_summary.py:43-56 | what one more failure row adds under the current schema |
| HumanEvidence.InvalidationsBalance | components/evidence/sts2_platform_evidence/human_summary.py:46-56 | under the current schema failure rows are diagnostics, unsupported, or rows that name a failure |
| InterruptedRecovery.VerifyFiles | components/evidence/sts2_platform_evidence/interrupted_recovery.py:34-71 | accepts exactly the directories that hold the inventoried bytes, append only to the two logs and add only the two receipts |
| InterruptedRecovery.RecoveryOnlyAppends | components/evidence/sts2_platform_evidence/interrupted_recovery.py:45-71 | given an injective hash, every original file is unchanged, the two logs are extended, and nothing else is new |
| InterruptedRecovery.FilesPreservedIff | components/evidence/sts2_platform_evidence/interrupted_recovery.py:34-71 | for an inventory in order, the file checks pass exactly when the two logs were continued after finished lines, the two receipts added and nothing else touched |
| InterruptedRecovery.RecoveryBounded | components/evidence/sts2_platform_evidence/interrupted_recovery.py:34-57 | what recovery accepts has at most 50000 files, safe names and no file over a gigabyte |
| InterruptedRecovery.VerifyClosure | components/evidence/sts2_platform_evidence/interrupted_recovery.py:72-85 | accepts exactly the suffixes that close each pending action once as unknown and claim nothing else |
| InterruptedRecovery.AddedClosesEachOnce | components/evidence/sts2_platform_evidence/interrupted_recovery.py:76-85 | the suffix has one terminal event for a pending action and none for any other |
| InterruptedRecovery.AddedRepeatsAcceptance | components/evidence/sts2_platform_evidence/interrupted_recovery.py:79-85 | each appended event repeats the acceptance of an action without a terminal event and claims no completion and no successor |
| InterruptedRecovery.ClosureExists | components/evidence/sts2_platform_evidence/interrupted_recovery.py:72-85 | every interrupted trace can be closed |
| InterruptedRecovery.RecoveryClosesTrace | components/evidence/sts2_platform_evidence/interrupted_recovery.py:72-85 | the recovered trace meets the exactly-one-disposition check if and only if the original had at most one terminal per accepted action |
| InterruptedRecovery.DoubleTerminalPasses | components/evidence/sts2_platform_evidence/interrupted_recovery.py:72-85 | a valid trace whose one action is proved twice passes recovery with nothing to close and fails the disposition check |
| InterruptedRecovery.RecoveryCounts | components/evidence/sts2_platform_evidence/interrupted_recovery.py:76-77 | unknowns rise by exactly unknowns_added and every other disposition keeps its count |
| RecoveredTrace.TraceJoin | components/evidence/sts2_platform_evidence/interrupted_recovery.py:63-73 | because the original bytes end with a newline, the events of the recovered file are those of the original bytes followed by those of the appended ones |
| RecoveredTrace.TraceOfWritten | components/evidence/sts2_platform_evidence/human_session_bundle_v1.py:422-431 | reading back written lines gives one event for each, in order |
| RecoveredTrace.VerifyRecovery | components/evidence/sts2_platform_evidence/interrupted_recovery.py:34-85 | on files and trace together: accepts exactly when the inventory is preserved, no appended line is blank, and the events of the appended bytes close those of the original bytes |
| RecoveredTrace.RecoveredTraceSettled | components/evidence/sts2_platform_evidence/interrupted_recovery.py:45-85 | from the interrupted directory to the recovered one, given an injective hash: the events of the trace file are kept in front, one unknown follows per pending action, and the recovered file has exactly one disposition per action if and only if the interrupted one had at most one |
| AgentRunLog.PassesIffAccepted | components/evidence/sts2_platform_evidence/agent_run_evidence.py:575-725 | the dictionary checks on one event agree with the specification over log positions |
| AgentRunLog.VerifyEvents | components/evidence/sts2_platform_evidence/agent_run_evidence.py:384-496 | the loop accepts a log exactly when the specification over positions holds of it |
| AgentRunChains.AcceptedIff | components/evidence/sts2_platform_evidence/agent_run_evidence.py:384-496 | a log with one more event is accepted exactly when the log is and the event may come next, told by the last admission, the decision it answers and what was answered before; the empty log is accepted |
| AgentRunChains.EnvironmentIff | components/evidence/sts2_platform_evidence/agent_run_evidence.py:384-496 | the environment of an event is that of the last admission before it |
| AgentRunChains.SequencesCount | components/evidence/sts2_platform_evidence/agent_run_evidence.py:384-496 | sequences count the events from one on without a gap |
| AgentRunChains.ReceiptChain | components/evidence/sts2_platform_evidence/agent_run_evidence.py:670-694 | a receipt answers the one decision of its id, for its resolved action, under the request derived from run and decision, from its environment, and alone |
| AgentRunChains.RejectionChain | components/evidence/sts2_platform_evidence/agent_run_evidence.py:640-669 | a rejection names what its one decision asked for, and keeps a receipt that answers something else |
| AgentRunChains.SuccessorMeans | components/evidence/sts2_platform_evidence/agent_run_evidence.py:696-725 | a successor is a settled, different snapshot of its environment whose decision was answered by a delivered receipt and never by a rejection |
| AgentRunLog.AcceptancePrefixClosed | components/evidence/sts2_platform_evidence/agent_run_evidence.py:384-496 | every prefix of an accepted log is accepted |
| AgentRunLog.RequestIdsDistinct | components/evidence/sts2_platform_evidence/agent_run_evidence.py:670-694 | accepted receipts have pairwise different request ids |
| AgentRunLog.SuccessorChain | components/evidence/sts2_platform_evidence/agent_run_evidence.py:696-725 | an accepted successor closes a decision, receipt, successor chain in one environment, and each link is the only one of its decision |
| AgentRunLog.AnswersBounded | components/evidence/sts2_platform_evidence/agent_run_evidence.py:640-725 | receipts and rejections never outnumber decisions that resolved an action, nor successors delivered receipts |
| HubProtocol.Disposition | components/evidence/sts2_platform_evidence/delivery_http.py:114-129 | which answers end an attempt, ask for an upload, wait or fail |
| HubProtocol.OneAttempt | components/evidence/sts2_platform_evidence/delivery_http.py:131-206 | one call ends with a verdict, makes at most one PUT, and the PUT follows a durable sidecar with its upload id and a last answer that awaits the upload and brings an allowed target |
| HubProtocol.RunUsesOneUpload | components/evidence/sts2_platform_evidence/delivery_http.py:131-206 | over any number of attempts, crashes and restarts, files are only added, and every PUT comes right after an answer that awaits and allows it and uses the upload on disk |
| HubProtocol.OneUploadPerManifest | components/evidence/sts2_platform_evidence/delivery_http.py:88-206 | any two PUTs of a manifest, in whatever attempts, carry one upload id and one archive |
| HubProtocol.AuthBlockNamesDisk | components/evidence/sts2_platform_evidence/delivery_http.py:138-144 | an authentication block names exactly the archive and upload that are on disk |
| HubProtocol.OnlyTerminalReceipts | components/evidence/sts2_platform_evidence/delivery_http.py:114-129 | a returned receipt is verified or quarantined as last answered, and its archive and upload are recorded on disk |
| HubProtocol.SoundReceiverNotRefused | components/evidence/sts2_platform_evidence/delivery_http.py:114-206 | when every answer is about the one upload, asks for a PUT only where it allows one and brings the receipt of a terminal status, the call is never refused, and a receipt it returns is one of the answers |
| HubProtocol.VerdictHasCause | components/evidence/sts2_platform_evidence/delivery_http.py:57-206 | a call retries, waits, blocks on credentials or dies only for a request or write that says so, and is refused only if some answer was unsound |
| HubProtocol.PromptCallEnds | components/evidence/sts2_platform_evidence/delivery_http.py:114-206 | with sound answers and no failure a call ends with one of the receipts, waits because some answer said verification_pending, or blocks because some request was rejected with that status |
| HubOutcomes.OutcomeIff | components/evidence/sts2_platform_evidence/delivery_http.py:57-206 | a call is refused, delivered with a given receipt, told to wait, blocked, delayed or cut short exactly when a request it makes, a durable write or a check of an answer gives that outcome, at a place the call gets to |
| HubOutcomes.UploadIff | components/evidence/sts2_platform_evidence/delivery_http.py:189-202 | the archive is sent exactly when the answer to the intent, or to the query after it, asks for it and brings an upload target that passes the checks; a target that does not pass refuses the call |
| HubOutcomes.SidecarShowsStatus | components/evidence/sts2_platform_evidence/delivery_http.py:146-161 | when every answer could be recorded, the sidecar of a delivered transfer shows the status of its receipt |
| HubTransport.HubTransport.Call | components/evidence/sts2_platform_evidence/delivery_http.py:131-206 | the call, with its early exits and in-place sidecar, is exactly one attempt of the protocol |
| HubTransport.HubTransport.Observe | components/evidence/sts2_platform_evidence/delivery_http.py:146-161 | the call goes on only with this upload id on disk; a failed write is tolerated only when it was there already, and an answer about another upload changes no file and is refused |
| DeliveryRuns.AttemptSound | components/evidence/sts2_platform_evidence/delivery.py:178-227 | whatever the environment does, files are written once, and a verdict that mentions content has a sealed transfer, its metadata, and for a receipt the stored receipt and recorded upload |
| DeliveryRuns.MovedSourceIsIncident | components/evidence/sts2_platform_evidence/delivery.py:183-186 | a source that is not what was enrolled makes the row an incident before any file is written |
| DeliveryRuns.SourceMovedWhilePacking | components/evidence/sts2_platform_evidence/delivery.py:191-192 | a source that has moved once the bundle is there also makes the row an incident: the bundle stays, no transfer, metadata, archive or receipt is written |
| DeliveryRuns.TransientNeverIncident | components/evidence/sts2_platform_evidence/delivery.py:235-250 | one attempt of a row whose source, bundle and receiver are sound never makes it an incident, whatever fails transiently |
| DeliveryRuns.PromptAttemptAdvances | components/evidence/sts2_platform_evidence/delivery.py:178-240 | when moreover nothing fails, a committed attempt of a waiting row makes it terminal, leaves it waiting because some answer said verification_pending, or holds it because some request was rejected with that status |
| DeliveryIncidents.RowOutcomeIff | components/evidence/sts2_platform_evidence/delivery.py:178-252 | whatever the files: an attempt leaves its row as it was exactly when it does not commit or is cut short; it makes it an incident exactly when the source moved, tool or pack refused, the bundle does not verify or is not the prepared one, the call is refused or unsoundly answered, or its receipt is of something else; it delivers, holds and waits exactly for the answers that say so |
| DeliveryIncidents.FirstCallIncidents | components/evidence/sts2_platform_evidence/delivery_http.py:118-119 | a refused intent, transfer_failed, an upload target that is not allowed, a refused PUT and a receipt of another transfer each make the row an incident |
| DeliveryIncidents.ChangedUploadIncident | components/evidence/sts2_platform_evidence/delivery_http.py:146-148 | an answer about another upload than the one on disk makes the row an incident |
| DeliveryRuns.UpdateSound | components/evidence/sts2_platform_evidence/delivery.py:223-252 | the updated row agrees with the files: content id of the transfer file, receipt exactly on verified and quarantined rows |
| DeliveryRuns.DrainSound | components/evidence/sts2_platform_evidence/delivery.py:169-253 | one drain keeps every row consistent with the files, changes no terminal, incident or held row, and no known content id |
| DeliveryRuns.DrainProgress | components/evidence/sts2_platform_evidence/delivery.py:176-177 | a committed drain takes exactly the least due row out of the due rows |
| DeliveryRuns.DelayBounds | components/evidence/sts2_platform_evidence/delivery.py:235-245 | retry delays never shrink and stay between 2 and 2048 seconds |
| DeliveryRuns.DelayDoubles | components/evidence/sts2_platform_evidence/delivery.py:238-244 | the first retry comes after 2 seconds and each further delay is twice the one before, until 2048 |
| DeliveryRuns.DrainTriesEachOnce | components/evidence/sts2_platform_evidence/delivery.py:325-329 | at a fixed time and without a crash, draining ends with nothing due and has tried each due row exactly once, in id order |
| DeliveryRecovery.RequeuedIff | components/evidence/sts2_platform_evidence/delivery_recovery.py:29-83 | a held row passes the identity check exactly when source, pack and receipt file are as they should be and no late sidecar exists |
| DeliveryRecovery.PassesIff | components/evidence/sts2_platform_evidence/delivery_recovery.py:29-83 | for arbitrary files, the identity check passes exactly when block, source, bundle, transfer, metadata, archive and sidecar tell one story |
| DeliveryRecovery.PassingFilesAgree | components/evidence/sts2_platform_evidence/delivery_recovery.py:29-83 | two states of the files that both pass for one row agree on content, transfer, archive and upload |
| DeliveryRecovery.FreshHoldRequeues | components/evidence/sts2_platform_evidence/delivery_recovery.py:29-83 | a row just held by a drain needs only an unchanged source, a faithful pack, no left-over receipt file, a usable upload id and a nonempty archive |
| DeliveryRecovery.ResumeKeeps | components/evidence/sts2_platform_evidence/delivery_recovery.py:105-136 | recovery changes no file and no other row, and of the row only status, retry time and error |
| DeliveryRecovery.SecondResumeIdle | components/evidence/sts2_platform_evidence/delivery_recovery.py:114-115 | a second recovery of the row changes nothing |
| DeliveryHistory.HistoryKeepsRows | components/evidence/sts2_platform_evidence/delivery.py:134-253 | over any history of enrolments, drains, crashes and recoveries: content ids are stable and those of the transfer file, receipts exist exactly on verified and quarantined rows and match, terminal and incident rows are final |
| DeliveryHistory.TolerableHistoryNoIncident | components/evidence/sts2_platform_evidence/delivery.py:169-253 | over any history in which its attempts meet a sound source, bundle and receiver, a row never becomes an incident, however often storage, network or process fail |
| DeliveryHistory.HeldUntilRecovery | components/evidence/sts2_platform_evidence/delivery_recovery.py:105-136 | a held row stays exactly as it is until a recovery of that very row |
| DeliveryHistory.HeldRequeuesLater | components/evidence/sts2_platform_evidence/delivery_recovery.py:29-136 | at any point of any history the same exact condition decides whether a held row is requeued |
| DeliveryBlockedRows.LeftReceiptBlocksRecovery | components/evidence/sts2_platform_evidence/delivery_recovery.py:36-38 | a history of enrolment, a crash after the receipt file and expired credentials, at whose end the row is held and no answer of the source lets it be requeued |
| DeliveryBlockedRows.LateSidecarBlocksRecovery | components/evidence/sts2_platform_evidence/delivery_recovery.py:75-78 | a history in which a recording and its copy are enrolled, the first is held before it has an upload and the copy is delivered; source, pack and receipt file of the held row are then as they should be and still no answer of the source lets it be requeued |
| DeliveryLiveness.DeliverableIff | components/evidence/sts2_platform_evidence/delivery.py:169-253 | at any point of any history some continuation brings a row to a terminal status exactly when it has one, waits and its bundle verifies if it was packed, or is held and its unchanged source would requeue it |
| DeliveryLiveness.UndeliverableForever | components/evidence/sts2_platform_evidence/delivery.py:176-250 | a row for which that condition fails never reaches a terminal status, whatever happens afterwards |
| DeliveryOutbox.TallyBalances | components/evidence/sts2_platform_evidence/delivery.py:139-166 | reconciliation counts every visible recording exactly once |
| DeliveryOutbox.NewRowsCounted | components/evidence/sts2_platform_evidence/delivery.py:154-163 | the new rows are as many as enqueued and incident together, the enqueued ones are those that wait |
| DeliveryOutbox.EnrolledKeys | components/evidence/sts2_platform_evidence/delivery.py:144-163 | after reconciliation a row exists exactly for the rows known before and the closed recordings |
| DeliveryOutbox.FirstSealDecides | components/evidence/sts2_platform_evidence/delivery.py:151-163 | the first closed recording with a new key decides its row, a pending one or an incident |
| DeliveryOutbox.OneMoreEntry | components/evidence/sts2_platform_evidence/delivery.py:144-163 | what one more directory entry adds to rows and counts: hidden entries nothing, unclosed recordings one unsealed, known ones one existing, new ones a pending row or an incident |
| DeliveryOutbox.DeliveryOutbox.Reconcile | components/evidence/sts2_platform_evidence/delivery.py:134-167 | the loop enrols and counts as specified, and keeps every known row |
| DeliveryOutbox.DeliveryOutbox.DrainOne | components/evidence/sts2_platform_evidence/delivery.py:169-253 | the attempt on the object's own files and rows is exactly one drain of the histories above |
| DeliveryOutbox.DeliveryOutbox.ReconcileAndDrain | components/evidence/sts2_platform_evidence/delivery.py:310-330 | both recording roots are enrolled first and each counted on its own, then draining stops at nothing due, at the limit or at a crash |
| DeliveryOutbox.DeliveryOutbox.ResumeAuth | components/evidence/sts2_platform_evidence/delivery_recovery.py:86-136 | every held row is checked once against the original state; resumed counts those that pass, and resumed plus rejected all of them |
| DeliverySession.VerifiedRowCompletes | components/evidence/sts2_platform_evidence/delivery_completion.py:131-187 | at the end of any history a verified row passes the completion's session check exactly when source, pack, tool and archive bytes are as they were; nothing the outbox stored can be what fails |
| DeliverySession.VerifiedRowHasUpload | components/evidence/sts2_platform_evidence/delivery_completion.py:159-174 | a verified row has its archive on disk, and a sidecar with a well-formed upload id that declares this archive in digest and size |
| DeliverySession.SessionEntriesAgree | components/evidence/sts2_platform_evidence/delivery_completion.py:131-187 | for arbitrary files, two states that both give a row a session entry agree on receipt, metadata, content and transfer |
| DeliveryCompletion.ArchiveMatches | components/evidence/sts2_platform_evidence/delivery_completion.py:106-128 | accepts an archive exactly when it is intact and its members are regular files that form a permutation of the transfer files, sizes and digests included |
| DeliveryCompletion.AccountRows | components/evidence/sts2_platform_evidence/delivery_completion.py:190-219 | succeeds exactly when rows and recordings correspond one to one, recovered rows standing for unclosed recordings with unchanged files under the recorded inventory digest |
| DeliveryCompletion.RecordingAccounted | components/evidence/sts2_platform_evidence/delivery_completion.py:195-219 | every recording then has one row; a closed one is accounted for by itself, and a recovery only for an unclosed one with the files and the digest it recorded |
| DeliveryCompletion.AsManyRows | components/evidence/sts2_platform_evidence/delivery_completion.py:195-219 | there are then as many rows as recordings |
| TransferFiles.PermutationIff | components/evidence/sts2_platform_evidence/delivery_completion.py:106-128 | a list is a permutation of files with distinct paths exactly when its paths are distinct, it lists only those files and misses none |
| DirectoryReceiver.ReceiptMeans | components/evidence/sts2_platform_evidence/transfer.py:137-220 | what each status of one receive implies for the object, the verifier, the other objects and the quarantine |
| DirectoryReceiver.CollisionIff | components/evidence/sts2_platform_evidence/transfer.py:158-189 | for an unchanging source, collision is reported exactly when the stored object is not the manifest's files, reuse exactly when it is and the verifier accepts it |
| DirectoryReceiver.ReusedCanDiffer | components/evidence/sts2_platform_evidence/transfer.py:158-189 | a store and an acceptable request, whose source changes between its two readings, reported as reused although the object is not the manifest's files |
| DirectoryReceiver.RunGrows | components/evidence/sts2_platform_evidence/transfer.py:137-220 | over any sequence of receives a stored object never changes and the quarantine only grows |
| DirectoryReceiver.SuccessLasts | components/evidence/sts2_platform_evidence/transfer.py:158-220 | after a success, at every later point of any sequence of receives, the object is there and was accepted, and it is the manifest's file list exactly when the call was a promotion or its source still matched at the second reading |
| DirectoryReceiver.SameContentSameFiles | components/evidence/sts2_platform_evidence/transfer.py:158-220 | of two successes for one content id, if the first received its manifest's files then the file lists are identical exactly when the second did too; in any case they are identical exactly when the first list describes the second source as validated |
| DirectoryReceiver.SameContentCanDiffer | components/evidence/sts2_platform_evidence/transfer.py:158-189 | from an empty store, a promotion and a reuse whose source changes between its two readings succeed for one content id with different file lists |
| ReceiverOutcomes.StatusIff | components/evidence/sts2_platform_evidence/transfer.py:137-220 | the exact condition of promotion, reuse and collision |
| ReceiverOutcomes.QuarantineExactly | components/evidence/sts2_platform_evidence/transfer.py:238-247 | a success sets nothing aside; anything else sets exactly one copy aside under its reason whenever the source is a directory that can be copied, and changes no object |
| ReceiverOutcomes.StoredUnderDigests | components/evidence/sts2_platform_evidence/transfer.py:101-110 | from an empty store every object is stored under a lower-case digest, and every success names a type and lists each path once |
| DirectoryReceiver.DirectoryReceiver.ValidateSource | components/evidence/sts2_platform_evidence/transfer.py:226-236 | passes exactly when paths, sizes and digests are those of the manifest |
| DirectoryReceiver.DirectoryReceiver.Receive | components/evidence/sts2_platform_evidence/transfer.py:137-220 | the receiver's objects, quarantine and receipt after a call are those of the specification |
| LiveActionFeed.ExactMeansGrouped | apps/ingame-ui/PlatformLiveActionFeed.cs:55-145 | in every reachable feed Exact holds exactly when the source is complete and the events can be grouped faithfully in 512 rows, and then rows and counts are the unbounded group-by; at most 512 rows with distinct first sequences |
| LiveActionFeed.ApplyBounded | apps/ingame-ui/PlatformLiveActionFeed.cs:78-145 | one event keeps the bound and the watermark, and never evicts the row it went into |
| LiveActionRows.EventRows | apps/ingame-ui/PlatformLiveActionFeed.cs:78-145 | which row an event starts or continues and how, and that of all others only the oldest goes, and only for a new row beyond the limit |
| LiveActionRows.SameRowIff | apps/ingame-ui/PlatformLiveActionFeed.cs:147-156 | two events belong to one row exactly when they share a record, or are one event where a record may not be used |
| LiveActionRows.StaysComplete | apps/ingame-ui/PlatformLiveActionFeed.cs:88-143 | the feed stays complete exactly as long as no event contradicts its row, opens one without a stable identity, or pushes one out |
| LiveActionRows.EventCounts | apps/ingame-ui/PlatformLiveActionFeed.cs:57-70 | after an event each counter is as before, with the event's row as it is now and without the row that gave way |
| LiveActionRows.NewRowCounts | apps/ingame-ui/PlatformLiveActionFeed.cs:57-70 | a new row for which none gives way is counted on top |
| LiveActionFeed.RedeliveryIgnored | apps/ingame-ui/PlatformLiveActionFeed.cs:80-85 | delivering events again changes nothing |
| LiveActionFeed.BatchesAsOnePass | apps/ingame-ui/PlatformLiveActionFeed.cs:78-145 | overlapping batches without a gap leave the feed as one single pass does |
| LiveActionAggregation.PlatformLiveActionAggregation.ApplyEvent | apps/ingame-ui/PlatformLiveActionFeed.cs:78-145 | the dictionary updated in place is the specified feed, and the result says whether the event was taken |
| LiveActionAggregation.PlatformLiveActionAggregation.FindOldest | apps/ingame-ui/PlatformLiveActionFeed.cs:138-143 | the evicted row is the one with the smallest first sequence |
| ContentionEpisode.SoloBounded | python/stpd/contention_smoke.py:247-296 | a worker alone delivers at most max_actions and fights at most as often; only a full count says action_limit |
| ContentionPlay.AloneIff | python/stpd/contention_smoke.py:247-373 | a worker alone has a record exactly when the record tells its game: its actions all went through, the fights among them are counted, and it ends for the reason given; it has none exactly when some action it reaches cannot be listed, delivered or learned from |
| ContentionSmoke.LearnerContender.RunAll | python/stpd/contention_smoke.py:157-195 | whatever the order of the threads, each job counts once and its actor is recorded |
| ContentionSmoke.PlayAll | python/stpd/contention_smoke.py:247-373 | the while loop ends for every environment, leaves nobody active, and the learner's count rises by exactly the fights |
| ContentionSmoke.RunEpisode | python/stpd/contention_smoke.py:236-373 | on normal return each worker has exactly one record, the one it would have playing alone; it raises only if some worker would alone |
| ContentionVerdict.RunContentionSeed | python/stpd/contention_smoke.py:226-374 | on normal return there is one record per worker and episode, updates equal the recorded combat decisions, actors are exactly those that fought |
| ContentionVerdict.WorkerRecords | python/stpd/contention_smoke.py:412-418 | each worker has exactly episodes_per_seed records, each within the action limit |
| ContentionVerdict.RecordsMeanNoRaise | python/stpd/contention_smoke.py:226-374 | a full set of records means that no worker would raise alone |
| ContentionVerdict.VerdictFollows | python/stpd/contention_smoke.py:399-468 | for returned seeds coverage and parity always hold, and the verdict passes exactly when every worker reaches the end of the game, every seed delivered, enough actors fought, and identity and provenance hold |
| ContentionEvidence.PassesIff | python/stpd/contention_smoke.py:399-468 | for arbitrary reports the verdict passes exactly when every seed is reported once, every worker of every report has exactly its episodes, all played to the end of the game, every report delivered, updates are the recorded fights, enough actors are named, and identity and provenance hold |
| ContentionEvidence.ChecksMean | python/stpd/contention_smoke.py:421-450 | what the single checks over all records say of the records of the reports |
| ContentionEvidence.MissingReportFails | python/stpd/contention_smoke.py:404-411 | a passing verdict fails once any one report is taken away |
| ContentionEvidence.MissingRecordFails | python/stpd/contention_smoke.py:414-420 | it fails once any one record is taken away |
| ContentionEvidence.StoppedRunFails | python/stpd/contention_smoke.py:534-556 | a run that stopped before its last seed does not pass with the reports it has |
| RelicRegistry.RegistryValid | components/native-foundation/src/NativeBossRelicDecisionProvider.cs:52-118 | in every reachable state each parent has at most one registration, at most 16 are kept, and the undisposed observers are exactly those of registrations with a parent |
| RelicRegistry.CarrierIff | components/native-foundation/src/NativeBossRelicDecisionProvider.cs:265-324 | a carrier is returned exactly for the unambiguous registration of the current parent |
| RelicRegistry.LookupsAgree | components/native-foundation/src/NativeBossRelicDecisionProvider.cs:296-416 | a choice found by its option list is the one the current parent's lookup returns, with exactly the options shown |
| RelicRegistry.ChoiceFoundIff | components/native-foundation/src/NativeBossRelicDecisionProvider.cs:355-416 | a choice is found by its option list exactly when it is what the current parent's lookup returns, with exactly the options shown, and no older registration has the same list |
| RelicRegistry.OlderListHides | components/native-foundation/src/NativeBossRelicDecisionProvider.cs:364-366 | a reachable registry in which the parent's lookup returns a choice that its list does not find, because an older registration under another parent has the list |
| RelicRegistry.SecondListCollapses | components/native-foundation/src/NativeBossRelicDecisionProvider.cs:97-106 | a second option list under a live parent leaves an ambiguous registration |
| RelicRegistration.RepeatIgnored | components/native-foundation/src/NativeBossRelicDecisionProvider.cs:86-95 | registering the same list again under a live parent changes no registration and leaves no observer behind, so its lookup still returns it |
| RelicRegistration.AmbiguousIff | components/native-foundation/src/NativeBossRelicDecisionProvider.cs:86-106 | after registering under a parent with a live registration, the parent is ambiguous exactly when the lists differ or it was ambiguous before |
| RelicRegistration.RegisterAdds | components/native-foundation/src/NativeBossRelicDecisionProvider.cs:97-118 | otherwise the new registration comes last, and of those under other parents only the oldest goes, when the registry is full |
| RelicRegistration.IgnoredKeeps | components/native-foundation/src/NativeBossRelicDecisionProvider.cs:52-95 | a call for another player, or with a list registered already, changes no registration and no observer beyond the clean-up |
| RelicRegistry.FirstListIsFound | components/native-foundation/src/NativeBossRelicDecisionProvider.cs:64-107 | a first registration is what the lookup of its parent returns |
| RelicRegistry.AmbiguousFailsClosed | components/native-foundation/src/NativeBossRelicDecisionProvider.cs:296-416 | no lookup by parent or by list succeeds for an ambiguous parent |
| RelicRegistry.AmbiguousUntilRemoved | components/native-foundation/src/NativeBossRelicDecisionProvider.cs:97-106 | ambiguity and failing lookups last through any operations until the registration is collected, consumed or evicted |
| RelicRegistry.ConsumeExactly | components/native-foundation/src/NativeBossRelicDecisionProvider.cs:331-353 | consuming removes the registration of this parent and no other, and reports whether there was one |
| RelicRegistry.NativeBossRelicDecisionProvider.RegisterFromChooseARelicScreen | components/native-foundation/src/NativeBossRelicDecisionProvider.cs:52-118 | the list changed in place and the observers disposed are those of the specification |
| RelicRegistry.NativeBossRelicDecisionProvider.TryGetCurrentChoice | components/native-foundation/src/NativeBossRelicDecisionProvider.cs:355-416 | returns the first registration of the list if it is unambiguous, current and unchanged |
| RelicRegistry.NativeBossRelicDecisionProvider.ConsumeRegisteredChoice | components/native-foundation/src/NativeBossRelicDecisionProvider.cs:331-353 | removes by parent, disposes the observers, and returns true exactly when one was registered |
| StringOrder.SortedByUnique | components/evidence/sts2_platform_evidence/transfer.py:101-110 | two lists sorted by a key that is distinct, with the same elements, are the same list |
| CanonicalJson.ParseWritten | python/spireagent/encoding.py:56-65 | parsing canonical text gives the value back and leaves what follows it |
| CanonicalJson.EncodeInjective | python/spireagent/json_boundary.py:37-41 | different values have different canonical texts |
| ArtifactManifest.ManifestRoundTrip | python/spireagent/artifact_contracts.py:183-269 | decoding a manifest's own bytes gives it back with parents and payloads sorted, under the same id |
| ArtifactManifest.OnlyCanonicalBytes | python/spireagent/artifact_contracts.py:232-269 | the decoder accepts exactly the bytes of valid manifests and returns a sorted one with those bytes |
| ManifestFields.DecodedFits | python/spireagent/artifact_contracts.py:82-180 | decoding accepts only manifests whose fields are well formed, whose roles are distinct and whose parameters hold no secret at any depth, and every such manifest is the decoding of its own bytes |
| ManifestFields.ExpectedIdIff | python/spireagent/artifact_contracts.py:262-267 | asking for an id accepts exactly the bytes that are accepted anyway and are of that id |
| ManifestFields.DurableIffClean | python/spireagent/artifact_contracts.py:82-107 | a document is durable exactly when no part of it, at any depth, has a secret field name or is a text with credentials |
| ArtifactManifest.OrderForgotten | python/spireagent/artifact_contracts.py:208-218 | permuting parents or payloads changes neither bytes nor id |
| ArtifactManifest.SameIdIffSameContent | python/spireagent/artifact_contracts.py:204-215 | without hash collisions two valid manifests share an id exactly when they are equal up to the order of parents and payloads |
| ArtifactManifest.SortForgetsOrder | python/spireagent/artifact_contracts.py:204-212 | sorting by distinct roles identifies exactly the permutations |

## Left out

- HTTP, TLS, URL checks, SQLite mechanics, tar and gzip, subprocesses and clocks: each is an answer of the environment; packing and replacing a file are atomic.
- Wrap-around of the 64-bit intent counter and of event sequences: they are unbounded here.
- Field types, schemas, regexes and timestamps of single events in the verifiers: one well-formedness flag per event; an event that fails them is rejected as in the source.
- HumanTrace.VerifyReferences: the contents of semantic frames and catalogues and the membership of the selected public action in its frame are folded into the event's and the row's own flags.
- HumanCoverage.VerifyInvalidations: the operand texts of a human occurrence are folded into one flag.
- HumanSummary.SummaryBalances: the per-run list and the display fields of the summary are not modelled.
- RecoveredTrace.VerifyRecovery: the two appended journal rows, the recovery receipt's schema and digest of its inventory and the case of a directory without a recovery receipt are not modelled; a line ends at a newline only, and a line that does not parse is outside the model.
- AgentRunLog.VerifyEvents: the contents of snapshots beyond identity, sequence and settling are one flag; stale and lifecycle events are accepted when well formed.
- DeliveryOutbox.DeliveryOutbox.DrainOne: the summary columns, the projection used by the panel and the incident diagnostics file are not modelled; they take no part in delivery decisions.
- DeliveryRecovery.RequeuedIff: symbolic links in the outbox and malformed stored JSON are not modelled.
- DeliverySession.SessionCheck: timeline, worker and campaign of the bundle are one answer, and the historical sidecar without a byte count is not modelled.
- DeliveryCompletion.AccountRows: the inventory of extra outbox entries and the comparison of two snapshots are not modelled.
- DirectoryReceiver.DirectoryReceiver.Receive: other writers of the object directory and the leftovers of a crash in a staging directory are not modelled; `Honest`, that a copy never contains a link, is assumed only for the clause of ReceiptMeans that the stored object has none.
- LiveActionAggregation.PlatformLiveActionAggregation.ApplyEvent: the texts shown for a row (detail, issue, observation times) and the paging of Recent are not modelled.
- ContentionSmoke.LearnerContender.RunAll: the contention counter of the lock, which is updated outside it, and thread identities are not modelled; the model's losses and returns are floating point and left out.
- ContentionSmoke.RunEpisode: which action the model or the noncombat rule chooses is part of the environment's answer; a receipt list of the wrong length is one more way to raise and is not modelled.
- RelicRegistry: a weak reference that dies between the clean-up and the search of one call is not modelled; collection happens at the clean-up.
- ArtifactManifest.ManifestRoundTrip: JSON text is a stream of tokens, so escapes, whitespace, number literals and the final newline are not modelled; the kinds, the secret field names and the URL rule are parameters.
- Combat, card, map and game-over providers, Godot panels and Harmony patches, LinearQ and the training tools: views of unseen game objects, user interface or numerics.
- Checks of the receiver's content-addressed store by hash: typed content ids share its directory, so that invariant is not one of the code.
