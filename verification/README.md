# Desktop agent: verified models of its stateful core

This project models the parts of the WhaleHall desktop agent whose correctness spans many
steps, and proves what they promise over every input, every run or every interleaving.

| modules | component |
|---|---|
| `Ledger`, `LedgerInvariant`, `LedgerMeaning`, `LedgerStore`, `Delivery`, `DeliveryMeaning`, `Counting`, `Dispatcher`, `DeliveryExamples` | the durable activity ledger, the delivery service and the analysis dispatcher, with crashes between any two steps |
| `VaultBroker`, `VaultOutcomes` | several one-shot broker processes agreeing on one vault key |
| `SignalSegments`, `TimeSlices`, `SliceMeaning` | from observations to segments, and from a model's answer to ordered time slices |
| `CalendarPolicy`, `CalendarMeaning`, `CalendarRepository`, `CalendarRuns`, `CalendarEffects` | the optimistic calendar with concurrent writers |
| `JsonText`, `CanonicalJson`, `CanonicalMeaning`, `Approval`, `ApprovalSteps`, `ApprovalSafety`, `ApprovalDecisions`, `ApprovalPaths` | canonical argument text and one-time tool approval |
| `Utf8`, `TarArchive`, `TarTiling`, `TarEncoding`, `TarMeaning`, `UpdateInstall` | checking an update archive and exchanging application bundles |
| `JsonlParser`, `JsonlMeaning`, `Lifecycle` | line framing of a byte stream and the start/stop owner of the delivery bundle |

`dafny verify dfyconfig.toml` checks everything. `Wrappers` holds the result types, `TextOrder` the order of texts.

## How the source is represented

- A SQLite transaction, a keychain call and a file-system call are one atomic step each, and each
  may fail. A stretch of code between two awaits is one step; steps of different calls interleave freely.
- State that the source changes in place is a class (`ActivityWindowDeliveryStore`,
  `ActivityAnalysisDispatcher`, `Disk`, `JsonlReader`, `ActivityWindowDeliveryLifecycle`) or the state of
  a step relation where several calls are in progress at once. Loops over local state are methods with loops.
- Scores are real numbers. Digests are injective: a request id stands for the text it is hashed from and
  an argument digest for the canonical text.
- Time zones, recurrence rules and text syntax checks of the calendar are fields of `Library`: their
  answers are fixed but arbitrary.
- Removing archive entries, by retention or by clearing, is a step that may take any entry at any time.
- Settling a job found running may come at any moment after it was looked at, since the source awaits in between.
- An approval found expired right before execution ends the call without a write: the storage takes no status
  change away from `approved` (src/bun/encrypted-agent-repository.ts:1250-1275).
- A woken continuation of `interruptRuns` runs before a later answer of the storage reaches the same run, as
  promise continuations do; this is the condition `NoneWoken` of the step `NoteDecision`.

## What the proofs brought to light

- The request identity text is not injective: window `w:1` at attempt 0 and window `w` at attempt 1
  share it. `IdentityCollides` says exactly when; the unique constraints turn it into a failed transaction.
- Snapping a remaining score to zero drops stored score unless the rest is 0 or above the epsilon
  (`CompleteKeepsSumIff`). The run theorems therefore take response scores to be 0 or above the epsilon.
- A threshold not above the epsilon makes materialisation fail on an empty ledger (`MaterializeFailsIff`).
- The attempt memory lives in a dispatcher that can be replaced while a run goes on; an unrecorded
  invalid output at attempt 2 leads to attempt 3 (`InvalidOutputCapIff`, with the run `FourthAttempt`).
- The archive stops a request from being counted twice, but a window that comes back starts at its first
  attempt again. It is counted again exactly when the archive does not answer for that attempt
  (`CountedAgainIff`): when the counted request was of its second or third attempt, as in the run
  `CountedTwice`, or the entry was removed. While one outbox row exists it is counted at most once
  (`RowAddedOnce`).
- The critical-operation guard does not keep the recovery flag still during every decision
  (`FlagMayRiseWhileDeciding`). It does so exactly when no woken interruption waits on the run as the
  decision begins (`DecisionGuardedIff`), and always from the point where the flag is read (`NotedIsSafe`),
  which is what at-most-once execution needs.
- An archive path field that starts with a byte order mark is read as a different path (`ReadsBackIff`).
- After a failed macOS rollback the launcher tried last can be that of the new bundle (`RestoreBackup`).
- Line limits depend on chunking (`LimitDependsOnChunking`), exactly for streams with a line that is handed
  on but does not fit the limit with its CR (`ChunkingDoesNotMatterIff`).

## Model

| member | source | states |
|---|---|---|
| `Delivery.RunKeeps` | src/agent/activity-window-worker.ts:1973-2189 | In every run from a fresh ledger, with crashes, restarts and dispatcher steps between any two delivery steps, all invariants of tables, phases, counts and attempts hold |
| `Delivery.StepKeeps` | src/agent/activity-window-worker.ts:1973-2189 | Each step of delivery, dispatcher, crash, restart or clearing keeps that invariant |
| `Delivery.CompletionSafe` | src/agent/activity-window-worker.ts:1094-1168 | Completing a job deletes only receipts whose outbox row is gone and whose window the source has released |
| `Delivery.OfferedSettled` | src/agent/activity-window-worker.ts:977-1008 | A job is offered only while no receipt is still joined to its own outbox row |
| `Counting.RunKeepsArchive` | src/agent/activity-window-worker.ts:1998-2025 | In every run the archive knows every counted request: its receipt is stored or its entry is consumed, unless the entry was removed |
| `Counting.RequestCountedOnce` | src/agent/activity-window-worker.ts:1998-2095 | In every run a request is counted at most once, unless its archive entry was removed |
| `Counting.CountedAgainOnlyIf` | src/agent/activity-window-worker.ts:1973-2189 | In every run with the entries kept, a window is counted again only if it was handed in again after release and a request of its second or third attempt was counted, at most once per attempt |
| `Counting.NeverAgainAfterFirst` | src/agent/activity-window-worker.ts:1998-2025 | Once counted at its first attempt a window is never counted again while that entry is kept, whatever happens |
| `Counting.BarredNotCounted` | src/agent/activity-window-worker.ts:1998-2025 | While the archive answers for its first attempt, a window without a receipt is not counted |
| `Counting.CountedAgainIff` | src/agent/activity-window-worker.ts:1998-2095 | A window that left can be counted again exactly when the archive holds no entry for its first attempt, or one no run has consumed |
| `Counting.AcknowledgedExactlyOnce` | src/agent/activity-window-worker.ts:892-914 | A row removed by acknowledging an applied window has a receipt whose request was counted exactly once unless pruned, and the window exactly once unless it came again |
| `Counting.FinishedKeepsArchive` | src/bun/encrypted-agent-repository.ts:2444-2498 | Storing a completed run marks only entries of stored receipts, never the one being analysed |
| `Counting.CompletedKeepsArchive` | src/agent/activity-window-worker.ts:1094-1168 | Receipts deleted by a completed job stay behind as consumed entries of the archive |
| `DeliveryExamples.CountedTwice` | src/agent/activity-window-worker.ts:1973-2189 | A run from a fresh system, with the entries kept, that counts one window twice |
| `Delivery.RowAddedOnce` | src/agent/activity-window-worker.ts:602-656 | Over any stretch that keeps an outbox row its score is added at most once, and not at all if it already had a receipt |
| `Delivery.StepCountsRowOnce` | src/agent/activity-window-worker.ts:787-872 | No single step removes the receipt of a window whose row it keeps, nor counts it again |
| `Delivery.ScoresConserved` | src/agent/activity-window-worker.ts:787-872 | In every run accepted score = accumulator + score consumed by completed jobs, and the accumulator is the sum of the stored receipts |
| `Delivery.TriggerNeverLost` | src/agent/activity-window-worker.ts:1334-1452 | In every run the trigger is pending exactly when a job row exists, there is at most one, no job means the score is below the threshold, and materialisation cannot fail |
| `LedgerInvariant.EnqueueKeeps` | src/agent/activity-window-worker.ts:514-600 | Enqueueing keeps the tables linked and gives a new row the identity of attempt 0 |
| `LedgerInvariant.DeferKeeps` | src/agent/activity-window-worker.ts:658-671 | A transport retry keeps the request identity and the invariant |
| `LedgerInvariant.MarkTerminalKeeps` | src/agent/activity-window-worker.ts:773-785 | A permanently failed row stays with its identity |
| `LedgerInvariant.AdvanceKeeps` | src/agent/activity-window-worker.ts:673-771 | Invalid output moves a window to the fresh identity of its next attempt and ends it after the third; the counter never passes 2 |
| `LedgerInvariant.IdentityCollides` | src/agent/activity-window-worker.ts:2354-2367 | Two request identities coincide exactly for the same window and attempt or when one window id is the other plus an attempt suffix |
| `LedgerInvariant.IdentityCollisionExample` | src/agent/activity-window-worker.ts:2354-2367 | A concrete pair of windows sharing an identity |
| `LedgerInvariant.ApplyKeeps` | src/agent/activity-window-worker.ts:787-872 | Applying adds the score and the receipt once; a repeated response is not accepted and changes nothing but the row; the invariant is kept |
| `LedgerInvariant.AcknowledgeAppliedKeeps` | src/agent/activity-window-worker.ts:892-914 | Acknowledging removes only the outbox row, and only beside the receipt of that request |
| `LedgerInvariant.AcknowledgeConsumedKeeps` | src/agent/activity-window-worker.ts:916-934 | Acknowledging a consumed window removes only the outbox row |
| `LedgerInvariant.MaterializeKeeps` | src/agent/activity-window-worker.ts:1334-1452 | Materialisation never fails from linked tables when the threshold exceeds the epsilon, makes a job exactly when the threshold is reached without one, and re-establishes the trigger |
| `LedgerInvariant.MaterializeFailsIff` | src/agent/activity-window-worker.ts:1384-1388 | Without jobs it fails exactly when no receipt is stored and the threshold does not exceed the epsilon |
| `LedgerInvariant.NewJobShape` | src/agent/activity-window-worker.ts:1334-1452 | From unassigned valid receipts the selection succeeds with at least one and at most 512 distinct stored receipts whose array fits the prompt; which ones is stated by SelectionMeans |
| `LedgerInvariant.ArrayLengthBound` | src/agent/activity-window-worker.ts:1391-1408 | The running length the selection loop keeps never undercounts the array it builds |
| `LedgerInvariant.SelectionReadable` | src/agent/activity-window-worker.ts:2674-2765 | The payload of a new job always passes the checks made when the row is read back |
| `LedgerInvariant.ClaimKeeps` | src/agent/activity-window-worker.ts:1039-1092 | Claiming keeps the attempt and derives the request id from job and attempt + 1 |
| `LedgerInvariant.DeferJobKeeps` | src/agent/activity-window-worker.ts:1170-1222 | A deferred job keeps its request id exactly when the attempt is not advanced |
| `LedgerInvariant.FailJobKeeps` | src/agent/activity-window-worker.ts:1224-1258 | Terminal failure keeps the receipts, the score and the attempt |
| `LedgerInvariant.CompleteKeeps` | src/agent/activity-window-worker.ts:1094-1168 | Completion succeeds exactly for the running job and run, so the corrupt-score error is unreachable; it deletes exactly the job's receipts and takes exactly their sum off the score |
| `LedgerInvariant.CompleteKeepsSumIff` | src/agent/activity-window-worker.ts:1127-1132 | For arbitrary scores the accumulator is the stored sum after completion exactly when the remaining score is 0 or above the epsilon |
| `LedgerInvariant.SnapDriftExample` | src/agent/activity-window-worker.ts:1127-1132 | A concrete ledger on which the snap to zero drops a stored score |
| `LedgerInvariant.ClearKeeps` | src/agent/activity-window-worker.ts:1260-1332 | Clearing leaves an empty ledger that meets the invariant |
| `Ledger.InOrderIsQuery` | src/agent/activity-window-worker.ts:1370-1383 | The ordered query lists exactly the asked receipts, each once, oldest first with ties broken by request id |
| `LedgerMeaning.SelectionMeans` | src/agent/activity-window-worker.ts:1370-1411 | What is selected are the oldest unassigned receipts, in order, and as many as fit: all of them, 512, or so many that the next oldest would exceed 48 * 1024 characters |
| `LedgerMeaning.JobMeans` | src/agent/activity-window-worker.ts:1334-1452 | A new job holds the oldest unassigned receipts that fit and exactly their score, is pending at attempt 0, due at once, and exactly these receipts are assigned to it |
| `LedgerMeaning.EnqueueExact` | src/agent/activity-window-worker.ts:514-600 | A window is taken in exactly if it is unknown; only a changed payload or a taken identity is refused, and the new row is attempt 0, due at once |
| `LedgerMeaning.DeferExact` | src/agent/activity-window-worker.ts:658-671 | A retry is stored exactly for a live row, with the given time and one more attempt, and changes nothing else |
| `LedgerMeaning.AdvanceExact` | src/agent/activity-window-worker.ts:673-771 | Invalid output is recorded exactly for the live row of that request: the next identity below the third attempt if it is free, the end at the third |
| `LedgerMeaning.ApplyExact` | src/agent/activity-window-worker.ts:787-872 | A response is applied exactly if score and size are valid, it answers the row, and neither its id nor its window is spoken for; it is accepted exactly once |
| `LedgerMeaning.AcknowledgeExact` | src/agent/activity-window-worker.ts:892-932 | A row is let go exactly beside the receipt of its own request, or, if consumed, exactly without any receipt of its window |
| `LedgerMeaning.ClaimExact` | src/agent/activity-window-worker.ts:1039-1092 | A job is claimed exactly if pending or its waiting time is over, and only its status, run and request id change |
| `LedgerMeaning.JobEndsExact` | src/agent/activity-window-worker.ts:1170-1258 | A run is put off or failed exactly under its own id; invalid output starts the transport count afresh |
| `DeliveryMeaning.DeliveryGoesThrough` | src/agent/activity-window-worker.ts:1973-2125 | From every reachable state a queued window that nothing stands in the way of is counted with its score, released by its source and taken off the queue |
| `DeliveryMeaning.LookUpMeans` | src/agent/activity-window-worker.ts:1998-2025 | An unknown request is asked for, a known one used, a consumed one only acknowledged, one of another window ends the window |
| `DeliveryMeaning.FailMeans` | src/agent/activity-window-worker.ts:2175-2189 | A failed delivery puts its window off until the given time, one attempt later, and changes nothing else |
| `DeliveryMeaning.FailPermanentlyMeans` | src/agent/activity-window-worker.ts:2170-2174 | A permanent failure ends the attempts of its window and changes nothing else |
| `DeliveryMeaning.InvalidOutputMeans` | src/agent/activity-window-worker.ts:2139-2169 | In every reachable state invalid output gives the window its next identity, or ends its attempts after the third |
| `DeliveryMeaning.HandedInMeans` | src/agent/activity-window-worker.ts:1898-1937 | A sealed window is taken in once, under the identity of its first attempt |
| `DeliveryMeaning.ActivateMeans` | src/agent/activity-window-worker.ts:1829-1883 | Activation after a restart never finds a job missing: no crash has lost one the score was enough for |
| `DeliveryMeaning.StartMeans` | src/agent/activity-window-worker.ts:1829-1883 | A start lists exactly what is sealed and not released; a crash forgets the phase and the recorded runs and nothing stored; clearing empties the ledger |
| `DeliveryMeaning.FinishRunMeans` | src/bun/encrypted-agent-repository.ts:2444-2498 | Storing a completed run marks exactly the entries of its job, unless another run has consumed one of them |
| `LedgerStore.ActivityWindowDeliveryStore.ApplyResponse` | src/agent/activity-window-worker.ts:787-872 | The in-place transaction has the specified effect or rolls back |
| `LedgerStore.ActivityWindowDeliveryStore.MaterializeJob` | src/agent/activity-window-worker.ts:1334-1452 | The in-place materialisation has the effect of Materialize, whose job JobMeans describes |
| `LedgerStore.ActivityWindowDeliveryStore.TakeFitting` | src/agent/activity-window-worker.ts:1389-1411 | The selection loop takes the longest prefix that fits |
| `LedgerStore.ActivityWindowDeliveryStore.AssignReceipts` | src/agent/activity-window-worker.ts:1439-1444 | The assignment loop assigns exactly the selected receipts |
| `LedgerStore.ActivityWindowDeliveryStore.CompleteJob` | src/agent/activity-window-worker.ts:1094-1168 | The in-place transaction has the specified effect or rolls back |
| `LedgerStore.ActivityWindowDeliveryStore.DeleteReceipts` | src/agent/activity-window-worker.ts:1153-1161 | The deletion loop removes exactly the given receipts |
| `LedgerStore.ActivityWindowDeliveryStore.DeferWindow` | src/agent/activity-window-worker.ts:658-671 | The in-place retry has the effect that DeferExact describes |
| `LedgerStore.ActivityWindowDeliveryStore.MarkWindowTerminal` | src/agent/activity-window-worker.ts:773-785 | The in-place end of a window has the specified effect |
| `LedgerStore.ActivityWindowDeliveryStore.AdvanceAttempt` | src/agent/activity-window-worker.ts:673-771 | The in-place transaction has the effect that AdvanceExact describes |
| `LedgerStore.ActivityWindowDeliveryStore.AcknowledgeAppliedWindow` | src/agent/activity-window-worker.ts:892-914 | The in-place transaction has the effect that AcknowledgeExact describes |
| `LedgerStore.ActivityWindowDeliveryStore.AcknowledgeConsumedWindow` | src/agent/activity-window-worker.ts:916-932 | The in-place transaction has the effect that AcknowledgeExact describes |
| `LedgerStore.ActivityWindowDeliveryStore.ClearPendingData` | src/agent/activity-window-worker.ts:1260-1332 | Clearing in place leaves every table empty and counts what was removed |
| `Dispatcher.ActivityAnalysisDispatcher.StartClaimedJob` | src/bun/activity-analysis-dispatcher.ts:351-410 | A claim is recorded under its run id and made exactly for an eligible claimable job; an ineligible one is handed back |
| `Dispatcher.ActivityAnalysisDispatcher.OnActivityRunTerminal` | src/bun/activity-analysis-dispatcher.ts:157-217 | The end of a run has the ledger effect and memory of the run-ended step, which RunEndedMeans describes case by case |
| `Dispatcher.ActivityAnalysisDispatcher.ReconcileRunningJob` | src/bun/activity-analysis-dispatcher.ts:242-349 | A job found running is settled by the reconciliation step, which ReconcileMeans describes case by case |
| `Dispatcher.InvalidOutputCapIff` | src/bun/activity-analysis-dispatcher.ts:157-217 | Invalid output keeps the attempt counter at 2 or below exactly when this dispatcher recorded the run or an attempt is left; recorded, the last attempt fails the job for good |
| `DeliveryMeaning.RunEndedMeans` | src/bun/activity-analysis-dispatcher.ts:157-217 | In every reachable state: completed removes the job with exactly its receipts and score, a transient failure puts it off under the same request, invalid output asks anew or, recorded at the last attempt, gives up, a terminal failure gives up; a run that is not the running one changes nothing |
| `DeliveryMeaning.ReconcileMeans` | src/bun/activity-analysis-dispatcher.ts:242-349 | In every reachable state, what is found out about a left-over run completes, keeps, puts off, asks anew or gives up its job; a run this dispatcher recorded is left alone |
| `DeliveryMeaning.CompletedMeans` | src/agent/activity-window-worker.ts:1094-1168 | A completed job is gone with exactly its receipts and their score, and only pending jobs at attempt 0 are left |
| `DeliveryMeaning.OfferedMeans` | src/agent/activity-window-worker.ts:977-1008 | A job is offered exactly if it has not been given up and no window with a receipt is still in the outbox |
| `DeliveryMeaning.ClaimMeans` | src/bun/activity-analysis-dispatcher.ts:351-380 | An offered job is claimed exactly if it is due, with its run recorded; an ineligible one is handed straight back |
| `DeliveryMeaning.StartFailedMeans` | src/bun/activity-analysis-dispatcher.ts:388-404 | A run that could not be started is forgotten and its job put off |
| `Dispatcher.ReplacedDispatcherExceedsCap` | src/bun/activity-analysis-dispatcher.ts:157-217 | In every reachable state with a run at attempt 2, replacing the dispatcher and invalid output lead to attempt 3 |
| `DeliveryExamples.FourthAttempt` | src/bun/activity-analysis-dispatcher.ts:157-217 | A run from a fresh system in which replacing the dispatcher during attempt 2 leads to attempt 3 |
| `VaultBroker.SameKeyEverywhere` | native/vault-broker/keychain_store.c:206-464 | For any number of LOAD and IMPORT processes in any interleaving with any calls unavailable, all available answers carry the same key and version |
| `VaultBroker.GeneratesOnlyWhenMissing` | native/vault-broker/keychain_store.c:348-400 | LOAD holds a generated key only if both target accounts and all three legacy items were missing |
| `VaultBroker.ExistingKeyWins` | native/vault-broker/keychain_store.c:402-464 | Whatever is answered with a key is the key present at the start, or the authoritative legacy key; that it is answered is stated in VaultOutcomes |
| `VaultBroker.AnswerIsFinal` | native/vault-broker/keychain_store.c:206-464 | No later answer of a longer run differs from an earlier one |
| `VaultBroker.SplitRead` | native/vault-broker/keychain_store.c:206-262 | Reading the two accounts at different times gives an available answer only as one look would give it now, and finds neither only if both were missing at the start |
| `VaultBroker.StepTarget` | native/vault-broker/keychain_store.c:311-346 | The target only grows, by one admissible item at most, and a settled answer never changes |
| `VaultBroker.RunKeeps` | native/vault-broker/keychain_store.c:206-464 | Every interleaving keeps what each process knows true |
| `VaultOutcomes.HonestLoadAnswers` | native/vault-broker/keychain_store.c:348-400 | In every interleaving a LOAD whose own calls succeed ends within nine of them: with the key of the current account, else of the migrated one, a conflict for two different keys, on an empty target the key now there, or a demand for migration or the imported key if a legacy item exists |
| `VaultOutcomes.HonestImportAnswers` | native/vault-broker/keychain_store.c:402-464 | In every interleaving an IMPORT whose own calls succeed ends within nine of them: available with the authoritative key on an empty target, migrated reported exactly if it added a migrated item itself, available or conflict by what was there, unavailable without a legacy item |
| `VaultOutcomes.LoadsOnEmpty` | native/vault-broker/keychain_store.c:348-400 | With LOADs alone on an empty target each answers available with a key the generator gave to one that had found nothing, or demands migration exactly if a legacy item exists |
| `VaultOutcomes.LoneImport` | native/vault-broker/keychain_store.c:402-464 | A lone IMPORT into an empty target answers available with the authoritative key, as migrated exactly if it is |
| `VaultOutcomes.FailedCall` | native/vault-broker/keychain_store.c:206-464 | A failed call adds nothing and makes the answer unavailable, or a conflict once another process has won |
| `SignalSegments.DeriveSegments` | src/agent/activity-reflection-prompt.ts:804-881 | Starts and ends are monotone, neighbours differ in family, each segment spans exactly its observations, every non-boundary observation is counted in exactly one segment, each band has the family of its first activity observation, and bands are cut exactly at a boundary followed by another family |
| `SignalSegments.SpanMeaning` | src/agent/activity-reflection-prompt.ts:1063-1074 | A segment's times enclose all its observations and both are attained |
| `SignalSegments.Build` | src/agent/activity-reflection-prompt.ts:1050-1074 | Opening and filling a segment gives exactly the span of its members |
| `SignalSegments.OpenBand` | src/agent/activity-reflection-prompt.ts:829-852 | A new band takes the prelude, the pending boundary and the opening observation, in that order |
| `SignalSegments.CloseBands` | src/agent/activity-reflection-prompt.ts:855-865 | The trailing boundary joins the open band; without one the prelude forms a segment |
| `TimeSlices.ResolveSignalRanges` | src/agent/activity-reflection-prompt.ts:1094-1157 | The resolution loop refuses exactly what event-by-event resolution refuses |
| `TimeSlices.ResolvedAreTimed` | src/agent/activity-reflection-prompt.ts:1094-1157 | Every resolved event has a start not after its end |
| `TimeSlices.OpenChoiceAccepted` | src/agent/activity-reflection-prompt.ts:1094-1157 | Events without times that choose disjoint contiguous existing segments are never rejected |
| `TimeSlices.IntervalSorted` | src/agent/activity-reflection-prompt.ts:1107-1135 | Deduplicated and sorted, any spelling of a contiguous run of tokens is consecutive from first to last |
| `TimeSlices.ConsolidateOverlapping` | src/agent/activity-reflection-prompt.ts:399-444 | The grouping loop and the selection compute the consolidated slices |
| `TimeSlices.SortEventsSorts` | src/agent/activity-reflection-prompt.ts:403-419 | Events are ordered by clamped start, none lost or repeated |
| `TimeSlices.SortEventsStable` | src/agent/activity-reflection-prompt.ts:409-419 | Events with the same start keep the order the model gave them |
| `TimeSlices.GroupedOk` | src/agent/activity-reflection-prompt.ts:420-442 | Groups of timed events are consecutive, each spanning from its first start to its latest end, before the next one starts |
| `TimeSlices.GroupsSeparate` | src/agent/activity-reflection-prompt.ts:424-442 | Groups are maximal: none could have taken the first event of the next |
| `TimeSlices.MostSpecificWins` | src/agent/activity-reflection-prompt.ts:476-486 | The selected event is the first that no other of its group beats |
| `TimeSlices.SliceDescribes` | src/agent/activity-reflection-prompt.ts:487-498 | A slice keeps everything of the selected event but its times |
| `TimeSlices.NormalizeTimeRanges` | src/agent/activity-reflection-prompt.ts:553-588 | The normalising pass computes the fitted times |
| `TimeSlices.FittedOrdered` | src/agent/activity-reflection-prompt.ts:553-588 | Whatever times events carry or lack, normalisation yields slices inside the window, ordered and without overlap |
| `TimeSlices.FittedIdentity` | src/agent/activity-reflection-prompt.ts:553-588 | Slices that already fit are left as they are |
| `TimeSlices.ConversionSound` | src/agent/activity-reflection-prompt.ts:399-612 | Whenever resolution accepts, the slices of a window with start at most end lie inside it, are ordered and disjoint, cover every resolved event of their group, and can be rejected neither at emission nor by the later scope check |
| `TimeSlices.SliceAccepted` | src/agent/activity-window-worker.ts:2422-2465 | The timestamp check of the delivery service accepts every slice |
| `SliceMeaning.ResolveExact` | src/agent/activity-reflection-prompt.ts:1094-1157 | An event is accepted exactly if its tokens name a run of unclaimed existing segments and its times, given or taken from the run, lie within it |
| `SliceMeaning.ResolveAllExact` | src/agent/activity-reflection-prompt.ts:1094-1157 | All events are accepted exactly if each resolves against the tokens of those before it |
| `SliceMeaning.ConversionMeans` | src/agent/activity-reflection-prompt.ts:399-498 | The accepted events, in order of start inside the window, are cut exactly where one neither begins before the latest end nor continues the same activity within 30 seconds; each part becomes one slice from first start to latest end, described by its most specific, surest, first event |
| `SliceMeaning.JoinsMeans` | src/agent/activity-reflection-prompt.ts:420-463 | An event joins a group exactly if it begins before the group ends, or within 30 seconds as the same activity, development and research counting as one and file operations, idling and unknown as none |
| `SliceMeaning.ClampMeans` | src/agent/activity-reflection-prompt.ts:1192-1204 | A clamped time is the instant of the window nearest to it |
| `SliceMeaning.FilledMeans` | src/agent/activity-reflection-prompt.ts:553-588 | An event without a start begins where the last one ended; one without an end lasts until the next known start, or the end of the window if that is too early; given times are moved inside and behind the last end |
| `CalendarPolicy.OverlapSymmetric` | src/bun/calendar-policy.ts:186-200 | Overlap does not depend on which event is the candidate, in all recurrence and all-day cases and also when it throws |
| `CalendarPolicy.SeriesSymmetric` | src/bun/calendar-policy.ts:266-280 | Two recurring series are compared over the same year whichever is first |
| `CalendarPolicy.ErrorIff` | src/bun/calendar-policy.ts:165-184 | The check reports an error exactly when the candidate overlaps a manual block, an external event or, being committed, a committed plan |
| `CalendarPolicy.AcceptedOverlapsNothing` | src/bun/calendar-policy.ts:165-184 | A committed event accepted without error overlaps no committed event of another kind than break |
| `CalendarMeaning.TimedOverlapMeans` | src/bun/calendar-policy.ts:190-195 | Two timed events overlap exactly when some instant lies in both |
| `CalendarMeaning.DayOverlapMeans` | src/bun/calendar-policy.ts:196-199 | With an all-day event, two events overlap exactly when some local day lies in both |
| `CalendarMeaning.SeriesEventMeans` | src/bun/calendar-policy.ts:257-264 | A series overlaps an event exactly when some instant of an occurrence around it lies in the event, and throws exactly when the rule is too dense |
| `CalendarMeaning.SeriesMeans` | src/bun/calendar-policy.ts:266-284 | Two series overlap exactly when occurrences share an instant in the 366 days from the earlier first one |
| `CalendarMeaning.DetectMeans` | src/bun/calendar-policy.ts:165-184 | Exactly the overlapping events of the first kind that has any are reported: manual blocks, external events, then committed plans, which only warn a proposal |
| `CalendarMeaning.EventMeans` | src/bun/calendar-policy.ts:16-59 | A valid event lasts at least 15 minutes or a day, and an external one is never editable |
| `CalendarMeaning.SingleTimedOk` | src/bun/calendar-policy.ts:16-59 | A single timed event is valid exactly if its texts and zone are sound, it lasts at least 15 minutes and is not an editable external one |
| `CalendarMeaning.CreateExact` | src/bun/calendar-policy.ts:61-77 | A create is accepted exactly when nothing has the id, no version is expected and an event is given; otherwise it is stale |
| `CalendarMeaning.ChangeExact` | src/bun/calendar-policy.ts:78-131 | Any other mutation is accepted exactly for an up-to-date, writable event that its scope allows to change; stale, read-only and restricted are the exact answers otherwise |
| `CalendarMeaning.ExceptionsMean` | src/bun/calendar-policy.ts:452-475 | A single occurrence may be excepted exactly by an update that keeps the series and all its exceptions and adds one |
| `CalendarMeaning.OccurrenceExact` | src/bun/calendar-policy.ts:133-163 | An occurrence is accepted exactly when it is named after a valid date that the one stored series of its id excepts |
| `CalendarRepository.PrepareMutations` | src/bun/calendar-repository.ts:163-212 | The preparation loop computes the fold of single mutations, throwing where it throws |
| `CalendarRepository.MutationKeeps` | src/bun/calendar-repository.ts:170-199 | One mutation keeps the working copy conflict-free and equal to what the commit would write |
| `CalendarRepository.ApplyAllKeeps` | src/bun/calendar-repository.ts:148-213 | Preparing against a conflict-free calendar leaves a conflict-free working copy, and a batch that names every id once commits to exactly that copy |
| `CalendarRepository.AppendUpsert` | src/bun/encrypted-agent-repository.ts:3532-3568 | Because the storage refuses repeated ids, one more upsert changes exactly one event of the committed table |
| `CalendarRepository.AppendDelete` | src/bun/encrypted-agent-repository.ts:3532-3568 | Because the storage refuses repeated ids, one more delete removes exactly one event of the committed table |
| `CalendarRepository.ListAll` | src/bun/calendar-repository.ts:231-257 | The paging loop ends on every store of bounded size and collects each id once |
| `CalendarRepository.CollectWhole` | src/bun/calendar-repository.ts:231-257 | Listing a store that stands still returns all of it without a stall |
| `CalendarRepository.CollectDistinct` | src/bun/calendar-repository.ts:231-257 | Whatever writers do between pages, no id is listed twice |
| `CalendarRuns.RunKeeps` | src/bun/calendar-repository.ts:115-257 | Every interleaving of batches, loads and deletions keeps the invariant of revisions and clients |
| `CalendarRuns.NeverDoubleBooked` | src/bun/calendar-repository.ts:115-213 | In every interleaving from a conflict-free calendar no revision holds two distinct overlapping committed events other than breaks; what overlapping means is stated in CalendarMeaning |
| `CalendarEffects.NeverTwiceAtOnce` | src/bun/calendar-repository.ts:115-213 | In every run from a conflict-free calendar no instant lies in two committed timed events of one revision, breaks aside |
| `CalendarEffects.SeriesNeverAtOnce` | src/bun/calendar-repository.ts:115-213 | Nor does an instant of a committed series' occurrence around a committed timed event lie in that event |
| `CalendarEffects.MutationMeans` | src/bun/calendar-repository.ts:170-199 | A mutation takes effect on exactly one event, version 0 when new and one up otherwise, and is noted for the commit, or adds one conflict and changes nothing |
| `CalendarEffects.RefusedIff` | src/bun/calendar-repository.ts:170-199 | A mutation is refused exactly when the mutation check, the occurrence check or an overlap error objects |
| `CalendarEffects.SavedTakesEffect` | src/bun/calendar-repository.ts:115-147 | In every run a saved mutation that alone names its event found the version it expected in the revision just before, and the event is as it says in the revision saved: no update is lost |
| `CalendarEffects.SavedLeavesOthers` | src/bun/calendar-repository.ts:115-147 | Events that no mutation of a saved batch names are as they were |
| `CalendarEffects.UndisturbedIsSaved` | src/bun/calendar-repository.ts:115-257 | From every reachable state a batch without conflicts, made for the current revision or for none, is saved if nobody writes meanwhile |
| `CalendarEffects.UndisturbedIsLoaded` | src/bun/calendar-repository.ts:215-257 | From every reachable state a load during which nobody writes returns the current revision |
| `CalendarEffects.AdvanceMeans` | src/bun/calendar-repository.ts:231-257 | A short page ends the listing, a full page without a new id stops it with an error, and exactly the rows with new ids are added |
| `CalendarEffects.BeginMeans` | src/bun/calendar-repository.ts:148-161 | A batch has 1 to 500 mutations, and one made for another revision is refused as stale before anything is read |
| `CalendarEffects.CommitMeans` | src/bun/encrypted-agent-repository.ts:3311-3344 | A commit goes in exactly at the revision its rows were read at and is refused as stale otherwise |
| `CalendarEffects.LoadMeans` | src/bun/calendar-repository.ts:215-229 | A load whose revision moved is tried once more and fails if it moves again |
| `CalendarRuns.SavedIsSerial` | src/bun/encrypted-agent-repository.ts:3311-3344 | Every committed batch had the effect of running its mutations alone on the revision right before it |
| `CalendarRuns.LoadIsSnapshot` | src/bun/calendar-repository.ts:215-229 | A load returns exactly the rows of the revision it reports, each id once |
| `CalendarRuns.RevisionsAreFinal` | src/bun/encrypted-agent-repository.ts:3311-3344 | Revisions are only ever added, one per successful write |
| `CalendarRuns.PagingEnds` | src/bun/calendar-repository.ts:231-257 | A call that goes on paging has met a store with at least that many rows |
| `JsonText.NumberUnique` | src/bun/agent-tool-policy.ts:422-425 | Finite numbers have the same text exactly when they are equal or both zero |
| `JsonText.UnquoteBody` | src/bun/agent-tool-policy.ts:421-421 | Reading back a quoted string gives the string and leaves what follows |
| `JsonText.QuotePaired` | src/bun/agent-tool-policy.ts:421-421 | A quoted string never holds half a surrogate pair |
| `CanonicalJson.CanonicalIff` | src/bun/agent-tool-policy.ts:420-432 | Two values get the same canonical text exactly when they are equal up to key order and the sign of zero, at any depth |
| `CanonicalJson.PrintUnique` | src/bun/agent-tool-policy.ts:420-432 | From a text that starts with a canonical text the value and what follows it can be read off |
| `CanonicalJson.SamePrints` | src/bun/agent-tool-policy.ts:426-429 | Values equal up to key order have the same text |
| `CanonicalJson.SortedKeysSort` | src/bun/agent-tool-policy.ts:429-429 | Sorting lists exactly the keys in strictly ascending code unit order |
| `CanonicalJson.AscendingUnique` | src/bun/agent-tool-policy.ts:429-429 | A set of keys has only one ascending listing |
| `CanonicalJson.PrintPaired` | src/bun/agent-tool-policy.ts:207-209 | Canonical text has a lossless UTF-8 form, so the digested bytes determine it |
| `CanonicalMeaning.CanonicalMeans` | src/bun/agent-tool-policy.ts:420-432 | A value is refused exactly if it holds a non-finite number or something JSON has no form for; otherwise the text is JSON that denotes it |
| `CanonicalMeaning.PrintDenotes` | src/bun/agent-tool-policy.ts:420-432 | Literals, strings, numbers, arrays in order and objects by ascending key: the printed text reads as the value it was printed from, at any depth |
| `CanonicalMeaning.NumberReads` | src/bun/agent-tool-policy.ts:422-425 | The text of a number, read as sign, digits, fraction and exponent, is worth that number |
| `CanonicalMeaning.ExponentIff` | src/bun/agent-tool-policy.ts:422-425 | The exponent form is used exactly below 10^-6 and from 10^21 on |
| `CanonicalMeaning.EscapeMeans` | src/bun/agent-tool-policy.ts:421-421 | Quotation mark, backslash, controls and lone surrogates are escaped the shortest way, and nothing else |
| `ApprovalSafety.RunKeeps` | src/bun/agent-run-coordinator.ts:1164-1261 | In every interleaving of proposals, decisions, calls, interruptions, reactivations and crashes an approved record is a token held in one place only |
| `ApprovalSafety.ExecutedAtMostOnce` | src/bun/agent-run-coordinator.ts:1966-2046 | Across live, recovered and crashed paths each approval leads to at most one execution |
| `ApprovalSafety.ExecutedAsApproved` | src/bun/agent-run-coordinator.ts:1966-2046 | What is executed is the tool of a record stored as approved, on arguments equal to its own up to key order, validated before expiry; whose decision that was is stated by ExecutedOnlyIfApproved |
| `ApprovalDecisions.ExecutedOnlyIfApproved` | src/bun/agent-run-coordinator.ts:1966-2046 | In every run each execution goes back to an earlier decision to approve once that named this approval, run, call, arguments and version and was read within ten minutes |
| `ApprovalDecisions.DenyIsFinal` | src/bun/agent-tool-policy.ts:154-162 | In every run, once a decision to deny is stored the record is denied in every later state and no execution ever has its id |
| `ApprovalDecisions.DeniedNeverExecuted` | src/bun/agent-tool-policy.ts:154-162 | A denied record stays denied and nothing is executed under its id, before or after |
| `ApprovalDecisions.SettledForGood` | src/bun/agent-tool-policy.ts:122-162 | A record that is no longer pending never changes again |
| `ApprovalDecisions.ExecutedInTime` | src/bun/agent-tool-policy.ts:166-204 | Every execution was validated within ten minutes of the proposal |
| `ApprovalDecisions.ReadMeans` | src/bun/agent-tool-policy.ts:131-153 | A decision goes on exactly with a pending, unexpired, well-formed record that it names; an expired one is stored as expired |
| `ApprovalDecisions.PersistMeans` | src/bun/agent-tool-policy.ts:154-162 | What is stored is what the user decided: approved exactly for approve-once, denied exactly for deny |
| `ApprovalPaths.ApprovedIsCarriedOut` | src/bun/agent-run-coordinator.ts:1164-1261 | From the empty state a proposed write tool that is approved in time is carried out with its own arguments, on the live path and on the recovered one |
| `ApprovalSteps.ProposeMeans` | src/bun/agent-tool-policy.ts:92-120 | A call is held for approval exactly if it is one of the five write tools, its arguments pass and have a JSON text; it expires after ten minutes |
| `ApprovalSteps.BeginMeans` | src/bun/agent-run-coordinator.ts:1164-1182 | One decision or call at a time holds a run |
| `ApprovalSteps.NoteMeans` | src/bun/agent-run-coordinator.ts:1194-1203 | An approval is kept for its call exactly if the run was not interrupted |
| `ApprovalSteps.CallMeans` | src/bun/agent-run-coordinator.ts:1966-2046 | A call takes the kept approval away and goes on exactly if approval, tool, arguments, digest and run version are those that were approved |
| `ApprovalSteps.FinishMeans` | src/bun/agent-run-coordinator.ts:2469-2547 | A run that ends takes its kept approvals along and no others |
| `ApprovalSteps.InterruptMeans` | src/bun/agent-run-coordinator.ts:1604-1626 | An interruption waits for the operation in progress; a run waiting for a decision is kept to be recovered, any other ends |
| `ApprovalSteps.CrashMeans` | src/bun/agent-run-coordinator.ts:2986-3010 | A crash keeps the approvals and what was carried out, and nothing else |
| `ApprovalSafety.PersistKeeps` | src/bun/agent-tool-policy.ts:154-162 | The compare-and-set succeeds once per record and a token is made only with a record stored as approved |
| `ApprovalSafety.NoteTokens` | src/bun/agent-run-coordinator.ts:1194-1203 | A live approval moves to its slot, a recovered one stays with the decision |
| `ApprovalSafety.RevalidateKeeps` | src/bun/agent-tool-policy.ts:165-204 | Execution is reached only with the persisted record approved, unchanged and unexpired |
| `ApprovalSafety.CloseGuards` | src/bun/agent-run-coordinator.ts:2696-2703 | Giving up a critical operation wakes waiting interruptions only when no noted decision is left on the run |
| `ApprovalSafety.FlagStillIff` | src/bun/agent-run-coordinator.ts:1164-1261 | Over every continuation of a decision or execution the recovery flag stays still if and only if it was already up, no woken interruption waited on the run, or another activation had taken its place |
| `ApprovalSafety.DecisionGuardedIff` | src/bun/agent-run-coordinator.ts:1173-1182 | From the beginning of a decision on an active run to its end the flag stays still if and only if no woken interruption was waiting when it began |
| `ApprovalSafety.NotedIsSafe` | src/bun/agent-run-coordinator.ts:1194-1225 | A decision that has been noted is always guarded, so both readings of the flag agree |
| `ApprovalSafety.FlagMayRiseWhileDeciding` | src/bun/agent-run-coordinator.ts:1604-1626 | A run in which an interruption that waited for an earlier operation raises the flag after the next decision began |
| `Utf8.DecodeEncode` | src/bun/app-update-macos-installer.ts:766-772 | Decoding gives back encoded text followed by what follows it |
| `Utf8.DecodedIsEncoded` | src/bun/app-update-macos-installer.ts:766-772 | Only the shortest form is read: what decodes to a text is its encoding |
| `TarArchive.ValidateChecksum` | src/bun/app-update-macos-installer.ts:730-739 | The summing loop decides the header checksum |
| `TarArchive.ReadRecord` | src/bun/app-update-macos-installer.ts:774-808 | The scanning loops find the length and key of one metadata record |
| `TarArchive.ValidatePax` | src/bun/app-update-macos-installer.ts:774-810 | Metadata is accepted exactly when it is a sequence of well-formed records with harmless keys |
| `TarArchive.ParseArchive` | src/bun/app-update-macos-installer.ts:642-728 | The reading loop over an offset computes the specified result |
| `TarTiling.WalkTiles` | src/bun/app-update-macos-installer.ts:652-709 | What the reader gets through is tiled without gaps by headers and padded contents |
| `TarTiling.TilesWalk` | src/bun/app-update-macos-installer.ts:652-709 | What is tiled that way is read back tile by tile |
| `TarTiling.FoldIff` | src/bun/app-update-macos-installer.ts:658-708 | A list of tiles is accepted exactly when the declarative rules on kinds, paths, duplicates, metadata and counts hold |
| `TarTiling.AcceptedIsTiled` | src/bun/app-update-macos-installer.ts:642-728 | Every accepted archive is tiled up to a tail of zeros, its tiles keep the rules, and its paths are what is returned; ParseExact says the same of the bytes alone |
| `TarTiling.TiledIsAccepted` | src/bun/app-update-macos-installer.ts:642-728 | Every archive tiled that way is accepted with exactly those paths |
| `TarEncoding.RoundTrip` | src/bun/app-update-macos-installer.ts:642-728 | Parsing the ustar encoding of distinct safe entries with the required files returns exactly those files and directories |
| `TarEncoding.ReadsBackIff` | src/bun/app-update-macos-installer.ts:757-772 | An entry is read back under its own path exactly when neither path field starts with a byte order mark |
| `TarEncoding.OctalFieldReads` | src/bun/app-update-macos-installer.ts:741-755 | A numeric field written in octal is read as its value |
| `TarEncoding.HeaderChecksum` | src/bun/app-update-macos-installer.ts:730-739 | A written header carries the checksum the reader computes |
| `TarEncoding.SafePathPlain` | src/bun/app-update-macos-installer.ts:812-837 | A safe path has no slash at either end and no NUL, so writing it with a slash and stripping it gives it back |
| `TarMeaning.ParseExact` | src/bun/app-update-macos-installer.ts:642-728 | An archive is accepted with these files and directories exactly when it is blocks of 512 bytes with right checksums, sizes, kinds, safe paths each used once, metadata only before an entry, at most 50000 entries and 100000 headers, the three required files, and zeros to the end |
| `TarMeaning.AcceptedPathsSafe` | src/bun/app-update-macos-installer.ts:642-728 | Every path of an accepted archive is the bundle or lies below it, has no empty, "." or ".." component, no control character and no backslash, and followed component by component never leaves the bundle |
| `TarMeaning.PathExact` | src/bun/app-update-macos-installer.ts:812-837 | A path is accepted exactly when, without slashes at its end, it is the bundle or below it, made of names, clean and at most 4096 bytes long; it is read as that |
| `TarMeaning.NeverLeaves` | src/bun/app-update-macos-installer.ts:812-837 | A path made of names keeps a depth of at least 1 after every component |
| `TarMeaning.ShapedExact` | src/bun/app-update-macos-installer.ts:653-672 | A tile fits exactly if its checksum and size fields hold the right numbers and its content is padded to the next block boundary |
| `TarMeaning.TileExact` | src/bun/app-update-macos-installer.ts:674-708 | Type byte 0 or "0" is a file, "5" an empty directory, "x" metadata, with the path that the header names |
| `TarMeaning.HeaderPathExact` | src/bun/app-update-macos-installer.ts:757-764 | The path is the name field behind the prefix field and a slash, each up to its first NUL |
| `TarMeaning.OctalExact` | src/bun/app-update-macos-installer.ts:741-755 | A numeric field is read exactly when its first byte is below 128 and its text up to the first NUL is octal digits among white space, or white space alone for 0 |
| `TarMeaning.ChecksumExact` | src/bun/app-update-macos-installer.ts:730-739 | The checksum is the sum of all bytes with its own eight counted as spaces |
| `TarMeaning.PaxExact` | src/bun/app-update-macos-installer.ts:774-810 | Metadata is accepted exactly when it is a sequence of records: length in decimal, space, key, equals sign, value, line end |
| `TarMeaning.RecordExact` | src/bun/app-update-macos-installer.ts:774-808 | A record of that length is found exactly when the bytes begin with one |
| `TarMeaning.HarmlessExact` | src/bun/app-update-macos-installer.ts:798-805 | The keys let through are mtime, atime, ctime and extended attributes |
| `TarMeaning.RequiredExact` | src/bun/app-update-macos-installer.ts:718-726 | The required files are the property list, the launcher and the version file |
| `UpdateInstall.Disk.AtomicSwap` | src/bun/app-update-macos-installer.ts:1157-1171 | Both paths change places at once or nothing happens, and both bundles survive |
| `UpdateInstall.Disk.Rename` | src/bun/app-update-macos-installer.ts:1258-1258 | A bundle moves to a free path or nothing happens |
| `UpdateInstall.Disk.StartAndProbe` | src/bun/app-update-macos-installer.ts:1173-1192 | A launcher that survives the probe is the one of the bundle at that path |
| `UpdateInstall.InstallOnMac` | src/bun/app-update-macos-installer.ts:1247-1284 | At every instant the current path names a whole bundle and neither is lost; each outcome is reached by exactly the listed attempts and explains where the bundles are |
| `UpdateInstall.RestoreBackup` | src/bun/app-update-macos-installer.ts:1272-1283 | After a failed rollback the launcher tried last is the old one exactly when the new bundle is still current |
| `UpdateInstall.InstalledIff` | src/bun/app-update-macos-installer.ts:1247-1271 | The update is installed exactly when the exchange, the move to the backup and the launch of the new bundle succeeded |
| `UpdateInstall.SwapKeeps` | src/bun/app-update-macos-installer.ts:1157-1171 | Exchanging two paths keeps both bundles |
| `UpdateInstall.MoveKeeps` | src/bun/app-update-controller.ts:1525-1539 | Moving to a free path keeps both bundles |
| `UpdateInstall.Disk.MoveBefore` | src/bun/app-update-controller.ts:1525-1539 | The retry loop ends moved, or with nothing changed because the paths rule it out or the deadline has passed |
| `UpdateInstall.Disk.StartExactLauncher` | src/bun/app-update-controller.ts:1541-1548 | A started launcher is the one of the bundle at that path |
| `UpdateInstall.InstallOnWindows` | src/bun/app-update-controller.ts:1609-1652 | What the script reports is what it did: completed exactly when both moves and the new launcher succeeded, a move given up only at its deadline, the old launcher tried last otherwise; no bundle is lost and every launcher of a failing run is the old one |
| `UpdateInstall.MoveForward` | src/bun/app-update-controller.ts:1614-1619 | The old bundle goes to the backup and the new one to its place; either move is given up only after 105 seconds |
| `UpdateInstall.RollBack` | src/bun/app-update-controller.ts:1625-1637 | The old bundle is current again, or still in the backup with the deadline passed |
| `JsonlParser.JsonlReader.EmitBytes` | src/agent/local-tool-client.ts:1882-1895 | A line loses one trailing CR and is handed on unless the limit, the decoder or the handler refuses it |
| `JsonlParser.JsonlReader.Feed` | src/agent/local-tool-client.ts:1858-1875 | Feeding a chunk hands on every completed line and keeps the rest |
| `JsonlParser.JsonlReader.Finish` | src/agent/local-tool-client.ts:1877-1880 | Finishing hands on a non-empty rest |
| `JsonlParser.ScanIsDeliver` | src/agent/local-tool-client.ts:1858-1880 | Scanning a stream hands on the lines of its newline split |
| `JsonlParser.ChunkingDoesNotMatterIff` | src/agent/local-tool-client.ts:1849-1896 | A stream is read as its newline split under every chunking, lines and error alike, if and only if every line that is handed on fits the limit together with its CR |
| `JsonlParser.LimitDependsOnChunking` | src/agent/local-tool-client.ts:1869-1874 | A line of exactly the limit with CR LF is accepted whole and refused when cut before the LF |
| `JsonlMeaning.LineExact` | src/agent/local-tool-client.ts:1882-1895 | A line is handed on exactly as the text its bytes spell, without one trailing CR and one leading byte order mark, if it fits the limit and the handler takes it |
| `JsonlMeaning.StreamReads` | src/agent/local-tool-client.ts:1849-1896 | Texts written one to a line, ended by LF or CR LF, are read back in order with nothing left over |
| `Lifecycle.ActivityWindowDeliveryLifecycle.Start` | src/bun/activity-window-delivery-lifecycle.ts:60-121 | A start begins exactly when the lifecycle is open with nothing stopping, starting or held |
| `Lifecycle.ActivityWindowDeliveryLifecycle.Own` | src/bun/activity-window-delivery-lifecycle.ts:109-118 | Only the current attempt hands over a bundle, only when none is held, never during or after a stop |
| `Lifecycle.ActivityWindowDeliveryLifecycle.BeginRun` | src/bun/activity-window-delivery-lifecycle.ts:124-126 | An invalidated start does not run |
| `Lifecycle.ActivityWindowDeliveryLifecycle.RunDone` | src/bun/activity-window-delivery-lifecycle.ts:126-134 | Only a current attempt that handed over a bundle becomes ready |
| `Lifecycle.ActivityWindowDeliveryLifecycle.Fail` | src/bun/activity-window-delivery-lifecycle.ts:135-145 | A failed start gives up its token and turns to releasing what it had handed over |
| `Lifecycle.ActivityWindowDeliveryLifecycle.CleanupDone` | src/bun/activity-window-delivery-lifecycle.ts:146-164 | A cleaned-up start leaves nothing held and nothing that could be |
| `Lifecycle.ActivityWindowDeliveryLifecycle.Stop` | src/bun/activity-window-delivery-lifecycle.ts:169-184 | A stop invalidates every attempt at once |
| `Lifecycle.ActivityWindowDeliveryLifecycle.StopJoined` | src/bun/activity-window-delivery-lifecycle.ts:175-178 | After joining the start a stop releases exactly what is held |
| `Lifecycle.ActivityWindowDeliveryLifecycle.StopReleased` | src/bun/activity-window-delivery-lifecycle.ts:174-181 | A successful stop leaves nothing held, every bundle ever handed over released, and no attempt that could hand over another |
| `Lifecycle.ActivityWindowDeliveryLifecycle.ReleasedExact` | src/bun/activity-window-delivery-lifecycle.ts:186-193 | A bundle is forgotten only after its release |
| `Lifecycle.ActivityWindowDeliveryLifecycle.Close` | src/bun/activity-window-delivery-lifecycle.ts:53-58 | Closing invalidates every attempt for good and keeps a quiet lifecycle quiet |

## Left out

- Several accounts and session changes of the ledger: one owner account, after the legacy cutover is complete.
- Baseline windows, window payloads and the texts of analyses: ledger and archive hold only ids, scores and sizes.
- The order in which due windows are tried, wake-ups and retry timers: any due row may be begun, a superset of the source's choice.
- Floating-point rounding of scores.
- Keychain access control, memory locking and zeroisation.
- Prompt text, action texts and their patterns: an action's specificity is a given number; state markers and the final sort of worker events are not modelled.
- `putCalendarEvent`, which no production code calls, and the separate revision of the planning authority; its calendar commit is the same compare-and-set as a batch commit.
- The order of affected ids and the message texts of calendar conflicts.
- Read tools of the agent, model relay, sidecar messages and the contents of run snapshots.
- Session checks are modelled as steps that may fail; account ids of approvals are left out, with one account.
- Extraction of archive contents, code signatures and the bundle check after extraction.
- Closing the system library handle after an atomic exchange is taken not to fail, and a rename replaces no existing directory.
- Plan validation, readiness files, process waiting and logs of both installers.
- Delivery of protocol messages above the line level, and what the line handler does beyond returning or throwing.
- The order in which a bundle's four resources are shut down.
