# Frameleaf: verified models of the crash-safe and concurrent core

Frameleaf's Manager, machine-learning worker and iCloud bridge rely on small pieces of code that have to be right at
every crash point, after any number of retries, and in every interleaving of threads. This project models those pieces
in Dafny and proves what they are for. `dafny verify dfyconfig.toml` checks all of it.

| module | models | central result |
|---|---|---|
| `AutostartText`, `TornWrite`, `RestartPolicies`, `RetiredServices`, `FenceReview`, `Fencing` | the journalled in-place edit of the Unraid autostart list, and the journalled retirement and recovery of a source's services | any number of interrupted retirements and recoveries, then one completed recovery, restores every service and every recorded line; a recovery that nothing stands in the way of completes |
| `ImportCopy` | the resumable copy of an import's files | through any number of crashes a destination stays a prefix of its source, no byte is replaced, and completion means equality |
| `AudioMemory`, `InferenceExecution` | accounting of audio memory and of native work that cannot be cancelled | in every interleaving the counters equal what is really held |
| `DesktopGrants` | pairings, grants and single-use nonces with a clock | no proof is authorized twice in any run, with retention exactly long enough |
| `RateLimit`, `Inventory`, `Download` | the bridge's sliding-window limiter, inventory paging and byte-range download | exact admission, every asset once and in order, every byte sent a byte of the requested range |
| `Staging` | refresh and rollback of model trees by renaming | no failure or crash point loses an active tree |
| `ModelLoading`, `StudioWorker` | state machines of loader threads, and of a supervisor's `run` against its `stop` | safety over all interleavings, and a run that is unsafe with the two reads in the other order |
| `ImportLifecycle` | completing and rolling back one common import against the Server's journal | completion and rollback are never both confirmed |
| `Settings`, `Discovery`, `Sorting`, `ImportPlan`, `Tuning` | masking of secrets, source fingerprints and revalidation, import plan checks, PostgreSQL sizing | exact characterisations (if and only if) of what is accepted, shown or equal |

Three conventions recur. A crash is a budget: `Fencing.budget`, `Copier.io` and `Staging.faults` say how long the
process lives or how each operation goes (`answers` are those of read-only checks), and since nothing constrains them,
a method's contract covers every crash point. An interleaving is a sequence of events, each one atomic action of one
thread. A digest or signature is modelled by what was digested or signed.

Some expected properties hold only under a condition, and the models state which one:

- A restart policy written back as a flag is the original one exactly when it is set and only `on-failure` counts
  retries (`RestartPolicies.PutBackIsOriginal`): Docker's unset policy comes back as `no`. A source revalidates after
  such a change exactly when the policy comes back as it was or as `no` (`Discovery.RevalidatesAfterOwnChange`).
- After a retirement and a recovery a service is started as the list started it exactly when the file, as it was when
  the services were recorded, started it so (`Fencing.Fencing.RetireThenRecover`). File and list differ only while an
  interrupted edit is pending. `Fencing.HalfWrittenListLosesLine` is a half-written list behind a fence that verifies:
  retirement and recovery both complete, and the database's line is lost.
- A recovery after a completed retirement leaves of each service just the trimmed line that started it in the file, and
  no second one; so its lines are as before exactly when the list had just that line, as
  `Fencing.Fencing.RetireThenRecover` states too. Removed lines come back above the list (`RetiredServices.RestoreInOrder`).
- A fence check passes again after any of Manager's own changes if the policies to be put back last
  (`FenceReview.StillRevalidates`): they are unset, `no` or `on-failure`, or count no retries
  (`RestartPolicies.LastingIsExact`). That is why a retried recovery is not refused (`Fencing.Fencing.RecoverReviewed`).
- The limiter's window is half open, so its limits hold in closed windows exactly if they are shorter than its own
  (`RateLimit.ClosedWindowIsExact`); two full bursts one window apart are admitted (`RateLimit.Replay`).
- Nonce retention is enough exactly from twice the window on (`DesktopGrants.RetentionIsExact`).
- The eighteen-fold `work_mem` bound holds exactly from 72 MB on (`Tuning.HashJoinsFit`).
- An inventory is collected exactly when no phase has more than 1 000 000 000 assets (`Inventory.Collect`).

## Model

| member | source | states |
|---|---|---|
| `AutostartText.SplitJoin` | manager/src/fencing.ts:11-16 | lines joined with line feeds split back into the same lines |
| `AutostartText.JoinSplit` | manager/src/fencing.ts:11-16 | a text split into lines joins back into the same text |
| `AutostartText.RemoveEffect` | manager/src/fencing.ts:11-16 | removing names drops exactly their lines and keeps every other line, in order |
| `AutostartText.RemovedNotListed` | manager/src/fencing.ts:11-16 | no removed name is listed afterwards |
| `AutostartText.RemoveUnion` | manager/src/fencing.ts:11-16 | removing names in turn is removing them together |
| `AutostartText.StaysRemoved` | manager/src/fencing.ts:291-296 | a list that verifies as without the workers still does after others are removed |
| `AutostartText.RestoreEffect` | manager/src/fencing.ts:18-22 | a container that is listed keeps its lines; one that is not gets its recorded ones |
| `AutostartText.RestoreOthers` | manager/src/fencing.ts:18-22 | restoring leaves the lines of all other containers in place and in order |
| `AutostartText.RestoreTwice` | manager/src/fencing.ts:18-22 | restoring twice is restoring once |
| `AutostartText.RemoveThenRestore` | manager/src/fencing.ts:11-22 | removing and restoring gives each recorded line exactly once, in recorded order, above the untouched rest |
| `AutostartText.TrimLine` | manager/src/fencing.ts:10-10 | a line recorded trimmed names the same container and is still one line |
| `TornWrite.TornStep` | manager/src/fencing.ts:123-124 | one more byte written in place goes from one torn state to the next |
| `TornWrite.RecognisesInterrupted` | manager/src/fencing.ts:135-141 | the test that tries only the longest common prefix accepts exactly `before`, `after`, and every new prefix followed by the old tail |
| `TornWrite.InterruptedAgain` | manager/src/fencing.ts:131-149 | an interrupted repair of an interrupted write leaves nothing the test would not accept |
| `Fencing.Fencing.Write` | manager/src/fencing.ts:114-130 | a changed list is not touched; otherwise the write completes or stops in a torn state of the expected text |
| `Fencing.Fencing.Reconcile` | manager/src/fencing.ts:131-149 | an unrecognised file is refused untouched; a recognised one is finished and the journal cleared, or stays recognised |
| `Fencing.Fencing.Rewrite` | manager/src/fencing.ts:99-113 | whatever the host writes meanwhile: the list is changed; or settled as the old or the changed one after a crash; or refused with the journal cleared; or refused with the journal kept, when the host wrote after the change |
| `Fencing.Fencing.RepairAfterCrashes` | manager/src/fencing.ts:99-149 | any number of interrupted repairs and one uninterrupted leave the file equal to the new text and the journal clear |
| `RestartPolicies.PutBackIsOriginal` | manager/src/fencing.ts:23-24 | a policy written back as a flag is the original exactly when it is set and only on-failure counts retries |
| `RestartPolicies.LastingIsExact` | manager/src/fencing.ts:23-24 | it comes back as it was or as `no` exactly if it is unset, `no` or on-failure, or counts no retries |
| `FenceReview.ComparedAsBefore` | manager/src/fencing.ts:201-205 | after Manager's own changes every container is compared with the review as before |
| `FenceReview.StillRevalidates` | manager/src/fencing.ts:173-205 | a source that revalidates while fencing still does after any of Manager's own changes |
| `FenceReview.OfDockerIsStable` | manager/src/discovery.ts:260-280 | comparing Docker's listing with the review is a revalidation that bears those changes |
| `Fencing.Fencing.SetPolicy` | manager/src/docker.ts:446-460 | exactly the known flags are accepted, and one container's policy changes |
| `RetiredServices.PositionIsFirst` | manager/src/fencing.ts:246-247 | the place a record is sorted by is where the list starts its container |
| `RetiredServices.RecordsAreRecorded` | manager/src/fencing.ts:217-253 | the journal entry holds each service's own policy, running state and first line, in the order in which the list starts them, no service twice and no worker |
| `RetiredServices.OwnersInOrder` | manager/src/fencing.ts:246-253 | the recorded lines are in the order of the records |
| `RetiredServices.LinesInOrder` | manager/src/fencing.ts:246-253 | the recorded lines are in the order in which the list started their containers |
| `RetiredServices.FitsRemove` | manager/src/fencing.ts:256-259 | removing the services keeps every other line and leaves the list one that recovery restores |
| `RetiredServices.FitsRestore` | manager/src/fencing.ts:271-274 | from any such list, restoring puts every recorded line back and keeps every other line |
| `RetiredServices.RestoreInOrder` | manager/src/fencing.ts:271-274 | where none of the services is listed, recovery writes their lines above the list in the recorded order |
| `RetiredServices.LineOfService` | manager/src/fencing.ts:273-273 | a service's own recorded line is the only one recorded under its name |
| `RetiredServices.ListedOnceIsBackOnce` | manager/src/fencing.ts:18-22 | a service listed once, and read as listed, is listed once after recovery, by the line it had |
| `RetiredServices.StartedAsRead` | manager/src/fencing.ts:243-274 | a service that was read as the list had it is started as it was |
| `RetiredServices.StartedExactlyAsRead` | manager/src/fencing.ts:243-274 | once its lines were removed, only if it was read so |
| `Fencing.Fencing.RecordServices` | manager/src/fencing.ts:216-254 | the journal entry is written before anything else changes, or nothing is |
| `Fencing.Fencing.Verify` | manager/src/fencing.ts:282-297 | passes only on a source that revalidates, with its workers stopped, without policy and off the list, and on every such one where no other container may write the media |
| `Fencing.Fencing.RetireSourceServices` | manager/src/fencing.ts:209-266 | from any state, also with an edit pending: the fence is verified before and after; the journal entry never changes once written; completion leaves every recorded service off the list, stopped and without policy; on a fenced source it completes where the process lives long enough |
| `Fencing.Fencing.RestoreSourceServices` | manager/src/fencing.ts:267-281 | completion gives every service its policy, running state and line back, removed lines in the recorded order; nothing else changes |
| `Fencing.Fencing.Stop` | manager/src/fencing.ts:173-200 | completion leaves every worker off the list, stopped and without policy, the fence verified, and no other container touched; once the intent is journalled it completes from any state that revalidates |
| `Fencing.Fencing.Recover` | manager/src/fencing.ts:298-310 | refused untouched once media may be written; completion restores services, lines and worker policies, workers stopped; it completes from any state that revalidates, with the services listed, policies that Docker takes and that last, no other media writer, and a process that lives long enough |
| `Fencing.Fencing.Run` | manager/src/fencing.ts:206-310 | one run of retirement or recovery, crashed anywhere, keeps the invariant and the journal entry |
| `Fencing.Fencing.RetireAndRecover` | manager/src/fencing.ts:206-310 | any number of interrupted retirements and recoveries in any order, from any state before the services are recorded, and one completed recovery restore the original policies, running states and every recorded line, and leave every other line |
| `Fencing.Fencing.RetireThenRecover` | manager/src/fencing.ts:206-310 | after a completed retirement and recovery a service has just the one line that started it in the file before; its lines, and how it is started, are as the list had them exactly when that is what the list had |
| `Fencing.Fencing.RecoverAfterCrashes` | manager/src/fencing.ts:206-310 | after any interrupted runs, a recovery completes: the source still revalidates, and only other media writers are outside |
| `Fencing.Fencing.RecoverReviewed` | manager/src/fencing.ts:201-310 | the same where revalidation compares Docker's listing with the review |
| `Fencing.Fencing.RecoverAfterEdit` | manager/src/fencing.ts:206-310 | the host's last edit of the list stands: other lines are as it left them, and each recorded service is listed, by its lines or by its recorded one |
| `Fencing.HalfWrittenListLosesLine` | manager/src/fencing.ts:231-297 | a half-written list behind a fence that verifies, from which a completed retirement and recovery lose the database's line |
| `ImportCopy.Copier.WriteChunk` | manager/src/import-copy.ts:308-318 | short writes append exactly the next bytes of the source, wherever they stop |
| `ImportCopy.Copier.Compare` | manager/src/import-copy.ts:299-307 | existing bytes are accepted only where they are the source's |
| `ImportCopy.Copier.CopyChunk` | manager/src/import-copy.ts:290-319 | one round of the loop reads, compares and appends, and never moves back |
| `ImportCopy.Copier.Append` | manager/src/import-copy.ts:285-320 | the destination is only extended; a prefix stays a prefix, anything else is refused unchanged, and completion means equality |
| `ImportCopy.Copier.AssertImportDestinations` | manager/src/import-copy.ts:104-157 | accepts only plans in which no two destinations are one directory entry or one existing file, and all of those where every destination can be inspected |
| `ImportCopy.StepLeavesOthers` | manager/src/import-copy.ts:105-157 | where destinations are apart, copying one file leaves every other destination as it was |
| `ImportCopy.Copier.Open` | manager/src/import-copy.ts:232-269 | an existing file is opened only on resume or when verified, and created exclusively otherwise |
| `ImportCopy.Copier.Fill` | manager/src/import-copy.ts:270-370 | a verified file is never written, nor one that is not a prefix; what is journalled as verified equals the reviewed source |
| `ImportCopy.Copier.Verify` | manager/src/import-copy.ts:321-370 | a file is journalled exactly after digest, size and both paths were found as reviewed |
| `ImportCopy.Copier.CopyFile` | manager/src/import-copy.ts:173-376 | one file's copy keeps the prefix property at every crash point, changes no byte of a destination that is not a prefix, and is not refused when nothing stands in its way |
| `ImportCopy.Copier.CopyNext` | manager/src/import-copy.ts:173-376 | nothing is written before all destinations are known to be apart, and finished files stay complete |
| `ImportCopy.Copier.CopyImportFiles` | manager/src/import-copy.ts:160-383 | completion means every copied file equals its source and is journalled; a verified file stays so and is not written, nor is a destination that is not a prefix; a run that nothing stands in the way of is not refused |
| `ImportCopy.Copier.CopyThroughCrashes` | manager/src/import-copy.ts:160-383 | the same over any sequence of interrupted runs, with no byte ever replaced; where nothing stood in the way of the first run, a last one completes unless it is interrupted too |
| `AudioMemory.AudioMemoryBudget.Reserve` | machine-learning/frameleaf_ml/transcription_memory.py:21-28 | refused exactly when not positive or more than is left; otherwise counted in full |
| `AudioMemory.AudioMemoryBudget.SetCleanup` | machine-learning/frameleaf_ml/transcription_memory.py:39-44 | one cleanup at most, and none after release |
| `AudioMemory.AudioMemoryBudget.Release` | machine-learning/frameleaf_ml/transcription_memory.py:46-52 | only the first release gives up the HTTP owner |
| `AudioMemory.AudioMemoryBudget.Run` | machine-learning/frameleaf_ml/transcription_memory.py:67-71 | an operation becomes an owner exactly while the reservation is not released, so none is revived |
| `AudioMemory.AudioMemoryBudget.OperationDone` | machine-learning/frameleaf_ml/transcription_memory.py:54-58 | the caller that leaves last is the one after which no operation and no HTTP owner is left |
| `AudioMemory.AudioMemoryBudget.RunCleanup` | machine-learning/frameleaf_ml/transcription_memory.py:59-61 | the registered cleanup runs once, after the last owner left |
| `AudioMemory.AudioMemoryBudget.ReturnBudget` | machine-learning/frameleaf_ml/transcription_memory.py:62-65 | the budget is returned once, after the cleanup |
| `AudioMemory.AudioMemoryBudget.AllReturned` | machine-learning/frameleaf_ml/transcription_memory.py:13-65 | once every reservation is returned nothing is used |
| `AudioMemory.AudioMemoryBudget.Interleave` | machine-learning/frameleaf_ml/transcription_memory.py:13-84 | in every interleaving the used budget is the sum of sizes not returned, within the limit, and reservations only move on |
| `InferenceExecution.CountUpdate` | machine-learning/frameleaf_ml/inference_executor.py:20-43 | moving one call on changes the number of calls in a phase by just that call |
| `InferenceExecution.InferenceExecutor.Acquire` | machine-learning/frameleaf_ml/inference_executor.py:28-29 | a call is admitted exactly when fewer calls than worker threads hold a slot |
| `InferenceExecution.InferenceExecutor.CountIn` | machine-learning/frameleaf_ml/inference_executor.py:30-31 | an admitted call is counted once |
| `InferenceExecution.InferenceExecutor.Enqueue` | machine-learning/frameleaf_ml/inference_executor.py:32-38 | a call the pool does not take keeps its slot until it is released |
| `InferenceExecution.InferenceExecutor.CountOut` | machine-learning/frameleaf_ml/inference_executor.py:40-42 | an ended call is counted out once, and the counter never goes below zero |
| `InferenceExecution.InferenceExecutor.GiveBack` | machine-learning/frameleaf_ml/inference_executor.py:43-43 | its slot is given back once, within the semaphore's bound |
| `InferenceExecution.InferenceExecutor.Admission` | machine-learning/frameleaf_ml/inference_executor.py:16-43 | calls in the pool never exceed its threads, the semaphore never its bound, and idle means every slot is free |
| `InferenceExecution.InferenceExecutor.Busy` | machine-learning/frameleaf_ml/inference_executor.py:21-25 | busy whenever a call is in the pool, and only while one is counted |
| `InferenceExecution.InferenceExecutor.Interleave` | machine-learning/frameleaf_ml/inference_executor.py:27-43 | in every interleaving slots and counter equal the calls that hold them, and calls only move on |
| `DesktopGrants.RetentionIsExact` | manager/src/desktop-grants.ts:96-98 | a dropped nonce's proof is never timely again exactly when nonces are kept for twice the window |
| `DesktopGrants.FreshUse` | manager/src/desktop-grants.ts:358-366 | a timely proof whose nonce is not kept was never used, and recording it keeps that so |
| `DesktopGrants.DesktopGrants.Approve` | manager/src/desktop-grants.ts:225-253 | only the current administrator approves; a refusal changes nothing |
| `DesktopGrants.DesktopGrants.Redeem` | manager/src/desktop-grants.ts:254-312 | exactly a pending, current, proven pairing yields one grant with its details, and is used up |
| `DesktopGrants.DesktopGrants.UseNonce` | manager/src/desktop-grants.ts:358-366 | a nonce is accepted once within its retention; a replay restores the purged rows |
| `DesktopGrants.DesktopGrants.Check` | manager/src/desktop-grants.ts:332-357 | accepts exactly the timely, signed, in-scope and, where needed, recently confirmed requests |
| `DesktopGrants.DesktopGrants.Authorize` | manager/src/desktop-grants.ts:313-369 | authorizes exactly the current, timely, signed, in-scope, unused requests; refusals leave no trace, and no earlier use is the same proof |
| `DesktopGrants.DesktopGrants.Reauthenticate` | manager/src/desktop-grants.ts:370-381 | changes a current grant's confirmation time and nothing else |
| `DesktopGrants.DesktopGrants.Revoke` | manager/src/desktop-grants.ts:382-392 | deletes one grant and its nonces, or nothing |
| `DesktopGrants.DesktopGrants.Restart` | manager/src/desktop-grants.ts:191-210 | a new origin drops every grant, pairing and nonce; the same one drops none |
| `DesktopGrants.DesktopGrants.Run` | manager/src/desktop-grants.ts:191-392 | over any run no proof is authorized twice, grants keep what their own pairing allowed, and a grant once gone stays gone |
| `RateLimit.RecentAttempts` | icloud-bridge/main.go:193-201 | the filter over its own slice keeps exactly the recent attempts, in order |
| `RateLimit.RecentAgain` | icloud-bridge/main.go:210-218 | pruning in steps forgets what pruning once would |
| `RateLimit.EveryWindow` | icloud-bridge/main.go:219-228 | a limit checked at each admission holds in every window of that length |
| `RateLimit.Bridge.AllowAuth` | icloud-bridge/main.go:203-230 | admits exactly while the ceiling and, for credentials, the account's own limit are not reached |
| `RateLimit.Bridge.Prune` | icloud-bridge/main.go:209-218 | the tables hold exactly what was admitted within the window, and no empty account |
| `RateLimit.AdmittedInAnyWindow` | icloud-bridge/main.go:203-230 | any window holds at most 300 admitted actions and at most 10 credential actions of one account |
| `RateLimit.ClosedWindowIsExact` | icloud-bridge/main.go:193-230 | the limits hold in every closed window exactly for lengths below the limiter's window |
| `RateLimit.Replay` | icloud-bridge/main.go:203-230 | every log within the limits is one a run admits, action by action |
| `Download.DecimalParses` | icloud-bridge/main.go:891-896 | a decimal within 64 bits parses back to its number |
| `Download.RangeRoundTrip` | icloud-bridge/main.go:876-905 | a well-formed range is read back as written, cut to the resource, and unsatisfiable exactly beyond it |
| `Download.RangeIsInside` | icloud-bridge/main.go:876-905 | what is served always lies within a non-empty resource |
| `Download.OpenResource` | icloud-bridge/main.go:907-955 | whatever upstream serves, the body is a prefix of the bytes asked for |
| `Download.SendRange` | icloud-bridge/main.go:837-874 | what is sent is a prefix of the range, all of it exactly on completion; at most five opens, each where the last stopped |
| `Download.Serve` | icloud-bridge/main.go:766-874 | one request's status and bytes for every header, resource and upstream behaviour |
| `Download.ResumeIsWhole` | icloud-bridge/main.go:852-905 | an aborted prefix and a resumed range make one whole download |
| `Inventory.CountAssets` | icloud-bridge/main.go:666-674 | only assets count towards the rank |
| `Inventory.PageFollows` | icloud-bridge/main.go:675-676 | a page adds the next assets of its phase, and one without assets means its end |
| `Inventory.Inventory` | icloud-bridge/main.go:522-532 | an out-of-range cursor is refused; otherwise the cursor's page is answered, and only a page without assets moves to the next phase or ends the last |
| `Inventory.Collect` | icloud-bridge/main.go:619-685 | following the cursor terminates with every asset of every phase once, in rank order; refused exactly when a phase outgrows the cursor |
| `Staging.Staging.RollBack` | machine-learning/frameleaf_ml/staging.py:69-82 | completion swaps active and previous; no tree is lost wherever it stops |
| `Staging.Staging.SetAside` | machine-learning/frameleaf_ml/staging.py:115-127 | the active tree is moved to previous when verified, to unverified otherwise, and deletes only a verified previous one |
| `Staging.Staging.Replace` | machine-learning/frameleaf_ml/staging.py:115-133 | a verified candidate takes the active tree's place, or the active tree is put back or kept aside |
| `Staging.Staging.Acquire` | machine-learning/frameleaf_ml/staging.py:83-133 | completion leaves a verified candidate active and the former tree kept; a safe tree survives every failure |
| `Staging.Staging.StageModel` | machine-learning/frameleaf_ml/staging.py:59-133 | either command, stopped anywhere, loses no safe tree |
| `Staging.Staging.StageUntilDone` | machine-learning/frameleaf_ml/staging.py:59-133 | the former active tree survives any number of failed commands and one that completes |
| `Staging.Staging.RefreshAndRollBack` | machine-learning/frameleaf_ml/staging.py:69-133 | refresh and rollback restore a verified active tree |
| `Staging.Staging.RollBackTwice` | machine-learning/frameleaf_ml/staging.py:69-82 | two rollbacks are the identity when both trees verify |
| `ModelLoading.StepKeepsLock` | machine-learning/frameleaf_ml/main.py:987-996 | every action keeps one lock holder and registers exactly its directory |
| `ModelLoading.StepKeepsHonest` | machine-learning/frameleaf_ml/main.py:983-986 | every action keeps what each thread saw of its directory's download true |
| `ModelLoading.RunKeepsInv` | machine-learning/frameleaf_ml/main.py:967-996 | both hold over every interleaving of any number of threads |
| `ModelLoading.EveryRunIsSafe` | machine-learning/frameleaf_ml/main.py:967-996 | a directory being written is registered by the sole lock holder, and no fast path leaves on a download still in progress |
| `ModelLoading.OtherOrderIsUnsafe` | machine-learning/frameleaf_ml/main.py:983-985 | with the two reads exchanged, a thread leaves on the partial work of a running download |
| `ImportLifecycle.Import.RunOrResume` | manager/src/common-import-lifecycle.ts:64-68 | at most one run or resume, and nothing is launched on an abandoned journal |
| `ImportLifecycle.Import.CompleteCommonImport` | manager/src/common-import-lifecycle.ts:43-73 | at most one run or resume and one activating verification, each called for by the status just read; it completes exactly under the Server behaviours that get to an activation |
| `ImportLifecycle.CooperationCompletes` | manager/src/common-import-lifecycle.ts:43-73 | a Server that does what it is asked completes the import from every expected status |
| `ImportLifecycle.CompletesFromExpected` | manager/src/common-import-lifecycle.ts:43-73 | where a status read changes nothing, an import can still be completed exactly from the statuses that completion expects |
| `ImportLifecycle.CompletesUnlessAbandoned` | manager/src/common-import-lifecycle.ts:43-73 | where the Server may move on before the status is read, exactly until it is abandoned |
| `ImportLifecycle.Import.RollbackCommonImport` | manager/src/common-import-lifecycle.ts:75-98 | rollback is launched only after a status without writers or activation; started writers refuse it, confirmation means abandonment, and it returns exactly under the Server behaviours that get there |
| `ImportLifecycle.RollsBackFromExpected` | manager/src/common-import-lifecycle.ts:75-98 | where a status read changes nothing, a rollback can still return exactly from the statuses it does not refuse |
| `ImportLifecycle.RollsBackUnlessWriters` | manager/src/common-import-lifecycle.ts:75-98 | where the Server may move on before the status is read, exactly until writers may have started |
| `ImportLifecycle.Import.Attempts` | manager/src/common-import-lifecycle.ts:27-98 | over any sequence of attempts and Server behaviours, activation and abandonment are never both confirmed |
| `StudioWorker.QuickFailuresDouble` | machine-learning/frameleaf_ml/studio_worker.py:57-61 | after n quick failures in a row the delay is min(300, 5·2ⁿ) seconds |
| `StudioWorker.StepKeepsLock` | machine-learning/frameleaf_ml/studio_worker.py:121-143 | a cleanup holds the lock exactly while it works on the recorded worker |
| `StudioWorker.StepKeepsRecord` | machine-learning/frameleaf_ml/studio_worker.py:84-143 | the worker on record is the runner's own, unless it gave up on a failed cleanup |
| `StudioWorker.StepKeepsAlive` | machine-learning/frameleaf_ml/studio_worker.py:84-143 | only the worker just started or the one on record lives |
| `StudioWorker.RunKeepsInv` | machine-learning/frameleaf_ml/studio_worker.py:84-143 | the invariant holds over every interleaving of run and stop |
| `StudioWorker.EveryInterleaving` | machine-learning/frameleaf_ml/studio_worker.py:84-143 | at most one worker lives, at most one starts after stop was called, and none is left once run returned without a failed cleanup |
| `Settings.RoundTrip` | manager/src/discovery.ts:66-84 | unmasking the masked tree against the original gives the original |
| `Settings.MaskShowsOnlyAlike` | manager/src/discovery.ts:66-71 | two trees mask alike exactly when they differ only in the text of non-empty secrets |
| `Settings.SavedAt` | manager/src/discovery.ts:72-84 | at every path a saved tree has the original's secret for a placeholder and the edited value for all else |
| `Settings.Unbacked` | manager/src/discovery.ts:73-76 | a refusal has a placeholder with no secret behind it |
| `Settings.SavedWhenBacked` | manager/src/discovery.ts:72-84 | an edited tree is saved exactly when every placeholder stands for an original string |
| `Sorting.SortIsNormalForm` | manager/src/discovery.ts:88-88 | sorted lists are equal exactly for permutations, where the key tells the items apart |
| `Sorting.KeyedNormalForm` | manager/src/discovery.ts:88-103 | sorting and normalising keyed items is equal exactly when each has its counterpart in the other list |
| `Discovery.FormExact` | manager/src/discovery.ts:90-103 | two containers are digested alike exactly when only the order of unordered lists differs |
| `Discovery.FingerprintExact` | manager/src/discovery.ts:85-105 | fingerprints are equal exactly for the same containers up to every unordered list's order |
| `Discovery.RevalidatesAsReviewed` | manager/src/discovery.ts:260-280 | while fencing, exactly the containers as reviewed are accepted, but for recorded ones without restart policy |
| `Discovery.RevalidatesAfterOwnChange` | manager/src/fencing.ts:173-205 | a policy that fencing, retirement or recovery sets keeps the source revalidating exactly when it is `no` or comes back as recorded |
| `Discovery.RevalidatesThroughOwnChanges` | manager/src/fencing.ts:173-205 | every prefix of such changes still revalidates |
| `ImportPlan.ElementsCount` | manager/src/import-plan.ts:113-113 | as many distinct values as values means no two are equal |
| `ImportPlan.UniqueRecords` | manager/src/import-plan.ts:115-136 | the uniqueness checks accept exactly distinct owners, roots, files and absolute destinations |
| `ImportPlan.PlacementsAgree` | manager/src/import-plan.ts:152-182 | comparing with only the last placement decides pairwise agreement of all placements |
| `ImportPlan.ParseImportPlan` | manager/src/import-plan.ts:109-184 | accepts exactly the plans with distinct records, valid files and, in version 2, agreeing placements |
| `ImportPlan.NestedRootsShareDestination` | manager/src/import-plan.ts:124-136 | with nested roots two different root and path pairs are one file, so absolute paths are compared too |
| `Tuning.HashJoinsFit` | manager/src/compose.ts:83-90 | three hash joins' working memory fits in shared memory exactly from 72 MB on |
| `Tuning.MemoryFits` | manager/src/compose.ts:83-98 | shared buffers and shared memory fit in the real memory exactly from 32 MB on |
| `Tuning.TuningGrows` | manager/src/compose.ts:83-99 | more memory never gets a smaller setting |
| `Tuning.TunedWithinLimit` | manager/src/compose.ts:106-115 | tuned unless the limit is under 256 MB, and then within host and limit |

## Left out

- Fencing.Fencing.Verify: whether another container may write the media enters as an answer, and what Docker says of a container, but for its policy and whether it runs, does not change.
- Fencing.Fencing.RecoverAfterEdit: the host edits the list while no edit of Manager's is pending; over a pending one `Fencing.Fencing.Reconcile` says what is refused.
- Fencing.Fencing.Write: a list of ASCII bytes, no short write without a crash, and writes that reach the disk in order; the host helper that writes the list in place of the Manager has the same effects.
- RestartPolicies.PutBackIsOriginal: what Docker stores for a flag is an assumption; an unset policy is set as `no` (manager/src/docker.ts:448-449).
- ImportCopy.Copier.CopyFile: the checks of file modes, link counts, mounts, parents, source and destination identity and the final re-check of paths enter as the answers they give; directories are not created, and the source does not change during a run.
- ImportCopy.Copier.AssertImportDestinations: failing to open or inspect a destination, for whatever reason, is one answer and one refusal.
- AudioMemory.AudioMemoryBudget.RunCleanup: whether the cleanup raises is not distinguished; what follows is the same.
- DesktopGrants.DesktopGrants.Authorize: schema parsing of requests is not modelled, random values never repeat, and signatures cannot be forged for a message that was not signed.
- DesktopGrants.DesktopGrants.Approve: the asynchronous password confirmation is the administrator epoch it returns.
- RateLimit.Bridge.AllowAuth: the tables are sequences filtered by a function; `RateLimit.RecentAttempts` is the in-place filter proved equal to it.
- Download.SendRange: time-outs and cancelled requests are inputs, and response headers other than status, length and range are not modelled.
- Inventory.Inventory: albums, changes and libraries, the cursor's encoding and scope, and the record limit of a page are not modelled.
- Inventory.Collect: the library does not change while it is collected, and a page holds at least one asset while any remain.
- Staging.Staging.Acquire: symbolic links, the staging lock, the temporary directory and failures while copying other types are not modelled; a failed deletion may leave any tree at `previous`.
- ModelLoading.EveryRunIsSafe: errors and the retry time of a failed staged load are not modelled.
- ImportLifecycle.Import.Attempts: one driver runs at a time, and a journal that would forget writers or abandonment is not written.
- StudioWorker.EveryInterleaving: waiting times between restarts are not part of the state machine; the delay is `StudioWorker.QuickFailuresDouble`.
- Settings.SavedAt: objects have own properties only, and indexing into a string, or reading a property other than an index of an array, gives nothing.
- Discovery.FingerprintExact: names are compared by a total order, equal only for equal names, and the digest has no collisions.
- ImportPlan.ParseImportPlan: schema parsing is not modelled, and joining a root and a path has nothing to normalise.
- Tuning.TunedWithinLimit: the limit is whole bytes; parsing it from text and rendering the settings are not modelled.
- Stopping and verifying an installation's own containers: the same steps as fencing a source.
- Export-folder sources: nothing is stopped for them.
- Docker, restic, psql and Compose commands, SQL and YAML: process plumbing.
- Filesystem calls of adoption and file review: real descriptors and mounts.
- Machine-learning inference, hardware probing and HTTP routes: foreign calls and thin wrappers.
