# Models and proofs for the MyBay control plane

MyBay runs agent containers for its users: it provisions them, upgrades them, restarts them, fires scheduled work at
them, and keeps what they said and changed. This project models the parts of it that are protocols or algorithms
rather than calls to Docker and HTTP, and proves what they guarantee over every input or every run. `dafny verify
dfyconfig.toml` checks all of it.

| module | models | main results |
|---|---|---|
| `FileDiff` | the bounded line diff | every diff rebuilds both files; it is the first of the best, so no other diff is possible; the kept lines are a longest common subsequence exactly when the table is used or there is nothing to keep |
| `CollectionWriter` | the incremental table writer | indistinguishable from "delete all, insert all" for every list of rows; the guard of its fast path is exact |
| `DeploymentQueue` | the leased task queue | fencing of stale workers, takeover only after expiry, exclusive leases, a conservation law for attempts, no stuck task, nothing tried early and nothing passed over |
| `Provisioning`, `Ports` | the provisioning transaction and port reservations | all or nothing, exactly when a request creates and which refusal it gets otherwise, one port each over every run, exactly when a retry replays |
| `Scheduler` | the crash-tolerant cron dispatcher | at most one fire and one task per (job, time) in every run with crashes anywhere; recovery builds the same task; a tick fires the jobs that are due and no others |
| `UpgradeSaga` | the upgrade with its rollback | the original container comes back exactly when its backup was made and not yet removed |
| `CrashLoop` | the restart limiter of the reconciler | three starts between two sightings of a running container, and why saving is needed |
| `Timeline`, `TimelineEvents` | the run-timeline collector and reader, and the sanitiser of its events | the mark is exact, and a run holds exactly what fits of its stream; reading what was stored drops nothing, because sanitising twice is harmless |
| `Certification` | the release gate | exactly when a release is published as verified and when it is refused; time and new checks are monotone |
| `ChatContext`, `Versions`, `Placement`, `Semaphores` | context budget, version order, conversation order, semaphore | exact budgets, a total preorder over texts that parse as they are written, moves that keep the rest, first come first served |

State that the source changes in place is held by classes (`Table`, `Queue`, `Database`, `Dispatcher`, `Manager`,
`Collector`, `Reconciler`, `Semaphore`); each method is proved equal to a function on states, and the theorems over
runs are about that function. A transaction is one method. A step that a crash can separate from the next is one step
of a machine. Clocks, random identifiers and the success of outside calls are parameters.

Properties that do not hold of the code as one would first state them, with the exact condition under which they do:

- A diff keeps a longest common subsequence only if the trimmed middles fit the table or share no line
  (`FileDiff.KeepsLongestIff`); the comment in the source promises no more.
- Retrying a creation with its own idempotency key replays it only if a request hash was given: an absent hash is
  stored as an empty text and does not equal itself on the second try (`Provisioning.RetryReplaysIff`).
- A failed upgrade or rollback leaves no container at all when there is no backup to go back to: both renames are
  refused, so that the rollback removes the container it should save (`UpgradeSaga.RefusedRenamesLoseTheContainer`); a
  step fails after the backup was removed, so that a healthy new container is removed
  (`UpgradeSaga.LateFailureLosesBothContainers`); or there was no container to begin with. In every other case it is
  undone; the equivalence is in `UpgradeSaga.Manager.Upgrade`.
- A task can stay deploying for good without a lease: the status a worker writes without a guard right after its claim,
  arriving after the task was given up, is enough (`DeploymentQueue.LateStatusSticks`). No state of a run has such a
  task if and only if every event observes leases: an update makes a task deploying only if it has a lease or is given
  one, and clears the lease only of a task that is not deploying afterwards (`DeploymentQueue.AlwaysLeasedIff`).
- A configured first port above the default last port gives an empty range (`Ports.RangeEmptyIff`).
- Sanitising a stored timeline event again is not the identity: it may shorten commentary or a path, and drop a path,
  exactly when spaces were left at its ends (`TimelineEvents.SecondPassChangesNothingIff`).
- A check whose scope is a name every JavaScript object inherits is not refused for its scope
  (`Certification.StatusMeans`); the script that feeds the gate lets only the declared scopes through.
- A conversation moved into a project lands there unless that project's identifier is the empty text
  (`Placement.MovedIntoSectionIff`).
- A permit handle used twice lets one caller too many in (`Semaphores.StrayReleasesOveradmit`).
- If saves of the restart count fail and the process dies after each start, containers are restarted without end
  (`CrashLoop.FailedSavesLoopForever`). Three starts and one for each unsaved one are the exact maximum
  (`CrashLoop.ThreeStartsAndTheUnsaved`, `CrashLoop.UnsavedBoundIsReached`).
- A second check for a requirement that already has one makes a release invalid although its level does not fall
  (`Certification.SecondCheckIsRefused`, `Certification.AppendedChecks`). Evidence in the older schema, which names no
  artifact, never verifies a release (`Certification.VerifiedIff`).

## Model

| member | source | states |
|---|---|---|
| `FileDiff.BuildFileDiffLines` | shared/localRunFileDiff.ts:22-49 | for every pair of contents, in both branches: the result edits the old lines into the new ones with line numbers in order, keeps as many lines as trimming plus, when the table fits, the longest common subsequence of the middles, keeps the trimmed ends, chooses at every step as the table says, and never removes a line right after it added one |
| `FileDiff.Trim` | shared/localRunFileDiff.ts:26-30 | removes the longest common prefix and then the longest common suffix of what is left |
| `FileDiff.FillTable` | shared/localRunFileDiff.ts:31-38 | every cell of the flat table, read through index arithmetic, is the length of a longest common subsequence of the two remainders; all indices are in range and no 16-bit entry overflows |
| `FileDiff.CellStep` | shared/localRunFileDiff.ts:36-37 | the recurrence between a cell and its right, lower and diagonal neighbours in the flat table |
| `FileDiff.CellsFitIn16Bits` | shared/localRunFileDiff.ts:32-34 | with at most 200000 cells no entry exceeds 446 |
| `FileDiff.Walk` | shared/localRunFileDiff.ts:39-43 | the greedy walk keeps exactly as many lines as the table promises, matches whenever it can, and removes unless adding keeps strictly more |
| `FileDiff.ScriptReproducesBothFiles` | shared/localRunFileDiff.ts:19-49 | same and removed lines are the old file numbered from 1, same and added lines the new file numbered from 1 |
| `FileDiff.DiffShowsBothContents` | shared/localRunFileDiff.ts:22-24 | joining either side with newlines gives back the content the diff was made from |
| `FileDiff.KeptLinesAreCommon` | shared/localRunFileDiff.ts:27-28 | the kept lines are a common subsequence of both files |
| `FileDiff.LcsIsUpperBound` | shared/localRunFileDiff.ts:35-38 | no common subsequence is longer than the recurrence says |
| `FileDiff.LcsIsReached` | shared/localRunFileDiff.ts:35-38 | and some common subsequence is that long |
| `FileDiff.TrimmedBound` | shared/localRunFileDiff.ts:28-30 | trimming loses nothing: a common subsequence of the whole files is no longer than prefix, suffix and the best of the middles |
| `FileDiff.KeepsLongestIff` | shared/localRunFileDiff.ts:21-49 | the kept lines are a longest common subsequence of the whole files if and only if the middles fit the table or have no line in common |
| `FileDiff.DiffIsFirstOfBest` | shared/localRunFileDiff.ts:39-46 | among all edit scripts that keep the trimmed ends and as many lines, the diff is the first when a match comes before a removal and a removal before an addition; so it is determined completely |
| `FileDiff.RemovalsComeFirst` | shared/localRunFileDiff.ts:41-46 | no added line is directly followed by a removed one |
| `FileDiff.NothingLeftToTrim` | shared/localRunFileDiff.ts:28-30 | the trimmed middles neither begin nor end with the same line |
| `FileDiff.AppendRest` | shared/localRunFileDiff.ts:45-46 | what the walk left over is removed and then added, as the choice at every step demands |
| `FileDiff.AppendSuffix` | shared/localRunFileDiff.ts:47 | the common suffix is appended line by line and completes the script |
| `CollectionWriter.Table.WriteCollection` | server/localStore.ts:258-265 | the full rewrite succeeds exactly when the final ids are distinct, and then reads back the rows in order |
| `CollectionWriter.Table.WriteChanges` | server/localStore.ts:267-310 | for every list of rows, malformed ones included, the same outcome and the same rows in rowid order as the full rewrite; on the fast path only statements that change something are issued |
| `CollectionWriter.Table.DeleteUnwanted` | server/localStore.ts:298-301 | exactly the rows that are not wanted are deleted, the others keep their rowids |
| `CollectionWriter.Table.UpdateAndAppend` | server/localStore.ts:303-309 | updating changed rows and appending new ones gives the wanted rows in the wanted order |
| `CollectionWriter.GuardIsExact` | server/localStore.ts:282-297 | the test before the fast path holds if and only if the surviving rows followed by the new ones are in the wanted order |
| `CollectionWriter.KeptIsPrefix` | server/localStore.ts:282-288 | when it holds, the surviving rows are a prefix of the wanted ones and the rest are all new |
| `CollectionWriter.Save` | server/localStore.ts:562-583 | over any number of collections: either all of them hold the wanted rows, or all are as they were, and that exactly when some row is refused |
| `DeploymentQueue.Queue.ClaimNext` | server/localStore.ts:747-768 | finds nothing exactly when no uncancelled task with attempts left is queued, waits for a retry that has no time or one not after now, or is deploying with a lease that has passed; else takes the oldest of these, the first of equally old ones, with the new owner, lease and attempt and no other change to the table |
| `DeploymentQueue.Pick` | server/localStore.ts:752-757 | the chosen task is claimable, no claimable task was created earlier, and none before it in the table as early |
| `DeploymentQueue.RetryIsNotEarly` | server/localStore.ts:752-757 | over any run of events before its retry time, a waiting task that nobody rewrites by hand stays as it is, unowned and with its attempts, unless it is cancelled or deleted |
| `DeploymentQueue.ClaimsDrain` | server/localStore.ts:747-768 | as many claims at one time as there are free tasks take every one of them, and change no other task |
| `DeploymentQueue.Queue.FailExhaustedTasks` | server/localStore.ts:770-795 | every uncancelled deploying task whose lease has passed and whose attempts are used up fails with the terminal record, keeping an error it has; no other changes, and exactly those are reported |
| `DeploymentQueue.Queue.RenewLease` | server/localStore.ts:809-815 | counting changed rows reports success exactly when the worker holds the deploying, uncancelled task; that row's lease is extended and no other row changes |
| `DeploymentQueue.Queue.UpdateTask` | server/localStore.ts:797-807 | only the task itself changes, and with a guard only if that worker holds it; every column is what the update puts or as it was, and the attempts and the identity stay |
| `DeploymentQueue.Queue.CancelTasks` | server/localStore.ts:817-824 | row by row: waiting tasks of the instance end, deploying ones are marked and keep their worker, all others are left alone |
| `DeploymentQueue.StepOfTask` | server/localStore.ts:747-824 | what any one operation does to any one task, across the whole table |
| `DeploymentQueue.ClaimsAreBounded` | server/localStore.ts:752-763 | over any run: claims + attempts left + attempts deleted = attempts left before + attempts created, so claims never exceed what was there |
| `DeploymentQueue.AttemptsNeverExceedMaximum` | server/localStore.ts:752-763 | over any run no task has more attempts than its maximum |
| `DeploymentQueue.ExpiredIsClaimableOrExhausted` | server/localStore.ts:752-778 | an uncancelled deploying task whose lease has passed is claimable or exhausted, never both and never neither |
| `DeploymentQueue.NothingStaysStuck` | server/localStore.ts:770-795 | when a worker that has finalised the exhausted finds nothing to claim, no expired task is left, and each former one has failed |
| `DeploymentQueue.OwnershipStep` | server/localStore.ts:747-807 | a worker comes to own a task only by claiming it |
| `DeploymentQueue.StaleWorkerIsFenced` | server/localStore.ts:797-815 | in any run in which a worker that lost a task does not claim it again, its renewals fail and its guarded updates change nothing |
| `DeploymentQueue.TakeoverNeedsExpiredLease` | server/localStore.ts:747-768 | while a task stays deploying, its owner is replaced only by a claim made after the lease of that moment passed |
| `DeploymentQueue.HeldForItsLease` | server/localStore.ts:747-815 | with a clock that does not go back, a claimed task is held by its claimer in every state up to the end of the lease, whatever other workers claim, renew and update, as long as the claimer renews for no less and neither its updates nor unguarded ones end the deployment |
| `DeploymentQueue.HeldThroughout` | server/localStore.ts:747-815 | the same from any state in which the task is held until a lease has passed |
| `DeploymentQueue.RenewalHolds` | server/localStore.ts:809-815 | a successful renewal is such a state, for the lease it renews |
| `DeploymentQueue.HeldWhileRenewed` | server/localStore.ts:747-815 | a task is held for as long as every event comes before the lease of that moment has passed, over any number of renewals of any length |
| `DeploymentQueue.LeasedStepIff` | server/localStore.ts:732-824 | when all deploying tasks have a lease, they do after an event exactly when the event observes leases |
| `DeploymentQueue.AlwaysLeasedIff` | server/localStore.ts:732-824 | over runs from such a table: no state has a deploying task without a lease if and only if every event observes leases |
| `DeploymentQueue.RunsStayLeased` | server/localStore.ts:752-807 | and then every uncancelled deploying task whose lease has passed is claimable or exhausted |
| `DeploymentQueue.LateStatusSticks` | server/db/index.ts:353-357 | the worker's unguarded update, arriving after the task was given up, wipes out the error and leaves the task deploying without a lease, never claimable and never finalised at any later time |
| `DeploymentQueue.FinalisedRowsAre` | server/localStore.ts:775-788 | reported is exactly the finalised form of every exhausted task |
| `DeploymentQueue.CancellationReaches` | server/localStore.ts:817-824 | cancelling ends the waiting tasks of the instance, marks the deploying ones, and leaves every other task alone |
| `DeploymentQueue.CancelledStaysCancelled` | server/localStore.ts:752-815 | over any run that does not withdraw it, a cancelled task is never taken or renewed again |
| `DeploymentQueue.RunKeepsIdsUnique` | server/localStore.ts:732-745 | task ids stay unique over any run |
| `Ports.ListCandidates` | server/utils.ts:100-106 | no duplicates, exactly the range without 3000 and 15929, an offered preferred port first and the rest ascending |
| `Ports.RangeEmptyIff` | server/utils.ts:90-98 | the configured range is empty exactly when its start lies above the default end and no valid end is given |
| `Ports.PortRange` | server/utils.ts:90-98 | a configured start within 1024..65535 and a configured end from there to 65535 are used, else 10100 and 19999 |
| `Provisioning.Database.CreateBundle` | server/localStore.ts:622-718 | the transaction with its four conflicts, replay and rollback, as a function of the tables and the input |
| `Provisioning.Database.TakeFirstFree` | server/localStore.ts:661-671 | the loop of insertions takes the first candidate that neither constraint refuses |
| `Provisioning.Database.ReservePort` | server/localStore.ts:830-848 | gives up the old reservation only if a new one is made |
| `Provisioning.Database.ReleasePort` | server/localStore.ts:826-828 | the instance holds no port, every other reservation is as it was |
| `Provisioning.Database.DeleteRecords` | server/localStore.ts:897-907 | none of the four tables names the instance any more, and every other row of them is as it was |
| `Provisioning.ReservesFirstFree` | server/localStore.ts:830-848 | the first candidate not held by another instance is reserved, or none and the prior reservation is intact; others keep theirs |
| `Provisioning.RunsStayValid` | server/localStore.ts:622-907 | over all runs of create, reserve, release and delete: paths are unique, no instance holds two ports, no port has two holders, every key names an existing task |
| `Provisioning.AllOrNothing` | server/localStore.ts:626-718 | success adds exactly one row to each table, agreeing on ids and port; any other outcome leaves every table as it was |
| `Provisioning.CreatedIff` | server/localStore.ts:628-711 | a request creates if and only if no record is under its key, the owner has fewer undeleted and unarchived instances than the limit, the id and the path in any case are new, the instance has no port and a candidate is free, and both rows are new; the first of these that fails decides which refusal it gets |
| `Provisioning.CreatedOnFirstFree` | server/localStore.ts:659-671 | the port of a creation is the first candidate nobody holds |
| `Provisioning.RecordedAnswer` | server/localStore.ts:629-638 | under a recorded key the answer is a replay of the recorded ids exactly when the hashes are equal, else the conflict; nothing changes |
| `Provisioning.QuotaIsKept` | server/localStore.ts:639-649 | after a success the owner's active instances are within the limit that was given |
| `Provisioning.RecordSurvives` | server/localStore.ts:708-711 | a key record outlives any run that does not delete its instance |
| `Provisioning.KeyAnswersUntilDeleted` | server/localStore.ts:629-638 | after any such run the key answers with the original ids if the hash agrees, else with a conflict, and changes nothing |
| `Provisioning.RetryReplaysIff` | server/localStore.ts:634-636 | the very same request replays if and only if it carried a request hash |
| `Provisioning.DeletionFreesKey` | server/localStore.ts:897-907 | after the records are deleted the key neither replays nor conflicts |
| `Scheduler.AtMostOnce` | server/schedulerRunner.ts:34-188 | from an empty store, over every run with crashes and exceptions between any two steps: one fire per (job, time), one task per fire, every task built from its fire, every dispatched fire served exactly once |
| `Scheduler.RunsStayExact` | server/schedulerRunner.ts:34-188 | the invariant behind it, from any state that satisfies it |
| `Scheduler.ContinueKeepsInv` | server/schedulerRunner.ts:46-188 | each step of the tick keeps it, together with what the ticker knows at that point |
| `Scheduler.OutsideKeepsInv` | server/schedulerRunner.ts:34-44 | so do crashes, exceptions and what users, task runners and fire completion do meanwhile |
| `Scheduler.ClaimKeepsInv` | server/db/index.ts:290-309 | a claim makes a fire only for a new key, and that fire has no task yet |
| `Scheduler.CreateKeepsInv` | server/schedulerRunner.ts:50-58 | creating the task of a fire that has none keeps one task per fire |
| `Scheduler.MarkKeepsInv` | server/db/index.ts:315-321 | changing the status of a served fire disturbs nothing else |
| `Scheduler.RecoveryBuildsTheSameTask` | server/schedulerRunner.ts:51-57 | the task rebuilt from a fire's snapshot equals, field by field, the one the uncrashed path creates |
| `Scheduler.KeysAgreeIff` | server/db/index.ts:292 | two keys agree exactly when job and time agree, or one job's id is the other's, a colon and a text that with a colon begins the other's time |
| `Scheduler.KeysTellFiresApart` | server/db/index.ts:292-293 | keys over times of one length, which the stored ISO times are, agree exactly when job and time agree; so do keys of jobs without a colon |
| `Scheduler.Dispatcher.RecoverFire` | server/schedulerRunner.ts:48-73 | creates exactly the missing task from the snapshot, and marks the fire completed, failed or dispatched to the task as that task's status says; no other fire is disturbed |
| `Scheduler.Dispatcher.RecoverScheduledFires` | server/schedulerRunner.ts:46-74 | leaves each listed fire exactly one task, and every fire of the store if at most 20 are recoverable |
| `Scheduler.Dispatcher.DispatchJob` | server/schedulerRunner.ts:89-188 | a ready job with a cron text has a fire under the key of its due time, with its snapshot, and its task; no other fire is added; its row moves to the next time, or is switched off if it is not ready, and no other row changes |
| `Scheduler.Dispatcher.DispatchDue` | server/schedulerRunner.ts:89-188 | the same for every job of the page: fires and tasks are added for these jobs only, all their rows move as they should, and served fires stay served |
| `Scheduler.Dispatcher.RunTick` | server/schedulerRunner.ts:34-44 | an overlapping tick does nothing; a whole tick leaves every fire exactly one task; over ISO times, each of the first 20 active jobs whose time is missing or not after now, when ready, has a fire for that time; every fire that is new is for such a job, carries its snapshot and has its task; and exactly these jobs move to their next time, or are switched off if not ready |
| `Scheduler.DuePage` | server/db/index.ts:287 | the page holds the jobs that are due by their own fields, each with fewer than 20 due jobs before it, and no other job |
| `Scheduler.DueInOrder` | server/db/index.ts:287 | the k-th due job is the k-th of the list |
| `Scheduler.TextAtMostIff` | server/db/index.ts:287 | the comparison of two times as texts: equal, or the first character that differs decides, a text that ends first coming first |
| `Scheduler.RequestSaysWhatTheJobSays` | server/schedulerRunner.ts:122-170 | the task of a job carries the job's owner, instance, template, title, prompt and payload, with the stock values for what is missing |
| `UpgradeSaga.Manager.Upgrade` | server/upgradeManager.ts:446-868 | from a running, a stopped or no container: succeeds exactly when every required call does; failing before the stop changes nothing; failing later brings the original container back exactly when a backup was made and is still there, and then it survives whatever the compensation does; otherwise no container is left; the tag changes only with the container; the record claims a running container only when there is one, and its upgrade status is success exactly on success; a backup that is left behind runs only if no stop was granted |
| `UpgradeSaga.Manager.UpgradeInstance` | server/upgradeManager.ts:313-392 | an upgrade is refused, with no effect, exactly when no container runs; one that fails with everything compensating leaves exactly the container and tag there were |
| `UpgradeSaga.Manager.BackUp` | server/upgradeManager.ts:620-666 | one of the two attempts under the shared name moves the container, stopped first if a stop was granted, or neither does and it stays, or there is none |
| `UpgradeSaga.Manager.TryNew` | server/upgradeManager.ts:686-805 | what is under the name when creating, starting or checking the new container stops at any point |
| `UpgradeSaga.Manager.Replace` | server/upgradeManager.ts:686-865 | what the two catch blocks leave behind for every failure up to the final write, before and after the removal of the backup |
| `UpgradeSaga.Manager.Finish` | server/upgradeManager.ts:807-865 | after both checks: a failure is undone exactly when the backup was not removed |
| `UpgradeSaga.Manager.Abandon` | server/upgradeManager.ts:754-865 | removing the new container and rolling back restores the backup exactly when there is one |
| `UpgradeSaga.Manager.RollBack` | server/upgradeManager.ts:870-978 | the rollback restarts the backup, never loses it, and records the outcome truthfully |
| `UpgradeSaga.Manager.RestoreBackup` | server/upgradeManager.ts:907-935 | renaming back either moves the backup to the name or leaves everything alone |
| `UpgradeSaga.LateFailureLosesBothContainers` | server/upgradeManager.ts:807-863 | with a refresh of the proxy that fails after the backup was removed and everything else working, no container is left |
| `UpgradeSaga.RefusedRenamesLoseTheContainer` | server/upgradeManager.ts:637-663 | with both renames refused and everything else working, no container is left |
| `CrashLoop.ThreeStartsAndTheUnsaved` | server/reconciler.ts:515-558 | over any number of crashes anywhere and any failing saves: at most three starts between two sightings of the running container, and one for each start made after a failed save |
| `CrashLoop.AtMostThreeStarts` | server/reconciler.ts:515-558 | with working saves, at most three starts between two sightings of the running container, over any number of crashes anywhere |
| `CrashLoop.RunsStayLimited` | server/reconciler.ts:233-249 | with failing saves, at most three more for each crash |
| `CrashLoop.UnsavedBoundIsReached` | server/reconciler.ts:233-249 | for every number of unsaved starts some run makes exactly three more |
| `CrashLoop.DeathsBoundIsReached` | server/reconciler.ts:233-249 | for every number of crashes some run with failing saves makes three starts in each life |
| `CrashLoop.FailedSavesLoopForever` | server/reconciler.ts:248 | without a single save there are runs with any number of starts |
| `CrashLoop.ThreeStartsAreMade` | server/reconciler.ts:517-545 | a process that lives on makes all three attempts and then stops |
| `CrashLoop.UpStartsAfresh` | server/reconciler.ts:551-558 | seeing the container run makes three attempts available again |
| `CrashLoop.PassingOverChangesNothing` | server/reconciler.ts:515-558 | cycles that pass over the instance can be left out of any run, and of those the process dies in only the crash counts |
| `CrashLoop.ExhaustedIsLeftAlone` | server/reconciler.ts:517-545 | once three attempts are saved, no run without a sighting of the running container starts it again |
| `CrashLoop.Reconciler.ReconcileOne` | server/reconciler.ts:515-558 | one instance's cycle, whatever the calls do and wherever the process dies; other instances lose at most what was in memory |
| `Timeline.UnmarkedRunsAreExact` | shared/localRunTimeline.ts:92-118 | a run that is not marked partial holds exactly its accepted events 1..last, sanitised, filtered and with adjacent text joined; every run keeps within 200 events and 64K characters with increasing ids |
| `Timeline.MarkedIff` | shared/localRunTimeline.ts:98-117 | a run is marked partial if and only if its first event was not number 1, an id is missing among those accepted, or after some accepted event the joined list exceeded 200 events or 64K characters |
| `Timeline.HeldIsKept` | shared/localRunTimeline.ts:105-117 | marked or not, a run holds the joined list of exactly those accepted events that fitted when they came |
| `Timeline.StoredIff` | shared/localRunTimeline.ts:105-117 | one more event is stored if and only if its id is larger than all before, it can be shown, and the joined list still fits; else what is held stays |
| `Timeline.LastIdIsLargest` | shared/localRunTimeline.ts:105-107 | the last accepted id is the largest that was sent, so accepted is what is larger than all before |
| `Timeline.TakenIsExact` | shared/localRunTimeline.ts:105-117 | one more event keeps that, or marks the run |
| `Timeline.TakenIsBounded` | shared/localRunTimeline.ts:110-117 | one more event keeps the bounds |
| `Timeline.CoalescedSnoc` | shared/localRunTimeline.ts:110-113 | joining text as it arrives gives the same as joining the whole stream |
| `Timeline.ReadTimeline` | shared/localRunTimeline.ts:65-82 | the reader's loop and its bounds for any stored value; it marks exactly when the value was marked or longer than 200 events, or an event cannot be shown, does not increase, or makes the sum of the sizes too large, and otherwise returns every event sanitised |
| `Timeline.ReadsAllIff` | shared/localRunTimeline.ts:74-80 | reading leaves something out exactly when the list is not readable as a whole |
| `Timeline.ReadingStoredDropsNothing` | shared/localRunTimeline.ts:74-80 | although reader and collector count size differently, what the collector kept is read back without loss, each event as sanitising it once more leaves it, text verbatim |
| `Timeline.CollectedIsReadBack` | shared/localRunTimeline.ts:65-124 | whatever a run was sent, all it holds is read back unmarked |
| `TimelineEvents.JsonIsLawful` | shared/localRunTimeline.ts:20-63 | the sanitiser accepts everything it has written, as the same event, and never makes its JSON longer |
| `TimelineEvents.SanitisedAgain` | shared/localRunTimeline.ts:29-61 | what a second pass makes of commentary, steps, approvals and statuses: all is kept but the end of commentary and the path |
| `TimelineEvents.SecondPassChangesNothingIff` | shared/localRunTimeline.ts:31-43 | the second pass is the identity exactly when neither commentary nor path has spaces left at its ends |
| `TimelineEvents.PathIsStableIff` | shared/localRunFileEvidence.ts:5-16 | a sanitised path is accepted unchanged exactly when it has no spaces at its ends |
| `TimelineEvents.PathShrinks` | shared/localRunFileEvidence.ts:5-16 | a sanitised path is never longer in JSON, escapes included |
| `TimelineEvents.PathIsShownIff` | shared/localRunFileEvidence.ts:5-16 | a path is shown if and only if it is a text of at most 240 characters which, trimmed, has no forbidden character and no ellipsis, and without the data directory has only proper names between its slashes and is not sensitive |
| `TimelineEvents.ShownPathsStayInside` | shared/localRunFileEvidence.ts:5-16 | a path that is shown is relative, steps nowhere up and is what was given but for spaces and the data directory |
| `TimelineEvents.SanitisedIff` | shared/localRunTimeline.ts:29-61 | which payloads are shown at all |
| `TimelineEvents.StepsSayNothingElse` | shared/localRunTimeline.ts:35-53 | a step shows only values of fixed lists, a translation key as its title, and stock words for everything else |
| `TimelineEvents.CommentaryIsShown` | shared/localRunTimeline.ts:29-34 | commentary is shown trimmed, up to 8192 characters of it |
| `TimelineEvents.CommentaryIsStable` | shared/localRunTimeline.ts:31-32 | commentary sanitised again stays non-empty and is the beginning of what it was |
| `TimelineEvents.OperationIsStable` | shared/localRunFileEvidence.ts:18-27 | a classified operation is classified as itself |
| `Timeline.Collector.Add` | shared/localRunTimeline.ts:97-117 | extends the run by this event, creates it at the end, and evicts only the oldest of 64; every run stays what its events make it |
| `Timeline.Collector.Clear` | shared/localRunTimeline.ts:96 | forgets that run and no other |
| `Timeline.Collector.Snapshot` | shared/localRunTimeline.ts:119-123 | returns, with the source's own sanitiser, everything that fitted of what the run was sent, and the mark exactly when the run is incomplete |
| `Certification.Evaluate` | shared/runtimeCertification.ts:321-465 | the report, step by step, with the errors in order |
| `Certification.VerifiedIff` | shared/runtimeCertification.ts:321-465 | published as verified if and only if: same release and same valid artifact, complete and unique environments covering version and target, every check known, sound and the only one that counts for its requirement, and each requirement up to the declared level proved by an unexpired passed check of sufficient scope that counts for the target |
| `Certification.RefusedIff` | shared/runtimeCertification.ts:354-452 | published as invalid if and only if there is evidence that speaks of another release or artifact, does not cover the environment and version asked for, or has an unknown, unsound or second check; a release neither verified nor refused is pending |
| `Certification.OnlySpecIff` | shared/runtimeCertification.ts:336-352 | a release that is only specified is refused exactly when there is evidence for it |
| `Certification.LevelMeans` | shared/runtimeCertification.ts:305-313 | the level reached is at least l exactly when the evidence is the release's own and some check that counts proves each requirement up to l |
| `Certification.RelevantIff` | shared/runtimeCertification.ts:412-433 | with a target, exactly the checks count that name an environment with its platform, mode and version |
| `Certification.LaterIsNoBetter` | shared/runtimeCertification.ts:265-319 | as time passes the verified level never rises and a release never becomes verified |
| `Certification.AppendedChecks` | shared/runtimeCertification.ts:424-443 | appending checks never lowers the verified level |
| `Certification.SecondCheckIsRefused` | shared/runtimeCertification.ts:434-437 | a second check that counts for a requirement makes the publication invalid |
| `Certification.CollectEvidence` | shared/runtimeCertification.ts:424-439 | the map holds the first check that counts of each requirement; every other check that should not be there gives an error |
| `Certification.VerifiedLevel` | shared/runtimeCertification.ts:305-313 | the level reached is at least l exactly when all requirements up to l passed |
| `Certification.StatusMeans` | shared/runtimeCertification.ts:265-303 | passed, failed, invalid and missing in terms of what the evidence must have, inherited scope names included |
| `Certification.UniqueIff` | shared/runtimeCertification.ts:399-402 | counting distinct ids is a test of uniqueness |
| `ChatContext.TruncationIsExact` | shared/chatMessageContract.ts:21-33 | a truncated message is a prefix, the marker and a suffix of the original, exactly as long as allowed, or empty exactly when there is no room |
| `ChatContext.SelectRecent` | shared/chatMessageContract.ts:35-59 | the loop from the newest message backwards computes the selection |
| `ChatContext.SelectedIsATail` | shared/chatMessageContract.ts:43-57 | the selection is the longest tail that fits, preceded by one truncated message exactly when there is room for one |
| `ChatContext.BudgetIsKept` | shared/chatMessageContract.ts:35-59 | the budget is never exceeded, and is used up whenever a message was truncated |
| `ChatContext.MoreBudgetKeepsMore` | shared/chatMessageContract.ts:35-59 | a larger budget never keeps fewer messages |
| `Versions.CompareHermesVersions` | shared/version.ts:15-41 | the comparison with its two indexed loops and early returns |
| `Versions.ParsedRoundTrip` | shared/version.ts:6-13 | numbers and identifiers, written down with or without v and parsed, come back as they were |
| `Versions.WrittenIsParsed` | shared/version.ts:6-13 | the same for numbers with leading zeros, by their values |
| `Versions.ParsedIsWritten` | shared/version.ts:6-13 | nothing else is a version: what can be parsed is, but for spaces around it, written in that form |
| `Versions.MissingNumbersAreZero` | shared/version.ts:20-23 | a number that is not written counts as zero |
| `Versions.OlderIff` | shared/version.ts:15-41 | when one version is older: the first differing number decides, then being a prerelease, then the first identifiers that do not tie, numbers before words (item 11 of Semantic Versioning 2.0.0) |
| `Versions.CompareChain` | shared/version.ts:15-41 | sign-antisymmetric and transitive, over padding, prerelease lists and texts that are no versions |
| `Versions.VersionsAreOrdered` | shared/version.ts:15-45 | the comparison is a total preorder whenever localeCompare is one |
| `Versions.NewerInfersMore` | shared/agentVersionCapabilities.ts:56-68 | within one numbering a version that is not older has every inferred capability of the other |
| `Versions.NewerPassesMore` | shared/agentVersionCapabilities.ts:65-67 | the same for any table of gates |
| `Versions.PassedIff` | shared/agentVersionCapabilities.ts:50-68 | a version has the capability of a gate exactly when it is not older than the gate's number, the semantic one for versions 0.x and the calendar one otherwise |
| `Placement.PlaceConversation` | shared/localConversationPlacement.ts:15-39 | refuses exactly the moves that cannot be made, and keeps the promises of a move for all others |
| `Placement.MoveSucceedsIff` | shared/localConversationPlacement.ts:16-24 | a move succeeds if and only if the conversation exists, a project asked for is known, and the target, if any, is another conversation that lies in the section asked for, by its pin and its project |
| `Placement.MoveKeepsPromises` | shared/localConversationPlacement.ts:15-39 | every other conversation keeps its order, section and fields, the numbers are 0..n-1, the moved one changes only its pin and project, keeps an earlier pin, and is next to its target, or first or last in the section |
| `Placement.MovedIntoSectionIff` | shared/localConversationPlacement.ts:18-29 | the moved conversation is in the requested section exactly when that is not the project with the empty id |
| `Placement.MovingTwiceIsMovingOnce` | shared/localConversationPlacement.ts:15-39 | applying the same move again, at any later time, changes nothing |
| `Placement.RestIsKept` | shared/localConversationPlacement.ts:30-38 | taking the moved one out again leaves the others as they were |
| `Semaphores.RunsStayConsistent` | server/utils.ts:15-35 | in every interleaving tickets are granted in order, holders match the counter plus the stray releases, and nobody waits while a permit is free |
| `Semaphores.NeverMoreThanMax` | server/utils.ts:9-36 | if every release comes from a holder, holders never exceed the maximum and a waiter means all permits are held |
| `Semaphores.HoldersAre` | server/utils.ts:15-35 | in every orderly run the holders are exactly the tickets granted and not given back |
| `Semaphores.StrayIff` | server/utils.ts:18-35 | the count of stray releases stays put exactly when every release comes from a holder |
| `Semaphores.StrayReleasesOveradmit` | server/utils.ts:29-35 | after k stray releases the semaphore admits k holders too many |
| `Semaphores.Semaphore.AcquirePermit` | server/utils.ts:15-27 | grants at once or queues, and says which |
| `Semaphores.Semaphore.ReleasePermit` | server/utils.ts:29-35 | hands the permit to the longest waiting |

## Left out

- Docker, HTTP, sockets, files and child processes: only their success or failure enters, in the saga, the dispatcher
  and the restart limiter. A failing Docker call is taken to have no effect.
- UpgradeSaga.Manager.Upgrade: writes to the database and the audit log are taken to succeed, the network set-up that
  cannot fail the upgrade is not modelled, and a container that is not running is taken to fail the readiness check.
  Target lookup and access checks before the flow are not modelled.
- DeploymentQueue.StaleWorkerIsFenced: updates that write another worker's name, or the attempt columns, are not among the
  operations; updates that clear the worker, and the manual retry, are. An update without a guarding worker is not
  fenced by the source and not claimed to be.
- DeploymentQueue.Pick: that rows with equal creation times are taken in table order is SQLite's practice, not the
  statement's; a call reads the clock once. The
  columns payload_json and created_by are not modelled.
- DeploymentQueue.HeldForItsLease: the updates that end a deployment (success, failure, cancellation, a scheduled retry) are
  the claimer giving the task up; identifiers are not reused.
- Provisioning.Database.CreateBundle: the configuration and the payload are reduced to the port written into them, and
  timestamps are dropped.
- CollectionWriter.Save: the callback that edits the rows is a parameter, namely the rows it leaves. Rows are identifier
  and text, so JSON encoding is outside.
- Scheduler.Dispatcher.RunTick: the events written for auditing and the background execution of a task are not modelled; the
  job's readiness and next time are parameters. Task statuses are taken as already lower-cased.
- Scheduler.AtMostOnce: one ticker, as the source's flag enforces within one process; freshly drawn identifiers are new.
- TimelineEvents.JsonIsLawful: JSON.parse is a parameter that gives back what the sanitiser wrote; the test for sensitive
  paths is a parameter; lengths count characters, where the source counts UTF-16 units.
- Certification.Evaluate: undeclared scopes other than inherited names are one value. The explanatory texts and the
  copied identity fields of the report are dropped; timestamps are parsed ones.
- Versions.VersionsAreOrdered: localeCompare is a parameter assumed to be a total preorder; version numbers are exact,
  without loss of precision above 2^53.
- CrashLoop.AtMostThreeStarts: one reconciler; other writers keep the recovery part of the metadata.
- ChatContext.TruncationIsExact: texts are sequences of code points.
- Null, undefined and SQL NULL are one absent value, except where the source tells them apart (the request hash).
- Cleanup tasks, schema migrations, audit-log trimming, run usage, group-run normalisation, the stream encoder and the
  log demultiplexer, gatewayReadiness.ts and channelEnv.ts: each claim would follow from reading one branch.
- Encryption, tokens, passwords, origin checks, the user interface, registries and catalogues.
