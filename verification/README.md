# Proofs about bambu-control

A verification project for the stateful core of a self-hosted controller for 3D printers: the camera streams, the
backup and restore transaction, the printer status store with its drying commands, the two-phase configuration
update, the audit log and the sliding-window limiters.  `dafny verify dfyconfig.toml` checks all of it.

## How it is built

* **Cameras.** `CameraModel` is a transition system: asyncio switches coroutines only at an `await`, so one step is
  the code between two awaits.  Each stream has a program counter for the coroutine that starts and iterates it and
  one for its cleanup task; the results of locks, spawns, reads, clocks and authorisation checks are choices of the
  environment.  `CameraInvariant` proves an inductive invariant and `CameraSafety` what follows over every run;
  `CameraFlow` has what a viewer gets, and `CameraTickets` when a ticket opens a stream, both told from the history.
  `CameraRuntime` has the two classes with their fields updated in place.  The manager carries its own history as
  ghost state: `Valid()` says that the history is a run of the protocol ending in what the objects are now, every
  method extends it by the one step it takes (`Did`), and so the theorems about runs are guarantees of the objects.
* **Files.** `Disk` is a mutable map from paths to bytes whose every operation may fail, as an arbitrary oracle
  decides.  It records each state it goes through and counts its failing calls.  `NoFaults` and `OneFault` speak of the
  calls of the operation at hand, so that what they promise of recovery code holds after the fault that led there.
  `os.replace` takes effect or raises.
* **Backup and restore.** `RestoreSpec` is the meaning of the install and rollback loops, `BackupFormat` the archive,
  `RestorePlan` the link between the two, `BackupRun` the code.  `ArchiveRules` says what an acceptable archive, a
  finished restore and a backup are in terms of the archive's members alone, and proves that the checks mean this.
* **Status and drying.** `DeepMerge` and `StatusStore` give the meaning of reports, `StatusRuntime` the store and the
  drying path of `send_command`, with other threads' reports arriving wherever the lock is released.
  `CommandGates` holds the checks before a command is sent; `DryingRules` says what they demand of the reports, the
  parameters and the printer's rules, and proves that they demand exactly this.
* **Configuration update.** `AdminFormat` has documents, secrets and loading; `AdminUpdate` has prepare, commit,
  finalize, rollback and abort; `AdminRuntime` the request handler that swaps the running manager alongside.
* **Log and limits.** `AuditLog` and `RateLimits`.

YAML, tar, SQLite, JSON manifests, number parsing and the rendering of documents are arbitrary functions, so the
theorems hold whatever they do; only `AdminUpdate` assumes of what `render` writes that it parses back to the same
document if at all, and, to promise success, that it does so for the documents the update at hand can write.

## What the proofs found

* **The restore's commit point can be lost in a rollback.**  If every file was installed, the undo of a changed main
  configuration fails and the undo of another changed entry succeeds, the new configuration is left beside an old
  secret.  This happens exactly then (`RollbackCommitPointIff`, condition `MainStuckOthersUndone`), and it can happen
  (`CommitPointCanBeLost` has an accepted archive and a restore of it).  It takes two failing calls.  The rollback
  files are then preserved, so nothing is lost: in every state the disk goes through each original's bytes are still
  somewhere (`NoOriginalLost`, and the trace clause of `RestoreBackup`).
* **The prune after a restore can remove the main configuration,** namely exactly when its own file name is a managed
  secret name that the configuration does not refer to (`MainConfigurationPrunedIff`).
* **Merging deltas is associative exactly on `Mergeable` ones:** where the first delta replaces an object and the
  second brings an object back, that object must cover the original.
* **`create_backup` can write archives that fail the size and name checks of `restore_backup`,** exactly when the
  manifest exceeds 64 KiB or the main configuration has an unsafe name (`ArchiveReadable`); `create_backup` looks at
  neither.  `BackupIsGoodIff` has the exact condition for passing all the checks: among others, `create_backup` does
  not ask whether the secrets the configuration names exist.
* **The undo inside `commit` is almost unreachable:** `_fsync_directory` (app/setup.py:522-532) swallows the errors of
  open and fsync, so only a failing `close` leads there.  The commit is stuck, reported as failed with the new
  configuration in place, exactly when that close and the replacement that is to undo it both fail (`SyncOrUndo`).
* **A single fault is survived everywhere.**  A restore that meets one ends in the archived or the original state
  (`RestoreBackup`), an update with nothing else against it is applied or leaves no trace (`UpdateAdminConfig`).
* **The limiters read their clock before they wait for the lock,** so readings can come in late.  The caps hold
  whatever the order; the window is sharp if all readings come in order, and otherwise off by the lateness.

## Model

| member | source | states |
|---|---|---|
| CameraInvariant.StepKeepsInv | app/camera.py:318-603 | every atomic step of every coroutine keeps the invariant of streams, registry, processes, tickets and origins |
| CameraInvariant.RunKeepsInv | app/camera.py:186-603 | the invariant holds in every state of every run from the empty manager |
| CameraSafety.NoOrphanProcess | app/camera.py:483-526 | a process spawned and not told to stop belongs to a registered stream, in `_process` or held inside `_spawn` under that stream's process lock |
| CameraSafety.OneProcessPerPrinter | app/camera.py:318-339 | at most one live process per printer, in every state of every run |
| CameraSafety.ProcessesBounded | app/camera.py:328-331 | live processes never outnumber registered streams, nor those `max_total_sessions` |
| CameraSafety.ReleasedIsFinal | app/camera.py:392-396 | a stream whose slot was given back has no process, never spawns again and never yields again |
| CameraSafety.SpawnsBounded | app/camera.py:470-526 | over its whole life a stream spawns at most `1 + max_restarts` processes, start and iteration together |
| CameraSafety.NoNullRead | app/camera.py:528-553 | whenever iteration reaches the read, `_process` is set |
| CameraSafety.AcceptedAsIssued | app/camera.py:214-233 | a ticket is accepted only for the printer and session it was issued to, strictly before its expiry |
| CameraSafety.AcceptedOnce | app/camera.py:281-304 | no ticket is accepted twice in a run, whichever consumer it is presented to |
| CameraSafety.RevokedForGood | app/camera.py:235-249 | a revoked ticket is never valid again, and a revocation touches only tickets it covers |
| CameraSafety.IssueSparesOthers | app/camera.py:193-212 | issuing drops at most one unexpired ticket of another pair, the soonest to expire, and only when the table is full |
| CameraSafety.StopIsLinearised | app/main.py:684-685 | once revoke and then close have completed, no ticket issued before the revoke yields another chunk, wherever its opening had got to |
| CameraSafety.StoppedStays | app/main.py:684-685 | a stopped ticket stays stopped, however the run goes on |
| CameraSafety.StoppedYieldsNothing | app/main.py:684-685 | seen from the present: no next step of a run yields to the holder of a stopped ticket |
| CameraSafety.CloseNeverDelayed | app/camera.py:586-603 | no step of any coroutine moves a requested close away from its end |
| CameraSafety.CloseNeverStuck | app/camera.py:576-603 | until the slot is released some step brings a requested close strictly nearer: no deadlock on the process lock |
| CameraSafety.CloseCompletes | app/camera.py:599-603 | from every reachable state at most seven steps of that stream alone finish a requested close |
| CameraFlow.YieldsIff | app/camera.py:528-567 | a chunk is yielded exactly when it has just been read, or is the one pending since the start, by an open stream of an authorised session, and the stream is then at its yield |
| CameraFlow.LoopGoesOnIff | app/camera.py:530-540 | the head of the loop goes on to a read or a yield exactly while the stream is open, the session authorised and its time not over |
| CameraFlow.EmptyReadIff | app/camera.py:554-564 | an empty read restarts exactly while open, authorised, within its time and with a restart left, and ends the stream otherwise |
| CameraFlow.EmptyReadRestarts | app/camera.py:514-526 | after such a read the stream is six steps of its own from a new process, the old one told to stop and the restart counted |
| CameraFlow.ChunksInOrder | app/camera.py:483-567 | over every run the chunks handed on are those read, in their order and each once, but for the pending one or the last of a stream that ends |
| CameraFlow.GivesUpIff | app/camera.py:470-567 | a stream that can still deliver loses that by its own steps exactly through a failure no restart is left for, the end of the session, or an interruption |
| CameraFlow.FlowsOn | app/camera.py:470-567 | from every reachable state of a stream that is open and not giving up, at most ten steps of its own lead to a chunk being delivered |
| CameraFlow.CanDeliverIff | app/camera.py:470-567 | any steps of anyone can lead to a further chunk exactly if the stream is open and not giving up |
| CameraTickets.StaysIff | app/camera.py:186-249 | a step ends a ticket's life exactly if it presents it, revokes its printer or session, issues its pair another, evicts it from a full table, or finds it expired |
| CameraTickets.HeldIff | app/camera.py:186-249 | in every state of every run the table holds exactly the tickets issued and not ended since |
| CameraTickets.AcceptedIff | app/camera.py:214-304 | a presented ticket is accepted if and only if it was issued to this pair less than 30 seconds before and nothing has ended it since; for a stream the session must still be authorised |
| CameraTickets.OpensIff | app/camera.py:270-339 | such a ticket opens a stream if and only if no stream of the printer is unreleased and fewer streams than the limit are; otherwise no stream changes |
| CameraTickets.OpensPlainIff | app/camera.py:251-268 | the same without a ticket |
| CameraRuntime.CameraStreamManager.PruneTicketsLocked | app/camera.py:186-191 | the loop removes exactly the tickets whose expiry is reached |
| CameraRuntime.CameraStreamManager.Oldest | app/camera.py:203-206 | the evicted ticket is one of smallest expiry |
| CameraRuntime.CameraStreamManager.IssueTicket | app/camera.py:193-212 | pruning, dropping the pair's old ticket, evicting the oldest and inserting are together one issuing step of a run |
| CameraRuntime.CameraStreamManager.ConsumeTicket | app/camera.py:214-233 | one consuming step of a run: the presented ticket leaves the table in any case, and is accepted exactly when bound to this pair and unexpired |
| CameraRuntime.CameraStreamManager.RevokeTickets | app/camera.py:235-249 | the loop is one revoking step of a run: exactly the covered tickets are removed |
| CameraRuntime.CameraStreamManager.ReserveStreamLocked | app/camera.py:318-339 | a slot is given exactly when the printer has none and the limit is not reached; a refusal changes nothing |
| CameraRuntime.CameraStreamManager.OpenStream | app/camera.py:251-268 | opening without a ticket is one step of a run, refused exactly when no slot is available |
| CameraRuntime.CameraStreamManager.OpenTicketedStream | app/camera.py:270-306 | one step of a run: the ticket is spent even when refused, and a stream is registered exactly when ticket, session and slot all allow it |
| CameraRuntime.CameraStreamManager.RunWorker | app/camera.py:470-584 | every stretch of the streaming coroutine between two awaits is one step of a run; it yields a chunk exactly when it has just read it or has it pending, with the stream open and the session authorised, and nothing to the holder of a ticket covered by a stop that has completed |
| CameraRuntime.CameraStreamManager.RequestClose | app/camera.py:586-597 | one step of a run after which the stream is closed, whoever asked first |
| CameraRuntime.CameraStreamManager.RunCleanup | app/camera.py:599-603 | every stretch of the cleanup task between two awaits is one step of a run |
| CameraRuntime.CameraStreamManager.ReleaseStream | app/camera.py:392-396 | the releasing step of a run: the stream is marked, its slot goes, and the printer's entry goes only while it still names this stream |
| CameraRuntime.CameraStreamManager.StreamsToClose | app/camera.py:353-381 | the streams found are those registered for the printer, or for the session |
| CameraRuntime.CameraStreamManager.Stop | app/main.py:684-685 | revoking, looking up and closing, in this order, leave a history that shows the revocation, the later lookup and its result, with every stream found closed |
| CameraRuntime.CameraStreamManager.StopCompletes | app/main.py:684-685 | once the streams a stop has found are released, every ticket it covered counts as stopped |
| CameraRuntime.CameraStreamManager.StaysStopped | app/main.py:684-685 | and nothing the manager does later changes that |
| CameraRuntime.CameraStreamManager.DidStep | app/camera.py:186-603 | what a method has done is the step of the transition function it names |
| CameraRuntime.CameraStreamManager.ProcessesHeld | app/camera.py:483-526 | every process not told to stop is the process of a registered stream object, or held inside its `_spawn` under the lock |
| CameraRuntime.CameraStreamManager.ProcessesFew | app/camera.py:328-331 | the manager object never has more live processes than registered streams, nor more than the limit |
| CameraRuntime.CameraStreamManager.AcceptedWasIssued | app/camera.py:214-233 | a ticket the manager object accepts was issued by it, to this printer and session, less than 30 seconds before |
| Disk.NoFaultsIff | app/backup.py:472-499 | the count of faults stands still over a stretch of calls exactly when none of them fails |
| Disk.TwoFaults | app/backup.py:472-499 | where it has grown by two, two of the calls have failed, one after the other |
| Disk.Disk.CreateTemporary | app/backup.py:350-366 | any failure leaves all other files alone, at every moment, and a file behind only if removing it fails too |
| FileNames.ManagedIsSafe | app/backup.py:24-31 | every managed secret name is a name a backup may carry |
| FileNames.ManagedIff | app/backup.py:28-31 | the managed secret names are exactly the password's and the access codes', by printer id, with or without a version of 16 hexadecimal digits |
| RestoreSpec.InstalledPrefix | app/backup.py:689-693 | after k replacements exactly the first k entries are new, the rest old, nothing else changed and every snapshot intact |
| RestoreSpec.UndoneSuffix | app/backup.py:472-499 | the rollback restores an entry exactly when its own undo succeeds and otherwise leaves its snapshot alone |
| RestoreSpec.RollbackUndoesInstall | app/backup.py:472-499 | wherever the install stopped, a rollback whose calls succeed makes every file byte-equal to the original, absent ones absent |
| RestoreSpec.NoOriginalLost | app/backup.py:472-499 | under any pattern of failing undos each original is at its destination or in its rollback file |
| RestoreSpec.InstallKeepsCommitPoint | app/backup.py:686-693 | at every step of the install loop a new main configuration implies that everything is new |
| RestoreSpec.RollbackCommitPointIff | app/backup.py:472-499 | whichever undos fail, the commit point is lost exactly when everything was installed, the undo of a changed main configuration failed and the undo of another changed entry succeeded |
| RestorePlan.InstallIsCrashSafe | app/backup.py:638-693 | between any two replacements the main configuration is the old one or the restore is complete |
| RestorePlan.RollbackIsCrashSafe | app/backup.py:472-499 | the same anywhere in a rollback whose calls succeed |
| RestorePlan.CommitPointCanBeLost | app/backup.py:472-499 | an accepted archive of a secret, the database and the main configuration, and a restore of it whose failing main undo leaves the new configuration beside the old secret |
| RestorePlan.RollbackIsRecoverable | app/backup.py:472-499 | however a rollback turns out, every path is as it was or its entry still names the file that holds its original |
| RestorePlan.InstallIsGood | app/backup.py:685-693 | in every state of the install loop each file is the old or the archived one, each original's bytes are somewhere, and the main configuration is the old one unless the restore is complete |
| RestorePlan.RollbackLosesNothing | app/backup.py:472-499 | in every state of a rollback, whichever calls fail, each original's bytes are at their place or in a temporary file |
| RestorePlan.RollbackIsGood | app/backup.py:472-499 | every state of a rollback loses nothing, and keeps the main configuration till last if its calls succeed |
| RestorePlan.RollbackIsBetween | app/backup.py:472-499 | in every state of an install or a rollback, whichever calls fail, each file is the old or the archived one |
| RestorePlan.OldConfigurationIsWhole | app/backup.py:541-734 | until a restore is complete the old main configuration is in place and no file there was is missing, secrets included |
| RestorePlan.OwnedUndone | app/backup.py:472-499 | an undo creates no temporary file and uses up its rollback file |
| RestorePlan.TargetOfEntry | app/backup.py:638-670 | each path is the destination of at most one entry, and of exactly the one that carries its archived bytes |
| RestorePlan.AllNewIsTarget | app/backup.py:686-693 | with every entry installed each path has exactly its archived bytes, or is untouched |
| RestorePlan.PruneSparesSecrets | app/backup.py:502-538 | after any prune every secret the restored configuration refers to is there with its archived bytes |
| RestorePlan.MainConfigurationPrunedIff | app/backup.py:502-538 | after a complete prune the main configuration is missing exactly when its name is an unreferenced managed name |
| RestorePlan.MainConfigurationCanBePruned | app/backup.py:502-538 | a list of archive members that restore accepts, and a complete restore of it whose main configuration the prune removes |
| BackupFormat.AcceptedSecretsArchived | app/backup.py:262-341 | every secret an accepted configuration names is in the archive |
| BackupFormat.ReadsArchive | app/backup.py:559-599 | reading an archive gives back the files, the database and the manifest put into it |
| BackupFormat.BackupRoundTrip | app/backup.py:180-248 | restoring an accepted archive of create_backup gives every archived name its archived bytes again; other files only lose unreferenced managed secrets |
| BackupFormat.ArchiveReadable | app/backup.py:559-599 | restore's size and name checks pass an archive of create_backup exactly when its manifest fits 64 KiB and the main name is safe |
| ArchiveRules.ReadsIff | app/backup.py:559-599 | the members are read exactly if each is a regular file of an allowed name and size, none comes twice and the configuration files stay within 16 MiB; what is read is what they carry |
| ArchiveRules.AcceptedIff | app/backup.py:559-651 | an archive passes the checks if and only if it is readable, its manifest is of format 1 and names this main configuration and exactly the files archived, the database is sound, the configuration parses, names this database and only archived secrets, and loads, and no file would overwrite the database |
| ArchiveRules.RestoredIff | app/backup.py:541-734 | a restore is complete exactly if every archived file has its archived bytes, but for managed secrets no reference names, and every other file is as it was |
| ArchiveRules.ArchiveIsBackup | app/backup.py:180-248 | what create_backup writes has exactly the main configuration and the safely named files that are no stale secrets, byte for byte, the snapshot of the database and their list |
| ArchiveRules.BackupIsGoodIff | app/backup.py:180-248 | a backup that was made can be restored if and only if the main name is safe, the list survives being written and fits, the snapshot is sound, every secret exists, and the configuration names this database, loads, and keeps it apart from its files |
| BackupRun.CopyLimited | app/backup.py:251-259 | whatever the sizes of the reads, everything is copied, or the limit is reported exactly when exceeded |
| BackupRun.RestoreTransaction.ReadArchive | app/backup.py:559-599 | the loop accepts exactly what the reader's meaning accepts, staging the database on the way |
| BackupRun.RestoreTransaction.SnapshotExisting | app/backup.py:369-412 | an existing destination gets a copy in a file of its own; a missing one none |
| BackupRun.RestoreTransaction.InstallAll | app/backup.py:685-693 | every state of the loop is the original with a prefix of the entries installed |
| BackupRun.RestoreTransaction.RollbackRestore | app/backup.py:472-499 | wherever the install stopped, it computes the rollback's meaning, gives back every entry but one per failing call, and is incomplete exactly when a call has failed |
| BackupRun.RestoreTransaction.CleanupRestoreEntries | app/backup.py:455-470 | only scratch files go, no rollback file when they are to be preserved; if none of its own calls fails, none of the others is left, whatever has failed before |
| BackupRun.RestoreTransaction.Prune | app/backup.py:502-538 | only unreferenced managed secrets go, and without faults all of them |
| BackupRun.RestoreTransaction.RestoreBackup | app/backup.py:541-734 | for every fault pattern: an archive that breaks any rule fails with every file as before; Restored means that every archived file has its archived bytes and others are as they were, but for unneeded managed secrets, Failed the original state, RollbackIncomplete that two calls have failed and each original is recoverable; in every state passed through each file is the old or the archived one and each original still somewhere, or the restore is complete, and the main configuration is old till then unless the rollback stays incomplete; without faults a good archive whose targets are small enough to snapshot is restored and pruned; no temporary file is left without faults, nor after the one fault that made a restore fail |
| BackupRun.CreateBackup | app/backup.py:180-248 | an archive holds exactly the files that belong in a backup, byte for byte and within the limits, the database snapshot and their list; one is made whenever everything is there and fits and no call fails, and the disk is left as it was, scratch files included if no call fails |
| DeepMerge.DeepMergeInto | app/state.py:70-77 | the in-place recursion computes the merge |
| DeepMerge.PathLaw | app/state.py:70-77 | a path takes the update's value where it is set, nothing below a replaced ancestor, and keeps the old value elsewhere |
| DeepMerge.EmptyUpdate | app/state.py:70-77 | the empty object is an identity on both sides |
| DeepMerge.MergeIdempotent | app/state.py:70-77 | applying the same delta twice changes nothing more |
| DeepMerge.MergeAssociative | app/state.py:70-77 | two deltas may be combined before they are applied exactly when they are Mergeable |
| DeepMerge.NoResurrectionIsMergeable | app/state.py:70-77 | in particular when no key set to a non-object is an object on both other sides |
| StatusStore.CompleteIff | app/state.py:80-85 | the completeness flag is set exactly when a full report came since the last mark to a state other than online |
| StatusStore.IsFullIff | app/state.py:20-85 | a report is full exactly if it has a key of each of the 15 groups and, if it has a message kind, that reads as 0 |
| StatusStore.ControlsUnlockOnFreshState | app/state.py:873-884 | after any events "online" is published exactly on full state since the last disconnect, and `online` exactly with a push_status within the stale limit |
| StatusStore.ReportReplacesUnits | app/state.py:740-751 | a reported list of AMS units replaces the stored one whole |
| StatusStore.StoredIsMerged | app/state.py:725-750 | after any events what is stored is exactly the print sections of all push_status reports merged one after the other |
| StatusStore.StoredIsLastValue | app/state.py:725-750 | a field that is no object is stored as the last report that has it says, however many deltas leave it out since |
| StatusStore.ConnectionIsLast | app/state.py:716-751 | the connection is the one last marked, or online by a report since |
| StatusStore.StoredIsLastList | app/state.py:70-77 | after any events the stored list of units is the last one reported, unless a later report replaced its container by something else |
| StatusStore.ConfirmationIsFresh | app/state.py:830-867 | if the wait is satisfied, a push_status applied after the generation was read itself shows the unit as requested |
| StatusStore.ReportConfirms | app/state.py:739-750 | and any such report satisfies the wait |
| StatusStore.GenerationGrows | app/state.py:869-871 | no sequence of events lowers a generation |
| StatusRuntime.StateStore.MarkConnection | app/state.py:716-723 | one printer's state changes as specified, every other is untouched |
| StatusRuntime.StateStore.ApplyReport | app/state.py:725-791 | one printer's state changes as specified, every other is untouched |
| StatusRuntime.StateStore.WaitForAmsDryingState | app/state.py:830-867 | it stops at the first look that satisfies the test and gives up only after the last; other threads' reports in between all count |
| StatusRuntime.StateStore.AmsOperationRisk | app/state.py:797-828 | the loops report a risk exactly as the rule says |
| StatusRuntime.ControlManager.SendDryingCommand | app/manager.py:298-484 | with reports arriving between the three readings of the store: a command is refused exactly if it breaks the rules, as forbidden exactly without the permissions, rate-limited exactly within 750 ms of the last, and otherwise published exactly once if the broker takes it; it is confirmed only on evidence that arrived after the generation was read and if no reply was a failure; every outcome but an unknown printer is audited once, as what it was |
| CommandGates.StartImpliesStop | app/manager.py:158-217 | whatever admits start_drying admits stop_drying on the same AMS, then and after any change of print status, signature flag, trays or motion |
| CommandGates.StopAdmittedIff | app/manager.py:110-217 | over all histories: stop_drying is admitted exactly with both permissions, a drying model, an AMS id in range, a fresh and full status history, and a last reported list that names the dryer |
| CommandGates.StopStaysAdmitted | app/manager.py:158-217 | after an admitted start and any events, stop_drying on that AMS is admitted exactly while the history is fresh and full and the last list still names the dryer |
| CommandGates.StartNeedsRest | app/manager.py:110-217 | what the three readings of the store guarantee of an admitted start: fresh, full, idle and signed; a dryer that is not drying; nothing loaded or moving |
| CommandGates.AdmittedOnFreshState | app/manager.py:110-118 | no command passes the state gate but on a full report since the last disconnect and a recent push_status |
| DryingRules.StartAdmittedIff | app/manager.py:110-331 | over all histories: start_drying is admitted if and only if both permissions are there, the parameters in range, the model allows it or its experiment is acknowledged, the first history is fresh, full, idle and signed, the second signed with a last list that has the dryer not drying, at most 65 degrees on an AMS 2 Pro, and by the third nothing is loaded or moving |
| DryingRules.StartGateIff | app/manager.py:110-331 | the same for any stored states at the three readings |
| DryingRules.StopGateIff | app/manager.py:110-217 | stop_drying is admitted exactly with its permission, valid parameters, a drying model, a fresh and full status and a listed dryer, whatever the risk, flag, status or drying |
| DryingRules.StateGateIff | app/manager.py:110-151 | a command of any kind passes the state gate exactly on a fresh and full history, with the flag if it is to be signed, in a status that allows it |
| DryingRules.AtRestIff | app/state.py:797-828 | there is no risk exactly if the reports have the AMS at status 0, no tray loaded or sought, and a list of units with no active tray |
| DryingRules.PolicyIff | app/state.py:290-299 | P2S and H2D models dry, X1, H2C, H2S and X2D models do experimentally, no others do |
| DryingRules.KeyOf | app/state.py:292-292 | models are compared by their letters, lower-cased, and digits, in order |
| DryingRules.ShowsDryingIff | app/state.py:850-863 | the wait looks at the first unit that names itself by the id, and whether its drying time is positive, or zero |
| DryingRules.CountedExactly | app/state.py:737-749 | a report advances a unit's generation by the number of its entries, under that id or position, that say something about drying |
| AdminFormat.LoadedKept | app/config.py:205-253 | loading a document depends on the secrets it names and on nothing else |
| AdminFormat.FreshNameIsManaged | app/admin.py:313-337 | the name of a new secret is always one that finalize and backup recognise |
| AdminFormat.CaFileIff | app/admin.py:602-621 | a CA file is refused exactly where a configured printer's is changed other than dropped for self-signed TLS, or a new printer brings its own; none is written with self-signed TLS, else the configured one or the default |
| AdminFormat.WrittenIsRequested | app/admin.py:562-688 | loading what an update wrote gives the request, printer by printer: new secrets replaced, omitted ones those of the same device, a writable printer with exactly the requested commands and a read-only one with the six defaults, the fingerprint only with self-signed TLS, the CA file as the rules say, every other setting equal |
| AdminUpdate.AdminConfigStore.PrivateFileExclusive | app/admin.py:313-337 | a new file never overwrites one; without faults it fails only if all 16 names are taken |
| AdminUpdate.AdminConfigStore.PreparePrinter | app/admin.py:575-649 | each printer of an update is written as requested, and refused unless an omitted code is that of the same device and the CA file keeps the rules |
| AdminUpdate.AdminConfigStore.Prepare | app/admin.py:518-710 | on success the update keeps the rules and the candidate is exactly the requested configuration; on refusal every original file is untouched, and without faults the directory is exactly as before; an update that keeps the rules never fails without faults, and if it fails by one the directory is exactly as before too |
| AdminUpdate.PreparedConfigUpdate.Commit | app/admin.py:423-462 | it replaces the configuration only if unchanged since prepare; a failure leaves the old one, or, after two faults, the new one complete; a single fault leaves no file behind |
| AdminUpdate.PreparedConfigUpdate.SyncOrUndo | app/admin.py:440-462 | the commit fails exactly when closing the directory fails, and stands nevertheless exactly when moving the old configuration back fails too |
| AdminUpdate.PreparedConfigUpdate.Rollback | app/admin.py:464-480 | it is refused exactly when the replacement fails, leaving the commit standing; if none of its calls fails it restores the directory exactly |
| AdminUpdate.PreparedConfigUpdate.Finalize | app/admin.py:482-489 | the committed configuration still loads to the candidate, only obsolete secrets and scratch files are gone, all of them if none of its calls fails, and every new file is a secret it names |
| AdminUpdate.PreparedConfigUpdate.Abort | app/admin.py:491-507 | a committed update is left alone; otherwise only own files go, and if none of its calls fails the directory is exactly as before, whatever has failed earlier |
| AdminRuntime.Manager.Start | app/manager.py:80-98 | a strict start runs every worker or none it started; a lenient one all that can |
| AdminRuntime.Manager.Stop | app/manager.py:100-105 | no worker is left running |
| AdminRuntime.Application.UpdateAdminConfig | app/main.py:962-1024 | afterwards only the serving manager runs, it runs on app.state.config, and that is what the disk loads to, except after a foreign write or a commit stuck by two faults; no state on the way names a missing secret; without faults nothing superfluous is left; an update that keeps the rules is applied when nothing fails, and by a single disk fault it is applied or leaves the disk exactly as before |
| AuditLog.PrunedIff | app/audit.py:112-127 | a row survives exactly when it is unexpired and fewer than `max_rows` unexpired rows are newer |
| AuditLog.PrunedSize | app/audit.py:112-127 | what is left is all unexpired rows or exactly the cap |
| AuditLog.PageSelects | app/audit.py:195-229 | a page is descending and holds only rows below the cursor whose printer, command, result, actor and time are those asked for |
| AuditLog.PageIsComplete | app/audit.py:195-229 | every matching row below the cursor is on the page or below its next cursor |
| AuditLog.FullPage | app/audit.py:215-229 | a page with a successor is full and its next cursor is its lowest id |
| AuditLog.PaginationIsExact | app/audit.py:171-229 | a walk over a changing table never repeats a row, returns none recorded after its start, and includes every matching row present throughout |
| AuditLog.WalksEnd | app/audit.py:225-229 | every walk ends |
| AuditLog.PaginationOverRuns | app/audit.py:112-229 | the same for every sequence of records and prunes between the requests |
| AuditLog.ClausesMean | app/audit.py:185-210 | the collected clauses select exactly what the query asks for |
| AuditLog.RecordedIff | app/audit.py:141-162 | after a record the table holds exactly the newest unexpired of the old rows and the new one, which has actor, printer, command and result in their own columns, cut to 128, 64, 64 and 32 |
| AuditLog.AuditLog.Record | app/audit.py:129-162 | a record gets an id never used before, says what was recorded, and the table is pruned with it; if a statement or the commit raises nothing at all has changed |
| AuditLog.AuditLog.History | app/audit.py:171-229 | reading down to one row too many gives the page, and a bad page size an error |
| RateLimits.NoIntervalHoldsMore | app/setup.py:272-280 | no interval one window long, less twice the lateness of readings, holds more than `max_attempts` admitted calls |
| RateLimits.RecentCounts | app/web.py:46-51 | the recent times are those less than a window old, whatever their order |
| RateLimits.SetupRateLimiter.Consume | app/setup.py:272-280 | it refuses exactly when `max_attempts` of the key's calls were admitted within the last window if readings came in order, and otherwise within the window give or take their lateness |
| RateLimits.SlotPopped | app/setup.py:276-277 | what the popping loop drops has left the window and what it leaves is inside, but for the lateness of readings |
| RateLimits.SlotsBounded | app/web.py:53-57 | there are never more than `max_clients + 1` slots |
| RateLimits.LockoutIff | app/web.py:46-65 | a full slot refuses exactly until its oldest failure is one window old, is never emptied earlier, and is empty once its newest is, but for the lateness of readings |
| RateLimits.CountedOk | app/web.py:67-73 | counting a failure keeps every deque within the limit and the slots within the cap, in whatever order the clock was read |
| RateLimits.CurrentInOrder | app/web.py:46-51 | pruning keeps deques sorted up to the lateness of readings, and leaves nothing older than the window plus that |
| RateLimits.LoginRateLimiter.PruneLocked | app/web.py:46-51 | every slot loses its expired times from the left, and empty slots go, for readings in any order |
| RateLimits.LoginRateLimiter.Check | app/web.py:59-65 | with readings in order it refuses exactly when `max_attempts` of the failures counted in the key's slot since its last reset lie within the window, and otherwise within the window give or take their lateness; it forgets none |
| RateLimits.LoginRateLimiter.RecordFailure | app/web.py:53-73 | the failure is counted, and in one slot, unless that has `max_attempts` recent ones: the client's own while that has a recent failure or fewer than `max_clients` slots have one, else the overflow slot |
| RateLimits.LoginRateLimiter.ResetOnSuccess | app/web.py:75-79 | exactly the failures of the key's slot are forgotten |

## Left out

- HTTP routing, cookies, CSRF, templates, TLS contexts, MQTT callbacks, ffmpeg and process groups: foreign calls and
  plumbing; a process is live or told to stop, an MQTT worker running or asked to stop.
- Inodes, symlinks, permission bits, tar and SQLite internals: files are regular and hold bytes.
- Cancellation inside `_spawn` between creating a process and returning it, and of the cleanup task itself.
- Durability: fsync is a call that may fail; what a power loss would undo without it is not modelled.
- Asynchronous interrupts between `os.replace` and setting `installed`.
- `_validate_stream_request` and the authorisation test before `open_stream` takes the lock, which refuse without a
  change; the clock comparison behind `max_session_seconds` is an oracle.
- CameraFlow.FlowsOn: that a chunk can be delivered, not that the camera or the scheduler will deliver it.
- BackupRun.RestoreTransaction.RestoreBackup: entries are values in a sequence field, not aliased records, and the
  error a failing last unlink would raise in the finally block counts as the outcome reached before it.
- BackupRun.CreateBackup: the order of the members after the main configuration is arbitrary; the source sorts them.
- StatusRuntime.StateStore.ApplyReport: without AMS environment, model and version tables, the `changed` result and
  notification; they do not enter any property here.
- StatusRuntime.ControlManager.SendDryingCommand: start_drying and stop_drying only; other commands publish in a loop
  and confirm nothing.  Texts of refusals are left out.
- CommandGates.StartImpliesStop: lower-casing is that of ASCII letters.
- CommandGates.StopAdmittedIff: the AMS model table comes from version reports and is a parameter, the same at each
  reading of the store.
- AdminFormat.WrittenIsRequested: of a printer's settings the TLS choice, fingerprint, write permission and command
  list are modelled; the others are one value, copied through.
- AdminUpdate.PreparedConfigUpdate.Commit: another process writing between the comparison and the replacement is not
  modelled, since no lock of this program excludes it; digests are compared as the contents they stand for.
- AdminUpdate.AdminConfigStore.Prepare: the configuration must not name its own file as a secret, and what `render`
  writes must parse back to the same document if it parses at all.
- AdminRuntime.Application.UpdateAdminConfig: authentication, rate limiting and the audit record around the swap; a
  cancelled handler, since CancelledError passes every handler that would undo the swap.
- AuditLog.AuditLog.Record: redaction, parameters, sequence id and detail, which no query reads back here; stored ISO
  times are integers, as UTC texts sort by time.
- RateLimits.LoginRateLimiter.Check: failures beyond the limit are not counted, and with late readings one may count for
  longer than the window, by no more than the lateness; `check` and `record_failure` are separate critical sections,
  and overflow clients share a slot.
- SessionStore of app/web.py: one more expiring table with a cap, much like the tickets.
- Field-by-field normalisation of reports, metrics and command payload shapes: many easy members.
