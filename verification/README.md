# passfs in Dafny

passfs keeps secrets of a project as encrypted objects in a vault. In the project only
symbolic links remain; a mounted volume decrypts through open handles, an authorization
cache decides who is asked for the passphrase, and a reconciler follows links that users
move, delete or overwrite. Its promise is that no step, failure or interleaving loses bytes
or draws a wrong conclusion. This project models that core and proves what it keeps.

| file | models |
|---|---|
| `HandleProtocol.dfy` | open handles as threads over the namespace lock and the reference-counted path locks |
| `FileBuffer.dfy` | the in-memory contents of an open file, with 64-bit arithmetic |
| `Authorization.dfy` | cached grants, the expiry timer, edit and encrypt sessions, `Lock` |
| `Metadata.dfy` | the index, its operations, its replacement on disk, its repair at start-up |
| `Storage.dfy` | the disk: a map from names to entries, and primitives that may fail |
| `Persistence.dfy` | storing and removing a ciphertext as transactions |
| `Symlinks.dfy` | replacing and retiring project links against interference |
| `Import.dfy`, `Unprotect.dfy` | protecting a file, and turning records back into plaintext |
| `LinkSearch.dfy` | the parallel, on-demand search for moved links |
| `Reconciler.dfy` | the per-object reconciliation pass and runs of passes |
| `DirectoryMoves.dfy` | inferring a directory move and rebasing registered paths |
| `Migration.dfy` | moving version 1 ciphertexts to object names, with retries |
| `Backup.dfy` | creating, verifying and restoring backups |
| `Versions.dfy` | release version precedence |

How faults and other programs are modelled. A primitive fails nondeterministically; constants
say where failures can happen (`vaultFaulty`, `projectFaulty`, and `faulty` of the index), so
a contract can say "if only the project disk fails, then ...". `Interfere` lets other programs
rearrange all project paths between two steps (if `busy`). Ghost logs watch: `trace` holds
every state the disk went through, `foreign` the positions where others acted, `destroyed`
every project entry a primitive made unreachable, `syncs` which name was synced in which state.
A property of `trace` is also a property of a crash of the process at any step. The reconciler's logs (versions of the index with their time, kernel
queries, search reports, passes, completed healthy branches) are stamped with the length of
the trace, so that "the index in force when the path was looked at" is a fact of the logs.
`Keeps` and `Runs` there are folded forms of what a record and a pass keep. Each search report
holds the search before and after the call. Encryption and digests are injective constructors. The
clock, the prompter's answers, process liveness and the kernel's answers about link
references are parameters or arbitrary values.

Results that differ from what one might expect of the code:

- A second rebase after a directory move changes nothing exactly when neither root is a
  prefix of the other; a confirmed move up the tree can rebase twice.
- An error-free `find` after an erroring one can overlook the root that failed, and still
  count as comprehensive. Its empty answer is warranted exactly if every failed root lies below
  an indexed root, or inside the vault or the mount. Otherwise, in the same pass, the next
  untracked object whose registered path is empty goes to trash although its link lies below
  that root.
- A read-only handle whose attributes were set can bring an unlinked object back.
- An entry that arrives between the two exchanges of a rolled back link replacement is lost.
- If syncing a newly created link fails, `EnsureProtectedLink` removes whatever is at the path
  by then.
- A failed unlink restores the index entry of an object but not its link; a failed
  unprotect does not restore a recovery entry.
- An orphan mark of zero counts as no mark, so repair keeps it beside a recovery entry.
- Reusing a session token leaves the channel of the earlier session open.
- A session whose identity was obtained before a `Lock` and registered after it outlives the
  `Lock`, and answers requests with that identity.
- Numeric version identifiers of 2^64 and more are ordered as text.
- Verifying a backup leaves a lock file in it, and rewrites an index that needs repair; either
  makes the next verification fail.
- A retried migration works without the records of ciphertexts already moved.

## Model

| member | source | states |
|---|---|---|
| HandleProtocol.StepKeepsInv | internal/passfs/file_handle.go:31-218 | every step of every thread keeps: mutex counters equal the threads that hold them, no release of an unheld lock, entries counted and reachable, writable handles hold namespace and path lock, and a writable handle with nothing to store holds exactly what is stored |
| HandleProtocol.LockersShareEntry | internal/passfs/volume.go:1019-1038 | all users of one key are on one lock entry, although entries are deleted and recreated |
| HandleProtocol.PathWriterIsAlone | internal/passfs/volume.go:976-1047 | a thread that holds the path lock to open for writing, to create, to change the mode or to purge excludes every other lock holder on that key |
| HandleProtocol.WritableHandleIsAlone | internal/passfs/file_handle.go:190-218 | a writable handle is the only open handle on its path |
| HandleProtocol.OpenedHandleHoldsStored | internal/passfs/file_handle.go:152-182 | a new handle holds the stored contents and is clean; only a truncating open of a stored object gives an empty one, which is writable and has that to store |
| HandleProtocol.LoadKeepsStore | internal/passfs/file_handle.go:31-150 | opening changes no stored object; only a create adds its absent key, empty |
| HandleProtocol.LoadCanSucceed | internal/passfs/file_handle.go:31-150 | opening a stored object that fits, or truncating it for writing, and creating are not refused |
| HandleProtocol.SuccessMeansStored | internal/passfs/file_handle.go:287-336 | after a flush or close without error the contents of a writable handle, and of any dirty one, are stored |
| HandleProtocol.ReopenedHoldsWritten | internal/passfs/file_handle.go:31-336 | over any run: a handle opened after a successful flush or close of a writable one holds exactly its contents, if no step in between stores or removes the object |
| HandleProtocol.ReadOnlyHandleIsFixed | internal/passfs/file_handle.go:239-252 | no step of anyone changes the contents of a handle that was not opened for writing |
| HandleProtocol.HandleHoldsNamespaceIff | internal/passfs/file_handle.go:212-216 | a handle holds the namespace lock exactly if it is writable |
| HandleProtocol.UnlockPathReleasesOnce | internal/passfs/volume.go:976-992 | releasing the path lock never meets a lock that is not held |
| HandleProtocol.LeaveReleasesOnce | internal/passfs/volume.go:1040-1054 | the same for the namespace lock |
| HandleProtocol.OnlyLockHoldersChangeStore | internal/passfs/file_handle.go:287-336 | a step changes an object only in a thread that holds its path lock, or the namespace lock exclusively |
| HandleProtocol.OnlyOwnFlushes | internal/passfs/file_handle.go:287-336 | while a writable handle is open, its object changes only by its own flush or close, and then to its contents |
| HandleProtocol.StableBetweenOwnFlushes | internal/passfs/file_handle.go:31-336 | over any part of any run without flushes of a writable handle, its object is unchanged |
| HandleProtocol.WritableFlushFits | internal/passfs/file_handle.go:296-310 | a writable flush is never too large, even across reconfiguration |
| HandleProtocol.RunnableSteps | internal/passfs/volume.go:976-1054 | every thread not waiting for a lock has an enabled step |
| HandleProtocol.NeverStuck | internal/passfs/volume.go:976-1054 | while any thread lives, some thread has an enabled step: no deadlock |
| HandleProtocol.NeverStuckWithPreference | internal/passfs/volume.go:976-1054 | the same if readers do not overtake waiting writers |
| HandleProtocol.RunKeepsInv | internal/passfs/file_handle.go:31-218 | the invariant holds in every state of every run |
| HandleProtocol.TouchedReaderResurrects | internal/passfs/file_handle.go:389-400 | a run from the initial state in which a touched read-only handle stores an object that was unlinked meanwhile |
| HandleProtocol.DirtyHandlesResurrectIff | internal/passfs/file_handle.go:287-336 | a thread's next flush or close can bring an absent object back if and only if it is a dirty handle on it whose contents fit the limit |
| HandleProtocol.OnlyDirtyHandlesResurrect | internal/passfs/filesystem.go:344-371 | no other step brings it back but a create of the key or administration |
| FileBuffer.ContentsFollowLog | internal/passfs/file_handle.go:220-285 | after any operations each byte is that of the last write covering it, or zero: the zero-fill-then-overlay reading |
| FileBuffer.NeverExceedsLimit | internal/passfs/file_handle.go:239-285 | a writable buffer never outgrows the limit |
| FileBuffer.OverlappingAppendsConcatenate | internal/passfs/file_handle.go:239-285 | non-empty writes at one end offset, all but the first flagged as overlapping, are concatenated in service order |
| FileBuffer.UnflaggedAppendOverwrites | internal/passfs/file_handle.go:239-285 | without the flag the second write overwrites the first |
| FileBuffer.OpenFile.Read | internal/passfs/file_handle.go:220-237 | exactly the requested part of the contents, short at the end, `EINVAL` for a negative offset |
| FileBuffer.OpenFile.Write | internal/passfs/file_handle.go:239-285 | without append mode and workaround, success overlays the contents at the given offset, exactly if that fits the limit; in append mode, or for a flagged write at the recorded end offset short of the current end, it appends; the contents stay on every error; every 64-bit wrap is caught |
| FileBuffer.CandidateMeans | internal/passfs/file_handle.go:255-270 | the recorded offset after any operations is `c` exactly if some write was issued at end offset `c` and every later operation was a resize, such a write again, or a flagged one at `c` |
| FileBuffer.OpenFile.SetSize | internal/passfs/file_handle.go:371-388 | truncates or zero-fills within the limit, and refuses otherwise |
| FileBuffer.OpenFile.FlushIsTooLarge | internal/passfs/file_handle.go:296-310 | never for a writable handle under an unchanged limit |
| Authorization.Authorizer.RequestIdentity | internal/passfs/volume.go:1158-1200 | a live encrypt session of the caller answers first; without a prompt an identity comes only from a live session that serves the caller, or is the answer to a prompt with no reset since and less than the unlock duration old, under the same scope and for the same object (file), the same process (process) or any (vault); never for a request without object, and exactly if such a grant stands |
| Authorization.KeysCover | internal/passfs/volume.go:1236-1254 | the grant for one request serves another exactly if scopes agree and it is for the same file, from the same known process, or vault-wide; one-time requests and requests without object are never granted |
| Authorization.AskTwice | internal/passfs/volume.go:1158-1254 | from an empty cache, the second of two requests is served without a prompt if and only if the first was answered, covers it, and was answered less than the unlock duration before |
| Authorization.Authorizer.CacheOrPrompt | internal/passfs/volume.go:1173-1199 | the cache serves only standing grants; an answered prompt is recorded and granted |
| Authorization.Authorizer.ScheduleExpiry | internal/passfs/volume.go:1566-1586 | the timer targets the latest grant, or there is none |
| Authorization.Authorizer.TimerFired | internal/passfs/volume.go:1588-1597 | drops exactly the expired grants and keeps identity and timer in step |
| Authorization.Authorizer.ProcessTick | internal/passfs/volume.go:1202-1234 | removes the grant of an exited process only if it is still the one it watches |
| Authorization.Authorizer.Reconfigure | internal/passfs/volume.go:220-268 | discards every grant and the identity before the new settings count |
| Authorization.DropExpired | internal/passfs/volume.go:1555-1564 | keeps exactly the unexpired grants |
| Authorization.ExpiryKeepsTimer | internal/passfs/volume.go:1555-1586 | dropping expired grants cannot drop the latest while others stay |
| Authorization.GrantKeepsGrantsOk | internal/passfs/volume.go:1188-1198 | every grant stays backed by its prompt when one is added |
| Authorization.Authorizer.BeginSession | internal/passfs/volume.go:1313-1390 | a fresh channel per session; a reused token replaces the session and leaves its channel open; a live session was registered after the last lock, and its identity was obtained after it exactly if no lock came in between |
| Authorization.Authorizer.OpenSession | internal/passfs/volume.go:1296-1390 | both steps with any number of locks in between: none came since the identity was obtained if and only if none came between the steps, nor since an older session that served it obtained it |
| Authorization.SessionOutlivesLock | internal/passfs/volume.go:1365-1390 | a lock between the two steps, after which a request is answered with the identity from before, without a prompt |
| Authorization.Authorizer.EndSession | internal/passfs/volume.go:1332-1408 | only the owner ends a session, and its channel is closed once |
| Authorization.Authorizer.OwnerExit | internal/passfs/volume.go:1451-1489 | the monitor removes a session only if its owner matches |
| Authorization.Authorizer.ActiveEncryptIdentity | internal/passfs/volume.go:1410-1427 | serves the caller's own session and sweeps sessions of dead owners, each closed once |
| Authorization.Authorizer.ActiveEditIdentity | internal/passfs/volume.go:1429-1449 | the same for edit sessions of the object |
| Authorization.Authorizer.Lock | internal/passfs/volume.go:1534-1553 | leaves grant, identity, timer and session tables empty and closes every live channel exactly once |
| Metadata.OperationKeepsInclusion | internal/passfs/volume.go:679-886 | every operation keeps link, orphan, recovery and legacy entries within the index |
| Metadata.OperationKeepsSettledIff | internal/passfs/volume.go:819-886 | no object becomes orphaned and recovering at once, except exactly by marking one that is in recovery |
| Metadata.RunKeepsInclusion | internal/passfs/link_registration.go:71-84 | the inclusion over any sequence of operations |
| Metadata.OnlyRemovalDropsFiles | internal/passfs/recovery.go:66-111 | no other operation drops an indexed object |
| Metadata.OperationMeans | internal/passfs/volume.go:679-886 | row by row: what an operation does to the file, link, mark, recovery and legacy entry of its object, and that no other object changes; only a rebase and access times are about all |
| Metadata.OperationRefusedIff | internal/passfs/volume.go:741-886 | an operation is refused exactly if its object is not indexed, or has no recovery path where one is needed |
| Metadata.MetadataStore.Update | internal/passfs/volume.go:423-457 | success publishes what was stored; failure keeps memory but may have replaced the file |
| Metadata.ReconcileMetadata | internal/passfs/metadata_migration.go:176-295 | the loops compute the closed form, and report a change exactly when something changed |
| Metadata.RepairEstablishesIndex | internal/passfs/metadata_migration.go:176-295 | from arbitrary metadata: entries only for indexed objects, every ciphertext indexed, no object both orphaned and in recovery |
| Metadata.BothMapsIffZeroMark | internal/passfs/metadata_migration.go:258-295 | after repair an object is in both maps exactly if it was, indexed, with a mark of zero |
| Metadata.ZeroMarkStaysBesideRecovery | internal/passfs/metadata_migration.go:258-295 | an index for which that happens |
| Metadata.RepairKeepsRecords | internal/passfs/metadata_migration.go:236-264 | no record with a valid object id is dropped or altered, apart from a missing inode |
| Metadata.NewObjectsAreMarked | internal/passfs/metadata_migration.go:258-264 | an unindexed ciphertext gets the record of the scan and a mark of this moment, unless it is in recovery; nothing is left about other unindexed objects |
| Metadata.NumbersComeFromScan | internal/passfs/metadata_migration.go:252-256 | a missing inode number is taken from the scan, and only a missing one |
| Metadata.RepairIsIdempotent | internal/passfs/metadata_migration.go:176-295 | a second repair on the same disk changes nothing |
| Storage.FileSystem.Interfere | internal/passfs/symlink.go:10-13 | other programs rearrange project paths at will, and nothing else |
| Storage.FileSystem.Exchange | internal/passfs/symlink.go:83-98 | an exchange swaps two existing entries or changes nothing |
| Storage.FileSystem.RenameNoReplace | internal/passfs/symlink.go:31-41 | never replaces an entry |
| Persistence.PersistFile | internal/passfs/volume.go:1647-1748 | at every moment the object path holds the complete old or the complete new ciphertext; success records size, mode and times, keeps everything else about the object but for the mark of a new unlinked one, and every other object; the ciphertext was synced before and after it got its name, and no temporary file is left; a rollback restores the old one, and with a working disk a metadata failure is always rolled back |
| Persistence.CommitPersisted | internal/passfs/volume.go:1717-1732 | the second half: recorded, or undone, or still the new ciphertext |
| Persistence.RollbackPersisted | internal/passfs/volume.go:1734-1748 | undoes the exchange or the rename exactly, or changes nothing |
| Persistence.RemoveProtectedFile | internal/passfs/volume.go:1764-1815 | unless removed, the ciphertext survives every moment at its path or set aside; after a failed unlink the link entry is gone and the object orphaned; otherwise the index is unchanged, unless a failing save took effect |
| Persistence.DropSetAside | internal/passfs/volume.go:1793-1805 | the index entry goes first; every failure restores the file |
| Symlinks.ExchangePathWithSymlink | internal/passfs/symlink.go:62-117 | an entry is destroyed only if accepted; a rejected one goes back or stays in staging; a rollback destroys what stood there by then, with both exchanges in the trace in order; at every moment nothing else is touched; nothing staged is left unless it is preserved or a step failed; exact outcome without interference |
| Symlinks.SettleExchange | internal/passfs/symlink.go:87-117 | validate, then delete or swap back |
| Symlinks.RollBackExchange | internal/passfs/symlink.go:87-98 | what is swapped out is what stood at the path, witnessed in the trace |
| Symlinks.LateEntryIsLost | internal/passfs/symlink.go:87-98 | a file that others put in the place of the new link between the two exchanges is deleted |
| Symlinks.RetireProtectedLink | internal/passfs/symlink.go:14-56 | against interference at any step: destroys only a link to the object, replaces nothing, moves everything else back or preserves it |
| Symlinks.MoveBack | internal/passfs/symlink.go:31-41 | moves back onto a free path only |
| Unprotect.AtomicInstallPlaintext | internal/passfs/unprotect.go:312-354 | at every moment the path holds its link or the complete plaintext |
| Unprotect.MaterializePlaintext | internal/passfs/unprotect.go:232-310 | the same for staging, install and cleanup; success has contents, mode and time, synced while staged and in place, and leaves nothing staged |
| Unprotect.InspectDestination | internal/passfs/unprotect.go:191-230 | succeeds exactly for the object's link or the very plaintext |
| Unprotect.RemoveMaterializedCiphertext | internal/passfs/unprotect.go:356-433 | ciphertext goes only with the plaintext in place, and its index entries with it; after a failed unlink all entries but recovery are restored; other objects' entries stay |
| Unprotect.UnprotectFile | internal/passfs/unprotect.go:155-189 | bytes are ciphertext or exact plaintext at every moment; the plaintext was synced while the ciphertext was still there; a failure keeps the ciphertext; without faults success exactly on convertible records; mode and time carry over |
| Unprotect.UnprotectRecords | internal/passfs/unprotect.go:104-153 | over any list of records, even sharing paths or objects: the above throughout the run for the records with an allowed destination, all others fail and are left alone, the report is true, the index changes only for the records and holds nothing about unprotected objects, and without faults every ready record is unprotected |
| Unprotect.StepKeepsProgress | internal/passfs/unprotect.go:104-153 | one more record keeps what held since the start of the run |
| Unprotect.StepAccounts | internal/passfs/unprotect.go:125-152 | earlier reports stay true when later records are processed |
| Unprotect.FailedRecordsKeepCiphertext | internal/passfs/unprotect.go:104-153 | if each object is listed once, every failed record still has its ciphertext |
| Unprotect.BytesAreNeverLost | internal/passfs/unprotect.go:59-104 | an object stored at the start is stored, or readable at a path of its records, at every later moment |
| Unprotect.UserFilesAreUntouched | internal/passfs/unprotect.go:191-230 | anything that was not a protected link is exactly as it was |
| Import.ImportFile | internal/passfs/import.go:274-361 | with others acting between any two steps: from the read on no step takes the file away unless the target holds its bytes (without interference, no moment lacks both); outside the vault only the very file that was read is destroyed, on success, or its own link or what replaced that; a stored object is replaced only if recorded as empty; without faults and interference the result is exactly the expected one, also over an existing target |
| Import.ImportNew | internal/passfs/import.go:301-361 | the same for a new target; a created target whose link was not installed is removed unless the vault or the index failed |
| Import.FillTarget | internal/passfs/import.go:330-340 | a failed write can be flushed as a prefix; success means the whole contents |
| Import.RecoverInterruptedEmptyImport | internal/passfs/import.go:363-409 | removes the target only if recorded as empty when the source was seen as a non-empty regular file, and without faults exactly then |
| Import.ReplaceWithLink | internal/passfs/import.go:471-518 | against interference: deletes only the very file that was read, contents included; anything else found at the path goes back or stays staged |
| Import.EnsureProtectedLink | internal/passfs/import.go:520-562 | existing entries are not touched; success only if the path was the link, synced if it was created; after a failed sync whatever is there by then is removed |
| Import.NewcomerIsRemoved | internal/passfs/import.go:520-562 | a file that others put in the place of the new link is removed after a failed sync |
| Import.ImportThenUnprotect | internal/passfs/unprotect.go:155-189 | fault-free import then unprotect is the identity on bytes, permission bits and time |
| LinkSearch.ShouldSkipDirectory | internal/passfs/links.go:1016-1048 | which directories are skipped, and which of them make the search incomplete |
| LinkSearch.ScanDirectory | internal/passfs/links.go:972-1014 | subdirectories, links and incompleteness of a directory, whatever the order of its entries |
| LinkSearch.MovedLinkSearch.IndexRoot | internal/passfs/links.go:919-970 | for every schedule: no deadlock, termination, and the same index and flag, given in closed form |
| LinkSearch.ReceiveKeepsInv | internal/passfs/links.go:939-966 | each directory found is in exactly one place and jobs never exceed the workers |
| LinkSearch.ReceiveLowersRank | internal/passfs/links.go:939-966 | receiving a result makes progress although it enqueues directories |
| LinkSearch.FinishedPool | internal/passfs/links.go:939-968 | when the loop ends exactly the reachable directories were scanned |
| LinkSearch.AncestorReachedOrCovered | internal/passfs/links.go:1016-1048 | with nothing left out, each directory above an outside link was reached or covered before |
| LinkSearch.CompleteRootIsFound | internal/passfs/links.go:919-970 | a root indexed without omissions has all its outside links in the index |
| LinkSearch.MovedLinkSearch.IndexNextRoot | internal/passfs/links.go:893-911 | the index stays true and complete; a failed root is not tried again |
| LinkSearch.MovedLinkSearch.Find | internal/passfs/links.go:865-891 | a link it returns is real and the only other one indexed; one more root is indexed only as long as the index does not answer; an empty comprehensive answer means no other link below any root but those at which earlier calls failed; a failing call adds exactly the root it failed at |
| LinkSearch.EmptyAnswerWarrantedIff | internal/passfs/links.go:865-911 | a comprehensive empty answer is right for every tree that agrees with what the search has read if and only if every failed root lies below an indexed root, or inside the vault or the mount |
| LinkSearch.EmptyAnswerIsRightWithoutFailures | internal/passfs/links.go:865-891 | it is right below every root if no earlier call failed |
| LinkSearch.FailedRootIsForgotten | internal/passfs/links.go:893-911 | a search whose first call fails at the root of an existing link and whose second answers that there is none, still comprehensive |
| Reconciler.Tracker.Ensure | internal/passfs/link_tracker.go:24-53 | afterwards the object is tracked, and no other reference changed |
| Reconciler.LinkReconciler.KeepHealthy | internal/passfs/links.go:417-436 | confirmed means the mark, recovery and legacy entries are gone and the completion is logged; certain without faults |
| Reconciler.LinkReconciler.GoneFromKernel | internal/passfs/links.go:461-499 | conflict, doubt or deletion exactly by occupation and the age of the mark on the clock |
| Reconciler.LinkReconciler.Relocate | internal/passfs/links.go:512-577 | moved only if the link was seen at the new path and the old path was seen empty, and certain on a quiet disk; otherwise a conflict, after which the displaced link is gone from where it was found; the directory move it suggests, if any, is backed by what was seen |
| Reconciler.LinkReconciler.ConcludeMissing | internal/passfs/links.go:579-620 | deletion only after a complete search; otherwise doubt or conflict; no conclusion about legacy links and within 30 s about unregistered objects |
| Reconciler.LinkReconciler.ReconcileRecord | internal/passfs/links.go:395-620 | one record keeps ciphertexts, indexed objects, other objects' entries and foreign files, its write is justified by what it observed, and its conclusion is what the index says; a confirmed object has a recorded completion of the healthy branch; for an untracked object with an empty path the answer of the search decides: trash exactly for a complete empty one |
| Reconciler.LinkReconciler.Pass | internal/passfs/links.go:372-637 | every write of the pass is justified by observations of that pass; at every moment ciphertexts and, if nobody else acts, everything in the project but links is as it was; every object confirmed in the pass has a recorded completion in it; a pass without issues leaves no object in doubt, and completes the healthy branch of every object that is not in recovery and keeps its path; one with issues has a conclusion that is one, or has rebased |
| Reconciler.LinkReconciler.ReconcileAll | internal/passfs/links.go:395-620 | each directory move is counted once for each object whose link, seen at its new path, suggests it, and every object that moved is counted for the move its way suggests |
| Reconciler.LinkReconciler.RebaseMoves | internal/passfs/links.go:621-637 | each move that two objects agree on is rebased once, one after the other, unless the disk did not confirm it; no other move is |
| Reconciler.LinkReconciler.RebaseConfirmed | internal/passfs/links.go:671-698 | only link paths change, exactly by the rebase, and exactly when the old root was seen gone and the new one a directory, or a link, which may lead to one |
| Reconciler.Run | internal/passfs/links.go:87-150 | the same for any number of passes, one after the other |
| Reconciler.BrokenRootPass | internal/passfs/links.go:501-620 | on any quiet disk: if inspecting the only root fails, of two untracked objects with empty paths the first is left in doubt and the second goes to trash |
| Reconciler.FailedRootTrashesLinkedObject | internal/passfs/links.go:501-620 | a disk on which that object's link is below the root |
| Reconciler.TrashHasEvidence | internal/passfs/links.go:482-620 | a new trash entry was written while, in that pass and under the previous version of the index, the registered path was seen empty, and either the kernel said the link was gone and a mark at least 500 ms older than the write stood, or the object was not among the tracked references and the complete search of that pass found nothing; the entry has that path and time |
| Reconciler.RegistrationHasEvidence | internal/passfs/links.go:512-637 | over any run, an object whose registered path changed got its path by a write in whose pass, and under the previous version of the index, its link was seen there and its old path was seen empty, while it was not in recovery; or by a rebase for a directory move that the links of two different objects agree on in that pass and the disk confirmed |
| Reconciler.NowhereOnDisk | internal/passfs/links.go:865-1048 | the latter means: in the state of the disk that search read, no readable link to the object was below a root, outside the vault and the mount, but at the registered path, except below roots that an earlier report of the same pass says its call failed at |
| Reconciler.NowhereAtAll | internal/passfs/links.go:865-1048 | without exception if no earlier search of that pass failed |
| Reconciler.NowhereIsWarrantedIff | internal/passfs/links.go:597-612 | the conclusion is right for every tree that agrees with what the search has read if and only if every root lost in the pass by then lies below an indexed root, or inside the vault or the mount |
| Reconciler.MarkStoodUntilDeletion | internal/passfs/links.go:482-498 | the mark behind a deletion stood in every version since one written at least 500 ms earlier, and meanwhile no healthy branch completed with its writes |
| Reconciler.StandingMarkIsUnrefuted | internal/passfs/volume.go:819-851 | while a mark stands, no healthy branch completed with its writes since it was set |
| Reconciler.RecoveryStaysUntilSeen | internal/passfs/links.go:437-443 | a recovery entry is the same in every version until a write removes it because, under that index, its registered path was seen to be a link to the object or its legacy target |
| Reconciler.OnlyOurLinksAreDestroyed | internal/passfs/symlink.go:14-117 | only protected links are destroyed, or an entry found in place of a link the run had put there in exchange for another entry; without interference only protected links |
| Reconciler.UserEntriesAreUntouched | internal/passfs/links.go:395-637 | without interference every project path that was not a symbolic link is as it was at every moment of a run |
| Reconciler.ObjectsAreUntouched | internal/passfs/links.go:395-637 | at no moment does a run touch a ciphertext, and it drops no indexed object |
| Reconciler.ConclusionFollows | internal/passfs/volume.go:819-886 | each justified metadata write, failed or not, keeps all of this |
| DirectoryMoves.InferDirectoryMove | internal/passfs/links.go:644-669 | a move is inferred exactly when both paths are roots with the same maximal non-empty tail |
| DirectoryMoves.RebaseLinkSources | internal/passfs/links.go:679-698 | every descendant moved, the count is the number of changed entries |
| DirectoryMoves.InferredMoveIsExact | internal/passfs/links.go:644-698 | rebasing maps the old path to the new one |
| DirectoryMoves.RebaseIsLocal | internal/passfs/links.go:686-697 | non-descendants stay |
| DirectoryMoves.RebaseKeepsDescendantsApart | internal/passfs/links.go:686-697 | distinct descendants stay distinct |
| DirectoryMoves.SecondRebaseIsIdleIffApart | internal/passfs/links.go:679-698 | a second rebase is idle on all paths if and only if neither root is a prefix of the other |
| DirectoryMoves.ConfirmedMoveLeavesOldRoot | internal/passfs/links.go:671-677 | the new root of a confirmed move is not inside the old one |
| DirectoryMoves.ConfirmedMoveCanRebaseTwice | internal/passfs/links.go:671-698 | a confirmed move whose second rebase changes a path |
| Migration.LegacyVault.MoveLegacyCiphertext | internal/passfs/metadata_migration.go:122-157 | success leaves the file under its object name only; nothing else changes; succeeds without faults if the name is free or the same file |
| Migration.LegacyVault.ReconcileLegacy | internal/passfs/volume.go:534-643 | drops exactly the unlinked names of linked files and has one record per ciphertext left |
| Migration.LegacyVault.Migrate | internal/passfs/metadata_migration.go:18-98 | once the new metadata are stored, no version 1 ciphertext is left, every one but duplicate names is under a recorded object name, and the new index is in order and describes each: size, mode and times as recorded, or of an empty private file as old as the ciphertext; path registered, and orphaned exactly with its old target kept, which is kept unless it was below a mount point; succeeds without faults if object names do not clash |
| Migration.LegacyVault.RepairRecalls | internal/passfs/volume.go:574-632 | the record of each ciphertext is the recorded one with a missing number filled in, or, if there is none, that of an empty file of mode 0600 as old as the ciphertext |
| Migration.LegacyVault.Attempts | internal/passfs/metadata_migration.go:13-17 | over any number of failed and retried attempts every ciphertext stays reachable |
| Migration.CiphertextsAreConserved | internal/passfs/metadata_migration.go:122-157 | between any two moments exactly the same files are reachable: renames never overwrite, dropped names have a surviving name |
| Migration.ObjectsStay | internal/passfs/metadata_migration.go:139-146 | an object name keeps its file forever |
| Migration.LegacyVault.RetryForgetsMoved | internal/passfs/volume.go:616-622 | a retry has a record exactly for ciphertexts still under a version 1 name |
| Backup.BackupDisk.CreateBackup | internal/passfs/backup.go:44-128 | at every moment what was at the destination is there unchanged, and if nothing was, whatever is there is a complete backup; without faults it succeeds exactly for a sound vault with at least one object |
| Backup.BackupDisk.CopyOut | internal/passfs/backup.go:92-102 | the manifest lists exactly the copied files with size and digest |
| Backup.VaultBackupPaths | internal/passfs/backup.go:130-152 | the three internal files and every stored object, each once |
| Backup.BackupDisk.VaultIndex | internal/passfs/backup.go:371-437 | accepts exactly consistent vaults, and leaves the lock file |
| Backup.CheckConsistent | internal/passfs/backup.go:385-437 | the checks one after the other accept exactly if nothing but object files is in the object directory, records and objects are in bijection, and links and recovery entries are sound |
| Backup.CheckLinks | internal/passfs/backup.go:417-430 | the loop accepts exactly if every link is of an indexed object, absolute, and no path is claimed twice |
| Backup.BackupDisk.RestoreBackup | internal/passfs/backup.go:310-369 | at every moment what was at the destination is there unchanged, and if nothing was, whatever is there holds exactly the listed files as listed |
| Backup.BackupDisk.CreateThenRestore | internal/passfs/backup.go:310-369 | create then restore reproduces the internal files and every object byte for byte |
| Backup.BackupDisk.VerifyBackup | internal/passfs/backup.go:226-264 | accepts exactly the acceptable backups, and leaves the lock file and the repaired index |
| Backup.BackupDisk.VerifyVault | internal/passfs/backup.go:266-308 | accepts exactly vaults that open and decrypt to the recorded sizes; loading the volume rewrites an index that needs repair |
| Backup.BackupDisk.LoadMetadata | internal/passfs/volume.go:271-291 | saves the repaired index exactly if the repair changed it |
| Backup.BackupDisk.ValidateBackupTree | internal/passfs/backup.go:439-469 | only listed regular files and the two known directories |
| Backup.AcceptedMeans | internal/passfs/backup.go:226-308 | tree and manifest have the same files, records and objects are in bijection, each object decrypts to its size |
| Backup.VaultOkMeans | internal/passfs/backup.go:266-308 | a vault verifies exactly if it is consistent and the plaintext of each object has the recorded size, within the limit |
| Backup.CompleteBackupIsAccepted | internal/passfs/backup.go:226-308 | a complete backup of a vault that opens is accepted |
| Backup.SecondVerificationAcceptsIff | internal/passfs/backup.go:226-308 | after an accepted verification the next accepts if and only if the manifest lists the lock file and the index needed no repair |
| Backup.LockFileSpoilsBackup | internal/passfs/metadata_lock.go:45-54 | a backup whose second verification fails by the lock file alone |
| Backup.RepairSpoilsBackup | internal/passfs/volume.go:271-291 | one whose second verification fails although the lock file is listed |
| Versions.ValidateVersionIdentifiers | internal/updater/client.go:281-307 | accepts exactly dot-separated non-empty identifiers, without leading zeros where required |
| Versions.ComparePrerelease | internal/updater/client.go:334-368 | the loop compares identifier by identifier as specified |
| Versions.VersionOrderIsTotal | internal/updater/client.go:309-332 | antisymmetric and total on accepted versions, equal only for equal versions |
| Versions.VersionOrderIsTransitive | internal/updater/client.go:309-332 | transitive |
| Versions.LeadingZerosBreakAntisymmetry | internal/updater/client.go:301-304 | without the leading-zero check `01` and `1` would each compare greater than the other |
| Versions.IdentifierAgreesIff | internal/updater/client.go:338-359 | identifiers compare as in section 11 of Semantic Versioning 2.0.0 exactly outside the overflow cases |
| Versions.VersionAgreesIff | internal/updater/client.go:309-368 | versions do so exactly unless they differ only in prereleases, and there first in a pair that string order gets wrong |
| Versions.VersionAgreesWithPrecedence | internal/updater/client.go:309-368 | in particular if numeric identifiers fit 64 bits |
| Versions.LargeIdentifiersAreMisordered | internal/updater/client.go:343-358 | two accepted versions in the wrong order |
| Versions.ParseOfFormat | internal/updater/client.go:220-279 | formatting then parsing is the identity |
| Versions.AcceptsIffDenotes | internal/updater/client.go:220-279 | a string is accepted as a version if and only if it is white space, perhaps a `v`, the formatted version, perhaps `+` and valid build metadata, and white space |
| Versions.NormalizeIsIdempotent | internal/updater/client.go:220-231 | normalizing twice is normalizing once |
| Versions.IsNewerComparesDenoted | internal/updater/client.go:233-245 | the answer is the order of the denoted versions, and equal normal forms mean equal versions |
| Versions.IsNewerIsStrict | internal/updater/client.go:233-245 | asymmetric, and neither is newer exactly when both normalize to the same text |
| Versions.IsNewerIsTransitive | internal/updater/client.go:233-245 | transitive |

## Left out

- Encryption, digests, random identifiers and passphrases: injective constructors and opaque values.
- Prompters, Touch ID, the passphrase broker, signature checks and the app agent: their answers are parameters.
- FUSE and FSKit adapters, the Swift code, the command line, service installation and update downloads: plumbing around the core.
- The secret scanner: heuristics over libraries.
- Watchers, the retry loop and the timing window of displaced targets: a pass may start at any time.
- What survives a loss of power: the log of syncs says what was synced and when, a failed sync is handled as in the code, and `RemoveProtectedFile` reports a removal although its last sync failed, as the code does.
- Coalesced access times, settings and display paths: they would only add easy members.
- Choosing search roots and the recovery lists shown to users: the search is proved for any roots, `PurgeRecovery` appears in the handle protocol as an exclusive request.
- Case folding of directory names: names in `LinkSearch` are already in lower case.
- LinkSearch.MovedLinkSearch.Find: links that cannot be inspected are skipped silently, as in the code, so absence is only about inspectable links in a tree that does not change.
- Reconciler.LinkReconciler.Pass: other processes do not write the index during a pass, the search reads the disk as it was when the pass began, and a relative registered path counts as none.
- Reconciler.LinkReconciler.SetSource: paths are taken as resolved, so `ResolvePathEntry` neither changes them nor fails.
- Reconciler.NowhereOnDisk: excepts roots at which a search of the pass failed, as the code does; `NowhereIsWarrantedIff` says when that is harmless.
- Unprotect.UnprotectRecords: the forbidden roots enter as the set of allowed destinations.
- Import.FillTarget: the kernel's page cache between the client and the mounted volume is not modelled.
- Migration.LegacyVault.RetargetLink: the project link is found in any state, and replacing it may fail; the exchange itself is `Symlinks.ExchangePathWithSymlink`.
- Backup.BackupDisk.RestoreBackup: a manifest that lists `.passfs` or `objects` itself as a file is refused.
- Backup.BackupDisk.VaultIndex: a vault still in the first format counts as unreadable; its migration is in `Migration`.
- Authorization.Authorizer.Reconfigure: changing the prompter and changing the settings are one reset.
