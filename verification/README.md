# Verification of the gateway's staging, locking and lookup core

The repository is a gateway that serves an object-store bucket as a file system
over NFS and SMB. Client writes land in a local staging file and are uploaded
later. This project models the parts of it whose correctness is not visible from
one function and proves what they promise.

* **Write-back** (`WriteSession`, `DirtyIndex`, `Writeback*`). A step system of
  client handles, sync workers and restarts: sessions with copy on write, the
  dirty index and its generations, sidecars, claims, the object lock. The main
  theorem says that no accepted write to a path is lost, whatever happens to other
  paths, and a second one what a crash at any step leaves. Some interleavings of
  the code's steps do lose a write; each is given as a run of the model, with the
  exact condition under which the step at fault is harmless, and the theorem is
  about the runs that meet those conditions on the path in question. `WritebackProgress`
  says what each operation gets done when nobody interferes.
* **Commit** (`Commit`, `CommitSafety`). The same file under power loss: which
  bytes, directory entries and sidecars are on the disk for good.
* **Recovery and rename** (`Recovery`, `StagedRename`, `DirectoryRename`). What a
  restart makes of the staging directory, a rename cut short between any two disk
  changes, and directory renames with their undo.
* **Byte-range locks** (`LockRanges`, `LockTable`, `LockReference`, `LockManager`),
  refined to a mode for each byte of each owner, and **share modes** (`ShareTable`).
* **Fast paths against simple ones**: chunked reads (`ChunkedRead`), the listing
  fence (`ListingFence`), case-insensitive lookup (`FoldLookup`).
* **Codecs and small machines**: Windows names (`WindowsNames`), named streams
  (`Streams`), backpressure (`Pressure`), multipart uploads (`Multipart`).

Code that changes state is a class or a method over an array, proved against a
function of the old state; the theorems are about those functions.

Where the code does less than its comments say or its callers need, the model
follows the code:

* `Prefetch` replaces what a session holds without looking whether the session
  has been written (`WritebackLimits.PrefetchExact`).
* `RenameStagedPath` is documented never to lose data; renaming a path to itself
  does (`StagedRename.SurvivesExactly`), and a refused rename does not put back
  the pending delete it cancelled (`StagingState.RefusedKeepsLiveExactly`).
* A write reserves staging space for the growth it sees before it is admitted. A
  file that is truncated in between grows by more than was reserved
  (`Pressure.NoExcessExactly`, `Pressure.ShrunkFileExceedsQuota`).
* `foldPrefixes` is documented to cover every name equal to the key; a stored name
  with an undecodable byte can equal a key with U+FFFD without sharing a prefix
  (`FoldLookup.PrefixesFindAllExactly`).
* A read of length 0 on a cached chunk returns the rest of the chunk
  (`ChunkedRead.ReadRange`); `ReadFile` does not ask for one.

## Model

| member | source | states |
|---|---|---|
| SessionState.RunMatchesPlainFile | internal/staging/session.go:327-365 | Over every run of writes, truncates, prefetches, snapshot opens and closes, the session holds what a plain file would hold after the operations it did not refuse, the staging path names the file it writes, and the reader count is the number of open snapshots of that file |
| SessionState.SnapshotIsolation | internal/staging/session_upload.go:31-67 | Over every run that does not close it, a snapshot reads the bytes the session held when it was opened |
| SessionState.StepLemma | internal/staging/session_upload.go:95-151 | One operation keeps the session valid, agrees with the plain file or is refused and changes nothing, and leaves what every other open snapshot reads alone |
| SessionState.WriteKeepsSizeExactly | internal/staging/session.go:327-365 | A session whose recorded size is the file length refuses no write, and the write keeps it so exactly when it is not a write of no bytes past the end |
| SessionState.NothingIsRefused | internal/staging/session.go:327-365 | Over every run without a write of no bytes past the end, nothing is refused and the recorded size stays the file length |
| SessionState.PhantomWriteBlocksLaterWrites | internal/staging/session_upload.go:95-151 | After a write of no bytes past the recorded size, and with an upload open, every later write is refused and changes nothing |
| StagingSession.WriteSession.constructor | internal/staging/session.go:73-116 | A new session over a staging file is valid and stands for its bytes |
| StagingSession.WriteSession.DetachFromUploads | internal/staging/session_upload.go:95-151 | Copies the kept bytes to a new file while uploads read the current one, and fails exactly when they do and the file has fewer bytes than it must keep |
| StagingSession.WriteSession.Write | internal/staging/session.go:327-365 | Byte by byte: the data lies at its offset, every other byte stays, a gap is zero; the size recorded is the greater of the old one and the end of the data. It fails, changing nothing, exactly when an upload reads the file and the file is shorter than the recorded size |
| StagingSession.WriteSession.Truncate | internal/staging/session.go:532-575 | Byte by byte: what is kept stays, what is added is zero, and the recorded size is the new one; it fails exactly when an upload reads the file and it is shorter than what must be kept |
| Common.WriteAtBytes | internal/staging/session.go:327-365 | Where a write puts its data, what it leaves and what fills the gap, for the plain file that sessions, accepted contents and commits are measured against |
| Common.ResizeBytes | internal/staging/session.go:532-575 | What a truncate keeps and what it adds, for the same |
| StagingSession.WriteSession.Prefetch | internal/staging/session.go:578-607 | The fetched bytes replace the contents, once, without looking whether the session has been written |
| StagingSession.WriteSession.OpenUploadSnapshot | internal/staging/session_upload.go:31-67 | A snapshot fixes the current file, its size and its file generation |
| StagingSession.WriteSession.CloseSnapshot | internal/staging/session_upload.go:70-86 | Closing gives the reader back only if the session still uses the file generation of the snapshot |
| IndexState.StepKeepsValid | internal/staging/metadata.go:84-289 | Every operation keeps generations distinct between paths and at or below the counter, which never falls |
| IndexState.GenerationNeverReturns | internal/staging/metadata.go:142-145 | A generation that was handed out and that a path does not carry never comes back to that path, in any run |
| IndexState.EndsExactly | internal/staging/metadata.go:84-289 | One operation takes a path's generation away exactly when it records a change, removes the entry or moves one onto or off the path |
| IndexState.GenerationIdentifiesState | internal/staging/metadata.go:156-174 | Over any run, a path still carries the generation an upload read exactly when nothing in between ended the state it read |
| IndexState.OthersLeavePathAlone | internal/staging/metadata.go:84-289 | Operations on other paths leave an entry and its claim as they are |
| IndexState.OtherChanges | internal/staging/metadata.go:131-236 | An entry marked unrecorded is not listed again in memory alone, one restored is, unless in conflict; dropping an entry leaves its claim, and giving up a claim its entry |
| DirtyFileIndexObject.DirtyFileIndex.MarkDirtyWithState | internal/staging/metadata.go:84-109 | Lists the path under a fresh generation, recorded exactly when a sidecar state was given, unless the path is in conflict |
| DirtyFileIndexObject.DirtyFileIndex.MarkDirtyAgain | internal/staging/metadata.go:115-127 | Lists a further change only for an entry that is recorded, and says whether it did |
| DirtyFileIndexObject.DirtyFileIndex.MarkCleanIfUnchanged | internal/staging/metadata.go:163-174 | Cleans entry and claim exactly when the entry still carries the generation, or there is none |
| DirtyFileIndexObject.DirtyFileIndex.MarkConflicted | internal/staging/metadata.go:177-189 | Takes the path and its claim off the lists so that no later change lists it again, and leaves every other entry |
| DirtyFileIndexObject.DirtyFileIndex.Rekey | internal/staging/metadata.go:242-269 | Moves the entry to the new path under a fresh generation and leaves claims alone |
| DirtyFileIndexObject.DirtyFileIndex.Invalidate | internal/staging/metadata.go:219-226 | Gives a dirty path a fresh generation and leaves a clean one alone |
| DirtyFileIndexObject.DirtyFileIndex.LockFile | internal/staging/metadata.go:272-281 | Takes the claim exactly when nobody has it |
| WritebackRuns.NoAcceptedWriteIsLost | internal/staging/sync_worker.go:399-492 | Over every run of any number of handles, workers and restarts on any number of paths, disciplined as far as one path is concerned: while it is dirty that path has its accepted contents in its staging file with a sidecar; without an entry the bucket holds contents it has had since a change was last acknowledged; with no write in flight those are the accepted contents |
| WritebackRuns.CrashAtAnyStep | internal/staging/manager.go:1114-1218 | A crash after any run, at whatever step: a dirty path is dirty after the restart with its accepted bytes in its session, and any path shows contents it has had since a change was last acknowledged exactly unless its session is still to be filled from the bucket |
| WritebackRuns.CrashExact | internal/staging/manager.go:1114-1218 | The same of one path in any state the invariant allows, writes in flight included |
| WritebackRuns.RecentTracks | internal/staging/manager.go:405-462 | The recent contents of a path are exactly those it has had since its entry was last given a new generation, and only writes and truncates change what it holds |
| WritebackRuns.FileRemovedOnlyWhenSafe | internal/staging/manager.go:1464-1501 | After any run, a step removes a staging file only when the path is clean, no write is in flight and the bucket holds the accepted contents |
| WritebackRuns.RunKeepsInvariant | internal/staging/sync_worker.go:370-495 | Every run keeps the invariant of a path for which it is disciplined, whatever other paths do |
| WritebackRuns.EventKeepsInvariant | internal/staging/sync_worker.go:370-495 | One step on any path, or a crash and restart, keeps the invariant of a path for which it is disciplined |
| WritebackRuns.StepKeepsPath | internal/staging/manager.go:405-509 | Every step of the code on a path keeps its invariant |
| WritebackRuns.StepIsLocal | internal/staging/metadata.go:84-289 | A step changes the index at its own path alone |
| WritebackRuns.RestartKeepsPath | internal/staging/manager.go:1114-1218 | A restart keeps the invariant of a path with no session still to be filled and no unlisted bytes left without a sidecar |
| WritebackRuns.RestartIndexLists | internal/staging/manager.go:1210-1210 | Restart lists exactly the paths whose staging file has its sidecar, all recorded, each under a generation |
| WritebackRecovery.RestartIsRecovery | internal/staging/manager.go:1114-1218 | The restart in a run is RecoverFromDisk on the staging directory the run left: same dirty paths, same staged bytes |
| WritebackSafety.OpenKeeps | internal/vfs/filesystem.go:264-290 | Opening for writing takes a reference to the listed session or creates one with its sidecar |
| WritebackSafety.LookKeeps | internal/vfs/filesystem.go:283-290 | A handle learns from the session whether it holds data; if so, its bytes stand for the file |
| WritebackSafety.StatKeeps | internal/vfs/filesystem.go:300-336 | A handle that asks the bucket learns whether it must fetch; without an object there is nothing a new session could hide |
| WritebackSafety.PrefetchKeeps | internal/vfs/filesystem.go:336-354 | A fetch into a session that was fetched before, has not been written, or holds what the object holds keeps the invariant |
| WritebackSafety.ChangeKeeps | internal/vfs/filesystem.go:1696-1725 | Any write or truncate of the staged bytes, refused or not, keeps the invariant before it is listed |
| WritebackSafety.WriteApplied | internal/vfs/filesystem.go:1696-1725 | In every state of the invariant a ready handle can write, and the accepted contents and the staged bytes become, byte by byte, the written ones; it is refused exactly when an upload reads a file shorter than its recorded size |
| WritebackSafety.TruncateApplied | internal/vfs/filesystem.go:1696-1725 | The same for truncates, which a handle opened to truncate makes first |
| WritebackSafety.MarkKeeps | internal/staging/manager.go:405-435 | Listing a further change of a recorded entry in memory alone keeps the invariant |
| WritebackSafety.RecordSidecarKeeps | internal/staging/manager.go:440-462 | Writing the sidecar under its mutex before the entry is listed keeps the invariant |
| WritebackSafety.ListDirtyKeeps | internal/staging/manager.go:440-462 | Listing the entry under a fresh generation keeps the invariant: no upload under way can clean it |
| WritebackSafety.CloseKeeps | internal/staging/manager.go:351-368 | A handle with nothing in flight gives its reference back |
| WritebackSafety.ClaimKeeps | internal/staging/sync_worker.go:251-253 | Taking the claim of a path keeps the invariant |
| WritebackSafety.RecheckKeeps | internal/staging/sync_worker.go:255-259 | The second look whether the path is dirty keeps the invariant |
| WritebackSafety.LockObjectKeeps | internal/staging/sync_worker.go:363-368 | Taking the object lock keeps the invariant, whether the path is still dirty or not |
| WritebackSafety.FindSessionKeeps | internal/staging/sync_worker.go:383-398 | The worker finds the session, or makes one over a staging file left behind |
| WritebackSafety.ForgetKeeps | internal/staging/sync_worker.go:383-398 | Dropping what a worker takes for a stale entry keeps the invariant of a path that is not dirty |
| WritebackSafety.ReadGenerationKeeps | internal/staging/sync_worker.go:403-409 | Reading the generation before the bytes are opened keeps the invariant |
| WritebackSafety.OpenSnapshotKeeps | internal/staging/sync_worker.go:411-418 | Opening the snapshot of a dirty path, or of a session that stands for the file, keeps the invariant: it reads the accepted contents |
| WritebackSafety.UploadKeeps | internal/staging/sync_worker.go:424-461 | The upload puts the snapshot's bytes in the bucket |
| WritebackSafety.UploadFailsKeeps | internal/staging/sync_worker.go:459-461 | An upload that fails, whether or not it reached the bucket, leaves the path dirty |
| WritebackSafety.MarkCleanKeeps | internal/staging/manager.go:496-509 | Cleaning on an unchanged generation, or with no entry, keeps the invariant: the bucket holds contents the file has had since a change was last acknowledged |
| WritebackSafety.DropSidecarKeeps | internal/staging/manager.go:496-509 | Removing the sidecar under its mutex keeps the invariant |
| WritebackSafety.CleanupKeeps | internal/staging/manager.go:1464-1501 | Removing an idle clean session and its file keeps the invariant |
| WritebackSafety.UnlinkSidecarKeeps | internal/staging/manager.go:1486-1489 | Removing the sidecar of the removed session keeps the invariant |
| WritebackSafety.FinishKeeps | internal/staging/sync_worker.go:363-368 | Closing the snapshot and releasing the object lock keeps the invariant |
| WritebackLimits.PrefetchLosesAcceptedWrite | internal/staging/session.go:578-607 | A run in which a fetch puts the object's old bytes over an accepted write |
| WritebackLimits.PrefetchExact | internal/staging/session.go:578-607 | A fetch leaves the staged bytes the accepted contents exactly when the session has not been written, was fetched before, or the object is what was written |
| WritebackLimits.StaleUploadLosesFile | internal/staging/sync_worker.go:363-418 | A run in which a worker that waited for the object lock uploads an empty new session over a clean file |
| WritebackLimits.StaleUploadExact | internal/staging/sync_worker.go:363-418 | A worker that syncs a path, dirty or not, leaves the accepted contents in the bucket exactly when the session it finds holds fetched or written bytes, or the file is empty |
| WritebackLimits.StaleForgetLosesWrite | internal/staging/sync_worker.go:383-398 | A run in which a worker that found neither session nor file drops the entry of a write listed since |
| WritebackLimits.StaleForgetUnderWrite | internal/staging/manager.go:528-537 | A run in which the same happens with a further write in flight: before, a restart shows that write, and after, the object from before an acknowledged truncate |
| WritebackLimits.ForgetExact | internal/staging/manager.go:528-537 | Dropping an entry and its sidecar keeps every acknowledged change in the bucket or listed, and what a restart shows, whatever the bucket holds, exactly when the path is not dirty |
| WritebackLimits.CrashLosesObject | internal/staging/manager.go:314-348 | A run in which the process dies between the creation of a session and the fetch of its object, and the restart lists an empty file for upload |
| WritebackLimits.UnlistedWriteReturns | internal/staging/manager.go:314-348 | A run in which the process dies between a write to a clean file and its listing: the restart shows the object, and the first open the unlisted bytes |
| WritebackLimits.LeftBehindExact | internal/staging/manager.go:314-348 | After a restart in any state, the first open finds a session to be filled or holding what the restart shows exactly unless a file without a sidecar held other bytes than the bucket |
| WritebackProgress.OpenFills | internal/vfs/filesystem.go:264-354 | Opening a file nobody has open creates the session with its sidecar and fills it with the object, if there is one, before the handle may write |
| WritebackProgress.OpenJoins | internal/vfs/filesystem.go:264-290 | Opening a file that has a session joins it, and asks the bucket exactly when the session is neither dirty nor fetched nor has a size |
| WritebackProgress.ListCompletes | internal/staging/manager.go:405-462 | A first change is listed under a fresh generation with the session's size, its sidecar written before |
| WritebackProgress.ListAgainCompletes | internal/staging/manager.go:405-435 | A further change of a recorded entry is listed at once under a fresh generation |
| WritebackProgress.CloseCompletes | internal/staging/manager.go:351-368 | Closing gives back one reference and changes nothing else |
| WritebackProgress.SyncCompletes | internal/staging/sync_worker.go:251-492 | A sync nobody disturbs leaves the accepted contents in the bucket, no entry, claim, lock or sidecar, and removes the session exactly when it may and no handle holds it |
| WritebackProgress.FailedSyncCompletes | internal/staging/sync_worker.go:459-461 | A sync whose upload fails leaves everything as it was but the bucket, which changes exactly when the upload landed |
| WritebackProgress.CleanClaimCompletes | internal/staging/sync_worker.go:251-259 | A worker that claims a path which is clean by then gives the claim back and changes nothing |
| WritebackProgress.FindWithoutSession | internal/staging/sync_worker.go:383-398 | Without a session a worker makes one over a file left behind, and without a file drops entry, claim and sidecar |
| WritebackProgress.MutexesExclude | internal/staging/manager.go:440-509 | Claims, object locks, the sidecar mutex and the manager mutex each exclude the steps they are for |
| WritebackProgress.OrphanChange | internal/staging/session.go:327-365 | A write through a session that is no longer listed changes nothing staged |
| CommitSafety.CommitSurvivesPowerLoss | internal/staging/manager.go:161-223 | Once a commit has returned, and until the file is marked clean, whatever a power loss leaves after any run of writes, copies, attribute rewrites and further commits: the staging path names a file with every promised byte, and a whole sidecar is there |
| CommitSafety.CommittedBytesSurvive | internal/staging/manager.go:161-186 | From the beginning of a commit of a dirty file, after any run, to a power loss after any further run in which the call has returned: every byte the file held at the beginning, not overwritten since, is in the file the staging path names, and a whole sidecar is there |
| CommitSafety.BeginCoversFile | internal/staging/manager.go:161-167 | A commit can begin whenever its call is new, and puts every byte of a dirty file under way to be promised |
| CommitSafety.CommitCanFinish | internal/staging/manager.go:161-186 | Every commit under way in any reachable state can return by its own steps once the sidecar mutex is free, and they leave the files as they are |
| CommitSafety.BytesStayPromised | internal/staging/session.go:420-471 | A byte under way to be promised by a call stays so, and is promised once the call has returned, unless it is overwritten or the file marked clean |
| CommitSafety.SkipsOnlyWhenDurable | internal/staging/manager.go:171-175 | A commit goes without flushing sidecar and directory only when both are on the disk already |
| CommitSafety.CommitCanReturn | internal/staging/manager.go:161-186 | A run of one write and one commit exists that ends with the byte promised |
| CommitSafety.RunKeeps | internal/staging/manager.go:161-223 | Every run of writers, commits and the sync worker keeps the invariant behind the promise |
| CommitSafety.WriteKeeps | internal/staging/session.go:327-365 | A write makes its own bytes no longer firm and keeps every other promised byte firm, in place or in a flushed copy |
| CommitSafety.TruncateKeeps | internal/staging/session.go:532-575 | A truncate keeps every promised byte it does not cut off |
| CommitSafety.RewriteAttributesKeeps | internal/staging/path_state.go:81-121 | A rewrite of a committed sidecar is flushed before it takes its place |
| CommitSafety.RecordKeeps | internal/staging/manager.go:440-462 | Recording a path dirty keeps a committed sidecar committed |
| CommitSafety.CleanEntryKeeps | internal/staging/manager.go:496-509 | Marking clean ends what was promised |
| CommitSafety.RenewKeeps | internal/staging/manager.go:314-348 | A new session over the path keeps the invariant |
| CommitSafety.FlushKeeps | internal/staging/session.go:420-447 | Flushing a file makes its bytes firm and keeps every other call undisturbed |
| CommitSafety.CheckKeeps | internal/staging/session.go:420-471 | A call whose file was replaced meanwhile flushes again; otherwise it reads what is uncommitted |
| CommitSafety.LookKeeps | internal/staging/manager.go:171-175 | A call that skips the sidecar has nothing left to make durable |
| CommitSafety.CommitSideKeeps | internal/staging/manager.go:198-223 | Committing the sidecar keeps the invariant and every other call |
| CommitSafety.SyncDirKeeps | internal/staging/manager.go:179-181 | Flushing the directory leaves one data file and one sidecar a power loss can find |
| CommitSafety.ReturnKeeps | internal/staging/session.go:258-264 | Reporting a committed version never claims a newer one |
| CommitSafety.SkipsExactly | internal/staging/manager.go:171-175 | A commit leaves out sidecar and directory exactly when nothing changed since the last one and the path has its sidecar or needs none |
| CommitSafety.ReturnCommitsVersion | internal/staging/session.go:258-264 | A commit that returns has committed the version it read, so one that begins before another change leaves out sidecar and directory |
| CommitSafety.ClosedSessionReturns | internal/staging/session.go:420-447 | A call whose session is gone flushes nothing and returns |
| CommitSafety.ListingStepsDo | internal/staging/manager.go:123-152 | Recording a path dirty writes the sidecar, committed exactly if the one it replaces was, then raises the version, then lists the entry |
| CommitSafety.AttributeStepsDo | internal/staging/path_state.go:81-121 | A change of attributes keeps the sidecar committed exactly if it was, and raises the version |
| CommitSafety.CleaningStepsDo | internal/staging/manager.go:496-509 | Marking clean takes the entry, then the sidecar; a new session starts at version 1 with nothing committed |
| CommitSafety.ChangesGoWhere | internal/staging/session_upload.go:95-151 | While an upload reads the file a change goes to a copy, a new version to commit, and the file read stays; otherwise it goes in place |
| CommitSafety.OnlyFlushesAreFirm | internal/staging/session_upload.go:95-151 | Nothing but a flush makes bytes of a file firm, what is written or cut off is not, and until the directory is flushed a power loss may leave every entry it could before |
| CommitSafety.UnflushedMayBeLost | internal/staging/session_upload.go:95-151 | After a write in place a power loss may leave anything where it wrote; after one that went to a copy the staging path may still name the file from before |
| Recovery.RecoverFromDisk | internal/staging/manager.go:1114-1259 | Restart lists exactly the staging files with a sidecar, no conflict and no accepted delete, with their bytes; drops exactly the superseded files and the sidecars left without one; a second restart finds the same files |
| Recovery.TakeUp | internal/staging/manager.go:1132-1218 | The first pass lists what is staged and drops what an accepted delete supersedes |
| Recovery.DropStaleSidecars | internal/staging/manager.go:1220-1244 | The second pass drops exactly the sidecars without a data file |
| StagedRename.CrashListsSourceOnce | internal/staging/rename.go:62-146 | For a crash between any two disk changes of a rename to another name, a restart lists the moved file under exactly one of the two names |
| StagedRename.WhatEachPointHolds | internal/staging/rename.go:62-146 | What the directory holds under both names, and under every other, after each of the five changes |
| StagedRename.CrashKeepsOthers | internal/staging/rename.go:62-146 | A rename cut short anywhere leaves every other file as it was |
| StagedRename.DoneListsDestination | internal/staging/rename.go:62-146 | A finished rename lists the file under the new name, committed exactly when the source or the sidecar it replaces was, and leaves the old name a tombstone, no file and no sidecar |
| StagedRename.RenameToItselfLosesFile | internal/staging/rename.go:38-146 | A staged file renamed to its own name is not found by a restart |
| StagedRename.SurvivesExactly | internal/staging/rename.go:38-146 | A staged file survives its rename, wherever it is cut short, exactly when the two names differ |
| StagedRename.CrashKeepsAll | internal/vfs/filesystem.go:847-869 | Cutting a sequence of renames short, between two or inside one, loses no file that was not itself a destination |
| StagingState.RenameMovesLive | internal/staging/rename.go:38-187 | A finished rename takes the live staged file to its new name and drops or merges no other |
| StagingState.NothingStagedKeepsLive | internal/staging/rename.go:191-202 | A rename that finds no staged bytes leaves the live files alone |
| StagingState.RefusedKeepsLiveExactly | internal/staging/rename.go:114-128 | A rename whose byte move is refused adds to the live files the destination that was being deleted, and nothing else; so it leaves them as they were exactly when the destination was not being deleted |
| StagingState.RefusedKeepsSidecars | internal/staging/rename.go:209-242 | A refused rename loses no sidecar, gives a dirty destination one, and leaves the destination committed exactly when it was or the source was |
| StagingState.RenameEndsUploads | internal/staging/rename.go:88-100 | Whether the rename happens or is taken back, no upload of the destination that is under way can mark it clean, and claims stay where they are |
| StagingState.RenameKeepsSessions | internal/staging/rename.go:148-176 | Every session goes on writing the data file its name leads to |
| StagingState.SessionFollowsRename | internal/staging/rename.go:148-176 | A finished rename takes the open session to the new name and drops the one there; any other outcome, and any other path, leaves sessions alone |
| StagingState.OutcomeExactly | internal/staging/rename.go:38-128 | Which of the four outcomes a rename has, and that a conflict changes nothing |
| StagingState.RenameLeaves | internal/staging/rename.go:62-187 | What a finished rename leaves under both names on disk and in the index, and that every other name is as it was |
| StagingState.NothingStagedForgetsSource | internal/staging/rename.go:191-202 | A rename that finds nothing staged drops the source's entry and sidecar, and no other entry, sidecar, file, tombstone, claim or session |
| StagingManagerObject.StagingManager.RestorePathMetadata | internal/staging/rename.go:209-242 | Writes back the sidecar the rename replaced, which stays committed if the intent over it was, and never leaves a dirty path without one |
| StagingManagerObject.StagingManager.RenameStagedPath | internal/staging/rename.go:38-187 | The ordered changes of disk and memory add up to the renamed state that RenameLeaves, RefusedKeepsSidecars, NothingStagedForgetsSource and OutcomeExactly describe, in each of its four outcomes, and the open session follows its file |
| StagingManagerObject.StagingManager.MoveChild | internal/vfs/filesystem.go:847-869 | One child moves under a sync claim on its new name exactly when it is staged, in no conflict and not refused; otherwise the claim goes back and nothing live changes, but for a file under the new name that a refusal brings back from its delete |
| StagingManagerObject.StagingManager.MoveChildren | internal/vfs/filesystem.go:847-869 | The children moved so far are under their new names and everything else as it was; it fails exactly when a child is in conflict or refused, and without a failure all live ones are moved |
| StagingManagerObject.StagingManager.Undo | internal/vfs/filesystem.go:833-845 | Moving back in reverse order restores the live staged files, except exactly those whose move back is refused |
| StagingManagerObject.StagingManager.RenameDirectory | internal/vfs/filesystem.go:757-895 | In strings: Busy exactly when a dirty path begins with the new name and a slash; Completed exactly when nothing dirty is there, no child is in conflict or refused and the bucket agrees, and then every live file below the old name is below the new under the rest of its name, and every other stays. Otherwise every live file is as it was exactly when no move back was refused and none onto a file being deleted; claims are all given back |
| Relocation.RelocateOne | internal/vfs/filesystem.go:806-806 | Moving one file more, and moving it back, are inverse and touch no other file |
| Relocation.RelocatedIsOneToOne | internal/vfs/filesystem.go:757-766 | No two files end under one name |
| Relocation.RelocatedMoves | internal/vfs/filesystem.go:757-806 | Replacing the prefix moves exactly the files whose name is the old directory, a slash and a rest |
| Relocation.Spelled | internal/staging/manager.go:694-728 | Below a directory means its name, a slash and a rest |
| LockRanges.Subtract | internal/lock/manager.go:295-310 | The loop computes the specified subtraction |
| LockRanges.SubtractedFacts | internal/lock/manager.go:295-310 | Subtracting clears exactly the bytes of the range, touches no other, and keeps a list canonical |
| LockRanges.SortedSorts | internal/lock/manager.go:318-318 | Sorting yields a permutation in ascending order of start |
| LockRanges.MergeInPlace | internal/lock/manager.go:319-330 | The in-place merge computes the specified merge |
| LockRanges.Coalesce | internal/lock/manager.go:314-331 | Sorting and merging in place computes the merge of the sorted list |
| LockRanges.MergedFacts | internal/lock/manager.go:314-331 | Merging an ordered list changes the mode of no byte and leaves no two ranges that could be merged |
| LockRanges.LockedFacts | internal/lock/manager.go:142-143 | A granted lock gives exactly the requested bytes the requested mode, leaves every other byte as it was, and leaves the list canonical |
| LockRanges.CanonicalIsUnique | internal/lock/manager.go:314-331 | A canonical list is determined by the bytes it holds, mode by mode |
| LockTable.LockFacts | internal/lock/manager.go:131-150 | A granted lock overrides exactly its bytes and, when it adds ranges, stays within both caps |
| LockTable.UnlockFacts | internal/lock/manager.go:154-165 | A release clears exactly the owner's bytes in the range |
| LockTable.ReleaseFacts | internal/lock/manager.go:179-195 | Releasing owners removes all of their ranges and nobody else's |
| LockTable.ConflictedBytes | internal/lock/manager.go:226-243 | A conflicting range exists exactly when another owner holds a byte of the request and not both are shared |
| LockTable.StoredKeepsValid | internal/lock/manager.go:255-285 | Storing an owner's ranges keeps lists, index, counts and compatibility |
| LockTable.SetCounted | internal/lock/manager.go:255-285 | A change of one list changes each count it is part of by exactly the difference |
| LockTable.BytesDetermineTable | internal/lock/manager.go:80-97 | Two valid tables that give every byte the same mode are equal, indexes and counts included |
| LockReference.RunRefines | internal/lock/manager.go:131-195 | Over every run, the table gives the answers of a plain model that knows only which byte each owner holds in which mode, decides conflicts by bytes and caps by counting stretches, and then holds the same bytes, with lists, index and counts exact |
| LockReference.StepRefines | internal/lock/manager.go:131-195 | One operation gets the same answer from both and leaves both the same |
| LockReference.SlotsAreStretches | internal/lock/manager.go:245-251 | The ranges a cap counts are as many as the stretches of bytes held in one mode |
| LockReference.ClashesExactly | internal/lock/manager.go:226-243 | The table finds a conflict exactly when another owner holds a byte of the request and not both are shared |
| LockReference.LimitExactly | internal/lock/manager.go:131-150 | A cap refuses a lock exactly when it adds a stretch and the file or the client then has too many |
| LockReference.NeverClash | internal/lock/manager.go:131-195 | After any run no two owners hold a common byte unless both hold it shared |
| LockOrder.LeastIsUnique | internal/lock/manager.go:226-243 | Denials describe the same lock every time, whatever order the map is walked in |
| LockOrder.EarlierExactly | internal/lock/manager.go:226-243 | A denial prefers the lowest start, then the client and then the owner that come first byte by byte |
| LockOrder.LessStringExactly | internal/lock/manager.go:333-338 | One string comes before another that extends it, or by the first character in which they differ |
| LockManagerObject.LockManager.constructor | internal/lock/manager.go:101-116 | An empty, valid table; caps that are not positive select 512 and 8192 |
| LockManagerObject.LockManager.ConflictLocked | internal/lock/manager.go:226-243 | Finds a conflict exactly when there is one, and of several the one that starts first, then the one whose owner comes first |
| LockManagerObject.LockManager.FileLockCount | internal/lock/manager.go:245-251 | Counts the ranges held on a path |
| LockManagerObject.LockManager.SetLocked | internal/lock/manager.go:255-285 | Stores ranges, index and count as the specification says |
| LockManagerObject.LockManager.AcquireRange | internal/lock/manager.go:131-150 | Answers and leaves the table as the plain model of bytes does, whatever bytes it holds; rejects exactly an empty range or unknown mode; describes the least conflict; anything but a grant changes nothing |
| LockManagerObject.LockManager.Replace | internal/lock/manager.go:142-143 | The new list comes from a copy, so a refused request leaves the old one |
| LockManagerObject.LockManager.ReleaseRange | internal/lock/manager.go:154-165 | Clears the range as the plain model does, and reports an empty or inverted one |
| LockManagerObject.LockManager.Test | internal/lock/manager.go:169-176 | Answers as the plain model does for a test, knows no limit, and changes nothing |
| LockManagerObject.LockManager.ReleaseOwner | internal/lock/manager.go:287-291 | The loop over the owner's paths leaves exactly the table, and the bytes, without that owner |
| LockManagerObject.LockManager.ReleaseClient | internal/lock/manager.go:187-195 | The loop over the owners leaves exactly the table, and the bytes, without that client's owners |
| ShareTableObject.ConflictsBothWays | internal/lock/share.go:174-176 | Whether two opens clash does not depend on their order |
| ShareTableObject.ConflictsExactly | internal/lock/share.go:174-176 | Two opens clash exactly when there is a way in which one uses the file and the other does not permit it |
| ShareTableObject.ShareTable.constructor | internal/lock/share.go:68-77 | An empty table; a limit that is not positive selects 1024 |
| ShareTableObject.ShareTable.Acquire | internal/lock/share.go:83-100 | Refuses exactly for the limit, or for an open that uses the file in a way the other does not permit; otherwise adds one open; leaves the opens of a path permitting each other exactly if they did |
| ShareTableObject.ShareTable.Release | internal/lock/share.go:103-126 | Takes exactly that open out, wherever renames have moved it, does nothing a second time, and no path whose opens permit each other ceases to be one |
| ShareTableObject.ShareTable.Rename | internal/lock/share.go:154-170 | Appends the opens to those of the new name, which permit each other exactly when those of each name do and the two do; no other path changes |
| ChunkedRead.ReadRange | internal/posix/operations.go:702-799 | A successful read of at least one byte gives byte i of the answer as byte offset + i of the object, as many as asked for or the object has; it fails only for want of a chunk that overlaps the request; a read of length 0 gives exactly the rest of the cached chunk it points into, or nothing |
| ChunkedRead.ReadWarmChunks | internal/posix/operations.go:804-828 | Cached chunks alone give the plain slice, and are enough whenever all needed ones are there; a read of length 0 gets the rest of the chunk |
| ChunkedRead.Gather | internal/posix/operations.go:726-737 | Every needed chunk is found or listed as missing, and only needed ones are listed |
| ChunkedRead.ReadAhead | internal/posix/operations.go:744-761 | Read-ahead adds exactly the chunks past the request that start within the window and the known object size and are not cached |
| ChunkedRead.FetchMissing | internal/posix/operations.go:848-905 | Fails exactly when a needed chunk cannot be fetched |
| ChunkedRead.Assemble | internal/posix/operations.go:772-798 | The needed chunks assemble to the plain slice |
| ChunkedRead.ReadCold | internal/posix/operations.go:726-798 | Gathering, fetching and assembling give the plain slice or fail for want of a needed chunk |
| ChunkedRead.ZeroLengthReadReturnsBytes | internal/cache/data.go:126-148 | A read of length 0 that returns the bytes [2, 3] of a cached chunk |
| FenceState.EndIsExact | internal/posix/listing_fence.go:25-75 | After any run, a listing is told its directory was left alone exactly when the invalidations since its own begin number a multiple of 2^64, so none if fewer, though entries are deleted and restart at 0 |
| FenceState.RunMoves | internal/posix/listing_fence.go:25-75 | While a listing is in flight the generation of its directory moves by exactly the number of invalidations |
| FenceState.StepKeeps | internal/posix/listing_fence.go:25-75 | A directory has an entry exactly while listings of it are in flight, and the entry counts them |
| ListingFenceObject.ListingFence.BeginListing | internal/posix/listing_fence.go:25-38 | Counts the listing and returns the generation of its directory, which is unchanged then; other directories do not notice |
| ListingFenceObject.ListingFence.EndListing | internal/posix/listing_fence.go:42-55 | Says exactly whether the directory still has the generation, and deletes the entry with the last listing; other directories do not notice |
| ListingFenceObject.ListingFence.InvalidateDir | internal/posix/listing_fence.go:58-64 | No listing of the directory in flight will be told it was left alone, listings of other directories do not notice, and all still end |
| ListingFenceObject.ListingFence.InvalidatePrefix | internal/posix/listing_fence.go:67-75 | No listing in flight of a directory with the prefix will be told it was left alone, and listings of others do not notice |
| FoldLookup.MatchChild | internal/vfs/names.go:142-165 | The lookup gives the choice among the names it comes to see, whichever listings fail and in whatever order they arrive; if none fails, that is what a scan of the whole directory would give, for every key without U+FFFD in the part the prefixes cover |
| FoldLookup.PrefixesFindAllExactly | internal/vfs/names.go:208-224 | Every name equal to the key but for case begins with one of the prefixes exactly when the covered part of the key has no U+FFFD |
| FoldLookup.FoldPrefixes | internal/vfs/names.go:208-224 | Lists exactly the case variants of the covered part, at most the limit of them unless the first character alone has more |
| FoldLookup.CoveredExactly | internal/vfs/names.go:208-224 | The prefixes cover as much of the key as has no more variants than the limit, and always its first character |
| FoldLookup.FoldCandidates | internal/vfs/names.go:174-201 | The candidates are the staged names and the listed names that begin with one of the prefixes whose listing does not fail |
| FoldLookup.FoldOrbit | internal/vfs/names.go:229-235 | Walks once round the characters equal to one, from it and back to it |
| FoldLookup.Choose | internal/vfs/names.go:153-164 | The exact name, else the first case-insensitive match in order, else the key |
| FoldLookup.ChoiceIsUnique | internal/vfs/names.go:142-165 | At most one name can be the answer |
| FoldLookup.EqualCharSymmetric | internal/vfs/names.go:229-235 | Equality but for case is symmetric |
| FoldLookup.EqualFoldExactly | internal/vfs/names.go:174-224 | Names are equal but for case exactly when they are as long and folding leads from each character of one to that of the other |
| WindowsNames.RoundTripExactly | internal/vfs/names.go:49-104 | The key behind a shown name is the key that was shown exactly when it has no character in the private range and, if anything in it is mapped, no undecodable byte |
| WindowsNames.MappingTable | internal/vfs/names.go:19-46 | The stand-in of every control and reserved character, and what every stand-in stands for |
| WindowsNames.ShownExactly | internal/vfs/names.go:49-81 | Every character is shown as its stand-in, or itself, and the trailing run of spaces and periods as theirs; the dot names and names with nothing to map stay |
| WindowsNames.StoredExactly | internal/vfs/names.go:84-104 | Every character of a shown name is stored as what it stands for; a name without stand-ins is the key |
| WindowsNames.DistinctKeysDistinctNames | internal/vfs/names.go:49-104 | Distinct decodable keys without private characters are shown under distinct names |
| WindowsNames.ShownNamesAreUsable | internal/vfs/names.go:49-81 | No shown name but the dot names has a reserved or control character or ends in a space or period |
| WindowsNames.UndecodableByteIsLost | internal/vfs/names.go:49-104 | A key with an undecodable byte beside a mapped character that does not come back |
| WindowsNames.PresentName | internal/vfs/names.go:49-81 | The two in-place loops compute the shown name |
| WindowsNames.KeyOf | internal/vfs/names.go:84-104 | The in-place loop computes the stored name |
| Pressure.RunIsBounded | internal/staging/manager.go:915-992 | Over every run of writes, truncates, fetches and removals, interleaved at each of their steps, the reservation total is the sum outstanding, and staged bytes plus growth admitted and not applied, less the bytes that were never reserved, stay within the quota and below the critical watermark, or at most where they started |
| Pressure.StepKeeps | internal/staging/manager.go:915-992 | One event keeps the total exact, never releases more than is reserved, and raises the committed bytes only to within bounds or by what it adds beyond its reservation |
| Pressure.DecideExactly | internal/staging/manager.go:915-1036 | The same of the decision every run is made with |
| Pressure.CallStepsDo | internal/staging/session.go:301-365 | Every write asks for admission and of truncates those that seem to grow; a truncate leaves its end, a write the greater of file and reach; a call may return at any time |
| Pressure.NoExcessExactly | internal/staging/session.go:301-314 | An admitted write or truncate adds nothing beyond its reservation exactly when its file is not now smaller than both the size it read and its end |
| Pressure.SteadyRunIsBounded | internal/staging/session.go:301-323 | From an empty staging area, a run without fetches in which no file has shrunk under a write keeps the staged bytes within the quota and below the critical watermark |
| Pressure.ShrunkFileExceedsQuota | internal/staging/session.go:532-545 | A run in which a file is truncated between the reservation of a write and the write, and the staging area then holds nearly twice the quota |
| Pressure.Reservations.TryReserve | internal/staging/manager.go:880-976 | One pass of the admission loop, in numbers: with backpressure on it rejects exactly what would reach the critical watermark, exceed the quota or outgrow the free disk, and makes the rest wait exactly at the high watermark when writes are to block; with it off it rejects exactly what would exceed the quota; only a grant reserves |
| Pressure.Reservations.Release | internal/staging/manager.go:978-992 | A write gives back in full what it reserved and no more, so that the total is the sum of what the others hold |
| Multipart.UploadParts | internal/staging/sync_worker.go:590-618 | Parts are numbered 1 to size over part size rounded up, are full but for the last, and join to exactly the first size bytes of the snapshot, as far as it has them |
| Varint.RoundTrip | internal/posix/streams.go:64-71 | A 64-bit varint is read back, with its length, whatever follows it |
| Varint.EncodedExactly | internal/posix/streams.go:29-32 | The encoding is the number in groups of seven bits, lowest first, the high bit set in all but the last, and no longer than it need be |
| Varint.DecodedExactly | internal/posix/streams.go:64-71 | What is read is exactly the varint at the head, unless it takes more than ten bytes or 64 bits |
| Base64.RoundTrip | internal/posix/streams.go:18-20 | Decoding unpadded base64 of section 4 of RFC 4648 gives the bytes back |
| Base64.SextetsExactly | internal/posix/streams.go:18-20 | Three bytes and four letters are the same 24 bits, highest first; one or two bytes are filled up with zero bits |
| Base64.AlphabetInOrder | internal/posix/streams.go:18-20 | The alphabet is capital letters, small letters, digits, plus and slash, in this order |
| Base64.DecodesExactly | internal/posix/streams.go:40-44 | Text is decoded exactly when, line breaks aside, it is letters of the alphabet and does not end in a group of one |
| Base64.LengthOfEncoded | internal/posix/streams.go:75-80 | The encoded length is the one computed without encoding |
| Streams.RoundTrip | internal/posix/streams.go:18-62 | Decoding the encoding of any stream map gives it back; of an empty one, no streams |
| Streams.SizeIsLength | internal/posix/streams.go:75-80 | StreamsSize is the length of the encoding |
| Streams.AppendStreams | internal/posix/streams.go:22-35 | The loop writes the length-prefixed fields in the order of the names |
| Streams.DecodeStreams | internal/posix/streams.go:40-62 | On any text the loop ends, stays in bounds and computes the decoded streams |
| Streams.TakeFieldOfField | internal/posix/streams.go:64-71 | A field is taken back off, and the rest with it |
| Streams.TakeFieldExactly | internal/posix/streams.go:64-71 | What is taken off any bytes is exactly a varint length and that many bytes |
| Streams.RawOfOne | internal/posix/streams.go:22-35 | The format of one stream: length of the name, name, length, bytes |
| Streams.RawOfJoins | internal/posix/streams.go:22-35 | And of several: one after the other |
| Streams.SortedNamesAreUnique | internal/posix/streams.go:22-27 | Two sorted lists of the same names are one list, so a map has one encoding |
| Streams.LessExactly | internal/posix/streams.go:22-27 | Names are ordered byte by byte, a prefix first |

## Left out

- WritebackRuns.NoAcceptedWriteIsLost: holds for runs in which, on the path in question, a fetch meets the condition of PrefetchExact, a snapshot that of StaleUploadExact, a dropped entry that of ForgetExact, and a crash after which the run goes on those of CrashExact and LeftBehindExact; the code does not ensure these, and the runs in WritebackLimits show what follows.
- WritebackRuns.NoAcceptedWriteIsLost: covers file contents and not attributes, because changing attributes gives the entry no new generation.
- WritebackSafety.PrefetchKeeps: asks for a fetch that meets the condition of PrefetchExact, because the code does not look whether the session was written.
- WritebackSafety.OpenSnapshotKeeps: asks for a dirty path or a session that stands for the file, because a worker does not look again once it holds the object lock; StaleUploadExact shows the condition exact.
- WritebackSafety.ForgetKeeps: asks for a path that is not dirty, because the worker does not look; ForgetExact shows the condition exact.
- StagingManagerObject.StagingManager.RenameDirectory: staged bytes that a sync takes away between the check and the move, and sidecars that cannot be written, are not modelled; a directory at the root of the tree is not renamed.
- StagedRename.CrashListsSourceOnce: a process crash, not a power loss; the code does not flush a rename.
- Recovery.RecoverFromDisk: the copies an interrupted detach leaves behind, unreadable sidecars and conflict records are not modelled.
- Pressure.RunIsBounded: the sizes of the staged files are added up at one instant, where the code reads them one by one; a full bucket only refuses more.
- FoldLookup.MatchChild: folding and byte order are parameters, and so are the names listed and staged, from which entries with a pending delete are already left out.
- ChunkedRead.ReadRange: offsets and lengths do not overflow 64 bits, and cached chunks agree with the object.
- LockTable.LockFacts: the caps bind only a lock that adds ranges; a release that splits a range is not capped in the code either.
- Handles that stay open across a rename, deletes with tombstones inside the write-back runs, conflicts and their recovery, `TriggerSync` and the discards of sessions.
- `shouldSync`, retry and wait intervals: a worker may sync at any time, a waiting write looks again at any time.
- Disk errors other than those named; a PUT takes effect before it returns, and a failed one may have taken effect.
- Staging file names: the hash of the path is taken to be injective, and a sidecar to lie under the name of the path it names.
- The mutexes shared between paths are kept per path, which adds interleavings and removes none; creating a session writes its sidecar in the same step.
- `Locks`, `Opens`, `Len` and other listings for diagnostics; directory times; the data cache's size accounting and invalidation; the HA lease; protocol servers, object-store client, configuration, metrics and logging.
- Integer widths: 64-bit wrap-around is modelled for the fence's generation and the varint limit, and nowhere else.
