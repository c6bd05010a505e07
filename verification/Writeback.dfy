/** The write-back protocol: client handles, sync workers and restarts over the
    staging area (internal/staging/manager.go, internal/staging/sync_worker.go,
    internal/vfs/filesystem.go).

    Each step is one critical section or one disk or bucket operation of the
    code. Any number of handles and workers interleave. Two mutexes the code
    shares between all paths, the manager's and the sidecars', are kept per path
    here, which only adds interleavings. */
module Writeback {
  import opened Common
  import S = SessionState
  import I = IndexState

  type HandleId = nat
  type WorkerId = nat

  datatype HandlePhase =
    | Opening(truncates: bool)  // holds a session reference, about to look whether it carries data
    | Asking                    // it does not: about to ask whether the object exists
    | WantsPrefetch             // was told it does, and that nothing is staged yet
    | MustTruncate              // opened to truncate, not done yet
    | Ready
    | Changed                   // the staged bytes have changed, MarkDirty is still to come
    | Unlisted                  // MarkDirtyAgain declined, the sidecar is to be written
    | Recorded                  // holds the sidecar mutex, the sidecar is written

  datatype Handle = Handle(session: nat, phase: HandlePhase)

  datatype WorkerPhase =
    | Claimed
    | Queued                                        // saw the path dirty, waits for the object lock
    | Locked
    | Missing                                       // found neither session nor staging file
    | Found(session: nat)
    | GenerationRead(session: nat, generation: nat)
    | Snapped(session: nat, generation: nat)
    | Uploaded(session: nat, generation: nat)
    | DroppingSidecar(session: nat)                 // marked clean, holds the sidecar mutex
    | Cleaned(session: nat)
    | Unlinking                                     // removed the session and its file, holds the manager mutex
    | Finished
    | Unlocked

  datatype Staged = Staged(id: nat, session: S.Session)

  datatype Holder = ByHandle(handle: HandleId) | ByWorker(worker: WorkerId)

  /** Everything the gateway, its disk and the bucket hold for one path.
      `accepted` is the reference: the contents a plain file would have after the
      same writes and truncates. `recent` holds the values it has had since a
      change of the file was last listed, and so acknowledged: a restart may show
      any of them and no other. */
  datatype PathState = PathState(
    bucket: Option<Bytes>,
    accepted: Option<Bytes>,
    recent: set<Option<Bytes>>,
    sidecar: bool,
    stranded: Option<Bytes>,  // a staging file that no session stands for
    staged: Option<Staged>,   // the session the manager lists
    refs: nat,                // and its reference count
    nextId: nat,
    handles: map<HandleId, Handle>,
    workers: map<WorkerId, WorkerPhase>,
    objectLock: Option<WorkerId>,
    sidecarMu: Option<Holder>)

  datatype Step =
    | Open(h: HandleId, truncates: bool)
    | Look(h: HandleId)
    | Stat(h: HandleId)
    | Prefetch(h: HandleId)
    | Change(h: HandleId, op: S.Op)
    | Mark(h: HandleId)
    | RecordSidecar(h: HandleId)
    | ListDirty(h: HandleId)
    | Close(h: HandleId)
    | Claim(w: WorkerId)
    | Recheck(w: WorkerId)
    | LockObject(w: WorkerId)
    | FindSession(w: WorkerId)
    | Forget(w: WorkerId)
    | ReadGeneration(w: WorkerId)
    | OpenSnapshot(w: WorkerId)
    | Upload(w: WorkerId)
    | UploadFails(w: WorkerId, landed: bool)
    | MarkClean(w: WorkerId)
    | DropSidecar(w: WorkerId)
    | Cleanup(w: WorkerId, cleanAfterSync: bool)
    | UnlinkSidecar(w: WorkerId)
    | Finish(w: WorkerId)
    | Unclaim(w: WorkerId)

  type Result = Option<(I.Index, PathState)>

  /** Whether the session can answer, without asking the bucket, that the file
      exists (OpenFile's existenceKnown). */
  predicate Known(s: S.Session) {
    s.dirty || s.prefetched || s.size > 0
  }

  predicate HasSession(ps: PathState, id: nat) {
    ps.staged.Some? && ps.staged.value.id == id
  }

  predicate InFlight(phase: HandlePhase) {
    phase.Changed? || phase.Unlisted? || phase.Recorded?
  }

  /** Some write is between its byte change and the end of its MarkDirty. */
  ghost predicate Pending(handles: map<HandleId, Handle>) {
    exists h :: h in handles && InFlight(handles[h].phase)
  }

  predicate HoldsObject(phase: WorkerPhase) {
    !(phase.Claimed? || phase.Queued? || phase.Unlocked?)
  }

  /** Nobody removes the session: the manager mutex is free. */
  predicate ManagerFree(ps: PathState) {
    forall w :: w in ps.workers ==> !ps.workers[w].Unlinking?
  }

  function SetPhase(ps: PathState, h: HandleId, phase: HandlePhase): PathState
    requires h in ps.handles
  {
    ps.(handles := ps.handles[h := ps.handles[h].(phase := phase)])
  }

  function SetSession(ps: PathState, s: S.Session): PathState
    requires ps.staged.Some?
  {
    ps.(staged := Some(ps.staged.value.(session := s)))
  }

  function SetWorker(ps: PathState, w: WorkerId, phase: WorkerPhase): PathState {
    ps.(workers := ps.workers[w := phase])
  }

  /** The contents of a plain file after a write or a truncate. */
  function Plain(contents: Option<Bytes>, op: S.Op): Option<Bytes> {
    Some(S.PlainAfter(S.PlainFile(contents.GetOr([]), true), op).bytes)
  }

  function SizeOf(ps: PathState): nat {
    if ps.staged.Some? then ps.staged.value.session.size else 0
  }

  function DoOpen(ix: I.Index, p: Path, ps: PathState, h: HandleId, truncates: bool): Result {
    // GetOrCreateSession, under the manager mutex.
    if h in ps.handles || !ManagerFree(ps) then None
    else if ps.staged.Some? then
      Some((ix, ps.(refs := ps.refs + 1,
                    handles := ps.handles[h := Handle(ps.staged.value.id, Opening(truncates))])))
    else if ps.sidecarMu.Some? then None
    else
      Some((ix, ps.(staged := Some(Staged(ps.nextId, S.NewSession(ps.stranded.GetOr([])))),
                    refs := 1,
                    nextId := ps.nextId + 1,
                    stranded := None,
                    sidecar := true,
                    handles := ps.handles[h := Handle(ps.nextId, Opening(truncates))])))
  }

  function DoLook(ix: I.Index, p: Path, ps: PathState, h: HandleId): Result {
    if h !in ps.handles || !ps.handles[h].phase.Opening? || !HasSession(ps, ps.handles[h].session) then None
    else if ps.handles[h].phase.truncates then Some((ix, SetPhase(ps, h, MustTruncate)))
    else if Known(ps.staged.value.session) then Some((ix, SetPhase(ps, h, Ready)))
    else Some((ix, SetPhase(ps, h, Asking)))
  }

  function DoStat(ix: I.Index, p: Path, ps: PathState, h: HandleId): Result {
    if h !in ps.handles || !ps.handles[h].phase.Asking? then None
    else Some((ix, SetPhase(ps, h, if ps.bucket.None? then Ready else WantsPrefetch)))
  }

  function DoPrefetch(ix: I.Index, p: Path, ps: PathState, h: HandleId): Result {
    if h !in ps.handles || !ps.handles[h].phase.WantsPrefetch? || !HasSession(ps, ps.handles[h].session)
       || ps.bucket.None? then None
    else Some((ix, SetPhase(SetSession(ps, S.AfterPrefetch(ps.staged.value.session, ps.bucket.value)), h, Ready)))
  }

  /** The change of handle h becomes the file's contents, for now unlisted. */
  function Changes(ps: PathState, h: HandleId, accepted: Option<Bytes>): PathState
    requires h in ps.handles
  {
    SetPhase(ps, h, Changed).(accepted := accepted, recent := ps.recent + {accepted})
  }

  /** The change of handle h is listed, and MarkDirty returns. */
  function Lists(ps: PathState, h: HandleId): PathState
    requires h in ps.handles
  {
    SetPhase(ps, h, Ready).(recent := {ps.accepted}, sidecarMu := None)
  }

  function DoChange(ix: I.Index, p: Path, ps: PathState, h: HandleId, op: S.Op): Result {
    if h !in ps.handles || !(op.WriteOp? || op.TruncateOp?) then None
    else if !(ps.handles[h].phase.Ready? || (ps.handles[h].phase.MustTruncate? && op == S.TruncateOp(0))) then None
    else if !HasSession(ps, ps.handles[h].session) then
      // A session the manager no longer lists: its file is unlinked.
      Some((ix, Changes(ps, h, Plain(ps.accepted, op))))
    else if S.Refused(ps.staged.value.session, op) then Some((ix, ps))
    else Some((ix, Changes(SetSession(ps, S.After(ps.staged.value.session, op)), h, Plain(ps.accepted, op))))
  }

  function DoMark(ix: I.Index, p: Path, ps: PathState, h: HandleId): Result {
    if h !in ps.handles || !ps.handles[h].phase.Changed? then None
    else if I.CanMarkAgain(ix, p) then
      Some((I.List(ix, p, SizeOf(ps), true), Lists(ps, h).(sidecarMu := ps.sidecarMu)))
    else Some((ix, SetPhase(ps, h, Unlisted)))
  }

  function DoRecordSidecar(ix: I.Index, p: Path, ps: PathState, h: HandleId): Result {
    if h !in ps.handles || !ps.handles[h].phase.Unlisted? || ps.sidecarMu.Some? then None
    else if I.CanMarkAgain(ix, p) then Some((I.List(ix, p, SizeOf(ps), true), Lists(ps, h)))
    else Some((ix, SetPhase(ps, h, Recorded).(sidecar := true, sidecarMu := Some(ByHandle(h)))))
  }

  function DoListDirty(ix: I.Index, p: Path, ps: PathState, h: HandleId): Result {
    if h !in ps.handles || !ps.handles[h].phase.Recorded? then None
    else Some((I.List(ix, p, SizeOf(ps), true), Lists(ps, h)))
  }

  function DoClose(ix: I.Index, p: Path, ps: PathState, h: HandleId): Result {
    if h !in ps.handles || InFlight(ps.handles[h].phase) || !ManagerFree(ps) then None
    else Some((ix, ps.(refs := if ps.refs > 0 then ps.refs - 1 else 0, handles := ps.handles - {h})))
  }

  function DoClaim(ix: I.Index, p: Path, ps: PathState, w: WorkerId): Result {
    if w in ps.workers || p in ix.syncing then None
    else Some((I.Claim(ix, p), SetWorker(ps, w, Claimed)))
  }

  function DoRecheck(ix: I.Index, p: Path, ps: PathState, w: WorkerId): Result {
    if w !in ps.workers || !ps.workers[w].Claimed? then None
    else if p in ix.dirty then Some((ix, SetWorker(ps, w, Queued)))
    else Some((I.Release(ix, p), ps.(workers := ps.workers - {w})))
  }

  function DoLockObject(ix: I.Index, p: Path, ps: PathState, w: WorkerId): Result {
    if w !in ps.workers || !ps.workers[w].Queued? || ps.objectLock.Some? then None
    else Some((ix, SetWorker(ps, w, Locked).(objectLock := Some(w))))
  }

  function DoFindSession(ix: I.Index, p: Path, ps: PathState, w: WorkerId): Result {
    if w !in ps.workers || !ps.workers[w].Locked? || !ManagerFree(ps) then None
    else if ps.staged.Some? then Some((ix, SetWorker(ps, w, Found(ps.staged.value.id))))
    else if ps.stranded.None? then Some((ix, SetWorker(ps, w, Missing)))
    else if ps.sidecarMu.Some? then None
    else
      // RecoverSessionFromStaging.
      Some((ix, SetWorker(ps, w, Found(ps.nextId)).(
                  staged := Some(Staged(ps.nextId, S.NewSession(ps.stranded.value).(dirty := true))),
                  refs := 0,
                  nextId := ps.nextId + 1,
                  stranded := None,
                  sidecar := true)))
  }

  function DoForget(ix: I.Index, p: Path, ps: PathState, w: WorkerId): Result {
    if w !in ps.workers || !ps.workers[w].Missing? || ps.sidecarMu.Some? then None
    else Some((I.Clean(ix, p), SetWorker(ps, w, Finished).(sidecar := false)))
  }

  function DoReadGeneration(ix: I.Index, p: Path, ps: PathState, w: WorkerId): Result {
    if w !in ps.workers || !ps.workers[w].Found? then None
    else Some((ix, SetWorker(ps, w, GenerationRead(ps.workers[w].session,
                                                   if p in ix.dirty then ix.dirty[p].generation else 0))))
  }

  function DoOpenSnapshot(ix: I.Index, p: Path, ps: PathState, w: WorkerId): Result {
    if w !in ps.workers || !ps.workers[w].GenerationRead? then None
    else if !HasSession(ps, ps.workers[w].session) then Some((ix, SetWorker(ps, w, Finished)))
    else Some((ix, SetWorker(SetSession(ps, S.AfterOpen(ps.staged.value.session, w)), w,
                             Snapped(ps.workers[w].session, ps.workers[w].generation))))
  }

  function DoUpload(ix: I.Index, p: Path, ps: PathState, w: WorkerId): Result {
    if w !in ps.workers || !ps.workers[w].Snapped? || !HasSession(ps, ps.workers[w].session)
       || w !in ps.staged.value.session.snapshots then None
    else Some((ix, SetWorker(ps, w, Uploaded(ps.workers[w].session, ps.workers[w].generation))
                   .(bucket := Some(S.SnapshotBytes(ps.staged.value.session, w)))))
  }

  function DoUploadFails(ix: I.Index, p: Path, ps: PathState, w: WorkerId, landed: bool): Result {
    // A failed request may have reached the bucket all the same.
    if w !in ps.workers || !ps.workers[w].Snapped? || !HasSession(ps, ps.workers[w].session)
       || w !in ps.staged.value.session.snapshots then None
    else Some((ix, SetWorker(ps, w, Finished)
                   .(bucket := if landed then Some(S.SnapshotBytes(ps.staged.value.session, w)) else ps.bucket)))
  }

  function DoMarkClean(ix: I.Index, p: Path, ps: PathState, w: WorkerId): Result {
    if w !in ps.workers || !ps.workers[w].Uploaded? || ps.sidecarMu.Some? then None
    else
      // markCleanIfUnchanged.
      if !I.Unchanged(ix, p, ps.workers[w].generation) then Some((ix, SetWorker(ps, w, Finished)))
      else if p in ix.dirty then
        Some((I.Clean(ix, p),
              SetWorker(ps, w, DroppingSidecar(ps.workers[w].session)).(sidecarMu := Some(ByWorker(w)))))
      else Some((I.Clean(ix, p), SetWorker(ps, w, Cleaned(ps.workers[w].session))))
  }

  function DoDropSidecar(ix: I.Index, p: Path, ps: PathState, w: WorkerId): Result {
    if w !in ps.workers || !ps.workers[w].DroppingSidecar? then None
    else Some((ix, SetWorker(ps, w, Cleaned(ps.workers[w].session)).(sidecar := false, sidecarMu := None)))
  }

  function DoCleanup(ix: I.Index, p: Path, ps: PathState, w: WorkerId, cleanAfterSync: bool): Result {
    // cleanupSyncedSession, under the manager mutex.
    if w !in ps.workers || !ps.workers[w].Cleaned? || !ManagerFree(ps) then None
    else if cleanAfterSync && HasSession(ps, ps.workers[w].session) && ps.refs == 0 && p !in ix.dirty then
      Some((ix, SetWorker(ps, w, Unlinking).(staged := None)))
    else Some((ix, SetWorker(ps, w, Finished)))
  }

  function DoUnlinkSidecar(ix: I.Index, p: Path, ps: PathState, w: WorkerId): Result {
    if w !in ps.workers || !ps.workers[w].Unlinking? then None
    else Some((ix, SetWorker(ps, w, Finished).(sidecar := false)))
  }

  function DoFinish(ix: I.Index, p: Path, ps: PathState, w: WorkerId): Result {
    // The snapshot is closed and the object lock released.
    if w !in ps.workers || !ps.workers[w].Finished? then None
    else if ps.staged.Some? then
      Some((ix, SetWorker(SetSession(ps, S.AfterClose(ps.staged.value.session, w)), w, Unlocked)
                .(objectLock := None)))
    else Some((ix, SetWorker(ps, w, Unlocked).(objectLock := None)))
  }

  function DoUnclaim(ix: I.Index, p: Path, ps: PathState, w: WorkerId): Result {
    if w !in ps.workers || !ps.workers[w].Unlocked? then None
    else Some((I.Release(ix, p), ps.(workers := ps.workers - {w})))
  }

  /** One step on path p; None when the step cannot be taken. */
  function Next(ix: I.Index, p: Path, ps: PathState, step: Step): Result {
    match step
    case Open(h, truncates) => DoOpen(ix, p, ps, h, truncates)
    case Look(h) => DoLook(ix, p, ps, h)
    case Stat(h) => DoStat(ix, p, ps, h)
    case Prefetch(h) => DoPrefetch(ix, p, ps, h)
    case Change(h, op) => DoChange(ix, p, ps, h, op)
    case Mark(h) => DoMark(ix, p, ps, h)
    case RecordSidecar(h) => DoRecordSidecar(ix, p, ps, h)
    case ListDirty(h) => DoListDirty(ix, p, ps, h)
    case Close(h) => DoClose(ix, p, ps, h)
    case Claim(w) => DoClaim(ix, p, ps, w)
    case Recheck(w) => DoRecheck(ix, p, ps, w)
    case LockObject(w) => DoLockObject(ix, p, ps, w)
    case FindSession(w) => DoFindSession(ix, p, ps, w)
    case Forget(w) => DoForget(ix, p, ps, w)
    case ReadGeneration(w) => DoReadGeneration(ix, p, ps, w)
    case OpenSnapshot(w) => DoOpenSnapshot(ix, p, ps, w)
    case Upload(w) => DoUpload(ix, p, ps, w)
    case UploadFails(w, landed) => DoUploadFails(ix, p, ps, w, landed)
    case MarkClean(w) => DoMarkClean(ix, p, ps, w)
    case DropSidecar(w) => DoDropSidecar(ix, p, ps, w)
    case Cleanup(w, cleanAfterSync) => DoCleanup(ix, p, ps, w, cleanAfterSync)
    case UnlinkSidecar(w) => DoUnlinkSidecar(ix, p, ps, w)
    case Finish(w) => DoFinish(ix, p, ps, w)
    case Unclaim(w) => DoUnclaim(ix, p, ps, w)
  }
}
