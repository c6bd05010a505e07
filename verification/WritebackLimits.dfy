/** Where the write-back protocol does lose accepted contents: runs of the code
    as it is, and for each the exact condition under which the step that fails is
    harmless. The main theorem is about the runs without such steps. */
module WritebackLimits {
  import opened Common
  import S = SessionState
  import I = IndexState
  import opened Writeback
  import opened WritebackSafety
  import opened WritebackRuns
  import G = WritebackProgress

  type State = G.State

  const P: Path := "f"

  /** Some run of the code leads from a gateway that has just started, with the
      given object in the bucket, to s. */
  ghost predicate Reached(bucket: Option<Bytes>, s: State) {
    exists steps :: G.PathRun(P, (I.EmptyIndex, FreshPath(bucket)), steps) == Some(s)
  }

  lemma Start(bucket: Option<Bytes>)
    ensures Reached(bucket, (I.EmptyIndex, FreshPath(bucket)))
  {
    assert G.PathRun(P, (I.EmptyIndex, FreshPath(bucket)), []) == Some((I.EmptyIndex, FreshPath(bucket)));
  }

  lemma Take(bucket: Option<Bytes>, s: State, step: Step, t: State)
    requires Reached(bucket, s) && Next(s.0, P, s.1, step) == Some(t)
    ensures Reached(bucket, t)
  {
    hide Next;
    var steps :| G.PathRun(P, (I.EmptyIndex, FreshPath(bucket)), steps) == Some(s);
    G.RunOneMore(P, (I.EmptyIndex, FreshPath(bucket)), steps, s, step);
  }

  /** A prefetch leaves the staged bytes the accepted contents exactly when the
      session was fetched before, has not been written, or the object happens to
      be what was written. */
  lemma PrefetchExact(ix: I.Index, p: Path, ps: PathState, h: HandleId)
    requires PathInv(EntryOf(ix, p), ps) && DoPrefetch(ix, p, ps, h).Some?
    ensures var s := ps.staged.value.session;
            var next := DoPrefetch(ix, p, ps, h).value.1;
            S.Contents(next.staged.value.session) == ps.accepted.GetOr([])
            <==> s.prefetched || !s.dirty || ps.bucket == ps.accepted
  {
    hide InvWorkers;
    var s := ps.staged.value.session;
    S.StepLemma(s, S.PrefetchOp(ps.bucket.value));
    hide S.Valid, S.Contents, S.AfterPrefetch;
    if !s.dirty && !s.prefetched {
      assert !Pending(ps.handles);
    }
  }

  // Stretches of a run in which one handle or worker moves alone.

  /** A change is listed: Mark, RecordSidecar, ListDirty. */
  lemma ListsChange(b: Option<Bytes>, ix: I.Index, ps: PathState, h: HandleId)
    requires Reached(b, (ix, ps)) && P !in ix.dirty
    requires h in ps.handles && ps.handles[h].phase.Changed? && ps.sidecarMu.None?
    ensures Reached(b, (I.List(ix, P, SizeOf(ps), true), Lists(ps, h).(sidecar := true)))
  {
    hide Reached;
    Take(b, (ix, ps), Mark(h), (ix, SetPhase(ps, h, Unlisted)));
    var recorded := SetPhase(SetPhase(ps, h, Unlisted), h, Recorded).(sidecar := true, sidecarMu := Some(ByHandle(h)));
    Take(b, (ix, SetPhase(ps, h, Unlisted)), RecordSidecar(h), (ix, recorded));
    var listed := Lists(recorded, h);
    Take(b, (ix, recorded), ListDirty(h), (I.List(ix, P, SizeOf(ps), true), listed));
    assert listed.handles == SetPhase(ps, h, Ready).handles;
  }

  /** A handle opens a path that has no session, and looks at the new one: Open, Look. */
  function OpenedBy(ps: PathState, h: HandleId, phase: HandlePhase): PathState {
    ps.(staged := Some(Staged(ps.nextId, S.NewSession([]))), refs := 1, nextId := ps.nextId + 1, sidecar := true,
        handles := ps.handles[h := Handle(ps.nextId, phase)])
  }

  lemma Opens(b: Option<Bytes>, ix: I.Index, ps: PathState, h: HandleId, truncates: bool)
    requires Reached(b, (ix, ps)) && h !in ps.handles && ManagerFree(ps)
    requires ps.staged.None? && ps.stranded.None? && ps.sidecarMu.None?
    ensures Reached(b, (ix, OpenedBy(ps, h, if truncates then MustTruncate else Asking)))
  {
    hide Reached;
    var opening := OpenedBy(ps, h, Opening(truncates));
    Take(b, (ix, ps), Open(h, truncates), (ix, opening));
    var looked := SetPhase(opening, h, if truncates then MustTruncate else Asking);
    Take(b, (ix, opening), Look(h), (ix, looked));
    assert looked.handles == OpenedBy(ps, h, if truncates then MustTruncate else Asking).handles;
  }

  /** A worker finds the path dirty: Claim, Recheck. */
  lemma Queues(b: Option<Bytes>, ix: I.Index, ps: PathState, w: WorkerId)
    requires Reached(b, (ix, ps)) && P in ix.dirty && P !in ix.syncing && w !in ps.workers
    ensures Reached(b, (I.Claim(ix, P), SetWorker(ps, w, Queued)))
  {
    hide Reached;
    Take(b, (ix, ps), Claim(w), (I.Claim(ix, P), SetWorker(ps, w, Claimed)));
    var queued := SetWorker(SetWorker(ps, w, Claimed), w, Queued);
    Take(b, (I.Claim(ix, P), SetWorker(ps, w, Claimed)), Recheck(w), (I.Claim(ix, P), queued));
    assert queued.workers == SetWorker(ps, w, Queued).workers;
  }

  function UploadedBy(ix: I.Index, p: Path, ps: PathState, w: WorkerId): PathState
    requires ps.staged.Some? && w !in ps.staged.value.session.snapshots
  {
    var s := S.AfterOpen(ps.staged.value.session, w);
    SetWorker(SetSession(ps, s), w, Uploaded(ps.staged.value.id, if p in ix.dirty then ix.dirty[p].generation else 0))
    .(bucket := Some(S.SnapshotBytes(s, w)), objectLock := Some(w))
  }

  /** LockObject, FindSession, ReadGeneration. */
  lemma Locks(b: Option<Bytes>, ix: I.Index, ps: PathState, w: WorkerId)
    requires Reached(b, (ix, ps)) && w in ps.workers && ps.workers[w].Queued? && ps.objectLock.None?
    requires ManagerFree(ps) && ps.staged.Some?
    ensures Reached(b, (ix, SetWorker(ps, w, GenerationRead(ps.staged.value.id,
                                                            if P in ix.dirty then ix.dirty[P].generation else 0))
                            .(objectLock := Some(w))))
  {
    hide Reached;
    var id, g := ps.staged.value.id, if P in ix.dirty then ix.dirty[P].generation else 0;
    var locked := SetWorker(ps, w, Locked).(objectLock := Some(w));
    Take(b, (ix, ps), LockObject(w), (ix, locked));
    var found := SetWorker(locked, w, Found(id));
    Take(b, (ix, locked), FindSession(w), (ix, found));
    var read := SetWorker(found, w, GenerationRead(id, g));
    Take(b, (ix, found), ReadGeneration(w), (ix, read));
    assert read.workers == SetWorker(ps, w, GenerationRead(id, g)).workers;
  }

  /** It uploads what is staged, dirty or not: LockObject to Upload. */
  lemma Uploads(b: Option<Bytes>, ix: I.Index, ps: PathState, w: WorkerId)
    requires Reached(b, (ix, ps)) && w in ps.workers && ps.workers[w].Queued? && ps.objectLock.None?
    requires ManagerFree(ps) && ps.staged.Some? && w !in ps.staged.value.session.snapshots
    ensures Reached(b, (ix, UploadedBy(ix, P, ps, w)))
  {
    hide Reached, S.SnapshotBytes;
    var id, g := ps.staged.value.id, if P in ix.dirty then ix.dirty[P].generation else 0;
    Locks(b, ix, ps, w);
    hide ManagerFree;
    var read := SetWorker(ps, w, GenerationRead(id, g)).(objectLock := Some(w));
    var s := S.AfterOpen(ps.staged.value.session, w);
    var snapped := SetWorker(SetSession(read, s), w, Snapped(id, g));
    Take(b, (ix, read), OpenSnapshot(w), (ix, snapped));
    var uploaded := SetWorker(snapped, w, Uploaded(id, g)).(bucket := Some(S.SnapshotBytes(s, w)));
    Take(b, (ix, snapped), Upload(w), (ix, uploaded));
    assert uploaded.workers == UploadedBy(ix, P, ps, w).workers;
  }

  /** It cleans the entry: MarkClean, DropSidecar. */
  lemma Cleans(b: Option<Bytes>, ix: I.Index, ps: PathState, w: WorkerId)
    requires Reached(b, (ix, ps)) && w in ps.workers && ps.workers[w].Uploaded? && ps.sidecarMu.None?
    requires P in ix.dirty && ix.dirty[P].generation == ps.workers[w].generation
    ensures Reached(b, (I.Clean(ix, P), SetWorker(ps, w, Cleaned(ps.workers[w].session)).(sidecar := false)))
  {
    hide Reached;
    var id := ps.workers[w].session;
    var dropping := SetWorker(ps, w, DroppingSidecar(id)).(sidecarMu := Some(ByWorker(w)));
    Take(b, (ix, ps), MarkClean(w), (I.Clean(ix, P), dropping));
    var dropped := SetWorker(dropping, w, Cleaned(id)).(sidecar := false, sidecarMu := None);
    Take(b, (I.Clean(ix, P), dropping), DropSidecar(w), (I.Clean(ix, P), dropped));
    assert dropped.workers == SetWorker(ps, w, Cleaned(id)).workers;
  }

  /** It leaves the session alone and goes: Cleanup, Finish, Unclaim. */
  lemma Leaves(b: Option<Bytes>, ix: I.Index, ps: PathState, w: WorkerId)
    requires Reached(b, (ix, ps)) && w in ps.workers && ps.workers[w].Cleaned? && ManagerFree(ps) && ps.staged.Some?
    ensures Reached(b, (I.Release(ix, P),
                        SetSession(ps, S.AfterClose(ps.staged.value.session, w))
                        .(workers := ps.workers - {w}, objectLock := None)))
  {
    hide Reached;
    var finished := SetWorker(ps, w, Finished);
    Take(b, (ix, ps), Cleanup(w, false), (ix, finished));
    var unlocked := SetWorker(SetSession(finished, S.AfterClose(ps.staged.value.session, w)), w, Unlocked)
                    .(objectLock := None);
    Take(b, (ix, finished), Finish(w), (ix, unlocked));
    var gone := unlocked.(workers := unlocked.workers - {w});
    Take(b, (ix, unlocked), Unclaim(w), (I.Release(ix, P), gone));
    assert gone.workers == ps.workers - {w};
  }

  /** It removes the idle session: Cleanup, UnlinkSidecar, Finish. */
  lemma CleansUp(b: Option<Bytes>, ix: I.Index, ps: PathState, w: WorkerId)
    requires Reached(b, (ix, ps)) && w in ps.workers && ps.workers[w].Cleaned? && ManagerFree(ps)
    requires HasSession(ps, ps.workers[w].session) && ps.refs == 0 && P !in ix.dirty
    ensures Reached(b, (ix, SetWorker(ps, w, Unlocked).(staged := None, sidecar := false, objectLock := None)))
  {
    hide Reached;
    var unlinking := SetWorker(ps, w, Unlinking).(staged := None);
    Take(b, (ix, ps), Cleanup(w, true), (ix, unlinking));
    var finished := SetWorker(unlinking, w, Finished).(sidecar := false);
    Take(b, (ix, unlinking), UnlinkSidecar(w), (ix, finished));
    var unlocked := SetWorker(finished, w, Unlocked).(objectLock := None);
    Take(b, (ix, finished), Finish(w), (ix, unlocked));
    assert unlocked.workers == SetWorker(ps, w, Unlocked).workers;
  }

  const Seven: Bytes := [7]
  const Eight: Bytes := [8]

  /** A new file is written and listed. */
  function FirstWrite(): PathState {
    FreshPath(None).(accepted := Some(Seven), recent := {Some(Seven)}, sidecar := true, refs := 1, nextId := 1,
                     staged := Some(Staged(0, S.AfterWrite(S.NewSession([]), Seven, 0))),
                     handles := map[1 := Handle(0, Ready)])
  }

  lemma FileWritten()
    ensures Reached(None, (I.List(I.EmptyIndex, P, 1, true), FirstWrite()))
  {
    hide Reached, S.Valid;
    var ix, s0 := I.EmptyIndex, FreshPath(None);
    Start(None);
    Opens(None, ix, s0, 1, false);
    var s1 := OpenedBy(s0, 1, Asking);
    var s2 := SetPhase(s1, 1, Ready);
    Take(None, (ix, s1), Stat(1), (ix, s2));
    var s3 := Changes(SetSession(s2, S.AfterWrite(S.NewSession([]), Seven, 0)), 1, Some(Seven));
    assert WriteAt([], Seven, 0) == Seven;
    Take(None, (ix, s2), Change(1, S.WriteOp(Seven, 0)), (ix, s3));
    ListsChange(None, ix, s3, 1);
    assert Lists(s3, 1).handles == FirstWrite().handles;
  }

  const SessionA := S.Session(map[0 := Seven], 1, 0, 0, 1, true, false, 0, 0, map[])
  const SessionB := S.Session(map[0 := Seven, 1 := Eight], 2, 1, 1, 1, true, false, 0, 1, map[1 := S.Snapshot(0, 1, 0)])

  lemma Sessions()
    ensures S.AfterWrite(S.NewSession([]), Seven, 0) == SessionA
    ensures S.AfterWrite(S.AfterOpen(SessionA, 1), Eight, 0) == SessionB
    ensures !S.Refused(S.AfterOpen(SessionA, 1), S.WriteOp(Eight, 0))
    ensures S.SnapshotBytes(S.AfterOpen(SessionA, 1), 1) == Seven
    ensures S.SnapshotBytes(S.AfterOpen(S.AfterClose(SessionB, 1), 2), 2) == Eight
    ensures 2 !in S.AfterClose(SessionB, 1).snapshots
  {
    assert WriteAt([], Seven, 0) == Seven;
    assert Seven[..1] == Seven && Eight[..1] == Eight;
    assert WriteAt(Seven, Eight, 0) == Eight;
  }

  function EmptyIndexAt(generation: nat): I.Index {
    I.Index(map[], {}, generation, {})
  }

  function DirtyIndexAt(generation: nat): I.Index {
    I.Index(map[P := I.Entry(1, generation, true)], {}, generation, {})
  }

  /** A worker uploads the file and marks it clean; the writer then writes to it
      again. */
  function SecondWrite(): PathState {
    FreshPath(Some(Seven)).(accepted := Some(Eight), recent := {Some(Seven), Some(Eight)}, refs := 1, nextId := 1,
                            staged := Some(Staged(0, SessionB)),
                            handles := map[1 := Handle(0, Changed)],
                            workers := map[1 := Cleaned(0)], objectLock := Some(1))
  }

  lemma FileChanged()
    ensures Reached(None, (I.Index(map[], {}, 1, {}), SecondWrite()))
  {
    hide Reached, S.AfterOpen, S.AfterWrite, S.SnapshotBytes, S.NewSession;
    Sessions();
    FileWritten();
    var ix1, s1 := I.List(I.EmptyIndex, P, 1, true), FirstWrite();
    Queues(None, ix1, s1, 1);
    var ix2, s2 := I.Claim(ix1, P), SetWorker(s1, 1, Queued);
    Uploads(None, ix2, s2, 1);
    var s3 := UploadedBy(ix2, P, s2, 1);
    Cleans(None, ix2, s3, 1);
    var ix4, s4 := I.Clean(ix2, P), SetWorker(s3, 1, Cleaned(0)).(sidecar := false);
    var s5 := Changes(SetSession(s4, SessionB), 1, Some(Eight));
    assert WriteAt(Seven, Eight, 0) == Eight;
    Take(None, (ix4, s4), Change(1, S.WriteOp(Eight, 0)), (ix4, s5));
    assert s5.workers == map[1 := Cleaned(0)];
    assert ix4 == I.Index(map[], {}, 1, {});
    assert s5 == SecondWrite();
  }

  /** It is listed, and the writer closes. */
  function WrittenAgain(): PathState {
    SecondWrite().(recent := {Some(Eight)}, refs := 0, handles := map[], sidecar := true)
  }

  lemma FileWrittenAgain()
    ensures Reached(None, (DirtyIndexAt(2), WrittenAgain()))
  {
    hide Reached;
    FileChanged();
    var ix, s := I.Index(map[], {}, 1, {}), SecondWrite();
    ListsChange(None, ix, s, 1);
    var ix1, s1 := I.List(ix, P, 1, true), Lists(s, 1).(sidecar := true);
    var s2 := s1.(refs := 0, handles := s1.handles - {1});
    Take(None, (ix1, s1), Close(1), (ix1, s2));
    assert s2.handles == map[];
    assert ix1 == DirtyIndexAt(2);
    assert s2 == WrittenAgain();
  }

  /** A second worker sees the file dirty and queues. The first lets go, which
      takes the second's claim with it, sees the file dirty too and queues behind
      it. The second syncs the file and removes its session: the first now waits
      to sync a file that is clean. */
  function StaleWorker(): PathState {
    FreshPath(Some(Eight)).(nextId := 1, workers := map[1 := Queued, 2 := Unlocked])
  }

  lemma StaleWorkerReached()
    ensures Reached(None, (EmptyIndexAt(2), StaleWorker()))
  {
    hide Reached, S.AfterOpen, S.AfterClose, S.SnapshotBytes;
    Sessions();
    FileWrittenAgain();
    var ix, s1 := DirtyIndexAt(2), WrittenAgain();
    Queues(None, ix, s1, 2);
    var s2 := SetWorker(s1, 2, Queued);
    Leaves(None, I.Claim(ix, P), s2, 1);
    var s3 := SetSession(s2, S.AfterClose(SessionB, 1)).(workers := s2.workers - {1}, objectLock := None);
    assert I.Release(I.Claim(ix, P), P) == ix;
    Queues(None, ix, s3, 1);
    var ix4, s4 := I.Claim(ix, P), SetWorker(s3, 1, Queued);
    Uploads(None, ix4, s4, 2);
    var s5 := UploadedBy(ix4, P, s4, 2);
    Cleans(None, ix4, s5, 2);
    var s6 := SetWorker(s5, 2, Cleaned(0)).(sidecar := false);
    CleansUp(None, I.Clean(ix4, P), s6, 2);
    var s7 := SetWorker(s6, 2, Unlocked).(staged := None, sidecar := false, objectLock := None);
    assert s7.workers == map[1 := Queued, 2 := Unlocked];
    assert I.Clean(ix4, P) == EmptyIndexAt(2);
    assert s7 == StaleWorker();
  }

  /** A client opens the file, which gives it a new, empty session still to be
      filled from the bucket. The worker uploads that: the accepted contents are
      gone, and nothing is left to sync. */
  lemma StaleUploadLosesFile()
    ensures exists s: State :: Reached(None, s)
              && P !in s.0.dirty && !Pending(s.1.handles)
              && s.1.accepted == Some(Eight) && s.1.bucket == Some([])
  {
    StaleWorkerReached();
    var ix, s0 := EmptyIndexAt(2), StaleWorker();
    var s1 := s0.(staged := Some(Staged(1, S.NewSession([]))), refs := 1, nextId := 2, sidecar := true,
                  handles := s0.handles[3 := Handle(1, Opening(false))]);
    Take(None, (ix, s0), Open(3, false), (ix, s1));
    Uploads(None, ix, s1, 1);
    var s2 := UploadedBy(ix, P, s1, 1);
    hide Reached;
    assert Reached(None, (ix, s2)) && s2.bucket == Some([]);
  }

  /** Or it finds no session and no file. A client then truncates the file, which
      is accepted and listed. */
  function Truncated(): PathState {
    StaleWorker().(accepted := Some([]), recent := {Some([])}, sidecar := true, refs := 1, nextId := 2,
                   staged := Some(Staged(1, S.AfterTruncate(S.NewSession([]), 0))),
                   handles := map[3 := Handle(1, Ready)],
                   workers := map[1 := Missing, 2 := Unlocked], objectLock := Some(1))
  }

  lemma TruncatedReached()
    ensures Reached(None, (I.List(EmptyIndexAt(2), P, 0, true), Truncated()))
  {
    StaleWorkerReached();
    hide Reached, S.Valid;
    var ix, s0 := EmptyIndexAt(2), StaleWorker();
    var s1 := SetWorker(s0, 1, Locked).(objectLock := Some(1));
    Take(None, (ix, s0), LockObject(1), (ix, s1));
    var s2 := SetWorker(s1, 1, Missing);
    Take(None, (ix, s1), FindSession(1), (ix, s2));
    Opens(None, ix, s2, 3, true);
    var s3 := OpenedBy(s2, 3, MustTruncate);
    var s4 := Changes(SetSession(s3, S.AfterTruncate(S.NewSession([]), 0)), 3, Some([]));
    Take(None, (ix, s3), Change(3, S.TruncateOp(0)), (ix, s4));
    ListsChange(None, ix, s4, 3);
    assert Lists(s4, 3).(sidecar := true) == Truncated() by {
      assert Lists(s4, 3).handles == Truncated().handles;
      assert s4.workers == Truncated().workers;
    }
  }

  /** The worker drops the entry as a stale one. */
  lemma StaleForgetLosesWrite()
    ensures exists s: State :: Reached(None, s)
              && P !in s.0.dirty && !Pending(s.1.handles)
              && s.1.accepted == Some([]) && s.1.bucket == Some(Eight)
  {
    TruncatedReached();
    hide Reached, S.Valid;
    var ix, s := I.List(EmptyIndexAt(2), P, 0, true), Truncated();
    Take(None, (ix, s), Forget(1), (I.Clean(ix, P), SetWorker(s, 1, Finished).(sidecar := false)));
  }

  /** A write in flight does not help: it will list the path again, but until then
      a restart finds no sidecar and shows the object from before the truncate. */
  lemma StaleForgetUnderWrite()
    ensures exists s: State, t: State :: Reached(None, s) && Next(s.0, P, s.1, Forget(1)) == Some(t)
              && P in s.0.dirty && Pending(s.1.handles)
              && RestartPath(s.1).accepted == Some(Seven)
              && RestartPath(t.1).accepted == Some(Eight) && Some(Eight) !in s.1.recent
  {
    TruncatedReached();
    hide Reached, S.Valid;
    var ix, s := I.List(EmptyIndexAt(2), P, 0, true), Truncated();
    var u := S.AfterTruncate(S.NewSession([]), 0);
    var s1 := Changes(SetSession(s, S.AfterWrite(u, Seven, 0)), 3, Some(Seven));
    assert WriteAt([], Seven, 0) == Seven;
    Take(None, (ix, s), Change(3, S.WriteOp(Seven, 0)), (ix, s1));
    var t := SetWorker(s1, 1, Finished).(sidecar := false);
    assert InFlight(s1.handles[3].phase);
    assert Next(ix, P, s1, Forget(1)) == Some((I.Clean(ix, P), t));
  }

  /** A worker that syncs a path leaves the accepted contents in the bucket exactly
      when the session it found holds fetched or written bytes, or the
      object is empty anyway. */
  lemma StaleUploadExact(ix: I.Index, p: Path, ps: PathState, w: WorkerId)
    requires PathInv(EntryOf(ix, p), ps) && ps.staged.Some? && w in ps.workers && ps.workers[w].Queued?
    ensures w !in ps.staged.value.session.snapshots
    ensures UploadedBy(ix, p, ps, w).bucket == ps.accepted
            <==> Known(ps.staged.value.session) || ps.accepted == Some([])
  {
    assert w !in ps.staged.value.session.snapshots;
    S.OpenCloseLemma(ps.staged.value.session, w);
    hide InvWorkers, InvHandles, S.SnapshotBytes;
  }

  /** Whether every acknowledged change of the path is still in the bucket or
      listed for it, and still what a restart would show. */
  ghost predicate KeepsAcknowledged(e: Option<I.Entry>, ps: PathState) {
    Agrees(e, ps) && RestartPath(ps).accepted in ps.recent
  }

  /** Dropping the entry of a path keeps every acknowledged change, whatever the
      bucket may hold, exactly when the path is not dirty. */
  lemma ForgetExact(ix: I.Index, p: Path, ps: PathState, w: WorkerId)
    requires PathInv(EntryOf(ix, p), ps) && DoForget(ix, p, ps, w).Some?
    ensures (forall b: Option<Bytes> ::
               KeepsAcknowledged(EntryOf(ix, p), WithBucket(ps, b)) ==> SafeAfterForget(ix, p, WithBucket(ps, b), w))
            <==> p !in ix.dirty
  {
    hide InvWorkers, InvHandles, Pending;
    if p in ix.dirty {
      var b := Some(OtherBytes(ps.recent));
      StandingContents(ps);
      assert KeepsAcknowledged(EntryOf(ix, p), WithBucket(ps, b)) && !SafeAfterForget(ix, p, WithBucket(ps, b), w);
    }
  }

  /** Some contents a path has not had. */
  ghost function OtherBytes(contents: set<Option<Bytes>>): (b: Bytes)
    ensures Some(b) !in contents
  {
    LongerExists(contents);
    var n: nat :| Longer(n, contents);
    seq(n, _ => 0)
  }

  ghost predicate Longer(n: nat, contents: set<Option<Bytes>>) {
    forall c :: c in contents && c.Some? ==> |c.value| < n
  }

  lemma {:induction false} LongerExists(contents: set<Option<Bytes>>)
    ensures exists n: nat :: Longer(n, contents)
  {
    if contents == {} {
      assert Longer(0, contents);
    } else {
      var c :| c in contents;
      LongerExists(contents - {c});
      var n: nat :| Longer(n, contents - {c});
      assert Longer(n + |c.GetOr([])| + 1, contents);
    }
  }

  function WithBucket(ps: PathState, bucket: Option<Bytes>): PathState {
    ps.(bucket := bucket)
  }

  ghost predicate SafeAfterForget(ix: I.Index, p: Path, ps: PathState, w: WorkerId) {
    var r := DoForget(ix, p, ps, w);
    r.Some? && KeepsAcknowledged(EntryOf(r.value.0, p), r.value.1)
  }

  /** One handle opens an object to write it and is told to fetch it. Another
      truncates the same object and writes to it, both accepted. The fetch then
      puts the object's old bytes over what was written. */
  lemma PrefetchLosesAcceptedWrite()
    ensures exists s: State :: Reached(Some(Seven), s)
              && P in s.0.dirty && !Pending(s.1.handles)
              && s.1.accepted == Some(Eight)
              && s.1.bucket == Some(Seven) && s.1.staged.Some? && S.Contents(s.1.staged.value.session) == Seven
  {
    hide Reached, S.Valid;
    var b, ix, s0 := Some(Seven), I.EmptyIndex, FreshPath(Some(Seven));
    Start(b);
    Opens(b, ix, s0, 1, false);
    var s1 := OpenedBy(s0, 1, Asking);
    var s2 := SetPhase(s1, 1, WantsPrefetch);
    Take(b, (ix, s1), Stat(1), (ix, s2));
    var s3 := s2.(refs := 2, handles := s2.handles[2 := Handle(0, Opening(true))]);
    Take(b, (ix, s2), Open(2, true), (ix, s3));
    var s4 := SetPhase(s3, 2, MustTruncate);
    Take(b, (ix, s3), Look(2), (ix, s4));
    TruncatedAndWritten(b, ix, s4);
    var t := S.AfterTruncate(S.NewSession([]), 0);
    var s5 := SetPhase(SetSession(s4, S.AfterWrite(t, Eight, 0)), 2, Ready)
              .(accepted := Some(Eight), recent := {Some(Eight)});
    var ix5 := DirtyIndexAt(2);
    var s6 := SetPhase(SetSession(s5, S.AfterPrefetch(s5.staged.value.session, Seven)), 1, Ready);
    Take(b, (ix5, s5), Prefetch(1), (ix5, s6));
  }

  /** The truncating handle truncates, writes, and has both listed. */
  lemma TruncatedAndWritten(b: Option<Bytes>, ix: I.Index, ps: PathState)
    requires Reached(b, (ix, ps)) && ix == I.EmptyIndex && ps.sidecar && ps.sidecarMu.None?
    requires ps.staged == Some(Staged(0, S.NewSession([])))
    requires 2 in ps.handles && ps.handles[2] == Handle(0, MustTruncate)
    ensures Reached(b, (DirtyIndexAt(2),
                        SetPhase(SetSession(ps, S.AfterWrite(S.AfterTruncate(S.NewSession([]), 0), Eight, 0)), 2, Ready)
                        .(accepted := Some(Eight), recent := {Some(Eight)})))
  {
    hide Reached, S.Valid;
    var t := S.AfterTruncate(S.NewSession([]), 0);
    var s1 := Changes(SetSession(ps, t), 2, Some([]));
    Take(b, (ix, ps), Change(2, S.TruncateOp(0)), (ix, s1));
    ListsChange(b, ix, s1, 2);
    var ix2, s2 := I.List(ix, P, 0, true), Lists(s1, 2);
    var s3 := Changes(SetSession(s2, S.AfterWrite(t, Eight, 0)), 2, Some(Eight));
    assert WriteAt([], Eight, 0) == Eight;
    Take(b, (ix2, s2), Change(2, S.WriteOp(Eight, 0)), (ix2, s3));
    var ix4, s4 := I.List(ix2, P, 1, true), Lists(s3, 2);
    Take(b, (ix2, s3), Mark(2), (ix4, s4));
    assert s4.handles == SetPhase(ps, 2, Ready).handles;
    assert ix4 == DirtyIndexAt(2);
  }

  /** The session that the first open of a path finds after a restart. */
  function FirstOpened(ps: PathState): S.Session {
    var restarted := RestartPath(ps);
    if restarted.staged.Some? then restarted.staged.value.session else S.NewSession(restarted.stranded.GetOr([]))
  }

  /** The process dies between the second write of the file and its listing. The
      restart shows the object, and the first open of the file the unlisted bytes. */
  lemma UnlistedWriteReturns()
    ensures exists s: State :: Reached(None, s)
              && RestartPath(s.1).accepted == Some(Seven)
              && Known(FirstOpened(s.1)) && S.Contents(FirstOpened(s.1)) == Eight
  {
    FileChanged();
    hide Reached;
    var s := SecondWrite();
    assert DataFile(s) == Some(Eight);
    assert Reached(None, (I.Index(map[], {}, 1, {}), s));
  }

  /** After a restart, the first open of a path finds a session that is still to be
      filled or holds what the restart shows, exactly unless unlisted bytes were
      left behind. */
  lemma LeftBehindExact(ix: I.Index, p: Path, ps: PathState, h: HandleId, truncates: bool)
    ensures var r := DoOpen(ix, p, RestartPath(ps), h, truncates);
            && r.Some? && r.value.1.staged.Some? && r.value.1.staged.value.session == FirstOpened(ps)
            && ((Known(FirstOpened(ps)) ==> Some(S.Contents(FirstOpened(ps))) == RestartPath(ps).accepted)
                <==> !LeftBehind(ps))
  {
    var file := DataFile(ps);
    if file.Some? {
      assert S.Contents(S.NewSession(file.value)) == file.value;
    }
  }

  /** A client opens an object to write it, and the process dies before the
      object has been fetched: the restart takes the empty staging file for the
      file's contents and lists it for upload. */
  lemma CrashLosesObject()
    ensures var sys := System(I.EmptyIndex, map[P := FreshPath(Some(Seven))]);
            var r := Run(sys, [On(P, Open(1, false)), Crash([P])]);
            && Init(sys)
            && r.Some? && P in r.value.paths && P in r.value.index.dirty
            && r.value.paths[P].accepted == Some([])
  {
    var sys := System(I.EmptyIndex, map[P := FreshPath(Some(Seven))]);
    var events := [On(P, Open(1, false)), Crash([P])];
    var started := Apply(sys, events[0]).value;
    assert events[1..] == [Crash([P])] && [Crash([P])][1..] == [];
    assert (set p | p in [P]) == {P} == started.paths.Keys;
    assert Recoverable(started.paths[P]) && DataFile(started.paths[P]) == Some([]);
    assert [P][..0] == [];
    assert RestartIndex(started.paths, [P]) == I.List(RestartIndex(started.paths, []), P, 0, true);
    var restarted := Apply(started, Crash([P])).value;
    assert Run(started, [Crash([P])]) == Run(restarted, []) == Some(restarted);
    assert Run(sys, events) == Run(started, events[1..]);
  }
}
