/** No accepted write is lost. The invariant of the write-back protocol, kept by
    every step, and what it means over whole runs. */
module WritebackSafety {
  import opened Common
  import S = SessionState
  import I = IndexState
  import opened Writeback

  function EntryOf(ix: I.Index, p: Path): Option<I.Entry> {
    if p in ix.dirty then Some(ix.dirty[p]) else None
  }

  predicate Bounded(ix: I.Index, p: Path) {
    p in ix.dirty ==> ix.dirty[p].generation <= ix.generation
  }

  /** The staged bytes stand for the file: they are what was fetched or written,
      or there is no object for them to hide. */
  predicate Backed(staged: Option<Staged>, accepted: Option<Bytes>) {
    staged.Some? && (Known(staged.value.session) || accepted.None?)
  }

  /** The staged bytes are the file's contents, or both are empty. */
  predicate Stands(s: S.Session, accepted: Option<Bytes>) {
    Known(s) || accepted == Some([])
  }

  ghost predicate InvSession(ps: PathState) {
    ps.staged.Some? ==>
      var st := ps.staged.value;
      && S.Valid(st.session)
      && st.id < ps.nextId
      && ps.refs == |ps.handles|
      && (Backed(ps.staged, ps.accepted) ==> S.Contents(st.session) == ps.accepted.GetOr([]))
      && (Known(st.session) ==> ps.accepted.Some?)
  }

  ghost predicate InvDirty(e: Option<I.Entry>, ps: PathState) {
    e.Some? ==>
      && ps.staged.Some? && ps.staged.value.session.dirty
      && e.value.recorded && e.value.generation > 0
      && ps.sidecar
  }

  /** A handle holds the session the manager lists. Once it may write, the staged
      bytes stand for the file. */
  predicate InvHandle(e: Option<I.Entry>, staged: Option<Staged>, backed: bool, sidecar: bool, holdsMu: bool,
                      handle: Handle)
  {
    && staged.Some? && staged.value.id == handle.session
    && (handle.phase.Ready? || InFlight(handle.phase) ==> backed)
    && (InFlight(handle.phase) ==> staged.value.session.dirty)
    && (handle.phase.Recorded? <==> holdsMu)
    && (holdsMu ==> e.None? && sidecar)
  }

  ghost predicate InvHandles(e: Option<I.Entry>, ps: PathState) {
    && (forall h :: h in ps.handles ==>
          InvHandle(e, ps.staged, Backed(ps.staged, ps.accepted), ps.sidecar,
                    ps.sidecarMu == Some(ByHandle(h)), ps.handles[h]))
    && (ps.sidecarMu.Some? && ps.sidecarMu.value.ByHandle? ==> ps.sidecarMu.value.handle in ps.handles)
  }

  /** Only a write in flight has the file at more than one value. */
  ghost predicate InvRecent(ps: PathState) {
    ps.accepted in ps.recent && (!Pending(ps.handles) ==> ps.recent == {ps.accepted})
  }

  predicate OwnsSnapshot(phase: WorkerPhase) {
    phase.Snapped? || phase.Uploaded? || phase.DroppingSidecar? || phase.Cleaned? || phase.Finished?
  }

  /** Whether a generation read before still stands: the entry carries it, or
      there was no entry and is none. */
  predicate GenerationFits(e: Option<I.Entry>, generation: nat) {
    if e.Some? then generation <= e.value.generation else generation == 0
  }

  /** What an upload reads may go to the bucket for good only if the file has had
      it since a change was last acknowledged. */
  ghost predicate SnapshotStands(e: Option<I.Entry>, staged: Option<Staged>, recent: set<Option<Bytes>>,
                                 w: WorkerId, id: nat, generation: nat)
  {
    && staged.Some? && staged.value.id == id
    && w in staged.value.session.snapshots
    && GenerationFits(e, generation)
    && (e.None? || e.value.generation == generation ==> Some(S.SnapshotBytes(staged.value.session, w)) in recent)
  }

  ghost predicate InvWorker(e: Option<I.Entry>, staged: Option<Staged>, stranded: Option<Bytes>,
                            bucket: Option<Bytes>, recent: set<Option<Bytes>>, holdsObject: bool, holdsMu: bool,
                            w: WorkerId, phase: WorkerPhase)
  {
    && (HoldsObject(phase) <==> holdsObject)
    && (phase.DroppingSidecar? <==> holdsMu)
    && (stranded.Some? ==> phase.Claimed?)
    && match phase
       case Found(id) => staged.Some? && staged.value.id == id
       case GenerationRead(id, g) => staged.Some? && staged.value.id == id && GenerationFits(e, g)
       case Snapped(id, g) => SnapshotStands(e, staged, recent, w, id, g)
       case Uploaded(id, g) =>
         && SnapshotStands(e, staged, recent, w, id, g)
         && bucket == Some(S.SnapshotBytes(staged.value.session, w))
       case DroppingSidecar(id) => e.None? && staged.Some? && staged.value.id == id && staged.value.session.dirty
       case Unlinking => staged.None? && stranded.None?
       case _ => true
  }

  ghost predicate InvWorkers(e: Option<I.Entry>, ps: PathState) {
    && (forall w :: w in ps.workers ==>
          InvWorker(e, ps.staged, ps.stranded, ps.bucket, ps.recent,
                    ps.objectLock == Some(w), ps.sidecarMu == Some(ByWorker(w)), w, ps.workers[w]))
    && (ps.objectLock.Some? ==> ps.objectLock.value in ps.workers)
    && (ps.sidecarMu.Some? && ps.sidecarMu.value.ByWorker? ==> ps.sidecarMu.value.worker in ps.workers)
    && (ps.staged.Some? ==>
          forall w :: w in ps.staged.value.session.snapshots ==> w in ps.workers && OwnsSnapshot(ps.workers[w]))
  }

  ghost predicate InvStranded(e: Option<I.Entry>, ps: PathState) {
    ps.stranded.Some? ==>
      && ps.staged.None? && e.None? && !ps.sidecar
      && (ps.stranded.value == [] || ps.accepted == ps.stranded)
  }

  /** A path with no dirty entry has in the bucket what it held when a change was
      last acknowledged, or since; with no write in flight, that is what it holds. */
  ghost predicate Agrees(e: Option<I.Entry>, ps: PathState) {
    e.None? ==> ps.bucket in ps.recent
  }

  ghost predicate PathInv(e: Option<I.Entry>, ps: PathState) {
    && InvSession(ps)
    && InvHandles(e, ps)
    && InvRecent(ps)
    && InvDirty(e, ps)
    && InvWorkers(e, ps)
    && InvStranded(e, ps)
    && Agrees(e, ps)
  }

  /** What three steps of the code leave unchecked. */
  predicate Disciplined(ix: I.Index, p: Path, ps: PathState, step: Step) {
    match step
    // Prefetch looks only at whether the session was prefetched, not at whether it was written.
    case Prefetch(_) => ps.staged.Some? ==> FetchIsHarmless(ps.staged.value.session, ps)
    // A worker does not look again, once it holds the object lock, whether the path is still dirty.
    case OpenSnapshot(_) => p in ix.dirty || (ps.staged.Some? ==> Stands(ps.staged.value.session, ps.accepted))
    // Nor whether the path has been opened and written since it found nothing staged.
    case Forget(_) => p !in ix.dirty
    case _ => true
  }

  predicate FetchIsHarmless(s: S.Session, ps: PathState) {
    s.prefetched || !s.dirty || ps.bucket == ps.accepted
  }

  /** A session that stands for the file holds the accepted contents. */
  lemma StandingContents(ps: PathState)
    requires InvSession(ps) && ps.staged.Some? && Stands(ps.staged.value.session, ps.accepted)
    ensures ps.accepted == Some(S.Contents(ps.staged.value.session))
  {
  }

  lemma PendingSame(a: map<HandleId, Handle>, b: map<HandleId, Handle>, h: HandleId)
    requires forall g :: g != h ==> (g in a <==> g in b)
    requires forall g :: g != h && g in a && g in b ==> a[g] == b[g]
    requires (h in a && InFlight(a[h].phase)) == (h in b && InFlight(b[h].phase))
    ensures Pending(a) == Pending(b)
  {
    if Pending(a) {
      var g :| g in a && InFlight(a[g].phase);
      assert g in b && InFlight(b[g].phase);
    }
  }

  lemma CountWith(m: map<HandleId, Handle>, h: HandleId, x: Handle)
    ensures |m[h := x]| == |m| + (if h in m then 0 else 1)
  {
    assert m[h := x].Keys == m.Keys + {h};
  }

  lemma CountWithout(m: map<HandleId, Handle>, h: HandleId)
    requires h in m
    ensures |m - {h}| == |m| - 1
  {
    assert (m - {h}).Keys == m.Keys - {h};
  }

  /** A worker moves on to another phase without taking or giving up a mutex. */
  lemma WorkerMoves(e: Option<I.Entry>, ps: PathState, w: WorkerId, phase: WorkerPhase)
    requires PathInv(e, ps)
    requires InvWorker(e, ps.staged, ps.stranded, ps.bucket, ps.recent,
                       ps.objectLock == Some(w), ps.sidecarMu == Some(ByWorker(w)), w, phase)
    requires w in ps.workers && OwnsSnapshot(ps.workers[w]) ==> OwnsSnapshot(phase) || ps.staged.None?
    ensures PathInv(e, SetWorker(ps, w, phase))
  {
    hide S.Valid, S.SnapshotBytes, S.Contents, InvHandle, InvWorker;
  }

  lemma WorkerLeaves(e: Option<I.Entry>, ps: PathState, w: WorkerId)
    requires PathInv(e, ps) && w in ps.workers && !OwnsSnapshot(ps.workers[w])
    requires ps.objectLock != Some(w) && ps.sidecarMu != Some(ByWorker(w))
    ensures PathInv(e, ps.(workers := ps.workers - {w}))
  {
    hide S.Valid, S.SnapshotBytes, S.Contents, InvHandle, InvWorker;
  }

  /** A handle moves on to another phase, its write no nearer or further from
      being listed, without taking or giving up the sidecar mutex. */
  lemma HandleMoves(e: Option<I.Entry>, ps: PathState, h: HandleId, phase: HandlePhase)
    requires PathInv(e, ps) && h in ps.handles
    requires InFlight(phase) == InFlight(ps.handles[h].phase)
    requires phase.Recorded? == ps.handles[h].phase.Recorded?
    requires phase.Ready? ==> Backed(ps.staged, ps.accepted)
    ensures PathInv(e, SetPhase(ps, h, phase))
  {
    hide S.Valid, S.SnapshotBytes, S.Contents, InvWorker;
    var next := SetPhase(ps, h, phase);
    assert InvHandle(e, next.staged, Backed(next.staged, next.accepted), next.sidecar,
                     next.sidecarMu == Some(ByHandle(h)), next.handles[h]);
    hide InvHandle;
    PendingSame(ps.handles, next.handles, h);
    CountWith(ps.handles, h, next.handles[h]);
    hide Pending;
  }

  /** A write in flight takes the sidecar mutex and writes the sidecar. */
  lemma HandleRecords(e: Option<I.Entry>, ps: PathState, h: HandleId)
    requires PathInv(e, ps) && e.None? && h in ps.handles && ps.handles[h].phase.Unlisted? && ps.sidecarMu.None?
    ensures PathInv(e, SetPhase(ps, h, Recorded).(sidecar := true, sidecarMu := Some(ByHandle(h))))
  {
    hide S.Valid, S.SnapshotBytes, S.Contents, InvWorker;
    var next := SetPhase(ps, h, Recorded);
    PendingSame(ps.handles, next.handles, h);
    CountWith(ps.handles, h, next.handles[h]);
    hide Pending;
  }

  /** A write that was in flight is listed under a generation no upload has read. */
  lemma HandleLists(e: Option<I.Entry>, ps: PathState, h: HandleId, listed: I.Entry, next: PathState)
    requires PathInv(e, ps) && h in ps.handles && InFlight(ps.handles[h].phase)
    requires listed.recorded && ps.sidecar && (e.Some? ==> e.value.generation < listed.generation)
    requires ps.sidecarMu.None? || ps.handles[h].phase.Recorded?
    requires listed.generation > 0 && next == Lists(ps, h)
    ensures PathInv(Some(listed), next)
  {
    hide S.Valid, S.SnapshotBytes, S.Contents;
    CountWith(ps.handles, h, next.handles[h]);
  }

  /** A handle takes a reference to the session, new or listed. */
  lemma OpenMoves(e: Option<I.Entry>, ps: PathState, h: HandleId, truncates: bool, next: PathState)
    requires PathInv(e, ps) && h !in ps.handles && ManagerFree(ps) && ps.staged.Some?
    requires next == ps.(refs := ps.refs + 1,
                         handles := ps.handles[h := Handle(ps.staged.value.id, Opening(truncates))])
    ensures PathInv(e, next)
  {
    hide S.Valid, S.SnapshotBytes, S.Contents, InvWorker;
    assert ps.sidecarMu != Some(ByHandle(h));
    assert InvHandle(e, next.staged, Backed(next.staged, next.accepted), next.sidecar,
                     next.sidecarMu == Some(ByHandle(h)), next.handles[h]);
    hide InvHandle;
    PendingSame(ps.handles, next.handles, h);
    CountWith(ps.handles, h, next.handles[h]);
    hide Pending;
  }

  /** A handle with nothing in flight gives its reference back. */
  lemma HandleLeaves(e: Option<I.Entry>, ps: PathState, h: HandleId, next: PathState)
    requires PathInv(e, ps) && h in ps.handles && !InFlight(ps.handles[h].phase) && ps.sidecarMu != Some(ByHandle(h))
    requires next == ps.(refs := next.refs, handles := ps.handles - {h}) && next.refs == |next.handles|
    ensures PathInv(e, next)
  {
    hide S.Valid, S.SnapshotBytes, S.Contents, InvWorker, InvHandle;
    PendingSame(ps.handles, next.handles, h);
    hide Pending;
  }

  /** A path without a session gets one, over whatever file was left stranded. */
  lemma SessionCreated(e: Option<I.Entry>, ps: PathState, next: PathState)
    requires PathInv(e, ps) && ManagerFree(ps) && ps.staged.None?
    requires next == ps.(staged := Some(Staged(ps.nextId, S.NewSession(ps.stranded.GetOr([])))), refs := 0,
                         nextId := ps.nextId + 1, stranded := None, sidecar := true)
    ensures PathInv(e, next)
  {
    hide S.Valid, S.SnapshotBytes, S.Contents;
    assert ps.handles.Keys == {} by {
      forall g ensures g !in ps.handles {
      }
    }
  }

  /** The object's bytes arrive in a session, and they are the file's contents. */
  lemma SessionPrefetched(e: Option<I.Entry>, ps: PathState, s: S.Session)
    requires PathInv(e, ps) && ps.staged.Some? && ps.bucket.Some? && ps.bucket == ps.accepted
    requires S.Valid(s) && S.Contents(s) == ps.bucket.value && s.prefetched && s.dirty == ps.staged.value.session.dirty
    requires s.snapshots == ps.staged.value.session.snapshots
    requires forall w :: w in s.snapshots ==> S.SnapshotBytes(s, w) == S.SnapshotBytes(ps.staged.value.session, w)
    ensures PathInv(e, SetSession(ps, s))
  {
    hide S.Valid, S.SnapshotBytes, S.Contents;
    var next := SetSession(ps, s);
    forall w | w in ps.workers
      ensures InvWorker(e, next.staged, next.stranded, next.bucket, next.recent,
                        next.objectLock == Some(w), next.sidecarMu == Some(ByWorker(w)), w, next.workers[w])
    {
      assert InvWorker(e, ps.staged, ps.stranded, ps.bucket, ps.recent,
                       ps.objectLock == Some(w), ps.sidecarMu == Some(ByWorker(w)), w, ps.workers[w]);
    }
    hide InvWorker;
  }

  /** What a handle's change of the staged bytes means to a worker. */
  lemma WorkerSeesChange(e: Option<I.Entry>, ps: PathState, s: S.Session, recent: set<Option<Bytes>>, w: WorkerId)
    requires PathInv(e, ps) && ps.staged.Some? && w in ps.workers && ps.recent <= recent
    requires s.snapshots == ps.staged.value.session.snapshots && s.dirty
    requires forall v :: v in s.snapshots ==> S.SnapshotBytes(s, v) == S.SnapshotBytes(ps.staged.value.session, v)
    ensures InvWorker(e, Some(ps.staged.value.(session := s)), ps.stranded, ps.bucket, recent,
                      ps.objectLock == Some(w), ps.sidecarMu == Some(ByWorker(w)), w, ps.workers[w])
  {
    hide S.Valid, S.SnapshotBytes, S.Contents, InvHandle;
    assert InvWorker(e, ps.staged, ps.stranded, ps.bucket, ps.recent,
                     ps.objectLock == Some(w), ps.sidecarMu == Some(ByWorker(w)), w, ps.workers[w]);
  }

  /** And to a handle. */
  lemma HandleSeesChange(e: Option<I.Entry>, ps: PathState, h: HandleId, s: S.Session, accepted: Option<Bytes>,
                         g: HandleId)
    requires PathInv(e, ps) && h in ps.handles && g in ps.handles && ps.staged.Some? && !InFlight(ps.handles[h].phase)
    requires s.dirty
    ensures var next := Changes(SetSession(ps, s), h, accepted);
            InvHandle(e, next.staged, Backed(next.staged, next.accepted), next.sidecar,
                      next.sidecarMu == Some(ByHandle(g)), next.handles[g])
  {
    hide S.Valid, S.SnapshotBytes, S.Contents, InvWorkers, Pending;
  }

  /** A handle changes the staged bytes. */
  lemma HandleChanges(e: Option<I.Entry>, ps: PathState, h: HandleId, s: S.Session, accepted: Option<Bytes>)
    requires PathInv(e, ps) && h in ps.handles && ps.staged.Some? && !InFlight(ps.handles[h].phase)
    requires S.Valid(s) && s.dirty && accepted == Some(S.Contents(s))
    requires s.snapshots == ps.staged.value.session.snapshots
    requires forall w :: w in s.snapshots ==> S.SnapshotBytes(s, w) == S.SnapshotBytes(ps.staged.value.session, w)
    ensures PathInv(e, Changes(SetSession(ps, s), h, accepted))
  {
    hide S.Valid, S.SnapshotBytes, S.Contents, InvWorker, InvHandle;
    var next := Changes(SetSession(ps, s), h, accepted);
    assert Pending(next.handles) by {
      assert InFlight(next.handles[h].phase);
    }
    forall w | w in ps.workers
      ensures InvWorker(e, next.staged, next.stranded, next.bucket, next.recent,
                        next.objectLock == Some(w), next.sidecarMu == Some(ByWorker(w)), w, next.workers[w])
    {
      WorkerSeesChange(e, ps, s, next.recent, w);
    }
    forall g | g in next.handles
      ensures InvHandle(e, next.staged, Backed(next.staged, next.accepted), next.sidecar,
                        next.sidecarMu == Some(ByHandle(g)), next.handles[g])
    {
      HandleSeesChange(e, ps, h, s, accepted, g);
    }
    CountWith(ps.handles, h, next.handles[h]);
    hide Pending;
  }

  /** Only a clean path has its sidecar written or removed. */
  lemma MutexMeansClean(e: Option<I.Entry>, ps: PathState)
    requires PathInv(e, ps) && ps.sidecarMu.Some?
    ensures e.None?
  {
    hide S.Valid, S.SnapshotBytes, S.Contents;
    match ps.sidecarMu.value
    case ByHandle(h) =>
      assert InvHandle(e, ps.staged, Backed(ps.staged, ps.accepted), ps.sidecar,
                       ps.sidecarMu == Some(ByHandle(h)), ps.handles[h]);
    case ByWorker(w) =>
      assert InvWorker(e, ps.staged, ps.stranded, ps.bucket, ps.recent,
                       ps.objectLock == Some(w), ps.sidecarMu == Some(ByWorker(w)), w, ps.workers[w]);
  }

  /** A worker that does not hold the object lock depends on nothing. */
  lemma IdleWorker(e: Option<I.Entry>, ps: PathState, v: WorkerId, e': Option<I.Entry>, next: PathState)
    requires PathInv(e, ps) && v in ps.workers && ps.objectLock.Some? && ps.objectLock != Some(v)
    requires next.objectLock != Some(v) && next.sidecarMu != Some(ByWorker(v)) && next.stranded.None?
    ensures !HoldsObject(ps.workers[v])
    ensures InvWorker(e', next.staged, next.stranded, next.bucket, next.recent,
                      next.objectLock == Some(v), next.sidecarMu == Some(ByWorker(v)), v, ps.workers[v])
  {
    hide S.Valid, S.SnapshotBytes, S.Contents;
  }

  /** Whoever is past the object lock holds it, and no one else reads the session. */
  lemma HolderFacts(e: Option<I.Entry>, ps: PathState, w: WorkerId)
    requires PathInv(e, ps) && w in ps.workers && HoldsObject(ps.workers[w])
    ensures ps.objectLock == Some(w)
    ensures ps.staged.Some? ==>
              forall v :: v in ps.staged.value.session.snapshots ==> v == w && OwnsSnapshot(ps.workers[w])
    ensures InvWorker(e, ps.staged, ps.stranded, ps.bucket, ps.recent,
                      ps.objectLock == Some(w), ps.sidecarMu == Some(ByWorker(w)), w, ps.workers[w])
  {
    hide S.Valid, S.SnapshotBytes, S.Contents, InvHandle;
    if ps.staged.Some? {
      forall v | v in ps.staged.value.session.snapshots ensures v == w && OwnsSnapshot(ps.workers[w]) {
        assert OwnsSnapshot(ps.workers[v]) && HoldsObject(ps.workers[v]);
      }
    }
  }

  /** The holder of the object lock takes a step that may change the session,
      the bucket or the entry: the other workers do not care. */
  lemma HolderMoves(e: Option<I.Entry>, ps: PathState, w: WorkerId, e': Option<I.Entry>, next: PathState)
    requires PathInv(e, ps) && w in ps.workers && ps.objectLock == Some(w)
    requires w in next.workers && next.workers == ps.workers[w := next.workers[w]]
    requires next.objectLock == Some(w) || next.objectLock.None?
    requires next.sidecarMu == Some(ByWorker(w)) || next.sidecarMu == ps.sidecarMu || next.sidecarMu.None?
    requires next.handles == ps.handles && next.stranded.None?
    requires InvWorker(e', next.staged, next.stranded, next.bucket, next.recent,
                       next.objectLock == Some(w), next.sidecarMu == Some(ByWorker(w)), w, next.workers[w])
    requires next.staged.Some? ==>
               forall v :: v in next.staged.value.session.snapshots ==> v == w && OwnsSnapshot(next.workers[w])
    requires InvSession(next) && InvHandles(e', next) && InvRecent(next) && InvDirty(e', next) && Agrees(e', next)
    ensures PathInv(e', next)
  {
    forall v | v in ps.workers && v != w
      ensures InvWorker(e', next.staged, next.stranded, next.bucket, next.recent,
                        next.objectLock == Some(v), next.sidecarMu == Some(ByWorker(v)), v, next.workers[v])
    {
      assert ps.sidecarMu != Some(ByWorker(v));
      IdleWorker(e, ps, v, e', next);
    }
    hide S.Valid, S.SnapshotBytes, S.Contents, InvHandle, InvWorker;
  }

  lemma OpenKeeps(ix: I.Index, p: Path, ps: PathState, h: HandleId, truncates: bool)
    requires Bounded(ix, p) && PathInv(EntryOf(ix, p), ps)
    ensures var r := DoOpen(ix, p, ps, h, truncates);
            r.Some? ==> PathInv(EntryOf(r.value.0, p), r.value.1)
  {
    hide S.Valid, S.SnapshotBytes, S.Contents, PathInv;
    var r := DoOpen(ix, p, ps, h, truncates);
    if r.Some? {
      if ps.staged.Some? {
        OpenMoves(EntryOf(ix, p), ps, h, truncates, r.value.1);
      } else {
        var created := ps.(staged := Some(Staged(ps.nextId, S.NewSession(ps.stranded.GetOr([])))), refs := 0,
                           nextId := ps.nextId + 1, stranded := None, sidecar := true);
        SessionCreated(EntryOf(ix, p), ps, created);
        OpenMoves(EntryOf(ix, p), created, h, truncates, r.value.1);
      }
    }
  }

  lemma LookKeeps(ix: I.Index, p: Path, ps: PathState, h: HandleId)
    requires Bounded(ix, p) && PathInv(EntryOf(ix, p), ps)
    ensures var r := DoLook(ix, p, ps, h);
            r.Some? ==> PathInv(EntryOf(r.value.0, p), r.value.1)
  {
    hide S.Valid, S.SnapshotBytes, S.Contents, PathInv;
    var r := DoLook(ix, p, ps, h);
    if r.Some? {
      HandleMoves(EntryOf(ix, p), ps, h, r.value.1.handles[h].phase);
    }
  }

  /** A path without an object has no contents that a session could hide. */
  lemma NoObjectMeansBacked(e: Option<I.Entry>, ps: PathState)
    requires PathInv(e, ps) && ps.bucket.None? && ps.staged.Some?
    ensures Backed(ps.staged, ps.accepted)
  {
    hide S.Valid, S.SnapshotBytes, S.Contents, InvWorkers;
    if Pending(ps.handles) {
      var h :| h in ps.handles && InFlight(ps.handles[h].phase);
      assert InvHandle(e, ps.staged, Backed(ps.staged, ps.accepted), ps.sidecar,
                       ps.sidecarMu == Some(ByHandle(h)), ps.handles[h]);
    }
  }

  lemma StatKeeps(ix: I.Index, p: Path, ps: PathState, h: HandleId)
    requires Bounded(ix, p) && PathInv(EntryOf(ix, p), ps)
    ensures var r := DoStat(ix, p, ps, h);
            r.Some? ==> PathInv(EntryOf(r.value.0, p), r.value.1)
  {
    hide S.Valid, S.SnapshotBytes, S.Contents, InvWorker;
    if DoStat(ix, p, ps, h).Some? {
      assert InvHandle(EntryOf(ix, p), ps.staged, Backed(ps.staged, ps.accepted), ps.sidecar,
                       ps.sidecarMu == Some(ByHandle(h)), ps.handles[h]);
      if ps.bucket.None? {
        NoObjectMeansBacked(EntryOf(ix, p), ps);
        HandleMoves(EntryOf(ix, p), ps, h, Ready);
      } else {
        HandleMoves(EntryOf(ix, p), ps, h, WantsPrefetch);
      }
    }
  }

  /** A session nobody has written to stands beside the object. */
  lemma UnwrittenAgrees(e: Option<I.Entry>, ps: PathState)
    requires PathInv(e, ps) && ps.staged.Some? && !ps.staged.value.session.dirty
    ensures e.None? && !Pending(ps.handles) && ps.bucket == ps.accepted
  {
    hide S.Valid, S.SnapshotBytes, S.Contents, InvWorkers;
    forall h | h in ps.handles ensures !InFlight(ps.handles[h].phase) {
      assert InvHandle(e, ps.staged, Backed(ps.staged, ps.accepted), ps.sidecar,
                       ps.sidecarMu == Some(ByHandle(h)), ps.handles[h]);
    }
  }

  lemma PrefetchKeeps(ix: I.Index, p: Path, ps: PathState, h: HandleId)
    requires Bounded(ix, p) && PathInv(EntryOf(ix, p), ps)
    requires Disciplined(ix, p, ps, Prefetch(h))
    ensures var r := DoPrefetch(ix, p, ps, h);
            r.Some? ==> PathInv(EntryOf(r.value.0, p), r.value.1)
  {
    hide S.Valid, S.SnapshotBytes, S.Contents, InvWorker;
    if DoPrefetch(ix, p, ps, h).Some? {
      var e, s := EntryOf(ix, p), ps.staged.value.session;
      if !s.prefetched {
        if !s.dirty { UnwrittenAgrees(e, ps); }
        S.StepLemma(s, S.PrefetchOp(ps.bucket.value));
        SessionPrefetched(e, ps, S.AfterPrefetch(s, ps.bucket.value));
        HandleMoves(e, SetSession(ps, S.AfterPrefetch(s, ps.bucket.value)), h, Ready);
      } else {
        HandleMoves(e, ps, h, Ready);
      }
    }
  }

  lemma ChangeKeeps(ix: I.Index, p: Path, ps: PathState, h: HandleId, op: S.Op)
    requires Bounded(ix, p) && PathInv(EntryOf(ix, p), ps)
    ensures var r := DoChange(ix, p, ps, h, op);
            r.Some? ==> PathInv(EntryOf(r.value.0, p), r.value.1)
  {
    hide S.Valid, S.SnapshotBytes, S.Contents, InvWorker;
    var r := DoChange(ix, p, ps, h, op);
    if r.Some? && r.value.1 != ps {
      S.StepLemma(ps.staged.value.session, op);
      HandleChanges(EntryOf(ix, p), ps, h, S.After(ps.staged.value.session, op), Plain(ps.accepted, op));
    }
  }

  /** What a write of a handle does to the file, byte by byte. It is refused, and
      changes nothing, exactly when an upload reads the staging file and the file
      is shorter than the session takes it to be. */
  lemma WriteApplied(ix: I.Index, p: Path, ps: PathState, h: HandleId, data: Bytes, offset: nat)
    requires PathInv(EntryOf(ix, p), ps) && h in ps.handles && ps.handles[h].phase.Ready?
    ensures ps.staged.Some? && Next(ix, p, ps, Change(h, S.WriteOp(data, offset))).Some?
    ensures var s, before := ps.staged.value.session, ps.accepted.GetOr([]);
            var next := Next(ix, p, ps, Change(h, S.WriteOp(data, offset))).value.1;
            if s.uploadReaders > 0 && s.size > |before| then next == ps
            else
              && next.handles[h].phase.Changed? && next.accepted.Some? && next.staged.Some?
              && S.Contents(next.staged.value.session) == next.accepted.value
              && |next.accepted.value| == (if data == [] then |before| else Max(|before|, offset + |data|))
              && forall k :: 0 <= k < |next.accepted.value| ==>
                   next.accepted.value[k] ==
                   if offset <= k < offset + |data| then data[k - offset] else if k < |before| then before[k] else 0
  {
    hide S.Valid, S.SnapshotBytes, InvWorkers, Pending;
    assert InvHandle(EntryOf(ix, p), ps.staged, Backed(ps.staged, ps.accepted), ps.sidecar,
                     ps.sidecarMu == Some(ByHandle(h)), ps.handles[h]);
    S.StepLemma(ps.staged.value.session, S.WriteOp(data, offset));
    WriteAtBytes(ps.accepted.GetOr([]), data, offset);
  }

  /** And a truncate: it is refused only in the same case, when it does not cut the
      file down to what it has. A handle opened to truncate may do nothing else first. */
  lemma TruncateApplied(ix: I.Index, p: Path, ps: PathState, h: HandleId, size: nat)
    requires PathInv(EntryOf(ix, p), ps) && h in ps.handles
    requires ps.handles[h].phase.Ready? || ps.handles[h].phase.MustTruncate?
    requires ps.handles[h].phase.MustTruncate? ==> size == 0
    ensures ps.staged.Some? && Next(ix, p, ps, Change(h, S.TruncateOp(size))).Some?
    ensures var s := ps.staged.value.session;
            var next := Next(ix, p, ps, Change(h, S.TruncateOp(size))).value.1;
            if s.uploadReaders > 0 && Min(size, s.size) > |S.Contents(s)| then next == ps
            else
              && next.handles[h].phase.Changed? && next.accepted.Some? && next.staged.Some?
              && S.Contents(next.staged.value.session) == next.accepted.value
              && |next.accepted.value| == size
              && forall k :: 0 <= k < size ==>
                   next.accepted.value[k] == if k < |ps.accepted.GetOr([])| then ps.accepted.GetOr([])[k] else 0
  {
    hide S.Valid, S.SnapshotBytes, InvWorkers, Pending;
    assert InvHandle(EntryOf(ix, p), ps.staged, Backed(ps.staged, ps.accepted), ps.sidecar,
                     ps.sidecarMu == Some(ByHandle(h)), ps.handles[h]);
    S.StepLemma(ps.staged.value.session, S.TruncateOp(size));
    ResizeBytes(ps.accepted.GetOr([]), size);
    ResizeBytes(S.Contents(ps.staged.value.session), size);
  }

  lemma MarkKeeps(ix: I.Index, p: Path, ps: PathState, h: HandleId)
    requires Bounded(ix, p) && PathInv(EntryOf(ix, p), ps)
    ensures var r := DoMark(ix, p, ps, h);
            r.Some? ==> PathInv(EntryOf(r.value.0, p), r.value.1)
  {
    hide S.Valid, S.SnapshotBytes, S.Contents, InvWorker;
    var r := DoMark(ix, p, ps, h);
    if r.Some? {
      if I.CanMarkAgain(ix, p) {
        if ps.sidecarMu.Some? {
          MutexMeansClean(EntryOf(ix, p), ps);
        }
        HandleLists(EntryOf(ix, p), ps, h, r.value.0.dirty[p], r.value.1);
      } else {
        HandleMoves(EntryOf(ix, p), ps, h, Unlisted);
      }
    }
  }

  lemma RecordSidecarKeeps(ix: I.Index, p: Path, ps: PathState, h: HandleId)
    requires Bounded(ix, p) && PathInv(EntryOf(ix, p), ps)
    ensures var r := DoRecordSidecar(ix, p, ps, h);
            r.Some? ==> PathInv(EntryOf(r.value.0, p), r.value.1)
  {
    hide S.Valid, S.SnapshotBytes, S.Contents, InvWorker;
    var r := DoRecordSidecar(ix, p, ps, h);
    if r.Some? {
      if I.CanMarkAgain(ix, p) {
        HandleLists(EntryOf(ix, p), ps, h, r.value.0.dirty[p], r.value.1);
      } else {
        HandleRecords(EntryOf(ix, p), ps, h);
      }
    }
  }

  lemma ListDirtyKeeps(ix: I.Index, p: Path, ps: PathState, h: HandleId)
    requires Bounded(ix, p) && PathInv(EntryOf(ix, p), ps)
    ensures var r := DoListDirty(ix, p, ps, h);
            r.Some? ==> PathInv(EntryOf(r.value.0, p), r.value.1)
  {
    hide S.Valid, S.SnapshotBytes, S.Contents, InvWorker;
    var r := DoListDirty(ix, p, ps, h);
    if r.Some? {
      HandleLists(EntryOf(ix, p), ps, h, r.value.0.dirty[p], r.value.1);
    }
  }

  lemma CloseKeeps(ix: I.Index, p: Path, ps: PathState, h: HandleId)
    requires Bounded(ix, p) && PathInv(EntryOf(ix, p), ps)
    ensures var r := DoClose(ix, p, ps, h);
            r.Some? ==> PathInv(EntryOf(r.value.0, p), r.value.1)
  {
    hide S.Valid, S.SnapshotBytes, S.Contents, InvWorker, Pending;
    var r := DoClose(ix, p, ps, h);
    if r.Some? {
      assert ps.sidecarMu != Some(ByHandle(h));
      CountWithout(ps.handles, h);
      HandleLeaves(EntryOf(ix, p), ps, h, r.value.1);
    }
  }

  lemma ClaimKeeps(ix: I.Index, p: Path, ps: PathState, w: WorkerId)
    requires Bounded(ix, p) && PathInv(EntryOf(ix, p), ps)
    ensures var r := DoClaim(ix, p, ps, w);
            r.Some? ==> PathInv(EntryOf(r.value.0, p), r.value.1)
  {
    hide S.Valid, S.SnapshotBytes, S.Contents;
    if DoClaim(ix, p, ps, w).Some? {
      WorkerMoves(EntryOf(ix, p), ps, w, Claimed);
    }
  }

  lemma RecheckKeeps(ix: I.Index, p: Path, ps: PathState, w: WorkerId)
    requires Bounded(ix, p) && PathInv(EntryOf(ix, p), ps)
    ensures var r := DoRecheck(ix, p, ps, w);
            r.Some? ==> PathInv(EntryOf(r.value.0, p), r.value.1)
  {
    hide S.Valid, S.SnapshotBytes, S.Contents;
    if DoRecheck(ix, p, ps, w).Some? {
      if p in ix.dirty {
        WorkerMoves(EntryOf(ix, p), ps, w, Queued);
      } else {
        WorkerLeaves(EntryOf(ix, p), ps, w);
      }
    }
  }

  lemma LockObjectKeeps(ix: I.Index, p: Path, ps: PathState, w: WorkerId)
    requires Bounded(ix, p) && PathInv(EntryOf(ix, p), ps)
    ensures var r := DoLockObject(ix, p, ps, w);
            r.Some? ==> PathInv(EntryOf(r.value.0, p), r.value.1)
  {
    hide S.Valid, S.SnapshotBytes, S.Contents, InvHandle, Pending;
    var r := DoLockObject(ix, p, ps, w);
    if r.Some? {
      var e, next := EntryOf(ix, p), r.value.1;
      forall v | v in ps.workers
        ensures InvWorker(e, next.staged, next.stranded, next.bucket, next.recent,
                          next.objectLock == Some(v), next.sidecarMu == Some(ByWorker(v)), v, next.workers[v])
      {
        assert InvWorker(e, ps.staged, ps.stranded, ps.bucket, ps.recent,
                         ps.objectLock == Some(v), ps.sidecarMu == Some(ByWorker(v)), v, ps.workers[v]);
      }
      hide InvWorker;
    }
  }

  lemma FindSessionKeeps(ix: I.Index, p: Path, ps: PathState, w: WorkerId)
    requires Bounded(ix, p) && PathInv(EntryOf(ix, p), ps)
    ensures var r := DoFindSession(ix, p, ps, w);
            r.Some? ==> PathInv(EntryOf(r.value.0, p), r.value.1)
  {
    hide S.Valid, S.SnapshotBytes, S.Contents, PathInv;
    var r := DoFindSession(ix, p, ps, w);
    if r.Some? {
      HolderFacts(EntryOf(ix, p), ps, w);
      WorkerMoves(EntryOf(ix, p), ps, w, r.value.1.workers[w]);
    }
  }

  lemma ForgetKeeps(ix: I.Index, p: Path, ps: PathState, w: WorkerId)
    requires Bounded(ix, p) && PathInv(EntryOf(ix, p), ps)
    requires Disciplined(ix, p, ps, Forget(w))
    ensures var r := DoForget(ix, p, ps, w);
            r.Some? ==> PathInv(EntryOf(r.value.0, p), r.value.1)
  {
    hide S.Valid, S.SnapshotBytes, S.Contents, Pending;
    var r := DoForget(ix, p, ps, w);
    if r.Some? {
      HolderFacts(EntryOf(ix, p), ps, w);
      HandlesWithoutMutex(EntryOf(ix, p), ps, r.value.1);
      hide InvHandles;
      HolderMoves(EntryOf(ix, p), ps, w, EntryOf(r.value.0, p), r.value.1);
    }
  }

  /** With nobody at the sidecar mutex, handles do not depend on the sidecar. */
  lemma HandlesWithoutMutex(e: Option<I.Entry>, ps: PathState, next: PathState)
    requires InvHandles(e, ps) && ps.sidecarMu.None?
    requires next.handles == ps.handles && next.staged == ps.staged && next.accepted == ps.accepted
    requires next.sidecarMu.None?
    ensures InvHandles(e, next)
  {
  }

  lemma ReadGenerationKeeps(ix: I.Index, p: Path, ps: PathState, w: WorkerId)
    requires Bounded(ix, p) && PathInv(EntryOf(ix, p), ps)
    ensures var r := DoReadGeneration(ix, p, ps, w);
            r.Some? ==> PathInv(EntryOf(r.value.0, p), r.value.1)
  {
    hide S.Valid, S.SnapshotBytes, S.Contents;
    var r := DoReadGeneration(ix, p, ps, w);
    if r.Some? {
      WorkerMoves(EntryOf(ix, p), ps, w, r.value.1.workers[w]);
    }
  }

  /** A snapshot opened on a session that stands for the file reads its contents. */
  lemma SnapshotOpened(e: Option<I.Entry>, ps: PathState, w: WorkerId)
    requires PathInv(e, ps) && ps.staged.Some? && w in ps.workers && w !in ps.staged.value.session.snapshots
    requires e.Some? || Stands(ps.staged.value.session, ps.accepted)
    ensures var s := S.AfterOpen(ps.staged.value.session, w);
            && S.Valid(s) && S.Contents(s) == S.Contents(ps.staged.value.session)
            && w in s.snapshots && Some(S.SnapshotBytes(s, w)) == ps.accepted && ps.accepted in ps.recent
  {
    StandingContents(ps);
    S.OpenCloseLemma(ps.staged.value.session, w);
  }

  lemma OpenSnapshotKeeps(ix: I.Index, p: Path, ps: PathState, w: WorkerId)
    requires Bounded(ix, p) && PathInv(EntryOf(ix, p), ps)
    requires Disciplined(ix, p, ps, OpenSnapshot(w))
    ensures var r := DoOpenSnapshot(ix, p, ps, w);
            r.Some? ==> PathInv(EntryOf(r.value.0, p), r.value.1)
  {
    hide S.Valid, S.SnapshotBytes, S.Contents;
    var r := DoOpenSnapshot(ix, p, ps, w);
    if r.Some? {
      var e := EntryOf(ix, p);
      HolderFacts(e, ps, w);
      assert w !in ps.staged.value.session.snapshots;
      SnapshotOpened(e, ps, w);
      var s := S.AfterOpen(ps.staged.value.session, w);
      SessionKept(e, ps, s, r.value.1);
      hide InvSession, InvHandles, InvDirty, InvRecent, Agrees;
      HolderMoves(e, ps, w, EntryOf(r.value.0, p), r.value.1);
    }
  }

  lemma UploadKeeps(ix: I.Index, p: Path, ps: PathState, w: WorkerId)
    requires Bounded(ix, p) && PathInv(EntryOf(ix, p), ps)
    ensures var r := DoUpload(ix, p, ps, w);
            r.Some? ==> PathInv(EntryOf(r.value.0, p), r.value.1)
  {
    hide S.Valid, S.SnapshotBytes, S.Contents, Pending;
    var r := DoUpload(ix, p, ps, w);
    if r.Some? {
      HolderFacts(EntryOf(ix, p), ps, w);
      HolderMoves(EntryOf(ix, p), ps, w, EntryOf(r.value.0, p), r.value.1);
    }
  }

  lemma UploadFailsKeeps(ix: I.Index, p: Path, ps: PathState, w: WorkerId, landed: bool)
    requires Bounded(ix, p) && PathInv(EntryOf(ix, p), ps)
    ensures var r := DoUploadFails(ix, p, ps, w, landed);
            r.Some? ==> PathInv(EntryOf(r.value.0, p), r.value.1)
  {
    hide S.Valid, S.SnapshotBytes, S.Contents, Pending;
    var r := DoUploadFails(ix, p, ps, w, landed);
    if r.Some? {
      HolderFacts(EntryOf(ix, p), ps, w);
      HolderMoves(EntryOf(ix, p), ps, w, EntryOf(r.value.0, p), r.value.1);
    }
  }

  /** What the workers do not enter is kept when the worker alone moves on. */
  lemma SessionKept(e: Option<I.Entry>, ps: PathState, s: S.Session, next: PathState)
    requires PathInv(e, ps) && ps.staged.Some?
    requires S.Valid(s) && S.Contents(s) == S.Contents(ps.staged.value.session)
    requires s.dirty == ps.staged.value.session.dirty && s.prefetched == ps.staged.value.session.prefetched
    requires s.size == ps.staged.value.session.size
    requires next == SetSession(ps, s).(workers := next.workers, objectLock := next.objectLock)
    ensures InvSession(next) && InvHandles(e, next) && InvRecent(next) && InvDirty(e, next) && Agrees(e, next)
  {
    hide S.Valid, S.Contents, InvWorkers, Pending;
    forall h | h in ps.handles
      ensures InvHandle(e, next.staged, Backed(next.staged, next.accepted), next.sidecar,
                        next.sidecarMu == Some(ByHandle(h)), next.handles[h])
    {
    }
    hide InvHandle;
  }

  /** An entry goes when what the bucket holds is one of the recent contents. */
  lemma EntryGoes(e: Option<I.Entry>, ps: PathState, w: WorkerId, next: PathState)
    requires PathInv(e, ps) && ps.sidecarMu.None? && ps.bucket in ps.recent
    requires next == ps.(workers := next.workers, sidecarMu := Some(ByWorker(w)))
    ensures InvSession(next) && InvHandles(None, next) && InvRecent(next) && InvDirty(None, next) && Agrees(None, next)
  {
    hide S.Valid, S.Contents, InvWorkers, Pending;
  }

  /** The upload of the entry's own generation marks the path clean. */
  lemma MarkedClean(e: Option<I.Entry>, ps: PathState, w: WorkerId, next: PathState)
    requires PathInv(e, ps) && e.Some? && ps.sidecarMu.None?
    requires w in ps.workers && ps.workers[w].Uploaded? && ps.workers[w].generation == e.value.generation
    requires next == SetWorker(ps, w, DroppingSidecar(ps.workers[w].session)).(sidecarMu := Some(ByWorker(w)))
    ensures PathInv(None, next)
  {
    hide S.Valid, S.SnapshotBytes, S.Contents, Pending, InvHandle;
    HolderFacts(e, ps, w);
    EntryGoes(e, ps, w, next);
    assert InvWorker(None, next.staged, next.stranded, next.bucket, next.recent,
                     next.objectLock == Some(w), next.sidecarMu == Some(ByWorker(w)), w, next.workers[w]);
    hide InvSession, InvHandles, InvDirty, InvRecent, Agrees, InvWorkers, InvWorker, InvStranded;
    HolderMoves(e, ps, w, None, next);
  }

  lemma MarkCleanKeeps(ix: I.Index, p: Path, ps: PathState, w: WorkerId)
    requires Bounded(ix, p) && PathInv(EntryOf(ix, p), ps)
    ensures var r := DoMarkClean(ix, p, ps, w);
            r.Some? ==> PathInv(EntryOf(r.value.0, p), r.value.1)
  {
    hide S.Valid, S.SnapshotBytes, S.Contents, PathInv;
    var r := DoMarkClean(ix, p, ps, w);
    if r.Some? {
      if p in ix.dirty && I.Unchanged(ix, p, ps.workers[w].generation) {
        MarkedClean(EntryOf(ix, p), ps, w, r.value.1);
      } else {
        HolderFacts(EntryOf(ix, p), ps, w);
        WorkerMoves(EntryOf(ix, p), ps, w, r.value.1.workers[w]);
      }
    }
  }

  lemma DropSidecarKeeps(ix: I.Index, p: Path, ps: PathState, w: WorkerId)
    requires Bounded(ix, p) && PathInv(EntryOf(ix, p), ps)
    ensures var r := DoDropSidecar(ix, p, ps, w);
            r.Some? ==> PathInv(EntryOf(r.value.0, p), r.value.1)
  {
    hide S.Valid, S.SnapshotBytes, S.Contents, Pending;
    var r := DoDropSidecar(ix, p, ps, w);
    if r.Some? {
      HolderFacts(EntryOf(ix, p), ps, w);
      HolderMoves(EntryOf(ix, p), ps, w, EntryOf(r.value.0, p), r.value.1);
    }
  }

  lemma CleanupKeeps(ix: I.Index, p: Path, ps: PathState, w: WorkerId, cleanAfterSync: bool)
    requires Bounded(ix, p) && PathInv(EntryOf(ix, p), ps)
    ensures var r := DoCleanup(ix, p, ps, w, cleanAfterSync);
            r.Some? ==> PathInv(EntryOf(r.value.0, p), r.value.1)
  {
    hide S.Valid, S.SnapshotBytes, S.Contents, Pending;
    var r := DoCleanup(ix, p, ps, w, cleanAfterSync);
    if r.Some? {
      HolderFacts(EntryOf(ix, p), ps, w);
      HolderMoves(EntryOf(ix, p), ps, w, EntryOf(r.value.0, p), r.value.1);
    }
  }

  lemma UnlinkSidecarKeeps(ix: I.Index, p: Path, ps: PathState, w: WorkerId)
    requires Bounded(ix, p) && PathInv(EntryOf(ix, p), ps)
    ensures var r := DoUnlinkSidecar(ix, p, ps, w);
            r.Some? ==> PathInv(EntryOf(r.value.0, p), r.value.1)
  {
    hide S.Valid, S.SnapshotBytes, S.Contents, Pending;
    var r := DoUnlinkSidecar(ix, p, ps, w);
    if r.Some? {
      HolderFacts(EntryOf(ix, p), ps, w);
      HolderMoves(EntryOf(ix, p), ps, w, EntryOf(r.value.0, p), r.value.1);
    }
  }

  lemma FinishKeeps(ix: I.Index, p: Path, ps: PathState, w: WorkerId)
    requires Bounded(ix, p) && PathInv(EntryOf(ix, p), ps)
    ensures var r := DoFinish(ix, p, ps, w);
            r.Some? ==> PathInv(EntryOf(r.value.0, p), r.value.1)
  {
    hide S.Valid, S.SnapshotBytes, S.Contents;
    var r := DoFinish(ix, p, ps, w);
    if r.Some? {
      HolderFacts(EntryOf(ix, p), ps, w);
      if ps.staged.Some? {
        S.OpenCloseLemma(ps.staged.value.session, w);
        SessionKept(EntryOf(ix, p), ps, S.AfterClose(ps.staged.value.session, w), r.value.1);
        hide InvSession, InvHandles, InvDirty, InvRecent, Agrees;
        HolderMoves(EntryOf(ix, p), ps, w, EntryOf(r.value.0, p), r.value.1);
      } else {
        HolderMoves(EntryOf(ix, p), ps, w, EntryOf(r.value.0, p), r.value.1);
      }
    }
  }

  lemma UnclaimKeeps(ix: I.Index, p: Path, ps: PathState, w: WorkerId)
    requires Bounded(ix, p) && PathInv(EntryOf(ix, p), ps)
    ensures var r := DoUnclaim(ix, p, ps, w);
            r.Some? ==> PathInv(EntryOf(r.value.0, p), r.value.1)
  {
    hide S.Valid, S.SnapshotBytes, S.Contents;
    if DoUnclaim(ix, p, ps, w).Some? {
      WorkerLeaves(EntryOf(ix, p), ps, w);
    }
  }
}
