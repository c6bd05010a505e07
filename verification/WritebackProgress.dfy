/** What the write-back protocol gets done when nobody interferes: a file is
    opened, a change of it listed, a sync carried through. Each step of the code
    has its part in one of these runs. */
module WritebackProgress {
  import opened Common
  import S = SessionState
  import I = IndexState
  import opened Writeback
  import opened WritebackSafety

  type State = (I.Index, PathState)

  /** A run on one path. */
  function PathRun(p: Path, s: State, steps: seq<Step>): Option<State>
    decreases steps
  {
    if steps == [] then Some(s)
    else
      var r := Next(s.0, p, s.1, steps[0]);
      if r.None? then None else PathRun(p, r.value, steps[1..])
  }

  lemma {:induction false} RunOneMore(p: Path, s: State, steps: seq<Step>, t: State, step: Step)
    requires PathRun(p, s, steps) == Some(t)
    ensures PathRun(p, s, steps + [step]) == Next(t.0, p, t.1, step)
    decreases steps
  {
    hide Next;
    if steps == [] {
      assert steps + [step] == [step];
      assert [step][1..] == [];
    } else {
      var next := Next(s.0, p, s.1, steps[0]).value;
      RunOneMore(p, next, steps[1..], t, step);
      assert (steps + [step])[1..] == steps[1..] + [step];
    }
  }

  lemma Then(p: Path, s: State, steps: seq<Step>, t: State, step: Step, u: State)
    requires PathRun(p, s, steps) == Some(t) && Next(t.0, p, t.1, step) == Some(u)
    ensures PathRun(p, s, steps + [step]) == Some(u)
  {
    hide Next, PathRun;
    RunOneMore(p, s, steps, t, step);
  }

  // ---- opening ----

  /** The path with a new session that handle h alone holds. */
  function Opened(ps: PathState, h: HandleId, s: S.Session, phase: HandlePhase): PathState {
    ps.(staged := Some(Staged(ps.nextId, s)), refs := 1, nextId := ps.nextId + 1, sidecar := true,
        handles := map[h := Handle(ps.nextId, phase)])
  }

  lemma OpenedMoves(ps: PathState, h: HandleId, s: S.Session, phase: HandlePhase, next: HandlePhase, t: S.Session)
    ensures SetPhase(Opened(ps, h, s, phase), h, next) == Opened(ps, h, s, next)
    ensures SetSession(Opened(ps, h, s, phase), t) == Opened(ps, h, t, phase)
  {
    var handles := map[h := Handle(ps.nextId, phase)];
    assert handles[h := Handle(ps.nextId, next)] == map[h := Handle(ps.nextId, next)];
  }

  function OpenSteps(h: HandleId, found: bool): seq<Step> {
    [Open(h, false), Look(h), Stat(h)] + if found then [Prefetch(h)] else []
  }

  /** A file that nobody has open is opened to be written: a new session with its
      sidecar, filled with the object if there is one. */
  lemma OpenFills(ix: I.Index, p: Path, ps: PathState, h: HandleId)
    requires ManagerFree(ps) && ps.sidecarMu.None?
    requires ps.staged.None? && ps.stranded.None? && ps.handles == map[]
    ensures var session := if ps.bucket.Some? then S.AfterPrefetch(S.NewSession([]), ps.bucket.value)
                           else S.NewSession([]);
            && PathRun(p, (ix, ps), OpenSteps(h, ps.bucket.Some?)) == Some((ix, Opened(ps, h, session, Ready)))
            && S.Contents(session) == ps.bucket.GetOr([]) && !session.dirty
  {
    hide PathRun, S.AfterPrefetch;
    var s0, empty := (ix, ps), S.NewSession([]);
    var opening := Opened(ps, h, empty, Opening(false));
    Nothing(p, s0);
    assert ps.handles[h := Handle(ps.nextId, Opening(false))] == opening.handles;
    Then(p, s0, [], s0, Open(h, false), (ix, opening));
    hide ManagerFree;
    var asking := Opened(ps, h, empty, Asking);
    OpenedMoves(ps, h, empty, Opening(false), Asking, empty);
    Then(p, s0, [] + [Open(h, false)], (ix, opening), Look(h), (ix, asking));
    var phase := if ps.bucket.Some? then WantsPrefetch else Ready;
    OpenedMoves(ps, h, empty, Asking, phase, empty);
    Then(p, s0, [] + [Open(h, false)] + [Look(h)], (ix, asking), Stat(h), (ix, Opened(ps, h, empty, phase)));
    var steps := [] + [Open(h, false)] + [Look(h)] + [Stat(h)];
    assert steps == [Open(h, false), Look(h), Stat(h)];
    if ps.bucket.Some? {
      Fetched(ps.bucket.value);
      var filled := S.AfterPrefetch(empty, ps.bucket.value);
      OpenedMoves(ps, h, empty, WantsPrefetch, Ready, filled);
      OpenedMoves(ps, h, filled, WantsPrefetch, Ready, filled);
      Then(p, s0, steps, (ix, Opened(ps, h, empty, WantsPrefetch)), Prefetch(h), (ix, Opened(ps, h, filled, Ready)));
    } else {
      assert steps + [] == steps;
    }
  }

  lemma Nothing(p: Path, s: State)
    ensures PathRun(p, s, []) == Some(s)
  {
  }

  lemma Fetched(bytes: Bytes)
    ensures var s := S.AfterPrefetch(S.NewSession([]), bytes);
            S.Contents(s) == bytes && !s.dirty && s.prefetched && s.size == |bytes|
  {
  }

  /** A file that has a session is opened: the handle joins it, and asks the bucket
      only if the session holds nothing yet. */
  lemma OpenJoins(ix: I.Index, p: Path, ps: PathState, h: HandleId, truncates: bool)
    requires ps.staged.Some? && h !in ps.handles && ManagerFree(ps)
    ensures var s, id := ps.staged.value.session, ps.staged.value.id;
            var phase := if truncates then MustTruncate
                         else if s.dirty || s.prefetched || s.size > 0 then Ready
                         else Asking;
            PathRun(p, (ix, ps), [Open(h, truncates), Look(h)]) ==
            Some((ix, ps.(refs := ps.refs + 1, handles := ps.handles[h := Handle(id, phase)])))
  {
    hide PathRun;
    var id := ps.staged.value.id;
    var s0, s1 := (ix, ps), ps.(refs := ps.refs + 1, handles := ps.handles[h := Handle(id, Opening(truncates))]);
    Nothing(p, s0);
    Then(p, s0, [], s0, Open(h, truncates), (ix, s1));
    hide ManagerFree;
    var s2 := Next(ix, p, s1, Look(h)).value;
    Then(p, s0, [] + [Open(h, truncates)], (ix, s1), Look(h), s2);
    assert [] + [Open(h, truncates)] + [Look(h)] == [Open(h, truncates), Look(h)];
    assert s1.handles[h := s2.1.handles[h]] == ps.handles[h := s2.1.handles[h]];
  }

  // ---- listing and closing ----

  /** A change of a file that is not dirty is listed, sidecar first. */
  lemma ListCompletes(ix: I.Index, p: Path, ps: PathState, h: HandleId)
    requires p !in ix.dirty && h in ps.handles && ps.handles[h].phase.Changed? && ps.sidecarMu.None?
    requires ps.staged.Some?
    ensures PathRun(p, (ix, ps), [Mark(h), RecordSidecar(h), ListDirty(h)]) ==
            Some((ix.(dirty := ix.dirty[p := I.Entry(ps.staged.value.session.size, ix.generation + 1, true)],
                      generation := ix.generation + 1),
                  ps.(handles := ps.handles[h := ps.handles[h].(phase := Ready)],
                      sidecar := true, recent := {ps.accepted})))
  {
    hide PathRun;
    var s0 := (ix, ps);
    Nothing(p, s0);
    var s1 := SetPhase(ps, h, Unlisted);
    Then(p, s0, [], s0, Mark(h), (ix, s1));
    var s2 := SetPhase(s1, h, Recorded).(sidecar := true, sidecarMu := Some(ByHandle(h)));
    Then(p, s0, [] + [Mark(h)], (ix, s1), RecordSidecar(h), (ix, s2));
    var s3 := Lists(s2, h);
    var listed := I.List(ix, p, SizeOf(ps), true);
    Then(p, s0, [] + [Mark(h)] + [RecordSidecar(h)], (ix, s2), ListDirty(h), (listed, s3));
    assert [] + [Mark(h)] + [RecordSidecar(h)] + [ListDirty(h)] == [Mark(h), RecordSidecar(h), ListDirty(h)];
    assert s3.handles == ps.handles[h := ps.handles[h].(phase := Ready)];
  }

  /** One of a dirty file at once, under a new generation. */
  lemma ListAgainCompletes(ix: I.Index, p: Path, ps: PathState, h: HandleId)
    requires p in ix.dirty && ix.dirty[p].recorded && h in ps.handles && ps.handles[h].phase.Changed? && ps.staged.Some?
    ensures PathRun(p, (ix, ps), [Mark(h)]) ==
            Some((ix.(dirty := ix.dirty[p := I.Entry(ps.staged.value.session.size, ix.generation + 1, true)],
                      generation := ix.generation + 1),
                  ps.(handles := ps.handles[h := ps.handles[h].(phase := Ready)], recent := {ps.accepted})))
  {
    hide PathRun;
    var s0 := (ix, ps);
    Nothing(p, s0);
    Then(p, s0, [], s0, Mark(h), (I.List(ix, p, SizeOf(ps), true), Lists(ps, h).(sidecarMu := ps.sidecarMu)));
    assert [] + [Mark(h)] == [Mark(h)];
  }

  /** Closing a handle gives back its reference and does nothing else. */
  lemma CloseCompletes(ix: I.Index, p: Path, ps: PathState, h: HandleId)
    requires PathInv(EntryOf(ix, p), ps) && ManagerFree(ps) && h in ps.handles && !InFlight(ps.handles[h].phase)
    ensures ps.refs > 0
    ensures Next(ix, p, ps, Close(h)) == Some((ix, ps.(refs := ps.refs - 1, handles := ps.handles - {h})))
  {
    hide S.Valid, S.Contents, InvWorkers;
    assert InvHandle(EntryOf(ix, p), ps.staged, Backed(ps.staged, ps.accepted), ps.sidecar,
                     ps.sidecarMu == Some(ByHandle(h)), ps.handles[h]);
    CountWithout(ps.handles, h);
  }

  // ---- syncing ----

  function SyncSteps(w: WorkerId): seq<Step> {
    [Claim(w), Recheck(w), LockObject(w), FindSession(w), ReadGeneration(w), OpenSnapshot(w)]
  }

  /** A path that nobody syncs, and whose sidecar nobody writes. */
  predicate Quiet(ix: I.Index, p: Path, ps: PathState) {
    p !in ix.syncing && ps.workers == map[] && ps.objectLock.None? && ps.sidecarMu.None?
  }

  /** The path with worker w alone, holding the claim and the object lock. */
  function Syncing(ps: PathState, w: WorkerId, s: S.Session, phase: WorkerPhase): PathState
    requires ps.staged.Some?
  {
    SetSession(ps, s).(workers := map[w := phase], objectLock := Some(w))
  }

  lemma SyncingMoves(ps: PathState, w: WorkerId, s: S.Session, phase: WorkerPhase, next: WorkerPhase)
    requires ps.staged.Some?
    ensures SetWorker(Syncing(ps, w, s, phase), w, next) == Syncing(ps, w, s, next)
    ensures SetWorker(Syncing(ps, w, s, phase).(objectLock := None), w, next)
            == Syncing(ps, w, s, next).(objectLock := None)
  {
    var workers := map[w := phase];
    assert workers[w := next] == map[w := next];
  }

  function WithClaim(ix: I.Index, p: Path): I.Index {
    ix.(syncing := ix.syncing + {p})
  }

  /** The same before it has the object lock. */
  function Waiting(ps: PathState, w: WorkerId, phase: WorkerPhase): PathState {
    ps.(workers := map[w := phase])
  }

  // One step each. The worker is alone, so its step leaves it alone in its next phase.

  lemma ClaimStep(ix: I.Index, p: Path, ps: PathState, w: WorkerId)
    requires Quiet(ix, p, ps)
    ensures Next(ix, p, ps, Claim(w)) == Some((WithClaim(ix, p), Waiting(ps, w, Claimed)))
  {
    assert ps.workers[w := Claimed] == map[w := Claimed];
  }

  lemma RecheckStep(ix: I.Index, p: Path, ps: PathState, w: WorkerId)
    ensures p in ix.dirty ==> Next(ix, p, Waiting(ps, w, Claimed), Recheck(w)) == Some((ix, Waiting(ps, w, Queued)))
    ensures p !in ix.dirty && ps.workers == map[] ==>
              Next(ix, p, Waiting(ps, w, Claimed), Recheck(w)) == Some((ix.(syncing := ix.syncing - {p}), ps))
  {
    var workers: map<WorkerId, WorkerPhase> := map[w := Claimed];
    assert workers[w := Queued] == map[w := Queued];
    assert workers - {w} == map[];
  }

  lemma LockStep(ix: I.Index, p: Path, ps: PathState, w: WorkerId)
    requires ps.objectLock.None? && ps.staged.Some?
    ensures Next(ix, p, Waiting(ps, w, Queued), LockObject(w))
            == Some((ix, Syncing(ps, w, ps.staged.value.session, Locked)))
  {
    var workers: map<WorkerId, WorkerPhase> := map[w := Queued];
    assert workers[w := Locked] == map[w := Locked];
  }

  lemma FindStep(ix: I.Index, p: Path, ps: PathState, w: WorkerId, s: S.Session)
    requires ps.staged.Some?
    ensures Next(ix, p, Syncing(ps, w, s, Locked), FindSession(w))
            == Some((ix, Syncing(ps, w, s, Found(ps.staged.value.id))))
  {
    SyncingMoves(ps, w, s, Locked, Found(ps.staged.value.id));
    hide SetWorker;
  }

  /** A worker that finds no session makes one over a staging file left behind, dirty
      and held by nobody; with no file either it drops the entry and the sidecar. */
  lemma FindWithoutSession(ix: I.Index, p: Path, ps: PathState, w: WorkerId)
    requires ps.staged.None? && ps.sidecarMu.None?
    ensures ps.stranded.Some? ==>
              Next(ix, p, Waiting(ps, w, Locked), FindSession(w)) ==
              Some((ix, Waiting(ps.(staged := Some(Staged(ps.nextId, S.NewSession(ps.stranded.value).(dirty := true))),
                                    refs := 0, nextId := ps.nextId + 1, stranded := None, sidecar := true),
                                w, Found(ps.nextId))))
    ensures ps.stranded.None? ==>
              Next(ix, p, Waiting(ps, w, Locked), FindSession(w)) == Some((ix, Waiting(ps, w, Missing)))
    ensures Next(ix, p, Waiting(ps, w, Missing), Forget(w)) ==
            Some((ix.(dirty := ix.dirty - {p}, syncing := ix.syncing - {p}),
                  Waiting(ps.(sidecar := false), w, Finished)))
  {
    var workers: map<WorkerId, WorkerPhase> := map[w := Locked];
    assert workers[w := Found(ps.nextId)] == map[w := Found(ps.nextId)];
    assert workers[w := Missing] == map[w := Missing];
    var missing: map<WorkerId, WorkerPhase> := map[w := Missing];
    assert missing[w := Finished] == map[w := Finished];
  }

  lemma ReadStep(ix: I.Index, p: Path, ps: PathState, w: WorkerId, s: S.Session, id: nat)
    requires ps.staged.Some? && p in ix.dirty
    ensures Next(ix, p, Syncing(ps, w, s, Found(id)), ReadGeneration(w))
            == Some((ix, Syncing(ps, w, s, GenerationRead(id, ix.dirty[p].generation))))
  {
    SyncingMoves(ps, w, s, Found(id), GenerationRead(id, ix.dirty[p].generation));
    hide SetWorker;
  }

  lemma SnapshotStep(ix: I.Index, p: Path, ps: PathState, w: WorkerId, s: S.Session, g: nat)
    requires ps.staged.Some?
    ensures var id := ps.staged.value.id;
            Next(ix, p, Syncing(ps, w, s, GenerationRead(id, g)), OpenSnapshot(w))
            == Some((ix, Syncing(ps, w, S.AfterOpen(s, w), Snapped(id, g))))
  {
    var id := ps.staged.value.id;
    SyncingMoves(ps, w, S.AfterOpen(s, w), GenerationRead(id, g), Snapped(id, g));
    assert SetSession(Syncing(ps, w, s, GenerationRead(id, g)), S.AfterOpen(s, w))
           == Syncing(ps, w, S.AfterOpen(s, w), GenerationRead(id, g));
    hide SetWorker, S.AfterOpen;
  }

  lemma UploadStep(ix: I.Index, p: Path, ps: PathState, w: WorkerId, s: S.Session, g: nat)
    requires ps.staged.Some? && w in s.snapshots
    ensures var id := ps.staged.value.id;
            var up := ps.(bucket := Some(S.SnapshotBytes(s, w)));
            && Next(ix, p, Syncing(ps, w, s, Snapped(id, g)), Upload(w))
               == Some((ix, Syncing(up, w, s, Uploaded(id, g))))
            && Next(ix, p, Syncing(ps, w, s, Snapped(id, g)), UploadFails(w, true))
               == Some((ix, Syncing(up, w, s, Finished)))
            && Next(ix, p, Syncing(ps, w, s, Snapped(id, g)), UploadFails(w, false))
               == Some((ix, Syncing(ps, w, s, Finished)))
  {
    var id := ps.staged.value.id;
    SyncingMoves(ps, w, s, Snapped(id, g), Uploaded(id, g));
    SyncingMoves(ps, w, s, Snapped(id, g), Finished);
    hide SetWorker, S.SnapshotBytes;
  }

  lemma MarkCleanStep(ix: I.Index, p: Path, ps: PathState, w: WorkerId, s: S.Session, id: nat, g: nat)
    requires ps.staged.Some? && ps.sidecarMu.None?
    ensures p in ix.dirty && ix.dirty[p].generation == g ==>
              Next(ix, p, Syncing(ps, w, s, Uploaded(id, g)), MarkClean(w)) ==
              Some((ix.(dirty := ix.dirty - {p}, syncing := ix.syncing - {p}),
                    Syncing(ps, w, s, DroppingSidecar(id)).(sidecarMu := Some(ByWorker(w)))))
    ensures p in ix.dirty && ix.dirty[p].generation != g ==>
              Next(ix, p, Syncing(ps, w, s, Uploaded(id, g)), MarkClean(w)) == Some((ix, Syncing(ps, w, s, Finished)))
    ensures p !in ix.dirty ==>
              Next(ix, p, Syncing(ps, w, s, Uploaded(id, g)), MarkClean(w)) ==
              Some((ix.(dirty := ix.dirty - {p}, syncing := ix.syncing - {p}), Syncing(ps, w, s, Cleaned(id))))
  {
    SyncingMoves(ps, w, s, Uploaded(id, g), DroppingSidecar(id));
    SyncingMoves(ps, w, s, Uploaded(id, g), Finished);
    SyncingMoves(ps, w, s, Uploaded(id, g), Cleaned(id));
    hide SetWorker;
  }

  lemma DropStep(ix: I.Index, p: Path, ps: PathState, w: WorkerId, s: S.Session, id: nat)
    requires ps.staged.Some? && ps.sidecarMu.None?
    ensures Next(ix, p, Syncing(ps, w, s, DroppingSidecar(id)).(sidecarMu := Some(ByWorker(w))), DropSidecar(w))
            == Some((ix, Syncing(ps.(sidecar := false), w, s, Cleaned(id))))
  {
    SyncingMoves(ps, w, s, DroppingSidecar(id), Cleaned(id));
  }

  /** The session stays if it may not be removed, is in use, or is dirty again. */
  lemma CleanupStep(ix: I.Index, p: Path, ps: PathState, w: WorkerId, s: S.Session, clean: bool)
    requires ps.staged.Some?
    ensures var id := ps.staged.value.id;
            if clean && ps.refs == 0 && p !in ix.dirty
            then Next(ix, p, Syncing(ps, w, s, Cleaned(id)), Cleanup(w, clean))
                 == Some((ix, Waiting(ps.(staged := None, objectLock := Some(w)), w, Unlinking)))
            else Next(ix, p, Syncing(ps, w, s, Cleaned(id)), Cleanup(w, clean))
                 == Some((ix, Syncing(ps, w, s, Finished)))
  {
    var id := ps.staged.value.id;
    SyncingMoves(ps, w, s, Cleaned(id), Finished);
    SyncingMoves(ps, w, s, Cleaned(id), Unlinking);
    assert Syncing(ps, w, s, Unlinking).(staged := None)
           == Waiting(ps.(staged := None, objectLock := Some(w)), w, Unlinking);
    hide SetWorker;
  }

  lemma UnlinkStep(ix: I.Index, p: Path, ps: PathState, w: WorkerId)
    ensures Next(ix, p, Waiting(ps, w, Unlinking), UnlinkSidecar(w))
            == Some((ix, Waiting(ps.(sidecar := false), w, Finished)))
  {
    var workers: map<WorkerId, WorkerPhase> := map[w := Unlinking];
    assert workers[w := Finished] == map[w := Finished];
  }

  lemma FinishStep(ix: I.Index, p: Path, ps: PathState, w: WorkerId)
    ensures ps.staged.None? ==>
              Next(ix, p, Waiting(ps, w, Finished), Finish(w)) ==
              Some((ix, Waiting(ps.(objectLock := None), w, Unlocked)))
    ensures ps.staged.Some? ==>
              Next(ix, p, Waiting(ps, w, Finished), Finish(w)) ==
              Some((ix, Waiting(SetSession(ps, S.AfterClose(ps.staged.value.session, w)).(objectLock := None),
                                w, Unlocked)))
  {
    hide S.AfterClose;
    var workers: map<WorkerId, WorkerPhase> := map[w := Finished];
    assert workers[w := Unlocked] == map[w := Unlocked];
  }

  lemma UnclaimStep(ix: I.Index, p: Path, ps: PathState, w: WorkerId)
    requires ps.workers == map[]
    ensures Next(ix, p, Waiting(ps, w, Unlocked), Unclaim(w)) == Some((ix.(syncing := ix.syncing - {p}), ps))
  {
    var workers: map<WorkerId, WorkerPhase> := map[w := Unlocked];
    assert workers - {w} == map[];
  }

  // ---- whole syncs ----

  lemma SnapshotRun(ix: I.Index, p: Path, ps: PathState, w: WorkerId)
    requires Quiet(ix, p, ps) && p in ix.dirty && ps.staged.Some?
    ensures PathRun(p, (ix, ps), SyncSteps(w)) ==
            Some((WithClaim(ix, p),
                  Syncing(ps, w, S.AfterOpen(ps.staged.value.session, w),
                          Snapped(ps.staged.value.id, ix.dirty[p].generation))))
  {
    var jx, s0 := WithClaim(ix, p), (ix, ps);
    var s, id, g := ps.staged.value.session, ps.staged.value.id, ix.dirty[p].generation;
    hide PathRun, Next, Syncing, Waiting, S.AfterOpen;
    Nothing(p, s0);
    ClaimStep(ix, p, ps, w);
    Then(p, s0, [], s0, Claim(w), (jx, Waiting(ps, w, Claimed)));
    var steps := [] + [Claim(w)];
    RecheckStep(jx, p, ps, w);
    Then(p, s0, steps, (jx, Waiting(ps, w, Claimed)), Recheck(w), (jx, Waiting(ps, w, Queued)));
    steps := steps + [Recheck(w)];
    LockStep(jx, p, ps, w);
    Then(p, s0, steps, (jx, Waiting(ps, w, Queued)), LockObject(w), (jx, Syncing(ps, w, s, Locked)));
    steps := steps + [LockObject(w)];
    FindStep(jx, p, ps, w, s);
    Then(p, s0, steps, (jx, Syncing(ps, w, s, Locked)), FindSession(w), (jx, Syncing(ps, w, s, Found(id))));
    steps := steps + [FindSession(w)];
    ReadStep(jx, p, ps, w, s, id);
    Then(p, s0, steps, (jx, Syncing(ps, w, s, Found(id))), ReadGeneration(w),
         (jx, Syncing(ps, w, s, GenerationRead(id, g))));
    steps := steps + [ReadGeneration(w)];
    SnapshotStep(jx, p, ps, w, s, g);
    Then(p, s0, steps, (jx, Syncing(ps, w, s, GenerationRead(id, g))), OpenSnapshot(w),
         (jx, Syncing(ps, w, S.AfterOpen(s, w), Snapped(id, g))));
    assert steps + [OpenSnapshot(w)] == SyncSteps(w);
  }

  /** What a worker leaves of the session it has read. */
  function Left(ps: PathState, w: WorkerId): S.Session
    requires ps.staged.Some?
  {
    S.AfterClose(S.AfterOpen(ps.staged.value.session, w), w)
  }

  /** Snapshot w of a session of an invariant state reads the accepted bytes, and is
      gone when it is closed. */
  lemma ReadsAccepted(e: Option<I.Entry>, ps: PathState, w: WorkerId)
    requires PathInv(e, ps) && e.Some? && ps.workers == map[]
    ensures ps.staged.Some? && w in S.AfterOpen(ps.staged.value.session, w).snapshots
    ensures Some(S.SnapshotBytes(S.AfterOpen(ps.staged.value.session, w), w)) == ps.accepted
    ensures S.Contents(Left(ps, w)) == S.Contents(ps.staged.value.session)
    ensures Left(ps, w) == ps.staged.value.session
  {
    var s := ps.staged.value.session;
    assert w !in s.snapshots;
    StandingContents(ps);
    S.OpenCloseLemma(s, w);
    assert s.snapshots[w := S.AfterOpen(s, w).snapshots[w]] - {w} == s.snapshots;
  }

  function WithoutEntry(ix: I.Index, p: Path): I.Index {
    ix.(dirty := ix.dirty - {p})
  }

  lemma ClaimGoes(ix: I.Index, p: Path)
    requires p !in ix.syncing
    ensures var claimed, clean := WithClaim(ix, p), WithoutEntry(ix, p);
            && claimed.(syncing := claimed.syncing - {p}) == ix
            && claimed.(dirty := claimed.dirty - {p}, syncing := claimed.syncing - {p}) == clean
            && clean.(syncing := clean.syncing - {p}) == clean
  {
    assert ix.syncing + {p} - {p} == ix.syncing && ix.syncing - {p} == ix.syncing;
  }

  lemma CleanRun(ix: I.Index, p: Path, ps: PathState, w: WorkerId, s: S.Session, id: nat)
    requires Quiet(ix, p, ps) && p in ix.dirty && ps.staged.Some? && id == ps.staged.value.id
    requires s == S.AfterOpen(ps.staged.value.session, w) && w in s.snapshots
    ensures PathRun(p, (ix, ps), SyncSteps(w) + [Upload(w), MarkClean(w), DropSidecar(w)]) ==
            Some((WithoutEntry(ix, p),
                  Syncing(ps.(bucket := Some(S.SnapshotBytes(s, w)), sidecar := false), w, s, Cleaned(id))))
  {
    hide PathRun, Next, Syncing, S.AfterOpen, S.SnapshotBytes, SyncSteps;
    var g, jx, kx := ix.dirty[p].generation, WithClaim(ix, p), WithoutEntry(ix, p);
    var up := ps.(bucket := Some(S.SnapshotBytes(s, w)));
    var s0, steps := (ix, ps), SyncSteps(w);
    ClaimGoes(ix, p);
    SnapshotRun(ix, p, ps, w);
    UploadStep(jx, p, ps, w, s, g);
    Then(p, s0, steps, (jx, Syncing(ps, w, s, Snapped(id, g))), Upload(w), (jx, Syncing(up, w, s, Uploaded(id, g))));
    MarkCleanStep(jx, p, up, w, s, id, g);
    var dropping := Syncing(up, w, s, DroppingSidecar(id)).(sidecarMu := Some(ByWorker(w)));
    Then(p, s0, steps + [Upload(w)], (jx, Syncing(up, w, s, Uploaded(id, g))), MarkClean(w), (kx, dropping));
    DropStep(kx, p, up, w, s, id);
    Then(p, s0, steps + [Upload(w)] + [MarkClean(w)], (kx, dropping), DropSidecar(w),
         (kx, Syncing(up.(sidecar := false), w, s, Cleaned(id))));
    assert steps + [Upload(w)] + [MarkClean(w)] + [DropSidecar(w)]
           == steps + [Upload(w), MarkClean(w), DropSidecar(w)];
  }

  function EndSteps(w: WorkerId, clean: bool, removes: bool): seq<Step> {
    [Cleanup(w, clean)] + (if removes then [UnlinkSidecar(w)] else []) + [Finish(w), Unclaim(w)]
  }

  lemma EndRun(p: Path, s0: State, steps: seq<Step>, ix: I.Index, ps: PathState, w: WorkerId, s: S.Session, clean: bool)
    requires ps.staged.Some? && ps.workers == map[] && ps.objectLock.None? && !ps.sidecar && p !in ix.dirty
    requires PathRun(p, s0, steps) == Some((ix, Syncing(ps, w, s, Cleaned(ps.staged.value.id))))
    ensures var removes := clean && ps.refs == 0;
            PathRun(p, s0, steps + EndSteps(w, clean, removes)) ==
            Some((ix.(syncing := ix.syncing - {p}),
                  if removes then ps.(staged := None) else SetSession(ps, S.AfterClose(s, w))))
  {
    hide PathRun, Next, Syncing, Waiting, S.AfterClose;
    var cleaned := Syncing(ps, w, s, Cleaned(ps.staged.value.id));
    CleanupStep(ix, p, ps, w, s, clean);
    if clean && ps.refs == 0 {
      var gone := ps.(staged := None, objectLock := Some(w));
      Then(p, s0, steps, (ix, cleaned), Cleanup(w, clean), (ix, Waiting(gone, w, Unlinking)));
      LeavesRemoved(p, s0, steps + [Cleanup(w, clean)], ix, gone, w);
      assert gone.(sidecar := false, objectLock := None) == ps.(staged := None);
      assert steps + [Cleanup(w, clean)] + [UnlinkSidecar(w), Finish(w), Unclaim(w)]
             == steps + EndSteps(w, clean, true);
    } else {
      Then(p, s0, steps, (ix, cleaned), Cleanup(w, clean), (ix, Syncing(ps, w, s, Finished)));
      LeavesKept(p, s0, steps + [Cleanup(w, clean)], ix, ps, w, s);
      assert steps + [Cleanup(w, clean)] + [Finish(w), Unclaim(w)] == steps + EndSteps(w, clean, false);
    }
  }

  /** A sync of a dirty path that nobody disturbs puts the accepted contents in the
      bucket, and leaves no entry, no claim, no lock and no sidecar; the session goes
      if it may and no handle holds it, and is as it was otherwise. */
  lemma SyncCompletes(ix: I.Index, p: Path, ps: PathState, w: WorkerId, clean: bool)
    requires PathInv(EntryOf(ix, p), ps) && p in ix.dirty && Quiet(ix, p, ps)
    ensures var removes := clean && ps.refs == 0;
            PathRun(p, (ix, ps),
                    SyncSteps(w) + [Upload(w), MarkClean(w), DropSidecar(w)] + EndSteps(w, clean, removes)) ==
            Some((ix.(dirty := ix.dirty - {p}),
                  ps.(bucket := ps.accepted, sidecar := false, staged := if removes then None else ps.staged)))
  {
    hide PathRun, PathInv, Syncing, S.AfterOpen, S.AfterClose, S.SnapshotBytes, SyncSteps, EndSteps;
    ReadsAccepted(EntryOf(ix, p), ps, w);
    var s, id := S.AfterOpen(ps.staged.value.session, w), ps.staged.value.id;
    CleanRun(ix, p, ps, w, s, id);
    ClaimGoes(ix, p);
    EndRun(p, (ix, ps), SyncSteps(w) + [Upload(w), MarkClean(w), DropSidecar(w)], WithoutEntry(ix, p),
           ps.(bucket := ps.accepted, sidecar := false), w, s, clean);
  }

  lemma LeavesKept(p: Path, s0: State, steps: seq<Step>, ix: I.Index, ps: PathState, w: WorkerId, s: S.Session)
    requires ps.staged.Some? && ps.workers == map[] && ps.objectLock.None?
    requires PathRun(p, s0, steps) == Some((ix, Syncing(ps, w, s, Finished)))
    ensures PathRun(p, s0, steps + [Finish(w), Unclaim(w)]) ==
            Some((ix.(syncing := ix.syncing - {p}), SetSession(ps, S.AfterClose(s, w))))
  {
    hide PathRun, Next, S.AfterClose;
    var held := SetSession(ps, s).(objectLock := Some(w));
    var closed := SetSession(ps, S.AfterClose(s, w));
    assert Syncing(ps, w, s, Finished) == Waiting(held, w, Finished);
    FinishStep(ix, p, held, w);
    assert SetSession(held, S.AfterClose(s, w)).(objectLock := None) == closed;
    UnclaimStep(ix, p, closed, w);
    hide Waiting;
    Then(p, s0, steps, (ix, Waiting(held, w, Finished)), Finish(w), (ix, Waiting(closed, w, Unlocked)));
    Then(p, s0, steps + [Finish(w)], (ix, Waiting(closed, w, Unlocked)), Unclaim(w),
         (ix.(syncing := ix.syncing - {p}), closed));
    assert steps + [Finish(w)] + [Unclaim(w)] == steps + [Finish(w), Unclaim(w)];
  }

  lemma LeavesRemoved(p: Path, s0: State, steps: seq<Step>, ix: I.Index, ps: PathState, w: WorkerId)
    requires ps.staged.None? && ps.workers == map[] && ps.objectLock == Some(w)
    requires PathRun(p, s0, steps) == Some((ix, Waiting(ps, w, Unlinking)))
    ensures PathRun(p, s0, steps + [UnlinkSidecar(w), Finish(w), Unclaim(w)]) ==
            Some((ix.(syncing := ix.syncing - {p}), ps.(sidecar := false, objectLock := None)))
  {
    hide PathRun, Next;
    var gone := ps.(sidecar := false);
    UnlinkStep(ix, p, ps, w);
    FinishStep(ix, p, gone, w);
    UnclaimStep(ix, p, gone.(objectLock := None), w);
    hide Waiting;
    Then(p, s0, steps, (ix, Waiting(ps, w, Unlinking)), UnlinkSidecar(w), (ix, Waiting(gone, w, Finished)));
    Then(p, s0, steps + [UnlinkSidecar(w)], (ix, Waiting(gone, w, Finished)), Finish(w),
         (ix, Waiting(gone.(objectLock := None), w, Unlocked)));
    Then(p, s0, steps + [UnlinkSidecar(w)] + [Finish(w)], (ix, Waiting(gone.(objectLock := None), w, Unlocked)),
         Unclaim(w), (ix.(syncing := ix.syncing - {p}), gone.(objectLock := None)));
    assert steps + [UnlinkSidecar(w)] + [Finish(w)] + [Unclaim(w)] == steps + [UnlinkSidecar(w), Finish(w), Unclaim(w)];
  }

  /** A sync whose upload fails leaves the path as it was, dirty and free to be synced
      again; the bucket has the accepted contents if the upload landed all the same. */
  lemma FailedSyncCompletes(ix: I.Index, p: Path, ps: PathState, w: WorkerId, landed: bool)
    requires PathInv(EntryOf(ix, p), ps) && p in ix.dirty && Quiet(ix, p, ps)
    ensures PathRun(p, (ix, ps), SyncSteps(w) + [UploadFails(w, landed), Finish(w), Unclaim(w)]) ==
            Some((ix, ps.(bucket := if landed then ps.accepted else ps.bucket)))
  {
    hide PathRun, Next, PathInv, Syncing, S.AfterOpen, S.AfterClose, S.SnapshotBytes, SyncSteps;
    ReadsAccepted(EntryOf(ix, p), ps, w);
    var s, id, g := S.AfterOpen(ps.staged.value.session, w), ps.staged.value.id, ix.dirty[p].generation;
    var jx := WithClaim(ix, p);
    ClaimGoes(ix, p);
    var up := ps.(bucket := if landed then ps.accepted else ps.bucket);
    SnapshotRun(ix, p, ps, w);
    UploadStep(jx, p, ps, w, s, g);
    Then(p, (ix, ps), SyncSteps(w), (jx, Syncing(ps, w, s, Snapped(id, g))), UploadFails(w, landed),
         (jx, Syncing(up, w, s, Finished)));
    LeavesKept(p, (ix, ps), SyncSteps(w) + [UploadFails(w, landed)], jx, up, w, s);
    assert SyncSteps(w) + [UploadFails(w, landed)] + [Finish(w), Unclaim(w)]
           == SyncSteps(w) + [UploadFails(w, landed), Finish(w), Unclaim(w)];
  }

  /** A worker that claims a path which is clean by then goes again. */
  lemma CleanClaimCompletes(ix: I.Index, p: Path, ps: PathState, w: WorkerId)
    requires Quiet(ix, p, ps) && p !in ix.dirty
    ensures PathRun(p, (ix, ps), [Claim(w), Recheck(w)]) == Some((ix, ps))
  {
    hide PathRun, Next;
    var jx, s0 := WithClaim(ix, p), (ix, ps);
    assert jx.(syncing := jx.syncing - {p}) == ix;
    Nothing(p, s0);
    ClaimStep(ix, p, ps, w);
    RecheckStep(jx, p, ps, w);
    hide Waiting;
    Then(p, s0, [], s0, Claim(w), (jx, Waiting(ps, w, Claimed)));
    Then(p, s0, [] + [Claim(w)], (jx, Waiting(ps, w, Claimed)), Recheck(w), (ix, ps));
    assert [] + [Claim(w)] + [Recheck(w)] == [Claim(w), Recheck(w)];
  }

  /** A change through a handle whose session the manager no longer lists goes to a file
      without a name: it is accepted, and nothing staged changes. */
  lemma OrphanChange(ix: I.Index, p: Path, ps: PathState, h: HandleId, op: S.Op)
    requires h in ps.handles && ps.handles[h].phase.Ready? && !HasSession(ps, ps.handles[h].session)
    requires op.WriteOp? || op.TruncateOp?
    ensures Next(ix, p, ps, Change(h, op)).Some? && Next(ix, p, ps, Change(h, op)).value.0 == ix
    ensures var next := Next(ix, p, ps, Change(h, op)).value.1;
            && next.handles[h].phase.Changed? && next.staged == ps.staged && next.bucket == ps.bucket
            && next.accepted == Some(S.PlainAfter(S.PlainFile(ps.accepted.GetOr([]), true), op).bytes)
  {
  }

  // ---- what excludes what ----

  /** A path is claimed by one worker at a time and its object locked by one; while
      someone writes or removes its sidecar nobody else does; and while its session is
      being removed nobody looks for it. */
  lemma MutexesExclude(ix: I.Index, p: Path, ps: PathState, h: HandleId, w: WorkerId, b: bool)
    ensures p in ix.syncing ==> Next(ix, p, ps, Claim(w)).None?
    ensures ps.objectLock.Some? ==> Next(ix, p, ps, LockObject(w)).None?
    ensures ps.sidecarMu.Some? ==>
              && Next(ix, p, ps, RecordSidecar(h)).None? && Next(ix, p, ps, Forget(w)).None?
              && Next(ix, p, ps, MarkClean(w)).None?
              && (ps.staged.None? ==> Next(ix, p, ps, Open(h, b)).None?)
              && (ps.staged.None? && ps.stranded.Some? ==> Next(ix, p, ps, FindSession(w)).None?)
    ensures !ManagerFree(ps) ==>
              && Next(ix, p, ps, Open(h, b)).None? && Next(ix, p, ps, Close(h)).None?
              && Next(ix, p, ps, FindSession(w)).None? && Next(ix, p, ps, Cleanup(w, b)).None?
  {
    hide ManagerFree;
  }
}
