/** Whole runs of the write-back protocol, over all paths and any number of
    restarts. */
module WritebackRuns {
  import opened Common
  import S = SessionState
  import I = IndexState
  import opened Writeback
  import opened WritebackSafety

  datatype System = System(index: I.Index, paths: map<Path, PathState>)

  /** A step on one path, or a crash of the process followed by a restart that
      lists the staging files in the given order. */
  datatype Event = On(path: Path, step: Step) | Crash(order: seq<Path>)

  /** The staging file of a path, as a restart finds it. */
  function DataFile(ps: PathState): Option<Bytes> {
    if ps.staged.None? then ps.stranded
    else
      var s := ps.staged.value.session;
      if s.entry in s.inodes then Some(s.inodes[s.entry]) else None
  }

  /** RecoverFromDisk takes up a staging file that has its sidecar. */
  predicate Recoverable(ps: PathState) {
    DataFile(ps).Some? && ps.sidecar
  }

  /** The path after a restart: the staged bytes again in a session, dirty, or
      left stranded for want of a sidecar. Readers then see the bucket. */
  function RestartPath(ps: PathState): PathState {
    var file := DataFile(ps);
    if Recoverable(ps) then
      PathState(ps.bucket, file, {file}, true, None,
                Some(Staged(0, S.NewSession(file.value).(dirty := true))), 0, 1, map[], map[], None, None)
    else
      PathState(ps.bucket, ps.bucket, {ps.bucket}, false, file, None, 0, 0, map[], map[], None, None)
  }

  /** The index after a restart that lists the files in order. */
  function RestartIndex(paths: map<Path, PathState>, order: seq<Path>): I.Index {
    if order == [] then I.EmptyIndex
    else
      var ix := RestartIndex(paths, order[..|order| - 1]);
      var p := order[|order| - 1];
      if p in paths && Recoverable(paths[p]) then I.List(ix, p, |DataFile(paths[p]).value|, true) else ix
  }

  function Apply(sys: System, event: Event): Option<System> {
    match event
    case On(p, step) =>
      if p !in sys.paths then None
      else
        var r := Next(sys.index, p, sys.paths[p], step);
        if r.None? then None else Some(System(r.value.0, sys.paths[p := r.value.1]))
    case Crash(order) =>
      if (set p | p in order) != sys.paths.Keys then None
      else Some(System(RestartIndex(sys.paths, order), map p | p in sys.paths :: RestartPath(sys.paths[p])))
  }

  function Run(sys: System, events: seq<Event>): Option<System>
    decreases events
  {
    if events == [] then Some(sys)
    else
      var next := Apply(sys, events[0]);
      if next.None? then None else Run(next.value, events[1..])
  }

  /** The path has a session still to be filled from the bucket, and a sidecar:
      a restart takes its empty file for the contents. */
  predicate Hidden(ps: PathState) {
    ps.staged.Some? && ps.sidecar && !Known(ps.staged.value.session) && Some([]) !in ps.recent
  }

  /** The path has a staging file without a sidecar, and other bytes in it than
      the bucket: a restart shows the bucket, and the next open the file. */
  predicate LeftBehind(ps: PathState) {
    var file := DataFile(ps);
    !ps.sidecar && file.Some? && file != Some([]) && file != ps.bucket
  }

  predicate CrashSafe(ps: PathState) {
    !Hidden(ps) && !LeftBehind(ps)
  }

  /** The event as path p sees it. What other paths do does not matter. */
  predicate DisciplinedAt(sys: System, event: Event, p: Path)
    requires p in sys.paths
  {
    match event
    case On(q, step) => q == p ==> Disciplined(sys.index, p, sys.paths[p], step)
    case Crash(_) => CrashSafe(sys.paths[p])
  }

  lemma PathsStay(sys: System, event: Event)
    requires Apply(sys, event).Some?
    ensures Apply(sys, event).value.paths.Keys == sys.paths.Keys
  {
    hide Next, RestartPath, RestartIndex;
  }

  predicate DisciplinedFor(sys: System, events: seq<Event>, p: Path)
    decreases events
  {
    events == [] ||
    (p in sys.paths && DisciplinedAt(sys, events[0], p) &&
     (Apply(sys, events[0]).Some? ==> DisciplinedFor(Apply(sys, events[0]).value, events[1..], p)))
  }

  /** A gateway that has just started on an empty staging directory. */
  function FreshPath(bucket: Option<Bytes>): PathState {
    PathState(bucket, bucket, {bucket}, false, None, None, 0, 0, map[], map[], None, None)
  }

  predicate Init(sys: System) {
    && sys.index == I.EmptyIndex
    && forall p :: p in sys.paths ==> sys.paths[p] == FreshPath(sys.paths[p].bucket)
  }

  ghost predicate InvAt(sys: System, p: Path) {
    I.Valid(sys.index) && p in sys.paths && PathInv(EntryOf(sys.index, p), sys.paths[p])
  }

  /** Where the accepted contents of a path are: in its staging file, with the
      sidecar a restart finds it by, while the path is dirty, and in the bucket
      once it is not. While a write of a clean path is in flight, the bucket holds
      the contents from before it or since. */
  ghost predicate AcceptedIsSafe(sys: System, p: Path)
    requires p in sys.paths
  {
    var ps := sys.paths[p];
    && (p in sys.index.dirty ==>
          ps.sidecar && ps.staged.Some? && ps.accepted == Some(S.Contents(ps.staged.value.session))
          && DataFile(ps) == ps.accepted)
    && (p !in sys.index.dirty ==> ps.bucket in ps.recent)
    && (!Pending(ps.handles) ==> ps.recent == {ps.accepted})
  }

  /** What a step may do to the index. */
  lemma StepEffects(ix: I.Index, p: Path, ps: PathState, step: Step)
    ensures var r := Next(ix, p, ps, step);
            r.Some? ==>
              || r.value.0 == ix || r.value.0 == I.List(ix, p, SizeOf(ps), true) || r.value.0 == I.Clean(ix, p)
              || r.value.0 == I.Claim(ix, p) || r.value.0 == I.Release(ix, p)
  {
    hide I.List, I.Clean, I.Claim, I.Release, S.After, S.AfterPrefetch, S.AfterOpen, S.AfterClose, S.NewSession,
      S.SnapshotBytes, Plain, ManagerFree, SetSession, SetPhase, SetWorker;
  }

  /** Only the cleanup after a sync takes a session away. */
  lemma OnlyCleanupRemoves(ix: I.Index, p: Path, ps: PathState, step: Step)
    ensures var r := Next(ix, p, ps, step);
            r.Some? && ps.staged.Some? && r.value.1.staged.None? ==> step.Cleanup? && ps.refs == 0 && p !in ix.dirty
  {
    hide I.List, I.Clean, I.Claim, I.Release, S.After, S.AfterPrefetch, S.AfterOpen, S.AfterClose, S.NewSession,
      S.SnapshotBytes, Plain, ManagerFree;
  }

  /** A step touches the index only at its own path. */
  lemma StepIsLocal(ix: I.Index, p: Path, ps: PathState, step: Step)
    requires I.Valid(ix)
    ensures var r := Next(ix, p, ps, step);
            r.Some? ==>
              && I.Valid(r.value.0)
              && r.value.0.dirty.Keys <= ix.dirty.Keys + {p}
              && forall q :: q != p ==> EntryOf(r.value.0, q) == EntryOf(ix, q)
  {
    StepEffects(ix, p, ps, step);
    hide Next, I.List, I.Clean, I.Claim, I.Release, I.Valid, EntryOf;
    if Next(ix, p, ps, step).Some? {
      IndexChangeIsLocal(ix, p, SizeOf(ps), Next(ix, p, ps, step).value.0);
    }
  }

  lemma IndexChangeIsLocal(ix: I.Index, p: Path, size: nat, after: I.Index)
    requires I.Valid(ix)
    requires after == ix || after == I.List(ix, p, size, true) || after == I.Clean(ix, p) || after == I.Claim(ix, p)
             || after == I.Release(ix, p)
    ensures I.Valid(after) && after.dirty.Keys <= ix.dirty.Keys + {p}
    ensures forall q :: q != p ==> EntryOf(after, q) == EntryOf(ix, q)
  {
  }

  /** Every step of the code keeps the invariant of its path. */
  lemma StepKeepsPath(ix: I.Index, p: Path, ps: PathState, step: Step)
    requires Bounded(ix, p) && PathInv(EntryOf(ix, p), ps) && Disciplined(ix, p, ps, step)
    ensures var r := Next(ix, p, ps, step);
            r.Some? ==> PathInv(EntryOf(r.value.0, p), r.value.1)
  {
    hide PathInv;
    match step
    case Open(h, truncates) => OpenKeeps(ix, p, ps, h, truncates);
    case Look(h) => LookKeeps(ix, p, ps, h);
    case Stat(h) => StatKeeps(ix, p, ps, h);
    case Prefetch(h) => PrefetchKeeps(ix, p, ps, h);
    case Change(h, op) => ChangeKeeps(ix, p, ps, h, op);
    case Mark(h) => MarkKeeps(ix, p, ps, h);
    case RecordSidecar(h) => RecordSidecarKeeps(ix, p, ps, h);
    case ListDirty(h) => ListDirtyKeeps(ix, p, ps, h);
    case Close(h) => CloseKeeps(ix, p, ps, h);
    case Claim(w) => ClaimKeeps(ix, p, ps, w);
    case Recheck(w) => RecheckKeeps(ix, p, ps, w);
    case LockObject(w) => LockObjectKeeps(ix, p, ps, w);
    case FindSession(w) => FindSessionKeeps(ix, p, ps, w);
    case Forget(w) => ForgetKeeps(ix, p, ps, w);
    case ReadGeneration(w) => ReadGenerationKeeps(ix, p, ps, w);
    case OpenSnapshot(w) => OpenSnapshotKeeps(ix, p, ps, w);
    case Upload(w) => UploadKeeps(ix, p, ps, w);
    case UploadFails(w, landed) => UploadFailsKeeps(ix, p, ps, w, landed);
    case MarkClean(w) => MarkCleanKeeps(ix, p, ps, w);
    case DropSidecar(w) => DropSidecarKeeps(ix, p, ps, w);
    case Cleanup(w, cleanAfterSync) => CleanupKeeps(ix, p, ps, w, cleanAfterSync);
    case UnlinkSidecar(w) => UnlinkSidecarKeeps(ix, p, ps, w);
    case Finish(w) => FinishKeeps(ix, p, ps, w);
    case Unclaim(w) => UnclaimKeeps(ix, p, ps, w);
  }

  /** The recent contents are the ones since the path was last given a dirty entry
      of a new generation. */
  lemma RecentTracks(ix: I.Index, p: Path, ps: PathState, step: Step)
    requires I.Valid(ix) && ps.accepted in ps.recent
    ensures var r := Next(ix, p, ps, step);
            r.Some? ==>
              && (r.value.1.accepted != ps.accepted ==> step.Change?)
              && r.value.1.recent == (if Relisted(ix, r.value.0, p) then {ps.accepted}
                                      else ps.recent + {r.value.1.accepted})
  {
    hide S.After, S.AfterPrefetch, S.AfterOpen, S.AfterClose, S.NewSession, S.SnapshotBytes, S.Refused, Plain,
      ManagerFree, Known;
    if step.Change? || step.Mark? || step.RecordSidecar? || step.ListDirty? {
      hide I.Clean, I.Claim, I.Release;
    } else {
      OthersKeepRecent(ix, p, ps, step);
      hide Next;
    }
  }

  lemma OthersKeepRecent(ix: I.Index, p: Path, ps: PathState, step: Step)
    requires !(step.Change? || step.Mark? || step.RecordSidecar? || step.ListDirty?)
    ensures var r := Next(ix, p, ps, step);
            r.Some? ==>
              && r.value.1.accepted == ps.accepted && r.value.1.recent == ps.recent
              && !Relisted(ix, r.value.0, p)
  {
    hide S.After, S.AfterPrefetch, S.AfterOpen, S.AfterClose, S.NewSession, S.SnapshotBytes, S.Refused, Plain,
      ManagerFree, Known;
  }

  predicate Relisted(before: I.Index, after: I.Index, p: Path) {
    p in after.dirty && (p in before.dirty ==> after.dirty[p].generation != before.dirty[p].generation)
  }

  /** The restarted index lists exactly the recoverable files. */
  lemma {:induction false} RestartIndexLists(paths: map<Path, PathState>, order: seq<Path>)
    ensures var ix := RestartIndex(paths, order);
            && I.Valid(ix)
            && (forall p :: p in ix.dirty <==> p in order && p in paths && Recoverable(paths[p]))
            && (forall p :: p in ix.dirty ==> ix.dirty[p].recorded && ix.dirty[p].generation > 0)
  {
    if order != [] {
      RestartIndexLists(paths, order[..|order| - 1]);
    }
  }

  /** After a crash at any step, the restart shows what the file has held since a
      change of it was last acknowledged, exactly unless its session is still to
      be filled from the bucket. */
  lemma CrashExact(e: Option<I.Entry>, ps: PathState)
    requires PathInv(e, ps)
    ensures RestartPath(ps).accepted in ps.recent <==> !Hidden(ps)
  {
    hide InvWorkers, InvHandles, Pending;
  }

  /** A restart keeps the invariant of a path that is safe to crash on. */
  lemma RestartKeepsPath(e: Option<I.Entry>, ps: PathState, listed: Option<I.Entry>)
    requires PathInv(e, ps) && CrashSafe(ps)
    requires listed.Some? == Recoverable(ps)
    requires listed.Some? ==> listed.value.recorded && listed.value.generation > 0
    ensures PathInv(listed, RestartPath(ps))
  {
    if Recoverable(ps) {
      assert S.Valid(S.NewSession(DataFile(ps).value));
      assert S.ReadersOf(S.NewSession(DataFile(ps).value).(dirty := true)) == {};
    }
    hide InvWorker, InvHandle, S.SnapshotBytes;
  }

  /** A crash takes the path to its restart, listed if it can be recovered. */
  lemma CrashAt(sys: System, order: seq<Path>, p: Path)
    requires p in sys.paths && Apply(sys, Crash(order)).Some?
    ensures var t := Apply(sys, Crash(order)).value;
            && I.Valid(t.index) && p in t.paths && t.paths[p] == RestartPath(sys.paths[p])
            && (p in t.index.dirty <==> Recoverable(sys.paths[p]))
            && (p in t.index.dirty ==> t.index.dirty[p].recorded && t.index.dirty[p].generation > 0)
  {
    hide RestartPath, Recoverable, I.Valid;
    RestartIndexLists(sys.paths, order);
    assert p in (set q | q in order);
  }

  /** Every event keeps the invariant of a path for which it is disciplined. */
  lemma EventKeepsInvariant(sys: System, event: Event, p: Path)
    requires InvAt(sys, p) && DisciplinedAt(sys, event, p) && Apply(sys, event).Some?
    ensures InvAt(Apply(sys, event).value, p)
  {
    hide PathInv, CrashSafe, Next, RestartPath, Disciplined, I.Valid;
    match event
    case On(q, step) =>
      StepIsLocal(sys.index, q, sys.paths[q], step);
      if q == p {
        assert Bounded(sys.index, p) by { BoundedByValid(sys.index, p); }
        StepKeepsPath(sys.index, p, sys.paths[p], step);
      }
    case Crash(order) =>
      CrashAt(sys, order, p);
      RestartKeepsPath(EntryOf(sys.index, p), sys.paths[p], EntryOf(Apply(sys, event).value.index, p));
  }

  lemma BoundedByValid(ix: I.Index, p: Path)
    requires I.Valid(ix)
    ensures Bounded(ix, p)
  {
  }

  lemma InitIsGood(sys: System, p: Path)
    requires Init(sys) && p in sys.paths
    ensures InvAt(sys, p)
  {
  }

  lemma {:induction false} RunKeepsInvariant(sys: System, events: seq<Event>, p: Path)
    requires InvAt(sys, p) && DisciplinedFor(sys, events, p) && Run(sys, events).Some?
    ensures InvAt(Run(sys, events).value, p)
    decreases events
  {
    hide PathInv, Apply, DisciplinedAt, I.Valid;
    if events != [] {
      EventKeepsInvariant(sys, events[0], p);
      RunKeepsInvariant(Apply(sys, events[0]).value, events[1..], p);
    }
  }

  lemma InvariantIsSafe(sys: System, p: Path)
    requires InvAt(sys, p)
    ensures AcceptedIsSafe(sys, p)
  {
    hide InvWorkers, InvHandles, InvStranded, Pending;
  }

  /** No accepted write to a path is lost, whatever its handles and workers,
      the rest of the gateway and restarts do in whatever order. */
  lemma NoAcceptedWriteIsLost(sys: System, events: seq<Event>, p: Path)
    requires Init(sys) && p in sys.paths && DisciplinedFor(sys, events, p) && Run(sys, events).Some?
    ensures p in Run(sys, events).value.paths && AcceptedIsSafe(Run(sys, events).value, p)
  {
    InitIsGood(sys, p);
    RunKeepsInvariant(sys, events, p);
    hide Init, DisciplinedFor, Run, PathInv;
    InvariantIsSafe(Run(sys, events).value, p);
  }

  lemma CrashOfInvariant(sys: System, order: seq<Path>, p: Path)
    requires InvAt(sys, p) && Apply(sys, Crash(order)).Some?
    ensures var t := Apply(sys, Crash(order)).value;
            && p in t.paths
            && (p in sys.index.dirty ==>
                  && p in t.index.dirty && t.paths[p].accepted == sys.paths[p].accepted
                  && t.paths[p].staged.Some?
                  && Some(S.Contents(t.paths[p].staged.value.session)) == sys.paths[p].accepted)
            && (t.paths[p].accepted in sys.paths[p].recent <==> !Hidden(sys.paths[p]))
  {
    CrashAt(sys, order, p);
    CrashExact(EntryOf(sys.index, p), sys.paths[p]);
    InvariantIsSafe(sys, p);
    hide Hidden, PathInv, I.Valid;
  }

  /** A crash after any run, at whatever step it comes: a path that is dirty is
      dirty after the restart, with its accepted bytes in its session. Any path
      then shows contents it has had since a change of it was last acknowledged,
      exactly unless its session is still to be filled from the bucket. */
  lemma CrashAtAnyStep(sys: System, events: seq<Event>, p: Path, order: seq<Path>)
    requires Init(sys) && p in sys.paths && DisciplinedFor(sys, events, p) && Run(sys, events).Some?
    requires Apply(Run(sys, events).value, Crash(order)).Some?
    ensures var s := Run(sys, events).value;
            var t := Apply(s, Crash(order)).value;
            && p in s.paths && p in t.paths
            && (p in s.index.dirty ==>
                  && p in t.index.dirty && t.paths[p].accepted == s.paths[p].accepted
                  && t.paths[p].staged.Some?
                  && Some(S.Contents(t.paths[p].staged.value.session)) == s.paths[p].accepted)
            && (t.paths[p].accepted in s.paths[p].recent <==> !Hidden(s.paths[p]))
  {
    InitIsGood(sys, p);
    RunKeepsInvariant(sys, events, p);
    hide Init, DisciplinedFor, Run, Apply, Hidden, PathInv, I.Valid;
    CrashOfInvariant(Run(sys, events).value, order, p);
  }

  lemma RemovalIsSafe(sys: System, p: Path, step: Step)
    requires InvAt(sys, p) && sys.paths[p].staged.Some?
    requires Apply(sys, On(p, step)).Some? && Apply(sys, On(p, step)).value.paths[p].staged.None?
    ensures p !in sys.index.dirty && !Pending(sys.paths[p].handles)
    ensures sys.paths[p].bucket == sys.paths[p].accepted
  {
    OnlyCleanupRemoves(sys.index, p, sys.paths[p], step);
    hide Next, InvWorkers, InvHandles, InvStranded, S.Valid, S.Contents;
    assert |sys.paths[p].handles| == 0;
    assert sys.paths[p].handles.Keys == {};
  }

  /** After any run, the next step removes a staging file only when the path is
      clean, no write is in flight and the bucket holds the accepted contents. */
  lemma FileRemovedOnlyWhenSafe(sys: System, events: seq<Event>, p: Path, step: Step)
    requires Init(sys) && p in sys.paths && DisciplinedFor(sys, events, p) && Run(sys, events).Some?
    requires Apply(Run(sys, events).value, On(p, step)).Some?
    ensures var s, t := Run(sys, events).value, Apply(Run(sys, events).value, On(p, step)).value;
            && p in s.paths && p in t.paths
            && (s.paths[p].staged.Some? && t.paths[p].staged.None? ==>
                  p !in s.index.dirty && !Pending(s.paths[p].handles) && s.paths[p].bucket == s.paths[p].accepted)
  {
    InitIsGood(sys, p);
    RunKeepsInvariant(sys, events, p);
    var s := Run(sys, events).value;
    PathsStay(s, On(p, step));
    hide Init, DisciplinedFor, Run, PathInv, Apply;
    if s.paths[p].staged.Some? && Apply(s, On(p, step)).value.paths[p].staged.None? {
      RemovalIsSafe(s, p, step);
    }
  }
}
