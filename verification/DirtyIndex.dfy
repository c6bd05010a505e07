/** The index of files that wait to be uploaded (internal/staging/metadata.go).

    Every change to a dirty file gives its entry a generation no entry has
    carried before. An upload reads the generation before it opens the staged
    bytes and cleans the entry afterwards only if the generation has not moved. */
module IndexState {
  import opened Common

  datatype Entry = Entry(size: nat, generation: nat, recorded: bool)

  datatype Index = Index(dirty: map<Path, Entry>, syncing: set<Path>, generation: nat, conflicts: set<Path>)

  const EmptyIndex := Index(map[], {}, 0, {})

  ghost predicate Valid(ix: Index) {
    && (forall p :: p in ix.dirty ==> 0 < ix.dirty[p].generation <= ix.generation)
    && (forall p, q :: p in ix.dirty && q in ix.dirty && p != q ==>
          ix.dirty[p].generation != ix.dirty[q].generation)
  }

  datatype IndexOp =
    | MarkDirtyWithState(path: Path, size: nat, hasSidecar: bool)
    | MarkDirtyAgain(path: Path, size: nat)
    | MarkUnrecorded(path: Path)
    | MarkClean(path: Path)
    | MarkCleanIfUnchanged(path: Path, generation: nat)
    | MarkConflicted(path: Path)
    | RestoreDirty(path: Path, size: nat)
    | Invalidate(path: Path)
    | DropEntry(path: Path)
    | Rekey(oldPath: Path, newPath: Path)
    | LockFile(path: Path)
    | UnlockFile(path: Path)

  /** The index with a new state of path listed under a fresh generation. */
  function List(ix: Index, path: Path, size: nat, recorded: bool): Index {
    ix.(dirty := ix.dirty[path := Entry(size, ix.generation + 1, recorded)],
        generation := ix.generation + 1)
  }

  /** Whether a further change of path may be recorded in memory alone. */
  predicate CanMarkAgain(ix: Index, path: Path) {
    path in ix.dirty && ix.dirty[path].recorded
  }

  /** Whether an upload that read generation still stands. */
  predicate Unchanged(ix: Index, path: Path, generation: nat) {
    path in ix.dirty ==> ix.dirty[path].generation == generation
  }

  function Clean(ix: Index, path: Path): Index {
    ix.(dirty := ix.dirty - {path}, syncing := ix.syncing - {path})
  }

  function Claim(ix: Index, path: Path): Index {
    ix.(syncing := ix.syncing + {path})
  }

  function Release(ix: Index, path: Path): Index {
    ix.(syncing := ix.syncing - {path})
  }

  function After(ix: Index, op: IndexOp): Index {
    match op
    case MarkDirtyWithState(path, size, hasSidecar) =>
      if path in ix.conflicts then ix else List(ix, path, size, hasSidecar)
    case MarkDirtyAgain(path, size) => if CanMarkAgain(ix, path) then List(ix, path, size, true) else ix
    case MarkUnrecorded(path) =>
      if path in ix.dirty then ix.(dirty := ix.dirty[path := ix.dirty[path].(recorded := false)]) else ix
    case MarkClean(path) => Clean(ix, path)
    case MarkCleanIfUnchanged(path, generation) => if Unchanged(ix, path, generation) then Clean(ix, path) else ix
    case MarkConflicted(path) => Clean(ix, path).(conflicts := ix.conflicts + {path})
    case RestoreDirty(path, size) => if path in ix.conflicts then ix else List(ix, path, size, true)
    case Invalidate(path) =>
      if path in ix.dirty then List(ix, path, ix.dirty[path].size, ix.dirty[path].recorded) else ix
    case DropEntry(path) => ix.(dirty := ix.dirty - {path})
    case Rekey(oldPath, newPath) =>
      List(ix.(dirty := ix.dirty - {oldPath}), newPath, if oldPath in ix.dirty then ix.dirty[oldPath].size else 0, true)
    case LockFile(path) => Claim(ix, path)
    case UnlockFile(path) => Release(ix, path)
  }

  function AfterAll(ix: Index, ops: seq<IndexOp>): Index
    decreases ops
  {
    if ops == [] then ix else AfterAll(After(ix, ops[0]), ops[1..])
  }

  /** Whether op ends the state of path that ix lists: it records a change of
      the file, takes its entry away, or moves one onto or off the path. */
  predicate Ends(ix: Index, op: IndexOp, path: Path) {
    match op
    case MarkDirtyWithState(q, _, _) => q == path && path !in ix.conflicts
    case MarkDirtyAgain(q, _) => q == path && CanMarkAgain(ix, path)
    case MarkUnrecorded(_) => false
    case MarkClean(q) => q == path
    case MarkCleanIfUnchanged(q, g) => q == path && Unchanged(ix, path, g)
    case MarkConflicted(q) => q == path
    case RestoreDirty(q, _) => q == path && path !in ix.conflicts
    case Invalidate(q) => q == path
    case DropEntry(q) => q == path
    case Rekey(q, r) => q == path || r == path
    case LockFile(_) => false
    case UnlockFile(_) => false
  }

  predicate EndsInRun(ix: Index, ops: seq<IndexOp>, path: Path)
    decreases ops
  {
    ops != [] && (Ends(ix, ops[0], path) || EndsInRun(After(ix, ops[0]), ops[1..], path))
  }

  /** path carries generation. */
  predicate Carries(ix: Index, path: Path, generation: nat) {
    path in ix.dirty && ix.dirty[path].generation == generation
  }

  lemma StepKeepsValid(ix: Index, op: IndexOp)
    requires Valid(ix)
    ensures Valid(After(ix, op)) && ix.generation <= After(ix, op).generation
  {
    if op.Rekey? {
      ListKeepsValid(ix.(dirty := ix.dirty - {op.oldPath}), op.newPath,
                     if op.oldPath in ix.dirty then ix.dirty[op.oldPath].size else 0, true);
    } else if op.path in ix.dirty {
      ListKeepsValid(ix, op.path, ix.dirty[op.path].size, ix.dirty[op.path].recorded);
    }
    if op.MarkDirtyWithState? || op.MarkDirtyAgain? || op.RestoreDirty? {
      ListKeepsValid(ix, op.path, op.size, if op.MarkDirtyWithState? then op.hasSidecar else true);
    }
    hide List;
  }

  lemma ListKeepsValid(ix: Index, path: Path, size: nat, recorded: bool)
    requires Valid(ix)
    ensures Valid(List(ix, path, size, recorded)) && List(ix, path, size, recorded).generation == ix.generation + 1
  {
  }

  /** An entry whose sidecar could not be written is not to be listed again in memory
      alone; one restored from its sidecar is; dropping an entry leaves its claim, and
      giving up a claim its entry. */
  lemma OtherChanges(ix: Index, path: Path, size: nat)
    ensures var unrecorded := After(ix, MarkUnrecorded(path));
            && !CanMarkAgain(unrecorded, path) && unrecorded.dirty.Keys == ix.dirty.Keys
            && (path in ix.dirty ==>
                  unrecorded.dirty[path] == Entry(ix.dirty[path].size, ix.dirty[path].generation, false))
            && (forall q :: q in ix.dirty && q != path ==> unrecorded.dirty[q] == ix.dirty[q])
            && unrecorded == ix.(dirty := unrecorded.dirty)
    ensures var restored := After(ix, RestoreDirty(path, size));
            if path in ix.conflicts then restored == ix
            else
              && CanMarkAgain(restored, path) && restored.dirty[path] == Entry(size, ix.generation + 1, true)
              && (forall q :: q != path ==> (q in restored.dirty <==> q in ix.dirty)
                                            && (q in ix.dirty ==> restored.dirty[q] == ix.dirty[q]))
              && restored == ix.(dirty := restored.dirty, generation := ix.generation + 1)
    ensures var dropped := After(ix, DropEntry(path));
            dropped == ix.(dirty := dropped.dirty) && forall q :: q in dropped.dirty <==> q in ix.dirty && q != path
    ensures var cleaned := After(ix, MarkClean(path));
            && cleaned == ix.(dirty := cleaned.dirty, syncing := cleaned.syncing)
            && (forall q :: q in cleaned.dirty <==> q in ix.dirty && q != path)
            && forall q :: q in cleaned.syncing <==> q in ix.syncing && q != path
    ensures var released := After(ix, UnlockFile(path));
            && released == ix.(syncing := released.syncing)
            && forall q :: q in released.syncing <==> q in ix.syncing && q != path
  {
  }

  /** A generation that has been handed out and that path does not carry never
      comes back to path. */
  lemma {:induction false} GenerationNeverReturns(ix: Index, ops: seq<IndexOp>, path: Path, generation: nat)
    requires Valid(ix) && !Carries(ix, path, generation) && generation <= ix.generation
    ensures !Carries(AfterAll(ix, ops), path, generation)
    decreases ops
  {
    if ops != [] {
      StepKeepsValid(ix, ops[0]);
      GenerationNeverReturns(After(ix, ops[0]), ops[1..], path, generation);
    }
  }

  /** One operation takes the generation away exactly when it ends the state. */
  lemma EndsExactly(ix: Index, op: IndexOp, path: Path)
    requires Valid(ix) && path in ix.dirty
    ensures Carries(After(ix, op), path, ix.dirty[path].generation) <==> !Ends(ix, op, path)
  {
  }

  /** The generation of a dirty path identifies the state of its staged file:
      after any run it is still there exactly when nothing in the run ended that
      state. So an upload that read it may clean the entry exactly when nothing
      did. */
  lemma {:induction false} GenerationIdentifiesState(ix: Index, ops: seq<IndexOp>, path: Path)
    requires Valid(ix) && path in ix.dirty
    ensures Carries(AfterAll(ix, ops), path, ix.dirty[path].generation) <==> !EndsInRun(ix, ops, path)
    decreases ops
  {
    if ops != [] {
      StepKeepsValid(ix, ops[0]);
      EndsExactly(ix, ops[0], path);
      var next := After(ix, ops[0]);
      assert AfterAll(ix, ops) == AfterAll(next, ops[1..]);
      assert EndsInRun(ix, ops, path) <==> Ends(ix, ops[0], path) || EndsInRun(next, ops[1..], path);
      if Ends(ix, ops[0], path) {
        GenerationNeverReturns(next, ops[1..], path, ix.dirty[path].generation);
      } else {
        GenerationIdentifiesState(next, ops[1..], path);
      }
    }
  }

  /** Operations on other paths leave path's entry and claim alone. */
  lemma OthersLeavePathAlone(ix: Index, op: IndexOp, path: Path)
    requires if op.Rekey? then op.oldPath != path && op.newPath != path else op.path != path
    ensures var next := After(ix, op);
            && (path in next.dirty <==> path in ix.dirty)
            && (path in ix.dirty ==> next.dirty[path] == ix.dirty[path])
            && (path in next.syncing <==> path in ix.syncing)
            && (path in next.conflicts <==> path in ix.conflicts)
            && ix.generation <= next.generation
  {
  }
}

/** The index as the object the staging manager holds. Each method is one
    critical section of its mutex. */
module DirtyFileIndexObject {
  import opened Common
  import I = IndexState

  class DirtyFileIndex {
    var dirty: map<Path, I.Entry>
    var syncing: set<Path>
    var generation: nat
    var conflicts: set<Path>

    function State(): I.Index
      reads this
    {
      I.Index(dirty, syncing, generation, conflicts)
    }

    constructor ()
      ensures State() == I.EmptyIndex && I.Valid(State())
    {
      dirty, syncing, generation, conflicts := map[], {}, 0, {};
    }

    method NextGeneration() returns (g: nat)
      modifies this`generation
      ensures g == generation == old(generation) + 1
    {
      generation := generation + 1;
      g := generation;
    }

    method MarkDirtyWithState(path: Path, size: nat, hasSidecar: bool)
      requires I.Valid(State())
      modifies this
      ensures State() == I.After(old(State()), I.MarkDirtyWithState(path, size, hasSidecar))
      ensures I.Valid(State())
      ensures path !in conflicts ==> dirty == old(dirty)[path := I.Entry(size, old(generation) + 1, hasSidecar)]
      ensures path in conflicts ==> dirty == old(dirty)
      ensures syncing == old(syncing) && conflicts == old(conflicts)
    {
      I.StepKeepsValid(State(), I.MarkDirtyWithState(path, size, hasSidecar));
      if path in conflicts {
        return;
      }
      var g := NextGeneration();
      dirty := dirty[path := I.Entry(size, g, hasSidecar)];
    }

    method MarkDirtyAgain(path: Path, size: nat) returns (done: bool)
      requires I.Valid(State())
      modifies this
      ensures State() == I.After(old(State()), I.MarkDirtyAgain(path, size))
      ensures I.Valid(State())
      ensures done <==> path in old(dirty) && old(dirty)[path].recorded
      ensures done ==> dirty == old(dirty)[path := I.Entry(size, old(generation) + 1, true)]
      ensures !done ==> State() == old(State())
      ensures syncing == old(syncing) && conflicts == old(conflicts)
    {
      I.StepKeepsValid(State(), I.MarkDirtyAgain(path, size));
      if path !in dirty || !dirty[path].recorded {
        return false;
      }
      var g := NextGeneration();
      dirty := dirty[path := dirty[path].(size := size, generation := g)];
      done := true;
    }

    method MarkCleanIfUnchanged(path: Path, g: nat) returns (wasDirty: bool, clean: bool)
      requires I.Valid(State())
      modifies this
      ensures State() == I.After(old(State()), I.MarkCleanIfUnchanged(path, g))
      ensures I.Valid(State())
      ensures wasDirty <==> path in old(dirty)
      ensures clean <==> path !in old(dirty) || old(dirty)[path].generation == g
      ensures clean ==> dirty == old(dirty) - {path} && syncing == old(syncing) - {path}
      ensures !clean ==> State() == old(State())
      ensures conflicts == old(conflicts) && generation == old(generation)
    {
      I.StepKeepsValid(State(), I.MarkCleanIfUnchanged(path, g));
      wasDirty := path in dirty;
      if wasDirty && dirty[path].generation != g {
        return true, false;
      }
      dirty := dirty - {path};
      syncing := syncing - {path};
      clean := true;
    }

    /** Takes the path off the list for good: no later change lists it again. */
    method MarkConflicted(path: Path)
      requires I.Valid(State())
      modifies this
      ensures State() == I.After(old(State()), I.MarkConflicted(path))
      ensures I.Valid(State()) && path !in dirty && path !in syncing && path in conflicts
      ensures forall size: nat, s: bool :: path !in I.After(State(), I.MarkDirtyWithState(path, size, s)).dirty
      ensures forall q :: q != path ==> (q in dirty <==> q in old(dirty)) && (q in dirty ==> dirty[q] == old(dirty)[q])
    {
      I.StepKeepsValid(State(), I.MarkConflicted(path));
      dirty := dirty - {path};
      syncing := syncing - {path};
      conflicts := conflicts + {path};
    }

    method Rekey(oldPath: Path, newPath: Path)
      requires I.Valid(State())
      modifies this
      ensures State() == I.After(old(State()), I.Rekey(oldPath, newPath))
      ensures I.Valid(State()) && syncing == old(syncing) && conflicts == old(conflicts)
      ensures dirty.Keys == old(dirty).Keys - {oldPath} + {newPath}
      ensures dirty[newPath] ==
              I.Entry(if oldPath in old(dirty) then old(dirty)[oldPath].size else 0, old(generation) + 1, true)
      ensures forall p :: p in dirty && p != newPath ==> dirty[p] == old(dirty)[p]
    {
      I.StepKeepsValid(State(), I.Rekey(oldPath, newPath));
      var size := 0;
      if oldPath in dirty {
        size := dirty[oldPath].size;
        dirty := dirty - {oldPath};
      }
      var g := NextGeneration();
      dirty := dirty[newPath := I.Entry(size, g, true)];
      assert State() == I.After(old(State()), I.Rekey(oldPath, newPath));
    }

    method Invalidate(path: Path)
      requires I.Valid(State())
      modifies this
      ensures State() == I.After(old(State()), I.Invalidate(path))
      ensures I.Valid(State()) && dirty.Keys == old(dirty).Keys
      ensures path in dirty ==> dirty[path] == old(dirty)[path].(generation := old(generation) + 1)
      ensures forall p :: p in dirty && p != path ==> dirty[p] == old(dirty)[p]
      ensures syncing == old(syncing) && conflicts == old(conflicts)
    {
      I.StepKeepsValid(State(), I.Invalidate(path));
      if path in dirty {
        var g := NextGeneration();
        dirty := dirty[path := dirty[path].(generation := g)];
      }
    }

    method LockFile(path: Path) returns (claimed: bool)
      modifies this`syncing
      ensures claimed <==> path !in old(syncing)
      ensures syncing == old(syncing) + {path}
      ensures State() == I.After(old(State()), I.LockFile(path))
    {
      claimed := path !in syncing;
      syncing := syncing + {path};
    }
  }
}
