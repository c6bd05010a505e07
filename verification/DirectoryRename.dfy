/** What a rename does to the staging manager's state, in memory and on disk
    (internal/staging/rename.go). */
module StagingState {
  import opened Common
  import opened Recovery
  import opened StagedRename
  import I = IndexState

  datatype Staging = Staging(
    disk: Disk<File>, index: I.Index,
    sessions: map<Path, File>) // the data file each open session writes

  datatype Outcome = Moved | NoStagedBytes | Conflicted | Refused

  /** Listed as dirty with no accepted delete: what DirtyPathsUnder reports. */
  predicate Dirty(s: Staging, p: Path) {
    p in s.index.dirty && p !in s.disk.tombstones
  }

  /** The live staged files and what is staged for each. */
  function Live(s: Staging): map<Path, File> {
    map p | p in s.disk.data && Dirty(s, p) :: s.disk.data[p]
  }

  /** Deleted by a client while its staged bytes are still in place. */
  predicate Dying(s: Staging, p: Path) {
    p in s.disk.data && p in s.index.dirty && p in s.disk.tombstones
  }

  predicate InConflict(s: Staging, oldPath: Path, newPath: Path) {
    oldPath in s.index.conflicts || newPath in s.index.conflicts
  }

  /** Nothing a rename looks at differs between a and b at p. */
  predicate SameAt(a: Staging, b: Staging, p: Path) {
    && Dirty(a, p) == Dirty(b, p)
    && Dying(a, p) == Dying(b, p)
    && (Dying(a, p) ==> a.disk.data[p] == b.disk.data[p])
  }

  /** The rename got as far as the byte move, and the file system refused it. What
      the intent replaced is written back over it, and a path left dirty without a
      sidecar gets a new one. */
  function TakenBack(s: Staging, oldPath: Path, newPath: Path): Staging {
    var sidecars :=
      if newPath in s.disk.sidecars then
        WriteSidecar(s.disk.sidecars, newPath,
                     Sidecar(s.disk.sidecars[newPath].conflicted, CommittedAt(s.disk.sidecars, oldPath)))
      else if newPath in s.index.dirty then s.disk.sidecars[newPath := Sidecar(false, false)]
      else s.disk.sidecars;
    s.(disk := s.disk.(tombstones := s.disk.tombstones - {newPath}, sidecars := sidecars),
       index := I.After(s.index, I.Invalidate(newPath)))
  }

  function Rekeyed(sessions: map<Path, File>, oldPath: Path, newPath: Path): map<Path, File> {
    var rest := sessions - {newPath};
    if oldPath in rest then (rest - {oldPath})[newPath := rest[oldPath]] else rest
  }

  /** RenameStagedPath. refuses says whether the file system refuses the move. */
  function Renamed(s: Staging, oldPath: Path, newPath: Path, refuses: bool): (Staging, Outcome) {
    if InConflict(s, oldPath, newPath) then (s, Conflicted)
    else if oldPath !in s.disk.data then
      (s.(index := I.After(s.index, I.DropEntry(oldPath)),
          disk := s.disk.(sidecars := s.disk.sidecars - {oldPath})), NoStagedBytes)
    else if refuses then (TakenBack(s, oldPath, newPath), Refused)
    else
      (s.(disk := Done(s.disk, oldPath, newPath),
          index := I.After(I.After(s.index, I.Invalidate(newPath)), I.Rekey(oldPath, newPath)),
          sessions := Rekeyed(s.sessions, oldPath, newPath)), Moved)
  }

  /** What a finished rename leaves under each name. */
  lemma DoneAt(disk: Disk<File>, oldPath: Path, newPath: Path, p: Path)
    requires oldPath != newPath && oldPath in disk.data
    ensures var after := Done(disk, oldPath, newPath);
            && (p in after.data <==> p == newPath || (p in disk.data && p != oldPath))
            && (p in after.data ==> after.data[p] == disk.data[if p == newPath then oldPath else p])
            && (p in after.tombstones <==> p == oldPath || (p in disk.tombstones && p != newPath))
  {
    FivePoints(disk, oldPath, newPath, |Changes|);
  }

  lemma RekeyedAt(ix: I.Index, oldPath: Path, newPath: Path, p: Path)
    requires oldPath != newPath
    ensures var after := I.After(I.After(ix, I.Invalidate(newPath)), I.Rekey(oldPath, newPath));
            && after.syncing == ix.syncing && after.conflicts == ix.conflicts
            && (p in after.dirty <==> p == newPath || (p in ix.dirty && p != oldPath))
  {
  }

  /** A finished rename takes the live file to its new name and touches no
      other: none is dropped, none is merged. */
  lemma RenameMovesLive(s: Staging, oldPath: Path, newPath: Path)
    requires oldPath != newPath && oldPath in Live(s)
    requires !InConflict(s, oldPath, newPath)
    ensures var (after, outcome) := Renamed(s, oldPath, newPath, false);
            outcome == Moved &&
            Live(after) == (Live(s) - {oldPath})[newPath := Live(s)[oldPath]] &&
            after.index.syncing == s.index.syncing && after.index.conflicts == s.index.conflicts &&
            !Dying(after, oldPath) &&
            forall p :: p != oldPath && p != newPath ==> SameAt(s, after, p)
  {
    hide Done, I.After;
    var after := Renamed(s, oldPath, newPath, false).0;
    RekeyedAt(s.index, oldPath, newPath, oldPath);
    DoneAt(s.disk, oldPath, newPath, oldPath);
    forall p
      ensures p in Live(after) <==> p == newPath || (p in Live(s) && p != oldPath)
      ensures p in Live(after) ==> Live(after)[p] == Live(s)[if p == newPath then oldPath else p]
      ensures p != oldPath && p != newPath ==> SameAt(s, after, p)
    {
      DoneAt(s.disk, oldPath, newPath, p);
      RekeyedAt(s.index, oldPath, newPath, p);
    }
    hide Live;
    assert Live(after) == (Live(s) - {oldPath})[newPath := Live(s)[oldPath]];
  }

  /** A rename that found nothing staged leaves the live files alone. */
  lemma NothingStagedKeepsLive(s: Staging, oldPath: Path, newPath: Path, refuses: bool)
    requires oldPath !in s.disk.data
    ensures var after := Renamed(s, oldPath, newPath, refuses).0;
            && Live(after) == Live(s)
            && after.index.syncing == s.index.syncing && after.index.conflicts == s.index.conflicts
            && forall p :: p != oldPath ==> SameAt(s, after, p)
  {
    assert Live(Renamed(s, oldPath, newPath, refuses).0) == Live(s);
  }

  /** The staged file that a refused rename brings back: the pending delete of the
      destination, cancelled at the start, is not put back. */
  function Revived(s: Staging, newPath: Path): map<Path, File> {
    if Dying(s, newPath) then map[newPath := s.disk.data[newPath]] else map[]
  }

  /** A rename whose move is refused leaves the live files as they were exactly
      when the destination was not being deleted. */
  lemma RefusedKeepsLiveExactly(s: Staging, oldPath: Path, newPath: Path)
    requires oldPath in s.disk.data && !InConflict(s, oldPath, newPath)
    ensures var (after, outcome) := Renamed(s, oldPath, newPath, true);
            && outcome == Refused
            && Live(after) == Live(s) + Revived(s, newPath)
            && (Live(after) == Live(s) <==> !Dying(s, newPath))
            && after.index.syncing == s.index.syncing && after.index.conflicts == s.index.conflicts
            && !Dying(after, newPath)
            && forall p :: p != newPath ==> SameAt(s, after, p)
  {
    var after := Renamed(s, oldPath, newPath, true).0;
    assert newPath in Live(after) <==> newPath in s.disk.data && newPath in s.index.dirty;
    assert Live(after) == Live(s) + Revived(s, newPath);
  }

  /** No sidecar is lost to a refused rename. The destination's own comes back
      committed if it was, or if the intent written over it was. */
  lemma RefusedKeepsSidecars(s: Staging, oldPath: Path, newPath: Path)
    requires oldPath in s.disk.data && !InConflict(s, oldPath, newPath)
    ensures var before, after := s.disk.sidecars, Renamed(s, oldPath, newPath, true).0.disk.sidecars;
            && (newPath in s.index.dirty || newPath in before <==> newPath in after)
            && (newPath in before ==> after[newPath].conflicted == before[newPath].conflicted)
            && (newPath in before ==>
                  (CommittedAt(after, newPath) <==> CommittedAt(before, newPath) || CommittedAt(before, oldPath)))
            && forall p :: p != newPath ==>
                 (p in after <==> p in before) && (p in after ==> after[p] == before[p])
  {
  }

  /** An upload of the destination that is under way can no longer mark it clean:
      whether the rename happens or is taken back, the destination's entry gets a
      generation that nobody has read. Claims stay where they are. */
  lemma RenameEndsUploads(s: Staging, oldPath: Path, newPath: Path, refuses: bool, read: nat)
    requires I.Valid(s.index) && oldPath in s.disk.data && !InConflict(s, oldPath, newPath)
    requires read <= s.index.generation
    ensures var after := Renamed(s, oldPath, newPath, refuses).0.index;
            && I.Valid(after) && after.syncing == s.index.syncing
            && (!refuses ==> newPath in after.dirty && after.dirty[newPath].recorded)
            && (refuses ==> after.dirty.Keys == s.index.dirty.Keys)
            && (newPath in after.dirty ==> !I.Unchanged(after, newPath, read))
  {
    hide Done;
    I.StepKeepsValid(s.index, I.Invalidate(newPath));
    I.StepKeepsValid(I.After(s.index, I.Invalidate(newPath)), I.Rekey(oldPath, newPath));
    hide I.Valid;
  }

  /** Which outcome a rename has. */
  lemma OutcomeExactly(s: Staging, oldPath: Path, newPath: Path, refuses: bool)
    ensures var outcome := Renamed(s, oldPath, newPath, refuses).1;
            var conflict := oldPath in s.index.conflicts || newPath in s.index.conflicts;
            && (outcome == Conflicted <==> conflict)
            && (outcome == NoStagedBytes <==> !conflict && oldPath !in s.disk.data)
            && (outcome == Refused <==> !conflict && oldPath in s.disk.data && refuses)
            && (outcome == Moved <==> !conflict && oldPath in s.disk.data && !refuses)
    ensures Renamed(s, oldPath, newPath, refuses).1 == Conflicted ==> Renamed(s, oldPath, newPath, refuses).0 == s
  {
  }

  predicate SameEntry<T(==)>(a: map<Path, T>, b: map<Path, T>, p: Path) {
    (p in a <==> p in b) && (p in a ==> a[p] == b[p])
  }

  /** A finished rename takes the open session to the new name, and the one there
      before is gone; any other outcome leaves the sessions alone. */
  lemma SessionFollowsRename(s: Staging, oldPath: Path, newPath: Path, refuses: bool)
    ensures var (after, outcome) := Renamed(s, oldPath, newPath, refuses);
            && (outcome != Moved ==> after.sessions == s.sessions)
            && (outcome == Moved ==> oldPath !in after.sessions)
            && (outcome == Moved && oldPath != newPath ==>
                  && (newPath in after.sessions <==> oldPath in s.sessions)
                  && (newPath in after.sessions ==> after.sessions[newPath] == s.sessions[oldPath]))
            && (forall p :: p != oldPath && p != newPath ==> SameEntry(s.sessions, after.sessions, p))
  {
  }

  /** A rename that finds nothing staged forgets the source's entry and sidecar, and
      nothing else. */
  lemma NothingStagedForgetsSource(s: Staging, oldPath: Path, newPath: Path, refuses: bool)
    requires Renamed(s, oldPath, newPath, refuses).1 == NoStagedBytes
    ensures var after := Renamed(s, oldPath, newPath, refuses).0;
            && oldPath !in after.index.dirty && oldPath !in after.disk.sidecars
            && (forall p :: p != oldPath ==>
                  SameEntry(s.index.dirty, after.index.dirty, p) && SameEntry(s.disk.sidecars, after.disk.sidecars, p))
            && after.disk.data == s.disk.data && after.disk.tombstones == s.disk.tombstones
            && after.index.syncing == s.index.syncing && after.index.conflicts == s.index.conflicts
            && after.index.generation == s.index.generation && after.sessions == s.sessions
  {
  }

  /** What a finished rename leaves under every name, on disk and in the index: the
      source's file, entry size and committed mark under the new name, a tombstone
      under the old one, and every other name as it was. */
  lemma RenameLeaves(s: Staging, oldPath: Path, newPath: Path)
    requires oldPath != newPath && Renamed(s, oldPath, newPath, false).1 == Moved
    ensures var after := Renamed(s, oldPath, newPath, false).0;
            && newPath in after.disk.data && after.disk.data[newPath] == s.disk.data[oldPath]
            && newPath !in after.disk.tombstones && newPath in after.disk.sidecars
            && !after.disk.sidecars[newPath].conflicted
            && newPath in after.index.dirty && after.index.dirty[newPath].recorded
            && after.index.dirty[newPath].size == (if oldPath in s.index.dirty then s.index.dirty[oldPath].size else 0)
            && oldPath !in after.disk.data && oldPath !in after.disk.sidecars && oldPath in after.disk.tombstones
            && oldPath !in after.index.dirty
            && forall p :: p != oldPath && p != newPath ==>
                 && SameEntry(s.disk.data, after.disk.data, p) && SameEntry(s.disk.sidecars, after.disk.sidecars, p)
                 && (p in after.disk.tombstones <==> p in s.disk.tombstones)
                 && SameEntry(s.index.dirty, after.index.dirty, p)
  {
    FivePoints(s.disk, oldPath, newPath, |Changes|);
  }

  /** Every session writes the data file that its name leads to. */
  ghost predicate SessionsFollow(s: Staging) {
    forall p :: p in s.sessions ==> p in s.disk.data && s.disk.data[p] == s.sessions[p]
  }

  lemma RenameKeepsSessions(s: Staging, oldPath: Path, newPath: Path, refuses: bool)
    requires SessionsFollow(s) && oldPath != newPath
    ensures SessionsFollow(Renamed(s, oldPath, newPath, refuses).0)
  {
    FivePoints(s.disk, oldPath, newPath, |Changes|);
  }
}

/** Moving a directory whose files are staged (internal/vfs/filesystem.go). */
module Relocation {
  import opened Common
  import opened StagedRename

  predicate Below(dir: Path, p: Path) {
    dir + "/" <= p
  }

  /** The new name of a file below oldDir. */
  function Target(oldDir: Path, newDir: Path, p: Path): Path
    requires Below(oldDir, p)
  {
    newDir + p[|oldDir|..]
  }

  lemma TargetFacts(oldDir: Path, newDir: Path, p: Path)
    requires Below(oldDir, p)
    ensures Below(newDir, Target(oldDir, newDir, p))
    ensures Target(newDir, oldDir, Target(oldDir, newDir, p)) == p
  {
    var t := Target(oldDir, newDir, p);
    assert p[..|oldDir|] == oldDir && p[|oldDir|] == '/' by {
      assert (oldDir + "/")[|oldDir|] == '/';
      assert p[..|oldDir|] == (oldDir + "/")[..|oldDir|];
    }
    assert t[..|newDir|] == newDir && t[|newDir|..] == p[|oldDir|..];
    assert t[|newDir|] == p[|oldDir|];
    assert t[..|newDir| + 1] == newDir + "/";
    assert p == p[..|oldDir|] + p[|oldDir|..];
  }

  /** files with those in moved taken from below oldDir to below newDir. */
  function Relocated(files: map<Path, File>, moved: set<Path>, oldDir: Path, newDir: Path): map<Path, File>
    requires forall p :: p in moved ==> p in files && Below(oldDir, p)
  {
    (files - moved) +
    map q | q in (set p | p in moved :: Target(oldDir, newDir, p)) && Below(newDir, q)
            && Target(newDir, oldDir, q) in files :: files[Target(newDir, oldDir, q)]
  }

  function AllBelow(files: map<Path, File>, dir: Path): set<Path> {
    set p | p in files && Below(dir, p)
  }

  /** Which names Relocated uses, and for which file. */
  lemma RelocatedAt(files: map<Path, File>, moved: set<Path>, oldDir: Path, newDir: Path, q: Path)
    requires forall p :: p in moved ==> p in files && Below(oldDir, p)
    requires forall p :: p in files ==> !Below(newDir, p)
    ensures q in Relocated(files, moved, oldDir, newDir) <==>
            if Below(newDir, q) then Target(newDir, oldDir, q) in moved else q in files && q !in moved
    ensures q in Relocated(files, moved, oldDir, newDir) ==>
              Relocated(files, moved, oldDir, newDir)[q] ==
              files[if Below(newDir, q) then Target(newDir, oldDir, q) else q]
  {
    forall p | Below(oldDir, p)
      ensures Below(newDir, Target(oldDir, newDir, p)) && Target(newDir, oldDir, Target(oldDir, newDir, p)) == p
    {
      TargetFacts(oldDir, newDir, p);
    }
    if Below(newDir, q) { TargetFacts(newDir, oldDir, q); }
  }

  // ---- the same in strings ----

  lemma Spelled(dir: Path, p: Path)
    ensures Below(dir, p) <==> exists rest: string :: p == dir + "/" + rest
    ensures Below(dir, p) ==> p == dir + "/" + p[|dir| + 1..]
  {
    if Below(dir, p) {
      assert p[..|dir| + 1] == dir + "/";
      assert p == p[..|dir| + 1] + p[|dir| + 1..];
    }
    if rest: string :| p == dir + "/" + rest {
      assert p[..|dir + "/"|] == dir + "/";
    }
  }

  lemma TargetSpelled(oldDir: Path, newDir: Path, rest: string)
    ensures Below(oldDir, oldDir + "/" + rest)
    ensures Target(oldDir, newDir, oldDir + "/" + rest) == newDir + "/" + rest
  {
    Spelled(oldDir, oldDir + "/" + rest);
    assert (oldDir + "/" + rest)[|oldDir|..] == "/" + rest;
  }

  /** Every file below the old directory is below the new one under the rest of its
      name, every other file stays, and there are no others. */
  ghost predicate MovedDirectory(files: map<Path, File>, after: map<Path, File>, oldDir: Path, newDir: Path) {
    && (forall rest: string ::
          && (newDir + "/" + rest in after <==> oldDir + "/" + rest in files)
          && (newDir + "/" + rest in after ==> after[newDir + "/" + rest] == files[oldDir + "/" + rest]))
    && (forall p :: p in files && (forall rest: string :: p != oldDir + "/" + rest) ==>
          p in after && after[p] == files[p])
    && (forall p :: p in after ==>
          || (exists rest: string :: p == newDir + "/" + rest)
          || (p in files && forall rest: string :: p != oldDir + "/" + rest))
  }

  lemma RelocatedMoves(files: map<Path, File>, oldDir: Path, newDir: Path)
    requires forall p :: p in files ==> !Below(newDir, p)
    ensures MovedDirectory(files, Relocated(files, AllBelow(files, oldDir), oldDir, newDir), oldDir, newDir)
  {
    var moved := AllBelow(files, oldDir);
    var after := Relocated(files, moved, oldDir, newDir);
    forall p ensures Below(oldDir, p) <==> exists rest: string :: p == oldDir + "/" + rest {
      Spelled(oldDir, p);
    }
    assert forall p :: p in moved <==> p in files && Below(oldDir, p);
    hide Relocated, Below, Target, AllBelow;
    forall rest: string
      ensures newDir + "/" + rest in after <==> oldDir + "/" + rest in files
      ensures newDir + "/" + rest in after ==> after[newDir + "/" + rest] == files[oldDir + "/" + rest]
    {
      TargetSpelled(newDir, oldDir, rest);
      RelocatedAt(files, moved, oldDir, newDir, newDir + "/" + rest);
    }
    forall p ensures p in after ==> (exists rest: string :: p == newDir + "/" + rest) || (p in files && p !in moved)
             ensures p in files && p !in moved ==> p in after && after[p] == files[p]
    {
      RelocatedAt(files, moved, oldDir, newDir, p);
      Spelled(newDir, p);
    }
  }

  lemma RelocateNone(files: map<Path, File>, oldDir: Path, newDir: Path)
    ensures Relocated(files, {}, oldDir, newDir) == files
  {
  }

  /** Moving one file more. */
  lemma RelocateOne(files: map<Path, File>, moved: set<Path>, oldDir: Path, newDir: Path, c: Path)
    requires forall p :: p in moved ==> p in files && Below(oldDir, p)
    requires forall p :: p in files ==> !Below(newDir, p)
    requires c in files && Below(oldDir, c) && c !in moved
    ensures var before, after := Relocated(files, moved, oldDir, newDir), Relocated(files, moved + {c}, oldDir, newDir);
            var t := Target(oldDir, newDir, c);
            c in before && t !in before && t in after && c !in after && before[c] == files[c] == after[t] &&
            after == (before - {c})[t := files[c]] && before == (after - {t})[c := files[c]]
  {
    hide Relocated;
    var before, after := Relocated(files, moved, oldDir, newDir), Relocated(files, moved + {c}, oldDir, newDir);
    var t := Target(oldDir, newDir, c);
    TargetFacts(oldDir, newDir, c);
    RelocatedAt(files, moved, oldDir, newDir, c);
    RelocatedAt(files, moved, oldDir, newDir, t);
    RelocatedAt(files, moved + {c}, oldDir, newDir, c);
    RelocatedAt(files, moved + {c}, oldDir, newDir, t);
    forall q | q != c && q != t
      ensures q in before <==> q in after
      ensures q in before ==> before[q] == after[q]
    {
      RelocatedAt(files, moved, oldDir, newDir, q);
      RelocatedAt(files, moved + {c}, oldDir, newDir, q);
      if Below(newDir, q) { TargetFacts(newDir, oldDir, q); }
    }
    hide *;
    assert after == (before - {c})[t := files[c]];
    assert before == (after - {t})[c := files[c]];
  }

  /** A relocation neither merges nor drops: it is one-to-one on names. */
  lemma RelocatedIsOneToOne(files: map<Path, File>, oldDir: Path, newDir: Path, p: Path, q: Path)
    requires forall r :: r in files ==> !Below(newDir, r)
    requires p in files && q in files && p != q
    ensures (if Below(oldDir, p) then Target(oldDir, newDir, p) else p)
            != (if Below(oldDir, q) then Target(oldDir, newDir, q) else q)
  {
    if Below(oldDir, p) { TargetFacts(oldDir, newDir, p); }
    if Below(oldDir, q) { TargetFacts(oldDir, newDir, q); }
  }
}

module StagingManagerObject {
  import opened Common
  import opened Recovery
  import opened StagedRename
  import opened StagingState
  import opened Relocation
  import I = IndexState

  /** How the bucket answers: for the destination's stat, and for the rename of
      the directory's own objects. */
  datatype Answer = Succeeds | NotExist | Fails

  datatype DirResult = Completed | Busy | NotDirectory | LeftToBucket | Failed

  function Elems(s: seq<Path>): set<Path> {
    set p | p in s
  }

  ghost predicate Movable(conflicts: set<Path>, oldDir: Path, newDir: Path, c: Path) {
    Below(oldDir, c) && c !in conflicts && Target(oldDir, newDir, c) !in conflicts
  }

  /** Child c does not stop the rename of its directory: no conflict holds it, and
      if it is staged, the file system lets it move. */
  ghost predicate Goes(files: map<Path, File>, conflicts: set<Path>, refused: set<Path>, oldDir: Path, newDir: Path,
                       c: Path)
  {
    Movable(conflicts, oldDir, newDir, c) && (c in files ==> c !in refused)
  }

  /** One file more out of the old directory. */
  lemma MoveOut(s: Staging, files: map<Path, File>, moved: set<Path>, oldDir: Path, newDir: Path, c: Path)
    requires forall p :: p in moved ==> p in files && Below(oldDir, p)
    requires forall p :: p in files ==> !Below(newDir, p)
    requires c in files && c !in moved && Movable(s.index.conflicts, oldDir, newDir, c)
    requires Live(s) == Relocated(files, moved, oldDir, newDir)
    ensures var (after, outcome) := Renamed(s, c, Target(oldDir, newDir, c), false);
            && outcome == Moved && Live(after) == Relocated(files, moved + {c}, oldDir, newDir)
            && after.index.syncing == s.index.syncing && after.index.conflicts == s.index.conflicts
            && !Dying(after, c)
            && forall p :: p != c && p != Target(oldDir, newDir, c) ==> SameAt(s, after, p)
  {
    hide Live, Relocated, Renamed, SameAt, Dying;
    RelocateOne(files, moved, oldDir, newDir, c);
    TargetFacts(oldDir, newDir, c);
    RenameMovesLive(s, c, Target(oldDir, newDir, c));
  }

  /** Files below the new directory that no moved file accounts for. */
  ghost predicate Extra(extra: map<Path, File>, moved: set<Path>, oldDir: Path, newDir: Path) {
    forall q :: q in extra ==> Below(newDir, q) && Target(newDir, oldDir, q) !in moved
  }

  /** A file more put back, beside files that were not moved at all. */
  lemma PutBack(files: map<Path, File>, moved: set<Path>, extra: map<Path, File>, oldDir: Path, newDir: Path, c: Path)
    requires forall p :: p in moved ==> p in files && Below(oldDir, p)
    requires forall p :: p in files ==> !Below(newDir, p)
    requires c in files && c !in moved && Below(oldDir, c) && Extra(extra, moved + {c}, oldDir, newDir)
    ensures var out, t := Relocated(files, moved + {c}, oldDir, newDir) + extra, Target(oldDir, newDir, c);
            && t in out && t != c
            && Relocated(files, moved, oldDir, newDir) + extra == (out - {t})[c := out[t]]
  {
    RelocateOne(files, moved, oldDir, newDir, c);
    TargetFacts(oldDir, newDir, c);
    hide Relocated;
    var before, after := Relocated(files, moved, oldDir, newDir), Relocated(files, moved + {c}, oldDir, newDir);
    var t := Target(oldDir, newDir, c);
    assert t !in extra && c !in extra;
    hide *;
    ChangeBeside(before, after, extra, t, c);
  }

  lemma ChangeBeside(before: map<Path, File>, after: map<Path, File>, extra: map<Path, File>, t: Path, c: Path)
    requires t in after && before == (after - {t})[c := after[t]] && t !in extra && c !in extra
    ensures t in after + extra && before + extra == ((after + extra) - {t})[c := (after + extra)[t]]
  {
    assert (after + extra)[t] == after[t];
  }

  lemma PlusNothing(m: map<Path, File>)
    ensures m + map[] == m
  {
  }

  /** One file more back into the old directory, unless the file system refuses. */
  lemma MoveBack(s: Staging, files: map<Path, File>, moved: set<Path>, extra: map<Path, File>,
                 oldDir: Path, newDir: Path, c: Path, refuses: bool)
    requires forall p :: p in moved ==> p in files && Below(oldDir, p)
    requires forall p :: p in files ==> !Below(newDir, p)
    requires c in files && c !in moved && Movable(s.index.conflicts, oldDir, newDir, c)
    requires Extra(extra, moved + {c}, oldDir, newDir) && !Dying(s, c)
    requires Live(s) == Relocated(files, moved + {c}, oldDir, newDir) + extra
    ensures var (after, outcome) := Renamed(s, Target(oldDir, newDir, c), c, refuses);
            && Live(after) == Relocated(files, if refuses then moved + {c} else moved, oldDir, newDir) + extra
            && after.index.syncing == s.index.syncing && after.index.conflicts == s.index.conflicts
            && forall p :: p != c && p != Target(oldDir, newDir, c) ==> SameAt(s, after, p)
  {
    PutBack(files, moved, extra, oldDir, newDir, c);
    var t := Target(oldDir, newDir, c);
    TargetFacts(oldDir, newDir, c);
    assert t in Live(s);
    assert t in s.disk.data && Revived(s, c) == map[];
    hide Live, Relocated, Renamed, Dying, SameAt, Revived;
    if refuses {
      RefusedKeepsLiveExactly(s, t, c);
    } else {
      RenameMovesLive(s, t, c);
    }
  }

  /** A child not moved yet is live exactly when it was at the start. */
  lemma StillThere(s: Staging, files: map<Path, File>, moved: set<Path>, oldDir: Path, newDir: Path, c: Path)
    requires forall p :: p in moved ==> p in files && Below(oldDir, p)
    requires forall p :: p in files ==> !Below(newDir, p)
    requires Live(s) == Relocated(files, moved, oldDir, newDir)
    requires Dirty(s, c) && !Below(newDir, c) && c !in moved
    ensures c in s.disk.data <==> c in files
  {
    RelocatedAt(files, moved, oldDir, newDir, c);
  }

  /** q was being deleted, its staged file is file, and the refused move of a child
      onto it brings it back. */
  ghost predicate RevivedBy(s: Staging, children: seq<Path>, refused: set<Path>, oldDir: Path, newDir: Path,
                            q: Path, file: File)
  {
    && Dying(s, q) && s.disk.data[q] == file
    && Below(newDir, q) && Target(newDir, oldDir, q) in children && Target(newDir, oldDir, q) in refused
  }

  lemma GoesExactly(files: map<Path, File>, conflicts: set<Path>, refused: set<Path>, oldDir: Path, newDir: Path,
                    c: Path)
    ensures Goes(files, conflicts, refused, oldDir, newDir, c) <==>
              Movable(conflicts, oldDir, newDir, c) && (c in files ==> c !in refused)
  {
  }

  lemma RevivedFits(s: Staging, now: Staging, children: seq<Path>, refused: set<Path>, oldDir: Path, newDir: Path,
                    c: Path)
    requires Below(oldDir, c) && c in children && SameAt(s, now, Target(oldDir, newDir, c))
    ensures var revived := Revived(now, Target(oldDir, newDir, c));
            && (c in refused ==> forall q :: q in revived ==>
                  RevivedBy(s, children, refused, oldDir, newDir, q, revived[q]))
            && (forall moved: set<Path> :: c !in moved ==> Extra(revived, moved, oldDir, newDir))
  {
    TargetFacts(oldDir, newDir, c);
  }

  lemma TargetsDiffer(oldDir: Path, newDir: Path, c: Path, d: Path)
    requires Below(oldDir, c) && Below(oldDir, d) && c != d && !Below(newDir, d)
    ensures Target(oldDir, newDir, c) != Target(oldDir, newDir, d) && Target(oldDir, newDir, c) != d
  {
    TargetFacts(oldDir, newDir, c);
    TargetFacts(oldDir, newDir, d);
  }

  lemma AppendOne(s: seq<Path>, p: Path)
    ensures Elems(s + [p]) == Elems(s) + {p}
    ensures p !in Elems(s) ==> p !in s
  {
  }

  /** The children from i on are as they were in s0, and so are their targets. */
  ghost predicate Ahead(s0: Staging, s: Staging, children: seq<Path>, i: nat, oldDir: Path, newDir: Path) {
    forall j :: i <= j < |children| ==>
      Below(oldDir, children[j]) && !Below(newDir, children[j]) && Dirty(s, children[j])
      && SameAt(s0, s, Target(oldDir, newDir, children[j]))
  }

  lemma AheadAt(s0: Staging, s: Staging, children: seq<Path>, i: nat, oldDir: Path, newDir: Path)
    requires i < |children| && Ahead(s0, s, children, i, oldDir, newDir)
    ensures var c := children[i];
            Below(oldDir, c) && !Below(newDir, c) && Dirty(s, c) && SameAt(s0, s, Target(oldDir, newDir, c))
  {
  }

  lemma AheadStarts(s: Staging, children: seq<Path>, oldDir: Path, newDir: Path)
    requires forall p :: p in children ==> Below(oldDir, p) && !Below(newDir, p) && Dirty(s, p)
    ensures Ahead(s, s, children, 0, oldDir, newDir)
  {
    SameAsItself(s);
  }

  lemma AheadKeeps(s0: Staging, s: Staging, after: Staging, children: seq<Path>, i: nat, oldDir: Path, newDir: Path)
    requires i < |children| && Ahead(s0, s, children, i, oldDir, newDir)
    requires forall j, k :: 0 <= j < k < |children| ==> children[j] != children[k]
    requires forall p :: p != children[i] && p != Target(oldDir, newDir, children[i]) ==> SameAt(s, after, p)
    ensures Ahead(s0, after, children, i + 1, oldDir, newDir)
  {
    hide Target, Below, Dirty, Dying;
    var c := children[i];
    forall j | i < j < |children|
      ensures Dirty(after, children[j]) && SameAt(s0, after, Target(oldDir, newDir, children[j]))
    {
      var d := children[j];
      TargetsDiffer(oldDir, newDir, c, d);
      TargetsDiffer(oldDir, newDir, d, c);
      assert SameAt(s, after, d) && SameAt(s, after, Target(oldDir, newDir, d));
    }
  }

  /** The moved files, each free to go back. */
  ghost predicate Behind(s: Staging, files: map<Path, File>, moved: set<Path>, oldDir: Path, newDir: Path) {
    forall p :: p in moved ==>
      p in files && Below(oldDir, p) && Movable(s.index.conflicts, oldDir, newDir, p) && !Dying(s, p)
  }

  lemma BehindKeeps(s: Staging, after: Staging, files: map<Path, File>, moved: set<Path>, oldDir: Path, newDir: Path,
                    c: Path)
    requires Behind(s, files, moved, oldDir, newDir) && after.index.conflicts == s.index.conflicts
    requires Below(oldDir, c) && c !in moved && forall p :: p in files ==> !Below(newDir, p)
    requires forall p :: p != c && p != Target(oldDir, newDir, c) ==> SameAt(s, after, p)
    ensures Behind(after, files, moved, oldDir, newDir)
  {
    hide Target, Below, Dirty, Dying;
    forall p | p in moved ensures !Dying(after, p) {
      TargetsDiffer(oldDir, newDir, c, p);
      assert SameAt(s, after, p);
    }
  }

  /** The steps of a child's move: what RenameStagedPath answers, and what it does. */
  lemma ChildMoves(s: Staging, files: map<Path, File>, moved: set<Path>, oldDir: Path, newDir: Path, c: Path,
                   refuses: bool)
    requires forall p :: p in moved ==> p in files && Below(oldDir, p)
    requires forall p :: p in files ==> !Below(newDir, p)
    requires Live(s) == Relocated(files, moved, oldDir, newDir)
    requires Below(oldDir, c) && Dirty(s, c) && !Below(newDir, c) && c !in moved
    ensures var t := Target(oldDir, newDir, c);
            var (after, outcome) := Renamed(s, c, t, refuses);
            && after.index.syncing == s.index.syncing && after.index.conflicts == s.index.conflicts
            && (outcome == Moved <==> c in files && Movable(s.index.conflicts, oldDir, newDir, c) && !refuses)
            && (outcome == NoStagedBytes <==> c !in files && Movable(s.index.conflicts, oldDir, newDir, c))
            && (outcome == Refused <==> c in files && Movable(s.index.conflicts, oldDir, newDir, c) && refuses)
            && (outcome == Moved ==> Live(after) == Relocated(files, moved + {c}, oldDir, newDir) && !Dying(after, c))
            && (outcome != Moved ==> Live(after) == Live(s) + if outcome == Refused then Revived(s, t) else map[])
            && forall p :: p != c && p != t ==> SameAt(s, after, p)
  {
    var t := Target(oldDir, newDir, c);
    StillThere(s, files, moved, oldDir, newDir, c);
    PlusNothing(Live(s));
    hide Live, Relocated, Target, Dirty, Dying, Revived;
    if c !in s.disk.data {
      NothingStagedKeepsLive(s, c, t, refuses);
    } else if !InConflict(s, c, t) {
      if refuses {
        RefusedKeepsLiveExactly(s, c, t);
      } else {
        MoveOut(s, files, moved, oldDir, newDir, c);
      }
    }
  }

  lemma SameAsItself(s: Staging)
    ensures forall p :: SameAt(s, s, p)
  {
  }

  /** A change of the claims alone. */
  lemma ClaimsAside(a: Staging, b: Staging)
    requires b == a.(index := a.index.(syncing := b.index.syncing))
    ensures Live(b) == Live(a) && forall p :: SameAt(a, b, p) && Revived(a, p) == Revived(b, p)
  {
  }

  lemma TakeOne(s: seq<Path>, k: nat)
    requires k < |s| && forall i, j :: 0 <= i < j < |s| ==> s[i] != s[j]
    ensures Elems(s[..k + 1]) == Elems(s[..k]) + {s[k]} && s[k] !in Elems(s[..k])
  {
    assert s[..k + 1] == s[..k] + [s[k]];
  }

  /** Files left under their new names, or brought back from a delete, are the only
      differences there can be. */
  lemma UnmovedExactly(files: map<Path, File>, stuck: set<Path>, extra: map<Path, File>, oldDir: Path, newDir: Path)
    requires forall p :: p in stuck ==> p in files && Below(oldDir, p)
    requires forall p :: p in files ==> !Below(newDir, p)
    requires Extra(extra, stuck, oldDir, newDir)
    ensures Relocated(files, stuck, oldDir, newDir) + extra == files <==> stuck == {} && extra == map[]
  {
    RelocateNone(files, oldDir, newDir);
    if stuck != {} {
      var p :| p in stuck;
      RelocatedAt(files, stuck, oldDir, newDir, p);
      assert p !in Relocated(files, stuck, oldDir, newDir) + extra;
    } else if extra != map[] {
      var q :| q in extra;
      assert q !in files;
    } else {
      assert files + extra == files;
    }
  }

  /** Writing the intent over a sidecar and then the sidecar back over it. */
  lemma RestoredSidecars(s: Staging, oldPath: Path, newPath: Path, replaced: Option<Sidecar>)
    requires replaced == if newPath in s.disk.sidecars then Some(s.disk.sidecars[newPath]) else None
    ensures var intended := WriteSidecar(s.disk.sidecars, newPath,
                                         Sidecar(false, CommittedAt(s.disk.sidecars, oldPath)));
            TakenBack(s, oldPath, newPath).disk.sidecars ==
            if replaced.Some? then WriteSidecar(intended, newPath, replaced.value)
            else if newPath in s.index.dirty then (intended - {newPath})[newPath := Sidecar(false, false)]
            else intended - {newPath}
  {
  }

  /** What the rename asks of its names, in strings. */
  lemma BusySpelled(s: Staging, newDir: Path)
    ensures (exists p :: Below(newDir, p) && Dirty(s, p)) <==>
            exists rest: string :: newDir + "/" + rest in s.index.dirty && newDir + "/" + rest !in s.disk.tombstones
  {
    if p :| Below(newDir, p) && Dirty(s, p) {
      Spelled(newDir, p);
      var rest := p[|newDir| + 1..];
      assert newDir + "/" + rest == p;
    }
    if rest: string :| newDir + "/" + rest in s.index.dirty && newDir + "/" + rest !in s.disk.tombstones {
      Spelled(newDir, newDir + "/" + rest);
      assert Dirty(s, newDir + "/" + rest);
    }
  }

  lemma GoesSpelled(files: map<Path, File>, conflicts: set<Path>, refused: set<Path>, children: seq<Path>,
                    oldDir: Path, newDir: Path)
    requires forall p :: p in children ==> Below(oldDir, p)
    ensures (forall p :: p in children ==> Goes(files, conflicts, refused, oldDir, newDir, p)) <==>
            forall rest: string :: oldDir + "/" + rest in children ==>
              && oldDir + "/" + rest !in conflicts && newDir + "/" + rest !in conflicts
              && (oldDir + "/" + rest in files ==> oldDir + "/" + rest !in refused)
  {
    forall p | p in children ensures p == oldDir + "/" + p[|oldDir| + 1..] {
      Spelled(oldDir, p);
    }
    forall rest: string
      ensures Below(oldDir, oldDir + "/" + rest) && Target(oldDir, newDir, oldDir + "/" + rest) == newDir + "/" + rest
    {
      TargetSpelled(oldDir, newDir, rest);
    }
    hide Below, Target;
    if forall rest: string :: oldDir + "/" + rest in children ==>
         && oldDir + "/" + rest !in conflicts && newDir + "/" + rest !in conflicts
         && (oldDir + "/" + rest in files ==> oldDir + "/" + rest !in refused) {
      forall p | p in children ensures Goes(files, conflicts, refused, oldDir, newDir, p) {
        assert p == oldDir + "/" + p[|oldDir| + 1..];
      }
    }
  }

  lemma AnySpelled(files: map<Path, File>, oldDir: Path)
    ensures AllBelow(files, oldDir) != {} <==> exists rest: string :: oldDir + "/" + rest in files
  {
    if p :| p in AllBelow(files, oldDir) {
      Spelled(oldDir, p);
      var rest := p[|oldDir| + 1..];
      assert oldDir + "/" + rest == p;
    }
    if rest: string :| oldDir + "/" + rest in files {
      Spelled(oldDir, oldDir + "/" + rest);
      assert oldDir + "/" + rest in AllBelow(files, oldDir);
    }
  }

  class StagingManager {
    var disk: Disk<File>
    var index: I.Index
    var sessions: map<Path, File>

    constructor ()
      ensures State() == Staging(Disk(map[], map[], {}), I.EmptyIndex, map[])
    {
      disk, index, sessions := Disk(map[], map[], {}), I.EmptyIndex, map[];
    }

    function State(): Staging
      reads this
    {
      Staging(disk, index, sessions)
    }

    /** Puts the sidecar of a path back after a rename onto it did not happen. */
    method RestorePathMetadata(path: Path, replaced: Option<Sidecar>)
      modifies this`disk
      ensures disk.data == old(disk.data) && disk.tombstones == old(disk.tombstones)
      ensures disk.sidecars ==
              if replaced.Some? then WriteSidecar(old(disk.sidecars), path, replaced.value)
              else if path in index.dirty then (old(disk.sidecars) - {path})[path := Sidecar(false, false)]
              else old(disk.sidecars) - {path}
    {
      if replaced.Some? {
        disk := disk.(sidecars := WriteSidecar(disk.sidecars, path, replaced.value));
      } else {
        disk := disk.(sidecars := disk.sidecars - {path});
        if path in index.dirty {
          disk := disk.(sidecars := WriteSidecar(disk.sidecars, path, Sidecar(false, false)));
        }
      }
    }

    method RenameStagedPath(oldPath: Path, newPath: Path, refuses: bool) returns (outcome: Outcome)
      modifies this
      ensures (State(), outcome) == Renamed(old(State()), oldPath, newPath, refuses)
      ensures outcome != Moved ==> sessions == old(sessions)
      ensures outcome == Moved && oldPath != newPath ==>
                && oldPath !in sessions && (newPath in sessions <==> oldPath in old(sessions))
                && (newPath in sessions ==> sessions[newPath] == old(sessions)[oldPath])
    {
      SessionFollowsRename(State(), oldPath, newPath, refuses);
      ghost var before := disk;
      if oldPath in index.conflicts || newPath in index.conflicts {
        return Conflicted;
      }
      if oldPath !in disk.data {
        index := I.After(index, I.DropEntry(oldPath));
        disk := disk.(sidecars := disk.sidecars - {oldPath});
        return NoStagedBytes;
      }
      disk := disk.(tombstones := disk.tombstones - {newPath});
      var committed := oldPath in disk.sidecars && disk.sidecars[oldPath].committed;
      index := I.After(index, I.Invalidate(newPath));
      var replaced := if newPath in disk.sidecars then Some(disk.sidecars[newPath]) else None;
      disk := disk.(sidecars := WriteSidecar(disk.sidecars, newPath, Sidecar(false, committed)));
      if refuses {
        RestorePathMetadata(newPath, replaced);
        RestoredSidecars(old(State()), oldPath, newPath, replaced);
        return Refused;
      }
      FivePoints(before, oldPath, newPath, |Changes|);
      disk := disk.(data := (disk.data - {oldPath})[newPath := disk.data[oldPath]]);
      disk := disk.(tombstones := disk.tombstones + {oldPath});
      disk := disk.(sidecars := disk.sidecars - {oldPath});
      sessions := sessions - {newPath};
      if oldPath in sessions {
        sessions := (sessions - {oldPath})[newPath := sessions[oldPath]];
      }
      index := I.After(index, I.Rekey(oldPath, newPath));
      return Moved;
    }

    /** Puts moved files back under their old names, last one first. A file whose
        move back is refused stays under its new name, and the others still go. */
    method Undo(moved: seq<Path>, refused: set<Path>, oldDir: Path, newDir: Path,
                ghost files: map<Path, File>, ghost extra: map<Path, File>)
      returns (ghost stuck: set<Path>)
      requires forall i, j :: 0 <= i < j < |moved| ==> moved[i] != moved[j]
      requires Behind(State(), files, Elems(moved), oldDir, newDir)
      requires forall p :: p in files ==> !Below(newDir, p)
      requires Extra(extra, Elems(moved), oldDir, newDir)
      requires Live(State()) == Relocated(files, Elems(moved), oldDir, newDir) + extra
      modifies this
      ensures stuck == set p | p in Elems(moved) && Target(oldDir, newDir, p) in refused
      ensures Live(State()) == Relocated(files, stuck, oldDir, newDir) + extra
      ensures index.syncing == old(index.syncing) && index.conflicts == old(index.conflicts)
    {
      hide Live, Relocated, Renamed, Target, Dying, SameAt, Movable, Below;
      stuck := {};
      assert moved[..|moved|] == moved && Elems(moved) + stuck == Elems(moved);
      for k := |moved| downto 0
        invariant Elems(moved[..k]) <= Elems(moved) && stuck <= Elems(moved) && stuck !! Elems(moved[..k])
        invariant forall j :: k <= j < |moved| ==> (moved[j] in stuck <==> Target(oldDir, newDir, moved[j]) in refused)
        invariant Behind(State(), files, Elems(moved[..k]), oldDir, newDir)
        invariant Live(State()) == Relocated(files, Elems(moved[..k]) + stuck, oldDir, newDir) + extra
        invariant index.syncing == old(index.syncing) && index.conflicts == old(index.conflicts)
      {
        TakeOne(moved, k);
        var c := moved[k];
        ghost var before, others := State(), Elems(moved[..k]) + stuck;
        assert Elems(moved[..k + 1]) + stuck == others + {c};
        var refuses := Target(oldDir, newDir, c) in refused;
        MoveBack(before, files, others, extra, oldDir, newDir, c, refuses);
        var outcome := RenameStagedPath(Target(oldDir, newDir, c), c, refuses);
        BehindKeeps(before, State(), files, Elems(moved[..k]), oldDir, newDir, c);
        if refuses {
          stuck := stuck + {c};
          assert Elems(moved[..k]) + stuck == others + {c};
        }
      }
      assert Elems(moved[..0]) + stuck == stuck;
    }

    /** Moves one child, keeping the sync workers off its new name. */
    method MoveChild(c: Path, refuses: bool, oldDir: Path, newDir: Path,
                     ghost files: map<Path, File>, ghost moved: set<Path>)
      returns (outcome: Outcome, claims: bool, ghost revived: map<Path, File>)
      requires forall p :: p in moved ==> p in files && Below(oldDir, p)
      requires forall p :: p in files ==> !Below(newDir, p)
      requires Live(State()) == Relocated(files, moved, oldDir, newDir)
      requires Below(oldDir, c) && Dirty(State(), c) && !Below(newDir, c) && c !in moved
      modifies this
      ensures index.conflicts == old(index.conflicts)
      ensures forall p :: p != c && p != Target(oldDir, newDir, c) ==> SameAt(old(State()), State(), p)
      ensures outcome == Moved <==> c in files && Movable(index.conflicts, oldDir, newDir, c) && !refuses
      ensures outcome == NoStagedBytes <==> c !in files && Movable(index.conflicts, oldDir, newDir, c)
      ensures outcome == Refused <==> c in files && Movable(index.conflicts, oldDir, newDir, c) && refuses
      ensures outcome == Moved ==> Live(State()) == Relocated(files, moved + {c}, oldDir, newDir) && !Dying(State(), c)
      ensures outcome != Moved ==> Live(State()) == Relocated(files, moved, oldDir, newDir) + revived
      ensures revived == if outcome == Refused then Revived(old(State()), Target(oldDir, newDir, c)) else map[]
      ensures claims ==> outcome == Moved && Target(oldDir, newDir, c) !in old(index.syncing)
      ensures index.syncing == old(index.syncing) + if claims then {Target(oldDir, newDir, c)} else {}
    {
      hide Live, Relocated, Target, Renamed, Dirty, Dying, Revived, Movable;
      var t := Target(oldDir, newDir, c);
      ghost var s0 := State();
      claims := t !in index.syncing;
      index := I.After(index, I.LockFile(t));
      ghost var s1 := State();
      ClaimsAside(s0, s1);
      assert SameAt(s0, s1, c);
      ChildMoves(s1, files, moved, oldDir, newDir, c, refuses);
      outcome := RenameStagedPath(c, t, refuses);
      ghost var s2 := State();
      revived := if outcome == Refused then Revived(s1, t) else map[];
      if outcome != Moved && claims {
        index := I.After(index, I.UnlockFile(t));
        claims := false;
      }
      ClaimsAside(s2, State());
      forall p | p != c && p != t ensures SameAt(s0, State(), p) {
        assert SameAt(s0, s1, p) && SameAt(s1, s2, p) && SameAt(s2, State(), p);
      }
    }

    /** Moves the children one by one, until one cannot be moved. */
    method MoveChildren(children: seq<Path>, refused: set<Path>, oldDir: Path, newDir: Path,
                        ghost files: map<Path, File>)
      returns (moved: seq<Path>, claimed: seq<Path>, failed: bool, ghost revived: map<Path, File>)
      requires forall i, j :: 0 <= i < j < |children| ==> children[i] != children[j]
      requires forall p :: p in children ==> Below(oldDir, p) && !Below(newDir, p) && Dirty(State(), p)
      requires files == Live(State()) && forall p :: p in files ==> !Below(newDir, p)
      modifies this
      ensures index.conflicts == old(index.conflicts)
      ensures forall i, j :: 0 <= i < j < |moved| ==> moved[i] != moved[j]
      ensures Elems(moved) <= Elems(children) && Behind(State(), files, Elems(moved), oldDir, newDir)
      ensures Live(State()) == Relocated(files, Elems(moved), oldDir, newDir) + revived
      ensures failed <==> exists p :: p in children && !Goes(files, index.conflicts, refused, oldDir, newDir, p)
      ensures !failed ==> revived == map[] && forall p :: p in children && p in files ==> p in Elems(moved)
      ensures forall q :: q in revived ==> RevivedBy(old(State()), children, refused, oldDir, newDir, q, revived[q])
      ensures Extra(revived, Elems(moved), oldDir, newDir)
      ensures index.syncing == old(index.syncing) + Elems(claimed)
      ensures Elems(claimed) !! old(index.syncing)
    {
      hide Live, Relocated, Target, Below, Dirty, Dying, SameAt, Movable, Goes, RevivedBy, Revived, Ahead;
      moved, claimed, failed, revived := [], [], false, map[];
      RelocateNone(files, oldDir, newDir);
      assert Elems(moved) == {} && Elems(claimed) == {};
      AheadStarts(State(), children, oldDir, newDir);
      for i := 0 to |children|
        invariant index.conflicts == old(index.conflicts) && !failed && revived == map[]
        invariant forall j, k :: 0 <= j < k < |moved| ==> moved[j] != moved[k]
        invariant Behind(State(), files, Elems(moved), oldDir, newDir)
        invariant Ahead(old(State()), State(), children, i, oldDir, newDir)
        invariant Elems(moved) <= Elems(children[..i]) <= Elems(children)
        invariant Live(State()) == Relocated(files, Elems(moved), oldDir, newDir)
        invariant forall j :: 0 <= j < i ==> Goes(files, index.conflicts, refused, oldDir, newDir, children[j])
        invariant forall j :: 0 <= j < i && children[j] in files ==> children[j] in Elems(moved)
        invariant index.syncing == old(index.syncing) + Elems(claimed)
        invariant Elems(claimed) !! old(index.syncing)
      {
        var c := children[i];
        TakeOne(children, i);
        AheadAt(old(State()), State(), children, i, oldDir, newDir);
        ghost var before := State();
        RevivedFits(old(State()), before, children, refused, oldDir, newDir, c);
        var outcome, claims;
        outcome, claims, revived := MoveChild(c, c in refused, oldDir, newDir, files, Elems(moved));
        GoesExactly(files, index.conflicts, refused, oldDir, newDir, c);
        AheadKeeps(old(State()), before, State(), children, i, oldDir, newDir);
        BehindKeeps(before, State(), files, Elems(moved), oldDir, newDir, c);
        if claims {
          AppendOne(claimed, Target(oldDir, newDir, c));
          claimed := claimed + [Target(oldDir, newDir, c)];
        }
        if outcome == Moved {
          AppendOne(moved, c);
          moved := moved + [c];
        } else if outcome != NoStagedBytes {
          failed := true;
          return;
        }
      }
      PlusNothing(Relocated(files, Elems(moved), oldDir, newDir));
    }

    method Release(claimed: seq<Path>)
      modifies this`index
      ensures Live(State()) == old(Live(State()))
      ensures index == old(index).(syncing := old(index.syncing) - Elems(claimed))
    {
      for i := 0 to |claimed|
        invariant index == old(index).(syncing := index.syncing)
        invariant forall p :: p in index.syncing <==> p in old(index.syncing) && p !in claimed[..i]
      {
        index := I.After(index, I.UnlockFile(claimed[i]));
      }
    }

    /** The staged files of a directory move, and then its objects; if either does not
        go through, the files are put back. */
    method MoveAll(oldDir: Path, newDir: Path, children: seq<Path>, bucket: Answer, refused: set<Path>,
                   ghost files: map<Path, File>)
      returns (done: bool, ghost stuck: set<Path>, ghost revived: map<Path, File>)
      requires forall i, j :: 0 <= i < j < |children| ==> children[i] != children[j]
      requires forall p :: p in children <==> Below(oldDir, p) && Dirty(State(), p)
      requires forall p :: Dirty(State(), p) ==> !Below(newDir, p)
      requires files == Live(State()) && forall p :: p in files ==> Dirty(State(), p)
      modifies this
      ensures index.syncing == old(index.syncing) && index.conflicts == old(index.conflicts)
      ensures done <==>
                && (forall p :: p in children ==> Goes(files, index.conflicts, refused, oldDir, newDir, p))
                && (bucket == Succeeds || (bucket == NotExist && AllBelow(files, oldDir) != {}))
      ensures done ==> Live(State()) == Relocated(files, AllBelow(files, oldDir), oldDir, newDir)
      ensures forall p :: p in stuck ==> p in files && Below(oldDir, p) && Target(oldDir, newDir, p) in refused
      ensures forall q :: q in revived ==> RevivedBy(old(State()), children, refused, oldDir, newDir, q, revived[q])
      ensures !done ==> Live(State()) == Relocated(files, stuck, oldDir, newDir) + revived
      ensures !done ==> (Live(State()) == files <==> stuck == {} && revived == map[])
    {
      hide Live, Relocated, Target, Dirty, Movable, Goes, RevivedBy;
      var moved, claimed, failed;
      moved, claimed, failed, revived := MoveChildren(children, refused, oldDir, newDir, files);
      stuck := {};
      assert !failed ==> Elems(moved) == AllBelow(files, oldDir);
      assert |moved| == 0 <==> Elems(moved) == {} by {
        if |moved| > 0 { assert moved[0] in Elems(moved); }
      }
      if failed || bucket == Fails || (bucket == NotExist && |moved| == 0) {
        stuck := Undo(moved, refused, oldDir, newDir, files, revived);
        Release(claimed);
        UnmovedExactly(files, stuck, revived, oldDir, newDir);
        return false, stuck, revived;
      }
      Release(claimed);
      PlusNothing(Relocated(files, Elems(moved), oldDir, newDir));
      return true, stuck, revived;
    }

    /** Rename of a directory with staged files below it. children is what
        DirtyPathsUnder lists strictly below it, in any order; stat and bucket are
        the bucket's answers; refused are the names that the file system will not
        move a staged file away from.

        A rename that succeeds leaves each live file under its new name, with the
        same bytes, and no other change. One that does not leaves each under its old
        name, except those whose move back is refused, and except that a file that
        was being deleted comes back if a move onto it is refused. */
    method RenameDirectory(oldDir: Path, newDir: Path, children: seq<Path>, stat: Answer, bucket: Answer,
                           refused: set<Path>)
      returns (result: DirResult, ghost stuck: set<Path>, ghost revived: map<Path, File>)
      requires forall i, j :: 0 <= i < j < |children| ==> children[i] != children[j]
      requires forall p :: p in children <==> Below(oldDir, p) && Dirty(State(), p)
      modifies this
      ensures index.syncing == old(index.syncing) && index.conflicts == old(index.conflicts)
      ensures result == Busy <==>
                exists rest: string ::
                  newDir + "/" + rest in old(index).dirty && newDir + "/" + rest !in old(disk).tombstones
      ensures result == NotDirectory <==> result != Busy && newDir in old(index).dirty
      ensures result == LeftToBucket <==> result != Busy && result != NotDirectory && stat == Succeeds
      ensures result == Completed ==>
                MovedDirectory(old(Live(State())), Live(State()), oldDir, newDir)
      ensures result == Completed <==>
                && result != Busy && newDir !in old(index).dirty && stat == NotExist
                && (forall rest: string :: oldDir + "/" + rest in children ==>
                      && oldDir + "/" + rest !in index.conflicts && newDir + "/" + rest !in index.conflicts
                      && (oldDir + "/" + rest in old(Live(State())) ==> oldDir + "/" + rest !in refused))
                && (bucket == Succeeds ||
                    (bucket == NotExist && exists rest: string :: oldDir + "/" + rest in old(Live(State()))))
      ensures var files := old(Live(State()));
              && (result == Completed ==>
                    Live(State()) == Relocated(files, AllBelow(files, oldDir), oldDir, newDir))
              && (forall p :: p in stuck ==> p in AllBelow(files, oldDir) && Target(oldDir, newDir, p) in refused)
              && (forall q :: q in revived ==>
                    RevivedBy(old(State()), children, refused, oldDir, newDir, q, revived[q]))
              && (result != Completed ==> Live(State()) == Relocated(files, stuck, oldDir, newDir) + revived)
              && (result != Completed ==> (Live(State()) == files <==> stuck == {} && revived == map[]))
    {
      ghost var files := Live(State());
      stuck, revived := {}, map[];
      BusySpelled(State(), newDir);
      GoesSpelled(files, index.conflicts, refused, children, oldDir, newDir);
      AnySpelled(files, oldDir);
      RelocateNone(files, oldDir, newDir);
      PlusNothing(files);
      if exists p :: p in index.dirty && Below(newDir, p) && p !in disk.tombstones {
        return Busy, stuck, revived;
      }
      assert forall p :: Dirty(State(), p) ==> !Below(newDir, p);
      if newDir in index.dirty {
        return NotDirectory, stuck, revived;
      }
      if stat != NotExist {
        return if stat == Succeeds then LeftToBucket else Failed, stuck, revived;
      }
      assert forall p :: p in files ==> Dirty(State(), p);
      hide Live, Relocated, Target, Below, Movable, Goes, RevivedBy;
      var moved;
      moved, stuck, revived := MoveAll(oldDir, newDir, children, bucket, refused, files);
      if !moved {
        return Failed, stuck, revived;
      }
      RelocatedMoves(files, oldDir, newDir);
      return Completed, stuck, revived;
    }
  }
}
