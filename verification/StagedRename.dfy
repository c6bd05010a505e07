/** Renaming a file that has staged bytes (internal/staging/rename.go): the
    order in which the staging directory changes, and what a crash between any
    two of the changes leaves behind. Data files are known by their identity. */
module StagedRename {
  import opened Common
  import opened Recovery
  import I = IndexState

  type File = nat

  /** The changes of the staging directory, in the order they are made. The
      temporary files of the atomic writes are never read by a restart. */
  datatype Change = CancelDelete | WriteIntent | MoveBytes | WriteTombstone | DropSidecar

  const Changes: seq<Change> := [CancelDelete, WriteIntent, MoveBytes, WriteTombstone, DropSidecar]

  function Changed(disk: Disk<File>, change: Change, oldPath: Path, newPath: Path): Disk<File> {
    match change
    case CancelDelete => disk.(tombstones := disk.tombstones - {newPath})
    case WriteIntent =>
      disk.(sidecars := WriteSidecar(disk.sidecars, newPath, Sidecar(false, CommittedAt(disk.sidecars, oldPath))))
    case MoveBytes =>
      if oldPath !in disk.data then disk
      else disk.(data := (disk.data - {oldPath})[newPath := disk.data[oldPath]])
    case WriteTombstone => disk.(tombstones := disk.tombstones + {oldPath})
    case DropSidecar => disk.(sidecars := disk.sidecars - {oldPath})
  }

  /** The staging directory after the first k changes. */
  function Partway(disk: Disk<File>, oldPath: Path, newPath: Path, k: nat): Disk<File>
    requires k <= |Changes|
  {
    if k == 0 then disk else Changed(Partway(disk, oldPath, newPath, k - 1), Changes[k - 1], oldPath, newPath)
  }

  function Done(disk: Disk<File>, oldPath: Path, newPath: Path): Disk<File> {
    Partway(disk, oldPath, newPath, |Changes|)
  }

  /** No two names lead to one data file. */
  ghost predicate OneName(disk: Disk<File>) {
    forall p, q :: p in disk.data && q in disk.data && p != q ==> disk.data[p] != disk.data[q]
  }

  /** A restart lists file under name. */
  predicate ListedAs(disk: Disk<File>, name: Path, file: File) {
    Taken(disk, name) && disk.data[name] == file
  }

  /** A restart lists file under exactly one of two names. */
  predicate ListedOnce(disk: Disk<File>, p: Path, q: Path, file: File) {
    ListedAs(disk, p, file) != ListedAs(disk, q, file)
  }

  // ---- A crash between any two changes ----

  lemma FivePoints(disk: Disk<File>, oldPath: Path, newPath: Path, k: nat)
    requires k <= |Changes|
    ensures Partway(disk, oldPath, newPath, k) ==
        var d1 := Changed(disk, CancelDelete, oldPath, newPath);
        var d2 := Changed(d1, WriteIntent, oldPath, newPath);
        var d3 := Changed(d2, MoveBytes, oldPath, newPath);
        var d4 := Changed(d3, WriteTombstone, oldPath, newPath);
        var d5 := Changed(d4, DropSidecar, oldPath, newPath);
        [disk, d1, d2, d3, d4, d5][k]
  {
    var d1 := Changed(disk, CancelDelete, oldPath, newPath);
    var d2 := Changed(d1, WriteIntent, oldPath, newPath);
    var d3 := Changed(d2, MoveBytes, oldPath, newPath);
    var d4 := Changed(d3, WriteTombstone, oldPath, newPath);
    assert Partway(disk, oldPath, newPath, 0) == disk;
    assert Partway(disk, oldPath, newPath, 1) == d1;
    assert Partway(disk, oldPath, newPath, 2) == d2;
    assert Partway(disk, oldPath, newPath, 3) == d3;
    assert Partway(disk, oldPath, newPath, 4) == d4;
  }

  /** What the directory holds after the first k changes: first the destination's
      pending delete is gone, then its sidecar is written, then the bytes move, then
      the source has a tombstone, and last its sidecar goes. */
  lemma WhatEachPointHolds(disk: Disk<File>, oldPath: Path, newPath: Path, k: nat)
    requires oldPath in disk.data && oldPath != newPath && k <= 5
    ensures |Changes| == 5
    ensures var d := Partway(disk, oldPath, newPath, k);
            && (newPath in d.tombstones <==> newPath in disk.tombstones && k < 1)
            && (newPath in d.sidecars <==> newPath in disk.sidecars || k >= 2)
            && (k >= 2 ==> !d.sidecars[newPath].conflicted)
            && (k >= 2 ==>
                  (d.sidecars[newPath].committed <==>
                     || (oldPath in disk.sidecars && disk.sidecars[oldPath].committed)
                     || (newPath in disk.sidecars && disk.sidecars[newPath].committed)))
            && (k < 2 && newPath in disk.sidecars ==> d.sidecars[newPath] == disk.sidecars[newPath])
            && (newPath in d.data <==> newPath in disk.data || k >= 3)
            && (newPath in d.data ==> d.data[newPath] == disk.data[if k >= 3 then oldPath else newPath])
            && (oldPath in d.data <==> k < 3) && (k < 3 ==> d.data[oldPath] == disk.data[oldPath])
            && (oldPath in d.tombstones <==> oldPath in disk.tombstones || k >= 4)
            && (oldPath in d.sidecars <==> oldPath in disk.sidecars && k < 5)
            && (oldPath in d.sidecars ==> d.sidecars[oldPath] == disk.sidecars[oldPath])
            && forall p :: p != oldPath && p != newPath ==>
                 && (p in d.data <==> p in disk.data) && (p in d.data ==> d.data[p] == disk.data[p])
                 && (p in d.sidecars <==> p in disk.sidecars) && (p in d.sidecars ==> d.sidecars[p] == disk.sidecars[p])
                 && (p in d.tombstones <==> p in disk.tombstones)
  {
    FivePoints(disk, oldPath, newPath, k);
  }

  /** Wherever a rename to another name is cut short, a restart lists the moved
      file under exactly one of its two names: no delete that it loads first
      drops the bytes, and they are never listed twice. */
  lemma CrashListsSourceOnce(disk: Disk<File>, oldPath: Path, newPath: Path, k: nat)
    requires OneName(disk) && Taken(disk, oldPath) && oldPath != newPath && k <= |Changes|
    ensures ListedOnce(Partway(disk, oldPath, newPath, k), oldPath, newPath, disk.data[oldPath])
    ensures ListedAs(Partway(disk, oldPath, newPath, k), if k < 3 then oldPath else newPath, disk.data[oldPath])
    ensures OneName(Partway(disk, oldPath, newPath, k))
  {
    FivePoints(disk, oldPath, newPath, k);
  }

  /** Files that are neither its source nor its destination are not touched. */
  lemma CrashKeepsOthers(disk: Disk<File>, oldPath: Path, newPath: Path, k: nat, p: Path)
    requires k <= |Changes| && p != oldPath && p != newPath
    ensures Taken(Partway(disk, oldPath, newPath, k), p) == Taken(disk, p)
    ensures Taken(disk, p) ==> Partway(disk, oldPath, newPath, k).data[p] == disk.data[p]
  {
    FivePoints(disk, oldPath, newPath, k);
  }

  /** A finished rename: the destination name lists the source's file, committed if
      the source was or the file it replaces was, and the source name lists
      nothing and keeps a tombstone. */
  lemma DoneListsDestination(disk: Disk<File>, oldPath: Path, newPath: Path)
    requires oldPath in disk.data && oldPath != newPath
    ensures ListedAs(Done(disk, oldPath, newPath), newPath, disk.data[oldPath])
    ensures CommittedAt(Done(disk, oldPath, newPath).sidecars, newPath) <==>
              CommittedAt(disk.sidecars, oldPath) || CommittedAt(disk.sidecars, newPath)
    ensures oldPath !in Done(disk, oldPath, newPath).data
    ensures oldPath !in Done(disk, oldPath, newPath).sidecars
    ensures oldPath in Done(disk, oldPath, newPath).tombstones
  {
    FivePoints(disk, oldPath, newPath, |Changes|);
  }

  /** Renaming a staged file to its own name. Nothing in the rename looks for
      it: the tombstone and the sidecar's removal then fall on the destination. */
  lemma RenameToItselfLosesFile(disk: Disk<File>, path: Path)
    requires Taken(disk, path)
    ensures path !in Recovered(Done(disk, path, path))
    ensures !Taken(Partway(disk, path, path, 4), path)
  {
    FivePoints(disk, path, path, 4);
    FivePoints(disk, path, path, |Changes|);
  }

  /** A staged file survives its rename, wherever it is cut short, exactly when
      the two names differ. */
  lemma SurvivesExactly(disk: Disk<File>, oldPath: Path, newPath: Path)
    requires OneName(disk) && Taken(disk, oldPath)
    ensures (forall k: nat :: k <= |Changes| ==>
               ListedAs(Partway(disk, oldPath, newPath, k), oldPath, disk.data[oldPath]) ||
               ListedAs(Partway(disk, oldPath, newPath, k), newPath, disk.data[oldPath]))
            <==> oldPath != newPath
  {
    if oldPath == newPath {
      RenameToItselfLosesFile(disk, oldPath);
    } else {
      forall k: nat | k <= |Changes|
        ensures ListedAs(Partway(disk, oldPath, newPath, k), oldPath, disk.data[oldPath]) ||
                ListedAs(Partway(disk, oldPath, newPath, k), newPath, disk.data[oldPath])
      {
        CrashListsSourceOnce(disk, oldPath, newPath, k);
      }
    }
  }

  // ---- A crash part-way through many renames ----

  datatype Move = Move(from: Path, onto: Path)

  /** The directory after all of moves. */
  function DoneAll(disk: Disk<File>, moves: seq<Move>): Disk<File>
    decreases moves
  {
    if moves == [] then disk else DoneAll(Done(disk, moves[0].from, moves[0].onto), moves[1..])
  }

  /** No destination is another one, or a source. */
  ghost predicate Apart(moves: seq<Move>) {
    && (forall i, j :: 0 <= i < j < |moves| ==> moves[i].onto != moves[j].onto)
    && (forall i, j :: 0 <= i < |moves| && 0 <= j < |moves| ==> moves[i].onto != moves[j].from)
    && (forall i, j :: 0 <= i < j < |moves| ==> moves[i].from != moves[j].from)
  }

  ghost predicate Lists(disk: Disk<File>, file: File) {
    exists p :: ListedAs(disk, p, file)
  }

  /** The first move of a sequence keeps apart from the others. */
  lemma FirstIsApart(moves: seq<Move>, n: Move)
    requires moves != [] && Apart(moves)
    ensures Apart(moves[1..])
    ensures n in moves[1..] ==> n in moves && n.from != moves[0].from
    ensures n in moves[1..] ==> n.from != moves[0].onto && n.onto != moves[0].onto
    ensures moves[0].from != moves[0].onto
  {
    assert forall i :: 0 <= i < |moves[1..]| ==> moves[1..][i] == moves[i + 1];
  }

  /** Cutting a sequence of renames short, between two of them or inside one,
      loses no file that was not itself named as a destination. */
  lemma {:induction false} CrashKeepsAll(disk: Disk<File>, moves: seq<Move>, last: Move, k: nat, p: Path)
    requires OneName(disk) && k <= |Changes| && Apart(moves + [last])
    requires forall m :: m in moves + [last] ==> Taken(disk, m.from)
    requires Taken(disk, p) && forall m :: m in moves + [last] ==> m.onto != p
    ensures Lists(Partway(DoneAll(disk, moves), last.from, last.onto, k), disk.data[p])
    decreases moves
  {
    assert p in disk.data;
    hide Partway, OneName, Taken, ListedOnce;
    var all := moves + [last];
    if moves == [] {
      assert last in all && all[0] == last;
      FirstIsApart(all, last);
      if p == last.from {
        CrashListsSourceOnce(disk, p, last.onto, k);
      } else {
        CrashKeepsOthers(disk, last.from, last.onto, k, p);
        assert ListedAs(Partway(disk, last.from, last.onto, k), p, disk.data[p]);
      }
    } else {
      var m, rest := moves[0], moves[1..] + [last];
      assert m == all[0] && m in all && all[1..] == rest;
      FirstIsApart(all, m);
      hide Apart;
      var next := Done(disk, m.from, m.onto);
      CrashListsSourceOnce(disk, m.from, m.onto, |Changes|);
      forall n | n in rest ensures n in all && n.onto != m.onto && Taken(next, n.from) {
        FirstIsApart(all, n);
        CrashKeepsOthers(disk, m.from, m.onto, |Changes|, n.from);
      }
      var q := if p == m.from then m.onto else p;
      if p != m.from {
        CrashKeepsOthers(disk, m.from, m.onto, |Changes|, p);
      }
      CrashKeepsAll(next, moves[1..], last, k, q);
    }
  }
}
