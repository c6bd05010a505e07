/** What a restart makes of the staging directory (RecoverFromDisk in
    internal/staging/manager.go).

    Staging files and sidecars are named after a hash of the path. The hash is
    taken to be injective, so both are filed here under the path itself: every
    sidecar the gateway writes names the path its own name was made from. */
module Recovery {
  import opened Common

  datatype Sidecar = Sidecar(conflicted: bool, committed: bool)

  /** The staging directory. Contents is what a data file holds, or the file's
      identity where that matters. */
  datatype Disk<T> = Disk(data: map<Path, T>, sidecars: map<Path, Sidecar>, tombstones: set<Path>)

  predicate CommittedAt(sidecars: map<Path, Sidecar>, p: Path) {
    p in sidecars && sidecars[p].committed
  }

  /** writePathMetadataState: a sidecar that takes the place of a committed one is
      committed. */
  function WriteSidecar(sidecars: map<Path, Sidecar>, p: Path, sidecar: Sidecar): map<Path, Sidecar> {
    sidecars[p := sidecar.(committed := sidecar.committed || CommittedAt(sidecars, p))]
  }

  /** A staging file that a restart takes up: it has its sidecar, no conflict was
      recorded for it, and no accepted delete supersedes it. */
  predicate Taken<T>(disk: Disk<T>, p: Path) {
    p in disk.data && p in disk.sidecars && !disk.sidecars[p].conflicted && p !in disk.tombstones
  }

  /** The files listed as dirty after a restart, with what is staged for them. */
  function Recovered<T>(disk: Disk<T>): map<Path, T> {
    map p | p in disk.data && Taken(disk, p) :: disk.data[p]
  }

  /** A staging file that an accepted delete supersedes. */
  predicate Superseded<T>(disk: Disk<T>, p: Path) {
    p in disk.data && p in disk.sidecars && !disk.sidecars[p].conflicted && p in disk.tombstones
  }

  /** The staging directory after a restart: superseded files are gone, and with
      them every sidecar that has no data file. */
  function Swept<T>(disk: Disk<T>): Disk<T> {
    Disk(map p | p in disk.data && !Superseded(disk, p) :: disk.data[p],
         map p | p in disk.sidecars && p in disk.data && !Superseded(disk, p) :: disk.sidecars[p],
         disk.tombstones)
  }

  /** First pass of RecoverFromDisk: list what is staged, drop what an accepted
      delete supersedes. */
  method TakeUp<T>(disk: Disk<T>, listing: seq<Path>) returns (after: Disk<T>, dirty: map<Path, T>)
    requires forall p :: p in disk.data ==> p in listing
    ensures dirty == Recovered(disk)
    ensures after.tombstones == disk.tombstones
    ensures after.data == Swept(disk).data
    ensures forall p :: p in after.sidecars <==> p in disk.sidecars && !Superseded(disk, p)
    ensures forall p :: p in after.sidecars ==> after.sidecars[p] == disk.sidecars[p]
  {
    var data, sidecars := disk.data, disk.sidecars;
    dirty := map[];
    ghost var seen: set<Path> := {};
    for i := 0 to |listing|
      invariant forall j :: 0 <= j < i ==> listing[j] in seen
      invariant forall p :: p in dirty <==> p in seen && Taken(disk, p)
      invariant forall p :: p in dirty ==> dirty[p] == disk.data[p]
      invariant forall p :: p in data <==> p in disk.data && !(p in seen && Superseded(disk, p))
      invariant forall p :: p in data ==> data[p] == disk.data[p]
      invariant forall p :: p in sidecars <==> p in disk.sidecars && !(p in seen && Superseded(disk, p))
      invariant forall p :: p in sidecars ==> sidecars[p] == disk.sidecars[p]
    {
      var p := listing[i];
      if p in data && p in sidecars && !sidecars[p].conflicted {
        if p in disk.tombstones {
          data := data - {p};
          sidecars := sidecars - {p};
        } else {
          dirty := dirty[p := data[p]];
        }
      }
      seen := seen + {p};
    }
    after := Disk(data, sidecars, disk.tombstones);
    assert data == Swept(disk).data;
    assert dirty == Recovered(disk);
  }

  /** Second pass: drop the sidecars whose staging file is gone. */
  method DropStaleSidecars<T>(disk: Disk<T>, listing: seq<Path>) returns (after: Disk<T>)
    requires forall p :: p in disk.sidecars ==> p in listing
    ensures after.data == disk.data && after.tombstones == disk.tombstones
    ensures forall p :: p in after.sidecars <==> p in disk.sidecars && p in disk.data
    ensures forall p :: p in after.sidecars ==> after.sidecars[p] == disk.sidecars[p]
  {
    var sidecars := disk.sidecars;
    ghost var seen: set<Path> := {};
    for i := 0 to |listing|
      invariant forall j :: 0 <= j < i ==> listing[j] in seen
      invariant forall p :: p in sidecars <==> p in disk.sidecars && (p in seen ==> p in disk.data)
      invariant forall p :: p in sidecars ==> sidecars[p] == disk.sidecars[p]
    {
      var p := listing[i];
      if p in sidecars && p !in disk.data {
        sidecars := sidecars - {p};
      }
      seen := seen + {p};
    }
    after := disk.(sidecars := sidecars);
  }

  /** A restart lists exactly the staging files that have a sidecar, no conflict
      and no accepted delete, with their bytes; it leaves no sidecar without a
      data file; and a second restart finds the same files again. */
  method RecoverFromDisk<T>(disk: Disk<T>, listing: seq<Path>) returns (after: Disk<T>, dirty: map<Path, T>)
    requires forall p :: p in disk.data || p in disk.sidecars ==> p in listing
    ensures dirty == Recovered(disk)
    ensures after == Swept(disk)
    ensures Recovered(after) == dirty
    ensures forall p :: p in dirty <==>
              p in disk.data && p in disk.sidecars && !disk.sidecars[p].conflicted && p !in disk.tombstones
    ensures forall p :: p in dirty ==> dirty[p] == disk.data[p]
    ensures forall p :: p in after.data <==>
              p in disk.data && (p in disk.sidecars && !disk.sidecars[p].conflicted ==> p !in disk.tombstones)
    ensures forall p :: p in after.sidecars <==> p in disk.sidecars && p in after.data
    ensures forall p :: p in after.data ==> after.data[p] == disk.data[p]
    ensures forall p :: p in after.sidecars ==> after.sidecars[p] == disk.sidecars[p]
    ensures after.tombstones == disk.tombstones
  {
    after, dirty := TakeUp(disk, listing);
    after := DropStaleSidecars(after, listing);
    assert after.sidecars == Swept(disk).sidecars;
    assert Recovered(after) == dirty;
  }
}
