/** Open files and what each open permits others (internal/lock/share.go). */
module ShareTableObject {
  import opened Common

  const DefaultMaxOpensPerFile: nat := 1024

  /** A set of ways to use a file, one bit each: reading, writing, deleting. */
  type Access = bv8

  /** Two opens that do not permit each other. */
  predicate Conflicts(access: Access, share: Access, otherAccess: Access, otherShare: Access) {
    access & !otherShare != 0 || otherAccess & !share != 0
  }

  /** The order of the two opens does not matter. */
  lemma ConflictsBothWays(a: Access, s: Access, b: Access, t: Access)
    ensures Conflicts(a, s, b, t) == Conflicts(b, t, a, s)
  {
  }

  /** One way to use a file. */
  predicate OneWay(way: Access) {
    way in {1, 2, 4, 8, 16, 32, 64, 128}
  }

  /** One of two opens uses the file in a way that the other does not permit. */
  predicate ClashesIn(way: Access, access: Access, share: Access, otherAccess: Access, otherShare: Access) {
    || (access & way != 0 && otherShare & way == 0)
    || (otherAccess & way != 0 && share & way == 0)
  }

  lemma SomeWay(x: Access) returns (way: Access)
    requires x != 0
    ensures OneWay(way) && x & way != 0
  {
    way := if x & 1 != 0 then 1 else if x & 2 != 0 then 2 else if x & 4 != 0 then 4 else if x & 8 != 0 then 8
           else if x & 16 != 0 then 16 else if x & 32 != 0 then 32 else if x & 64 != 0 then 64 else 128;
  }

  lemma NotPermitted(access: Access, share: Access, way: Access)
    requires OneWay(way)
    ensures (access & !share) & way != 0 <==> access & way != 0 && share & way == 0
  {
  }

  /** Two opens clash exactly when there is a way in which one uses the file and
      the other does not permit it. */
  lemma ConflictsExactly(access: Access, share: Access, otherAccess: Access, otherShare: Access)
    ensures Conflicts(access, share, otherAccess, otherShare) <==>
            exists way :: OneWay(way) && ClashesIn(way, access, share, otherAccess, otherShare)
  {
    if Conflicts(access, share, otherAccess, otherShare) {
      if access & !otherShare != 0 {
        var way := SomeWay(access & !otherShare);
        NotPermitted(access, otherShare, way);
        assert ClashesIn(way, access, share, otherAccess, otherShare);
      } else {
        var way := SomeWay(otherAccess & !share);
        NotPermitted(otherAccess, share, way);
        assert ClashesIn(way, access, share, otherAccess, otherShare);
      }
    }
    if way :| OneWay(way) && ClashesIn(way, access, share, otherAccess, otherShare) {
      NotPermitted(access, otherShare, way);
      NotPermitted(otherAccess, share, way);
    }
  }

  class ShareHandle {
    var path: Path
    const access: Access
    const share: Access
    var released: bool

    constructor (path: Path, access: Access, share: Access)
      ensures this.path == path && this.access == access && this.share == share && !released
    {
      this.path, this.access, this.share, released := path, access, share, false;
    }
  }

  predicate Clash(a: ShareHandle, b: ShareHandle) {
    Conflicts(a.access, a.share, b.access, b.share)
  }

  /** There is a way in which the new open and one in the list do not permit each
      other. */
  ghost predicate ClashesWithOne(access: Access, share: Access, opens: seq<ShareHandle>) {
    exists i, way :: 0 <= i < |opens| && OneWay(way) && ClashesIn(way, access, share, opens[i].access, opens[i].share)
  }

  lemma ClashFound(access: Access, share: Access, opens: seq<ShareHandle>, i: nat)
    requires i < |opens| && Conflicts(access, share, opens[i].access, opens[i].share)
    ensures ClashesWithOne(access, share, opens)
  {
    ConflictsExactly(access, share, opens[i].access, opens[i].share);
  }

  lemma NoClashFound(access: Access, share: Access, opens: seq<ShareHandle>)
    requires forall i :: 0 <= i < |opens| ==> !Conflicts(access, share, opens[i].access, opens[i].share)
    ensures !ClashesWithOne(access, share, opens)
  {
    forall i | 0 <= i < |opens|
      ensures !exists way :: OneWay(way) && ClashesIn(way, access, share, opens[i].access, opens[i].share)
    {
      ConflictsExactly(access, share, opens[i].access, opens[i].share);
    }
    hide OneWay, ClashesIn, Conflicts;
  }

  /** All opens in one list permit each other. */
  ghost predicate Peaceful(opens: seq<ShareHandle>) {
    forall i, j :: 0 <= i < |opens| && 0 <= j < |opens| && i != j ==> !Clash(opens[i], opens[j])
  }

  /** No open in one list clashes with one in the other. */
  ghost predicate MutuallyPeaceful(a: seq<ShareHandle>, b: seq<ShareHandle>) {
    forall i, j :: 0 <= i < |a| && 0 <= j < |b| ==> !Clash(a[i], b[j])
  }

  lemma NothingClashes(a: seq<ShareHandle>)
    ensures MutuallyPeaceful(a, [])
  {
  }

  lemma PeacefulJoined(a: seq<ShareHandle>, b: seq<ShareHandle>)
    ensures Peaceful(a + b) <==> Peaceful(a) && Peaceful(b) && MutuallyPeaceful(a, b)
  {
    var both := a + b;
    if Peaceful(both) {
      assert forall i :: 0 <= i < |a| ==> both[i] == a[i];
      assert forall j :: 0 <= j < |b| ==> b[j] == both[|a| + j];
    }
    if Peaceful(a) && Peaceful(b) && MutuallyPeaceful(a, b) {
      forall i, j | 0 <= i < |both| && 0 <= j < |both| && i != j ensures !Clash(both[i], both[j]) {
        ConflictsBothWays(both[i].access, both[i].share, both[j].access, both[j].share);
        if i < |a| <= j { assert !Clash(a[i], b[j - |a|]); }
        if j < |a| <= i { assert !Clash(a[j], b[i - |a|]); }
      }
    }
  }

  lemma PeacefulWithOneMore(opens: seq<ShareHandle>, h: ShareHandle)
    requires forall i :: 0 <= i < |opens| ==> !Conflicts(h.access, h.share, opens[i].access, opens[i].share)
    ensures Peaceful(opens + [h]) <==> Peaceful(opens)
  {
    forall i | 0 <= i < |opens| ensures !Clash(opens[i], h) {
      ConflictsBothWays(h.access, h.share, opens[i].access, opens[i].share);
    }
    PeacefulJoined(opens, [h]);
  }

  ghost predicate Distinct(opens: seq<ShareHandle>) {
    forall i, j :: 0 <= i < j < |opens| ==> opens[i] != opens[j]
  }

  lemma DistinctJoined(a: seq<ShareHandle>, b: seq<ShareHandle>)
    requires (a != [] ==> Distinct(a)) && Distinct(b)
    requires forall i, j :: 0 <= i < |a| && 0 <= j < |b| ==> a[i] != b[j]
    ensures Distinct(a + b)
  {
  }

  /** rest is opens without the one occurrence of h. */
  ghost predicate TakenOut(opens: seq<ShareHandle>, h: ShareHandle, rest: seq<ShareHandle>) {
    exists i :: 0 <= i < |opens| && opens[i] == h && rest == opens[..i] + opens[i + 1..]
  }

  type Lists = map<Path, seq<ShareHandle>>

  ghost predicate ListsOk(files: Lists) {
    forall p :: p in files ==> files[p] != [] && Distinct(files[p])
  }

  function ListOf(files: Lists, p: Path): seq<ShareHandle> {
    if p in files then files[p] else []
  }

  function Joined(files: Lists, oldPath: Path, newPath: Path): Lists {
    (files - {oldPath})[newPath := ListOf(files, newPath) + ListOf(files, oldPath)]
  }

  /** Two paths whose opens could all be of one. */
  ghost predicate PeacefulTogether(files: Lists, p: Path, q: Path) {
    && Peaceful(ListOf(files, p)) && Peaceful(ListOf(files, q))
    && MutuallyPeaceful(ListOf(files, q), ListOf(files, p))
  }

  lemma JoinedFacts(files: Lists, oldPath: Path, newPath: Path)
    requires ListsOk(files) && oldPath in files && oldPath != newPath
    requires forall i, j :: 0 <= i < |ListOf(files, newPath)| && 0 <= j < |files[oldPath]| ==>
               ListOf(files, newPath)[i] != files[oldPath][j]
    ensures ListsOk(Joined(files, oldPath, newPath))
    ensures PeacefulTogether(files, oldPath, newPath) <==> Peaceful(ListOf(Joined(files, oldPath, newPath), newPath))
    ensures ListOf(Joined(files, oldPath, newPath), newPath) == ListOf(files, newPath) + ListOf(files, oldPath)
    ensures forall p :: p != newPath ==>
              ListOf(Joined(files, oldPath, newPath), p) == if p == oldPath then [] else ListOf(files, p)
  {
    PeacefulJoined(ListOf(files, newPath), files[oldPath]);
    DistinctJoined(ListOf(files, newPath), files[oldPath]);
    assert Joined(files, oldPath, newPath)[newPath] == ListOf(files, newPath) + files[oldPath];
  }

  /** The lists and the paths in the handles say the same. */
  ghost predicate Filed(files: Lists, paths: map<ShareHandle, Path>) {
    && (forall p, h :: p in files && h in files[p] ==> h in paths && paths[h] == p)
    && (forall h :: h in paths ==> paths[h] in files && h in files[paths[h]])
  }

  lemma JoinedFiled(files: Lists, paths: map<ShareHandle, Path>, oldPath: Path, newPath: Path,
                    after: map<ShareHandle, Path>)
    requires Filed(files, paths) && oldPath in files && oldPath != newPath && after.Keys == paths.Keys
    requires forall h :: h in paths ==> after[h] == if h in files[oldPath] then newPath else paths[h]
    ensures Filed(Joined(files, oldPath, newPath), after)
  {
  }

  lemma KeptApart(files: Lists, paths: map<ShareHandle, Path>, oldPath: Path, newPath: Path)
    requires Filed(files, paths) && oldPath in files && oldPath != newPath
    ensures forall h :: h in files[oldPath] ==> h in paths
    ensures forall i, j :: 0 <= i < |ListOf(files, newPath)| && 0 <= j < |files[oldPath]| ==>
              ListOf(files, newPath)[i] != files[oldPath][j]
  {
    forall i, j | 0 <= i < |ListOf(files, newPath)| && 0 <= j < |files[oldPath]|
      ensures ListOf(files, newPath)[i] != files[oldPath][j]
    {
      assert files[newPath][i] in files[newPath] && files[oldPath][j] in files[oldPath];
      assert paths[files[newPath][i]] == newPath && paths[files[oldPath][j]] == oldPath;
    }
  }

  lemma AddedFiled(files: Lists, paths: map<ShareHandle, Path>, p: Path, h: ShareHandle)
    requires ListsOk(files) && Filed(files, paths) && h !in paths
    ensures ListsOk(files[p := ListOf(files, p) + [h]]) && Filed(files[p := ListOf(files, p) + [h]], paths[h := p])
  {
    DistinctJoined(ListOf(files, p), [h]);
  }

  /** The lists with element i of path p taken out. */
  function Without(files: Lists, p: Path, i: nat): Lists
    requires i < |ListOf(files, p)|
  {
    var rest := ListOf(files, p)[..i] + ListOf(files, p)[i + 1..];
    if rest == [] then files - {p} else files[p := rest]
  }

  lemma WithoutMembers(opens: seq<ShareHandle>, i: nat, rest: seq<ShareHandle>)
    requires i < |opens| && rest == opens[..i] + opens[i + 1..] && Distinct(opens)
    ensures Distinct(rest) && (Peaceful(opens) ==> Peaceful(rest))
    ensures forall h :: h in rest <==> h in opens && h != opens[i]
  {
    assert forall j :: 0 <= j < |rest| ==> rest[j] == opens[if j < i then j else j + 1];
    forall h ensures h in rest <==> h in opens && h != opens[i] {
      if h in opens && h != opens[i] {
        var j :| 0 <= j < |opens| && opens[j] == h;
        assert rest[if j < i then j else j - 1] == h;
      }
    }
  }

  lemma WithoutFacts(files: Lists, paths: map<ShareHandle, Path>, p: Path, i: nat)
    requires ListsOk(files) && Filed(files, paths) && i < |ListOf(files, p)|
    ensures ListsOk(Without(files, p, i))
    ensures Peaceful(ListOf(files, p)) ==> Peaceful(ListOf(Without(files, p, i), p))
    ensures Filed(Without(files, p, i), paths - {ListOf(files, p)[i]})
  {
    var opens := ListOf(files, p);
    var rest := opens[..i] + opens[i + 1..];
    assert p in files && opens == files[p];
    WithoutMembers(opens, i, rest);
    assert opens[i] in opens && paths[opens[i]] == p;
    hide Distinct, Peaceful;
    var after, left := Without(files, p, i), paths - {opens[i]};
    forall h | h in left ensures left[h] in after && h in after[left[h]] {
      if left[h] == p { assert h in rest; }
    }
  }

  datatype Refusal = LimitReached | SharingViolation

  class ShareTable {
    const maxOpensPerFile: nat
    var files: map<Path, seq<ShareHandle>>
    ghost var held: set<ShareHandle>

    constructor (maxOpens: int)
      ensures Linked() && held == {} && files == map[]
      ensures maxOpensPerFile == if maxOpens <= 0 then 1024 else maxOpens
    {
      maxOpensPerFile := if maxOpens <= 0 then DefaultMaxOpensPerFile else maxOpens;
      files, held := map[], {};
    }

    function Opens(p: Path): seq<ShareHandle>
      reads this
    {
      ListOf(files, p)
    }

    /** The path that each held handle carries. */
    ghost function Paths(): map<ShareHandle, Path>
      reads this, held
    {
      map h | h in held :: h.path
    }

    /** The lists hold exactly the opens that are held, each once, under the path
        its handle carries, and no empty list is stored. */
    ghost predicate Linked()
      reads this, held
    {
      && ListsOk(files)
      && Filed(files, Paths())
      && (forall h :: h in held ==> !h.released)
    }

    /** All opens of the path permit each other. */
    ghost predicate Permitted(p: Path)
      reads this
    {
      Peaceful(Opens(p))
    }

    /** Records an open, unless the file has as many as are tracked or one of
        them and the new one do not permit each other. */
    method Acquire(path: Path, access: Access, share: Access) returns (handle: ShareHandle?, refusal: Option<Refusal>)
      requires Linked()
      modifies this
      ensures Linked() && forall p :: Permitted(p) <==> old(Permitted(p))
      ensures handle == null <==> refusal.Some?
      ensures handle == null ==> files == old(files) && held == old(held)
      ensures handle != null ==> fresh(handle) && handle.access == access && handle.share == share
      ensures handle != null ==>
                held == old(held) + {handle} && files == old(files)[path := old(Opens(path)) + [handle]]
      ensures refusal == Some(LimitReached) <==> |old(Opens(path))| >= maxOpensPerFile
      ensures refusal == Some(SharingViolation) <==>
                |old(Opens(path))| < maxOpensPerFile &&
                ClashesWithOne(access, share, old(Opens(path)))
    {
      hide ClashesWithOne, Conflicts, Peaceful, ListsOk, Filed;
      var opens := Opens(path);
      if |opens| >= maxOpensPerFile {
        return null, Some(LimitReached);
      }
      for i := 0 to |opens|
        invariant forall j :: 0 <= j < i ==> !Conflicts(access, share, opens[j].access, opens[j].share)
      {
        if Conflicts(access, share, opens[i].access, opens[i].share) {
          ClashFound(access, share, opens, i);
          return null, Some(SharingViolation);
        }
      }
      NoClashFound(access, share, opens);
      var h := new ShareHandle(path, access, share);
      PeacefulWithOneMore(opens, h);
      AddedFiled(files, Paths(), path, h);
      ghost var paths := Paths();
      files := files[path := opens + [h]];
      held := held + {h};
      assert Paths() == paths[h := path];
      return h, None;
    }

    /** Takes one open off its path's list; a second time it does nothing. */
    method Release(h: ShareHandle)
      requires Linked() && (h in held || h.released)
      modifies this, h`released
      ensures Linked() && h.released && h !in held && forall p :: old(Permitted(p)) ==> Permitted(p)
      ensures old(h.released) ==> files == old(files) && held == old(held)
      ensures !old(h.released) ==> held == old(held) - {h} && TakenOut(old(Opens(h.path)), h, Opens(h.path))
      ensures forall p :: p != h.path ==> Opens(p) == old(Opens(p))
    {
      if h.released {
        return;
      }
      var opens := Opens(h.path);
      ghost var paths := Paths();
      assert h in paths && h in opens;
      var i := 0;
      while i < |opens| && opens[i] != h
        invariant 0 <= i <= |opens| && forall j :: 0 <= j < i ==> opens[j] != h
      {
        i := i + 1;
      }
      WithoutFacts(files, paths, h.path, i);
      hide ListsOk, Filed, Peaceful;
      h.released := true;
      files := Without(files, h.path, i);
      held := held - {h};
      assert Paths() == paths - {h};
    }

    /** Moves the opens of a path to another name. They permit each other there
        exactly when they did and permit the ones they join. */
    method Rename(oldPath: Path, newPath: Path)
      requires Linked()
      modifies this`files, held`path
      ensures Linked() && held == old(held)
      ensures files == if oldPath == newPath || oldPath !in old(files) then old(files)
                       else Joined(old(files), oldPath, newPath)
      ensures oldPath != newPath ==> (Permitted(newPath) <==> PeacefulTogether(old(files), oldPath, newPath))
      ensures oldPath != newPath ==> Opens(oldPath) == [] && Opens(newPath) == old(Opens(newPath)) + old(Opens(oldPath))
      ensures forall p :: (p != oldPath && p != newPath) || oldPath == newPath ==> Opens(p) == old(Opens(p))
    {
      hide ListsOk, Filed, Joined, MutuallyPeaceful;
      if oldPath == newPath || oldPath !in files {
        NothingClashes(Opens(newPath));
        assert Opens(newPath) + [] == Opens(newPath);
        return;
      }
      var opens := files[oldPath];
      ghost var lists, paths := files, Paths();
      KeptApart(lists, paths, oldPath, newPath);
      JoinedFacts(lists, oldPath, newPath);
      SetPaths(opens, newPath, held, paths);
      JoinedFiled(lists, paths, oldPath, newPath, Paths());
      Refile(Joined(files, oldPath, newPath));
    }

    /** Replaces the lists; the handles stay as they are. */
    method Refile(lists: Lists)
      modifies this`files
      ensures files == lists && Paths() == old(Paths())
    {
      files := lists;
    }
  }

  /** Writes a path into each of the handles. */
  method SetPaths(opens: seq<ShareHandle>, path: Path, ghost held: set<ShareHandle>,
                  ghost paths: map<ShareHandle, Path>)
    requires forall h :: h in opens ==> h in held
    requires paths == map h | h in held :: h.path
    modifies held`path
    ensures forall h :: h in held ==> h.path == if h in opens then path else paths[h]
  {
    ghost var moved: set<ShareHandle> := {};
    for i := 0 to |opens|
      invariant forall h :: h in moved <==> h in opens[..i]
      invariant forall h :: h in held ==> h.path == if h in moved then path else paths[h]
    {
      opens[i].path := path;
      moved := moved + {opens[i]};
    }
    assert opens[..|opens|] == opens;
  }
}
