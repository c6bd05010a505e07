/** The lock table (internal/lock/manager.go): every owner's ranges on every
    file, with an index of the paths of each owner and a count for each client. */
module LockTable {
  import opened Common
  import opened LockRanges

  datatype Owner = Owner(client: string, id: string)

  type Files = map<Path, map<Owner, seq<Held>>>

  datatype Caps = Caps(perFile: nat, perClient: nat)

  datatype Table = Table(files: Files, owned: map<Owner, set<Path>>, clientLocks: map<string, nat>)

  const EmptyTable := Table(map[], map[], map[])

  function Ranges(files: Files, p: Path, o: Owner): seq<Held> {
    if p in files && o in files[p] then files[p][o] else []
  }

  // ---- counting ----

  type Slot = (Path, Owner, nat)

  function Slots(p: Path, o: Owner, n: nat): set<Slot> {
    set i: nat | i < n :: (p, o, i)
  }

  /** Which ranges a cap counts. */
  datatype Filter = OfClient(client: string) | OnPath(path: Path)

  predicate Passes(f: Filter, p: Path, o: Owner) {
    match f
    case OfClient(client) => o.client == client
    case OnPath(path) => p == path
  }

  /** One element for each range that passes the filter. */
  function HeldSlots(files: Files, f: Filter): set<Slot> {
    set p, o, i | p in files && o in files[p] && Passes(f, p, o) && 0 <= i < |files[p][o]| :: (p, o, i)
  }

  function Count(clientLocks: map<string, nat>, client: string): nat {
    if client in clientLocks then clientLocks[client] else 0
  }

  // ---- what every operation keeps ----

  /** Every list is canonical, and nothing empty is stored. */
  ghost predicate ListsOk(files: Files) {
    forall p :: p in files ==> OwnersOk(files[p])
  }

  ghost predicate OwnersOk(owners: map<Owner, seq<Held>>) {
    owners != map[] && forall o :: o in owners ==> owners[o] != [] && Canonical(owners[o])
  }

  /** The index of owners is the inverse of the table. */
  ghost predicate IndexOk(files: Files, owned: map<Owner, set<Path>>) {
    && (forall o :: o in owned ==> owned[o] != {})
    && (forall o, p :: (o in owned && p in owned[o]) <==> Ranges(files, p, o) != [])
  }

  /** The counts are the numbers of ranges held, and no zero is stored. */
  ghost predicate CountsOk(files: Files, clientLocks: map<string, nat>) {
    && (forall c :: Count(clientLocks, c) == |HeldSlots(files, OfClient(c))|)
    && (forall c :: c in clientLocks ==> clientLocks[c] > 0)
  }

  predicate Agree(x: Option<Mode>, y: Option<Mode>) {
    x == None || y == None || (x == Some(Shared) && y == Some(Shared))
  }

  /** No two owners hold a common byte unless both hold it shared. */
  ghost predicate Compatible(files: Files) {
    forall p, o1, o2, b: nat :: o1 != o2 ==>
      Agree(ModeAt(Ranges(files, p, o1), b), ModeAt(Ranges(files, p, o2), b))
  }

  ghost predicate Valid(t: Table) {
    ListsOk(t.files) && IndexOk(t.files, t.owned) && CountsOk(t.files, t.clientLocks) && Compatible(t.files)
  }

  // ---- storing one owner's ranges ----

  function SetFiles(files: Files, o: Owner, p: Path, ranges: seq<Held>): Files {
    var owners := if p in files then files[p] else map[];
    if ranges == [] then
      if owners - {o} == map[] then files - {p} else files[p := owners - {o}]
    else files[p := owners[o := ranges]]
  }

  function SetOwned(owned: map<Owner, set<Path>>, o: Owner, p: Path, any: bool): map<Owner, set<Path>> {
    var paths := if o in owned then owned[o] else {};
    if any then owned[o := paths + {p}]
    else if paths - {p} == {} then owned - {o}
    else owned[o := paths - {p}]
  }

  function SetCount(clientLocks: map<string, nat>, client: string, delta: int): map<string, nat> {
    var n := Count(clientLocks, client) + delta;
    if n > 0 then clientLocks[client := n] else clientLocks - {client}
  }

  /** setLocked. */
  function Stored(t: Table, o: Owner, p: Path, ranges: seq<Held>): Table {
    var delta := |ranges| - |Ranges(t.files, p, o)|;
    Table(SetFiles(t.files, o, p, ranges), SetOwned(t.owned, o, p, ranges != []),
          SetCount(t.clientLocks, o.client, delta))
  }

  lemma SetFilesAt(files: Files, o: Owner, p: Path, ranges: seq<Held>, q: Path, w: Owner)
    ensures Ranges(SetFiles(files, o, p, ranges), q, w) == if q == p && w == o then ranges else Ranges(files, q, w)
  {
    var owners := if p in files then files[p] else map[];
    var after := SetFiles(files, o, p, ranges);
    if q != p {
      assert q in after <==> q in files;
    } else if ranges != [] {
      assert after[p] == owners[o := ranges];
    } else if owners - {o} == map[] {
      assert p !in after;
      assert forall x :: x in owners - {o} <==> x in owners && x != o;
    } else {
      assert after[p] == owners - {o};
    }
  }

  lemma SetFilesRanges(files: Files, o: Owner, p: Path, ranges: seq<Held>)
    ensures forall q, w :: Ranges(SetFiles(files, o, p, ranges), q, w) ==
              if q == p && w == o then ranges else Ranges(files, q, w)
  {
    hide SetFiles, Ranges;
    forall q, w
      ensures Ranges(SetFiles(files, o, p, ranges), q, w) == if q == p && w == o then ranges else Ranges(files, q, w)
    {
      SetFilesAt(files, o, p, ranges, q, w);
    }
  }

  lemma SetOwners(owners: map<Owner, seq<Held>>, o: Owner, ranges: seq<Held>)
    requires (owners == map[] || OwnersOk(owners)) && Canonical(ranges)
    ensures ranges != [] ==> OwnersOk(owners[o := ranges])
    ensures owners - {o} != map[] ==> OwnersOk(owners - {o})
  {
    hide Canonical;
    assert o in owners[o := ranges];
  }

  lemma SetFilesLists(files: Files, o: Owner, p: Path, ranges: seq<Held>)
    requires ListsOk(files) && Canonical(ranges)
    ensures ListsOk(SetFiles(files, o, p, ranges))
  {
    hide OwnersOk, Canonical;
    SetOwners(if p in files then files[p] else map[], o, ranges);
  }

  lemma SetOwnedMembers(owned: map<Owner, set<Path>>, o: Owner, p: Path, any: bool, w: Owner, q: Path)
    ensures var after := SetOwned(owned, o, p, any);
            (w in after && q in after[w]) <==> if w == o && q == p then any else w in owned && q in owned[w]
  {
    var paths := if o in owned then owned[o] else {};
    if q in paths && q != p {
      assert q in paths - {p};
    }
  }

  lemma SetKeepsIndex(files: Files, owned: map<Owner, set<Path>>, o: Owner, p: Path, ranges: seq<Held>)
    requires IndexOk(files, owned)
    ensures IndexOk(SetFiles(files, o, p, ranges), SetOwned(owned, o, p, ranges != []))
  {
    var after := SetOwned(owned, o, p, ranges != []);
    assert forall w :: w in after ==> after[w] != {} by {
      if ranges != [] { assert p in after[o]; }
    }
    SetFilesRanges(files, o, p, ranges);
    hide SetFiles, Ranges, SetOwned;
    forall w, q ensures (w in after && q in after[w]) <==> Ranges(SetFiles(files, o, p, ranges), q, w) != [] {
      SetOwnedMembers(owned, o, p, ranges != [], w, q);
    }
  }

  lemma {:induction false} SlotsCount(p: Path, o: Owner, n: nat)
    ensures |Slots(p, o, n)| == n
  {
    if n > 0 {
      SlotsCount(p, o, n - 1);
      assert Slots(p, o, n) == Slots(p, o, n - 1) + {(p, o, n - 1)};
    }
  }

  lemma HeldSlotsRanges(files: Files, f: Filter, s: Slot)
    ensures s in HeldSlots(files, f) <==> Passes(f, s.0, s.1) && s.2 < |Ranges(files, s.0, s.1)|
  {
    assert s == (s.0, s.1, s.2);
  }

  lemma Replaced(held: set<Slot>, was: set<Slot>, now: set<Slot>, after: set<Slot>)
    requires was <= held && (held - was) !! now && after == (held - was) + now
    ensures |after| == |held| - |was| + |now|
  {
  }

  /** Which slots a change of one list takes away and adds. */
  lemma SetMembership(files: Files, o: Owner, p: Path, ranges: seq<Held>, f: Filter, s: Slot)
    requires Passes(f, p, o)
    ensures var was, now := Slots(p, o, |Ranges(files, p, o)|), Slots(p, o, |ranges|);
            var held, after := HeldSlots(files, f), HeldSlots(SetFiles(files, o, p, ranges), f);
            && (s in after <==> (s in held && s !in was) || s in now)
            && (s in was ==> s in held) && (s in held && s in now ==> s in was)
  {
    SetFilesRanges(files, o, p, ranges);
    HeldSlotsRanges(files, f, s);
    HeldSlotsRanges(SetFiles(files, o, p, ranges), f, s);
    hide SetFiles, Ranges, HeldSlots;
    assert s == (s.0, s.1, s.2);
    assert s in Slots(p, o, |ranges|) <==> s.0 == p && s.1 == o && s.2 < |ranges|;
    assert s in Slots(p, o, |Ranges(files, p, o)|) <==> s.0 == p && s.1 == o && s.2 < |Ranges(files, p, o)|;
  }

  /** A change of one list changes each count it is part of by the difference. */
  lemma SetCounted(files: Files, o: Owner, p: Path, ranges: seq<Held>, f: Filter)
    requires Passes(f, p, o)
    ensures |HeldSlots(SetFiles(files, o, p, ranges), f)| == |HeldSlots(files, f)| - |Ranges(files, p, o)| + |ranges|
  {
    var held, after := HeldSlots(files, f), HeldSlots(SetFiles(files, o, p, ranges), f);
    var was, now := Slots(p, o, |Ranges(files, p, o)|), Slots(p, o, |ranges|);
    SlotsCount(p, o, |Ranges(files, p, o)|);
    SlotsCount(p, o, |ranges|);
    forall s: Slot
      ensures s in after <==> (s in held && s !in was) || s in now
      ensures (s in was ==> s in held) && (s in held && s in now ==> s in was)
    {
      SetMembership(files, o, p, ranges, f, s);
    }
    hide *;
    assert after == (held - was) + now;
    Replaced(held, was, now, after);
  }

  lemma SetNotCounted(files: Files, o: Owner, p: Path, ranges: seq<Held>, f: Filter)
    requires !Passes(f, p, o)
    ensures HeldSlots(SetFiles(files, o, p, ranges), f) == HeldSlots(files, f)
  {
    SetFilesRanges(files, o, p, ranges);
    hide SetFiles, Ranges, HeldSlots;
    forall s: Slot ensures s in HeldSlots(SetFiles(files, o, p, ranges), f) <==> s in HeldSlots(files, f) {
      HeldSlotsRanges(files, f, s);
      HeldSlotsRanges(SetFiles(files, o, p, ranges), f, s);
    }
  }

  lemma SetKeepsCounts(t: Table, o: Owner, p: Path, ranges: seq<Held>)
    requires CountsOk(t.files, t.clientLocks)
    ensures CountsOk(Stored(t, o, p, ranges).files, Stored(t, o, p, ranges).clientLocks)
  {
    SetCounted(t.files, o, p, ranges, OfClient(o.client));
    hide SetFiles, HeldSlots, Ranges, SetOwned;
    var after := Stored(t, o, p, ranges);
    forall c ensures Count(after.clientLocks, c) == |HeldSlots(after.files, OfClient(c))| {
      if c == o.client {
        assert Count(t.clientLocks, c) == |HeldSlots(t.files, OfClient(c))|;
      } else {
        SetNotCounted(t.files, o, p, ranges, OfClient(c));
        assert Count(after.clientLocks, c) == Count(t.clientLocks, c);
      }
    }
  }

  lemma SetKeepsCompatible(files: Files, o: Owner, p: Path, ranges: seq<Held>)
    requires Compatible(files)
    requires forall w, b: nat :: w != o ==> Agree(ModeAt(ranges, b), ModeAt(Ranges(files, p, w), b))
    ensures Compatible(SetFiles(files, o, p, ranges))
  {
    SetFilesRanges(files, o, p, ranges);
    hide SetFiles, Ranges, ModeAt;
  }

  lemma StoredKeepsValid(t: Table, o: Owner, p: Path, ranges: seq<Held>)
    requires Valid(t) && Canonical(ranges)
    requires forall w, b: nat :: w != o ==> Agree(ModeAt(ranges, b), ModeAt(Ranges(t.files, p, w), b))
    ensures Valid(Stored(t, o, p, ranges))
  {
    SetFilesLists(t.files, o, p, ranges);
    SetKeepsIndex(t.files, t.owned, o, p, ranges);
    SetKeepsCounts(t, o, p, ranges);
    SetKeepsCompatible(t.files, o, p, ranges);
  }

  // ---- conflicts ----

  datatype Lock = Lock(held: Held, owner: Owner)

  /** lock is another owner's, and keeps o from locking r in mode. */
  predicate Conflicts(files: Files, o: Owner, p: Path, r: Range, mode: Mode, lock: Lock) {
    && lock.owner != o && lock.held in Ranges(files, p, lock.owner)
    && Overlaps(lock.held, r) && !(lock.held.mode == Shared && mode == Shared)
  }

  ghost predicate Conflicted(files: Files, o: Owner, p: Path, r: Range, mode: Mode) {
    exists lock :: Conflicts(files, o, p, r, mode, lock)
  }

  /** The same, said of bytes: some other owner holds a byte of r, and not both
      are shared. */
  ghost predicate ByteConflict(files: Files, o: Owner, p: Path, r: Range, mode: Mode) {
    exists w, b: nat :: w != o && InRange(r, b) && !Agree(Some(mode), ModeAt(Ranges(files, p, w), b))
  }

  lemma CanonicalRanges(files: Files, p: Path, o: Owner)
    requires ListsOk(files)
    ensures Canonical(Ranges(files, p, o)) && Ordered(Ranges(files, p, o))
  {
    CanonicalIsOrdered(Ranges(files, p, o));
  }

  /** A lock is refused exactly when the bytes say so. */
  lemma ConflictedBytes(files: Files, o: Owner, p: Path, r: Range, mode: Mode)
    requires ListsOk(files) && r.start < r.end
    ensures Conflicted(files, o, p, r, mode) <==> ByteConflict(files, o, p, r, mode)
  {
    if Conflicted(files, o, p, r, mode) {
      var lock :| Conflicts(files, o, p, r, mode, lock);
      var s := Ranges(files, p, lock.owner);
      var i :| 0 <= i < |s| && s[i] == lock.held;
      CanonicalRanges(files, p, lock.owner);
      OrderedMember(s, i);
      var b := Max(lock.held.start, r.start);
      RangeGivesMode(s, i, b);
      assert lock.owner != o && InRange(r, b) && !Agree(Some(mode), ModeAt(Ranges(files, p, lock.owner), b));
    }
    if ByteConflict(files, o, p, r, mode) {
      var w, b: nat :| w != o && InRange(r, b) && !Agree(Some(mode), ModeAt(Ranges(files, p, w), b));
      var i := ModeGivesRange(Ranges(files, p, w), b);
      assert Conflicts(files, o, p, r, mode, Lock(Ranges(files, p, w)[i], w));
    }
  }

  // ---- the operations ----

  predicate WellFormed(r: Range, mode: Mode) {
    r.start < r.end && mode != Unknown
  }

  /** Whether delta more ranges for o on p would exceed a cap. */
  predicate OverLimit(t: Table, caps: Caps, o: Owner, p: Path, delta: int) {
    delta > 0 && (|HeldSlots(t.files, OnPath(p))| + delta > caps.perFile ||
                  Count(t.clientLocks, o.client) + delta > caps.perClient)
  }

  ghost predicate Grants(t: Table, caps: Caps, o: Owner, p: Path, r: Range, mode: Mode) {
    WellFormed(r, mode) && !Conflicted(t.files, o, p, r, mode) &&
    var before := Ranges(t.files, p, o);
    !OverLimit(t, caps, o, p, |Locked(before, r, mode)| - |before|)
  }

  ghost function AfterLock(t: Table, caps: Caps, o: Owner, p: Path, r: Range, mode: Mode): Table {
    if Grants(t, caps, o, p, r, mode) then Stored(t, o, p, Locked(Ranges(t.files, p, o), r, mode)) else t
  }

  function AfterUnlock(t: Table, o: Owner, p: Path, r: Range): Table {
    if r.start < r.end then Stored(t, o, p, Subtracted(Ranges(t.files, p, o), r)) else t
  }

  function Dropped(files: Files, gone: set<Owner>): Files {
    map p | p in files && files[p] - gone != map[] :: files[p] - gone
  }

  /** The table without the ranges of the owners in gone. */
  function AfterRelease(t: Table, gone: set<Owner>): Table {
    var files := Dropped(t.files, gone);
    Table(files, t.owned - gone,
          map c | c in t.clientLocks && HeldSlots(files, OfClient(c)) != {} :: |HeldSlots(files, OfClient(c))|)
  }

  /** The mode in which o holds byte b of p. */
  function Byte(t: Table, p: Path, o: Owner, b: nat): Option<Mode> {
    ModeAt(Ranges(t.files, p, o), b)
  }

  /** A granted lock keeps the table valid, gives its owner exactly the requested
      bytes in the requested mode, and, when it adds ranges, stays within both caps. */
  lemma LockFacts(t: Table, caps: Caps, o: Owner, p: Path, r: Range, mode: Mode)
    requires Valid(t) && Grants(t, caps, o, p, r, mode)
    ensures Valid(AfterLock(t, caps, o, p, r, mode))
    ensures forall q, w, b: nat :: Byte(AfterLock(t, caps, o, p, r, mode), q, w, b) ==
              if q == p && w == o && InRange(r, b) then Some(mode) else Byte(t, q, w, b)
    ensures var after := AfterLock(t, caps, o, p, r, mode);
            |HeldSlots(after.files, OnPath(p))| > |HeldSlots(t.files, OnPath(p))| ==>
              |HeldSlots(after.files, OnPath(p))| <= caps.perFile &&
              |HeldSlots(after.files, OfClient(o.client))| <= caps.perClient
  {
    var before := Ranges(t.files, p, o);
    var ranges := Locked(before, r, mode);
    CanonicalRanges(t.files, p, o);
    LockedFacts(before, r, mode);
    ConflictedBytes(t.files, o, p, r, mode);
    SetFilesRanges(t.files, o, p, ranges);
    SetCounted(t.files, o, p, ranges, OnPath(p));
    SetCounted(t.files, o, p, ranges, OfClient(o.client));
    hide Locked, ModeAt, Ranges, SetFiles, HeldSlots, Conflicted, Canonical, Ordered;
    forall w, b: nat | w != o ensures Agree(ModeAt(ranges, b), ModeAt(Ranges(t.files, p, w), b)) {
      if !InRange(r, b) {
        assert ModeAt(ranges, b) == ModeAt(before, b);
      }
    }
    StoredKeepsValid(t, o, p, ranges);
  }

  lemma UnlockFacts(t: Table, o: Owner, p: Path, r: Range)
    requires Valid(t)
    ensures Valid(AfterUnlock(t, o, p, r))
    ensures forall q, w, b: nat :: Byte(AfterUnlock(t, o, p, r), q, w, b) ==
              if q == p && w == o && InRange(r, b) then None else Byte(t, q, w, b)
  {
    if r.start < r.end {
      var before := Ranges(t.files, p, o);
      var ranges := Subtracted(before, r);
      CanonicalRanges(t.files, p, o);
      SubtractedFacts(before, r);
      SetFilesRanges(t.files, o, p, ranges);
      hide Subtracted, ModeAt, Ranges, SetFiles, HeldSlots, Canonical, Ordered;
      forall w, b: nat | w != o ensures Agree(ModeAt(ranges, b), ModeAt(Ranges(t.files, p, w), b)) {
        if !InRange(r, b) {
          assert ModeAt(ranges, b) == ModeAt(before, b);
        }
      }
      StoredKeepsValid(t, o, p, ranges);
    }
  }

  lemma DroppedRanges(files: Files, gone: set<Owner>, p: Path, o: Owner)
    ensures Ranges(Dropped(files, gone), p, o) == if o in gone then [] else Ranges(files, p, o)
  {
    if p in files && o in files[p] && o !in gone {
      assert o in files[p] - gone;
    }
  }

  lemma DroppedLists(files: Files, gone: set<Owner>)
    requires ListsOk(files)
    ensures ListsOk(Dropped(files, gone))
  {
    hide Canonical;
  }

  lemma DroppedIndex(files: Files, owned: map<Owner, set<Path>>, gone: set<Owner>)
    requires IndexOk(files, owned)
    ensures IndexOk(Dropped(files, gone), owned - gone)
  {
    hide Dropped, Ranges;
    forall o, p ensures (o in owned - gone && p in (owned - gone)[o]) <==> Ranges(Dropped(files, gone), p, o) != [] {
      DroppedRanges(files, gone, p, o);
    }
  }

  lemma DroppedSlots(files: Files, gone: set<Owner>, f: Filter)
    ensures HeldSlots(Dropped(files, gone), f) <= HeldSlots(files, f)
  {
    hide Dropped, HeldSlots, Ranges;
    forall s: Slot | s in HeldSlots(Dropped(files, gone), f) ensures s in HeldSlots(files, f) {
      HeldSlotsRanges(Dropped(files, gone), f, s);
      HeldSlotsRanges(files, f, s);
      DroppedRanges(files, gone, s.0, s.1);
    }
  }

  lemma DroppedCounts(t: Table, gone: set<Owner>)
    requires CountsOk(t.files, t.clientLocks)
    ensures CountsOk(AfterRelease(t, gone).files, AfterRelease(t, gone).clientLocks)
  {
    hide Dropped, HeldSlots;
    var after := AfterRelease(t, gone);
    forall c ensures Count(after.clientLocks, c) == |HeldSlots(after.files, OfClient(c))| {
      DroppedSlots(t.files, gone, OfClient(c));
      assert Count(t.clientLocks, c) == 0 ==> HeldSlots(t.files, OfClient(c)) == {};
    }
  }

  /** Releasing owners removes all of their ranges and nobody else's. */
  lemma ReleaseFacts(t: Table, gone: set<Owner>)
    requires Valid(t)
    ensures Valid(AfterRelease(t, gone))
    ensures forall p, o :: Ranges(AfterRelease(t, gone).files, p, o) == if o in gone then [] else Ranges(t.files, p, o)
  {
    DroppedLists(t.files, gone);
    DroppedIndex(t.files, t.owned, gone);
    DroppedCounts(t, gone);
    forall p, o ensures Ranges(Dropped(t.files, gone), p, o) == if o in gone then [] else Ranges(t.files, p, o) {
      DroppedRanges(t.files, gone, p, o);
    }
    hide Dropped, HeldSlots, Ranges, ListsOk, IndexOk, CountsOk;
    assert Compatible(Dropped(t.files, gone));
  }

  // ---- whole runs ----

  datatype Op =
    | LockOp(owner: Owner, path: Path, range: Range, mode: Mode)
    | UnlockOp(owner: Owner, path: Path, range: Range)
    | TestOp(owner: Owner, path: Path, range: Range, mode: Mode)
    | ReleaseOwnerOp(owner: Owner)
    | ReleaseClientOp(client: string)

  function OwnersOf(t: Table, client: string): set<Owner> {
    set o | o in t.owned && o.client == client
  }

  ghost function After(t: Table, caps: Caps, op: Op): Table {
    match op
    case LockOp(o, p, r, mode) => AfterLock(t, caps, o, p, r, mode)
    case UnlockOp(o, p, r) => AfterUnlock(t, o, p, r)
    case TestOp(_, _, _, _) => t
    case ReleaseOwnerOp(o) => AfterRelease(t, {o})
    case ReleaseClientOp(client) => AfterRelease(t, OwnersOf(t, client))
  }

  ghost function AfterAll(t: Table, caps: Caps, ops: seq<Op>): Table
    decreases ops
  {
    if ops == [] then t else AfterAll(After(t, caps, ops[0]), caps, ops[1..])
  }

  lemma NothingHeld()
    ensures forall b: nat :: ModeAt([], b) == None
  {
  }

  lemma UnlistedOwner(t: Table, o: Owner, p: Path)
    requires Valid(t) && o !in t.owned
    ensures Ranges(t.files, p, o) == []
  {
  }

  lemma EmptyIsValid()
    ensures Valid(EmptyTable)
  {
    assert forall c :: HeldSlots(EmptyTable.files, OfClient(c)) == {};
  }

  // ---- the lists are determined by the bytes, the table by the lists ----

  /** Two valid tables that give every byte the same mode are equal. */
  lemma BytesDetermineTable(t: Table, u: Table)
    requires Valid(t) && Valid(u)
    requires forall p, o, b: nat :: Byte(t, p, o, b) == Byte(u, p, o, b)
    ensures t == u
  {
    forall p, o ensures Ranges(t.files, p, o) == Ranges(u.files, p, o) {
      CanonicalRanges(t.files, p, o);
      CanonicalRanges(u.files, p, o);
      forall b: nat ensures ModeAt(Ranges(t.files, p, o), b) == ModeAt(Ranges(u.files, p, o), b) {
        assert Byte(t, p, o, b) == Byte(u, p, o, b);
      }
      CanonicalIsUnique(Ranges(t.files, p, o), Ranges(u.files, p, o));
    }
    RangesDetermineTable(t, u);
  }

  lemma RangesDetermineOwners(f: Files, g: Files, p: Path)
    requires ListsOk(f) && ListsOk(g) && p in f
    requires forall o :: Ranges(f, p, o) == Ranges(g, p, o)
    ensures p in g && f[p] == g[p]
  {
    hide Canonical;
    assert OwnersOk(f[p]);
    var first :| first in f[p];
    assert Ranges(f, p, first) == Ranges(g, p, first);
    forall o ensures (o in f[p] <==> o in g[p]) && (o in f[p] ==> f[p][o] == g[p][o]) {
      assert Ranges(f, p, o) == Ranges(g, p, o);
    }
  }

  lemma RangesDetermineFiles(f: Files, g: Files)
    requires ListsOk(f) && ListsOk(g)
    requires forall p, o :: Ranges(f, p, o) == Ranges(g, p, o)
    ensures f == g
  {
    hide ListsOk, Ranges;
    forall p ensures (p in f <==> p in g) && (p in f ==> f[p] == g[p]) {
      if p in f { RangesDetermineOwners(f, g, p); }
      if p in g { RangesDetermineOwners(g, f, p); }
    }
  }

  lemma RangesDetermineTable(t: Table, u: Table)
    requires Valid(t) && Valid(u)
    requires forall p, o :: Ranges(t.files, p, o) == Ranges(u.files, p, o)
    ensures t == u
  {
    RangesDetermineFiles(t.files, u.files);
    var files := t.files;
    forall o ensures o in t.owned <==> o in u.owned {
      if o in t.owned { var p :| p in t.owned[o]; assert o in u.owned && p in u.owned[o]; }
      if o in u.owned { var p :| p in u.owned[o]; assert o in t.owned && p in t.owned[o]; }
    }
    forall o | o in t.owned ensures t.owned[o] == u.owned[o] {
      assert forall p :: p in t.owned[o] <==> Ranges(files, p, o) != [];
      assert forall p :: p in u.owned[o] <==> Ranges(files, p, o) != [];
    }
    CountsDetermined(files, t.clientLocks, u.clientLocks);
  }

  lemma CountsDetermined(files: Files, m: map<string, nat>, n: map<string, nat>)
    requires CountsOk(files, m) && CountsOk(files, n)
    ensures m == n
  {
    forall c ensures (c in m <==> c in n) && (c in m ==> m[c] == n[c]) {
      assert Count(m, c) == Count(n, c);
    }
  }
}
