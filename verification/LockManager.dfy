/** Which of several conflicting locks a denial reports
    (internal/lock/manager.go, conflictLocked and lessOwner). */
module LockOrder {
  import opened Common
  import opened LockRanges
  import opened LockTable

  /** Strings compare element by element, a prefix before what extends it. */
  predicate LessString(a: string, b: string) {
    b != [] && (a == [] || a[0] < b[0] || (a[0] == b[0] && LessString(a[1..], b[1..])))
  }

  predicate LessOwner(a: Owner, b: Owner) {
    if a.client != b.client then LessString(a.client, b.client) else LessString(a.id, b.id)
  }

  predicate Earlier(a: Lock, b: Lock) {
    a.held.start < b.held.start || (a.held.start == b.held.start && LessOwner(a.owner, b.owner))
  }

  /** lock conflicts with the request, and every other lock that does comes later. */
  ghost predicate IsLeast(files: Files, o: Owner, p: Path, r: Range, mode: Mode, lock: Lock) {
    Conflicts(files, o, p, r, mode, lock) &&
    forall other :: Conflicts(files, o, p, r, mode, other) ==> other == lock || Earlier(lock, other)
  }

  lemma {:induction false} LessStringTotal(a: string, b: string)
    ensures a == b || LessString(a, b) || LessString(b, a)
    ensures !(LessString(a, b) && LessString(b, a)) && (a == b ==> !LessString(a, b))
  {
    if a != [] && b != [] && a[0] == b[0] {
      LessStringTotal(a[1..], b[1..]);
      assert a == [a[0]] + a[1..] && b == [b[0]] + b[1..];
    }
  }

  lemma {:induction false} LessStringTransitive(a: string, b: string, c: string)
    requires LessString(a, b) && LessString(b, c)
    ensures LessString(a, c)
  {
    if a != [] && b != [] && c != [] && a[0] == b[0] == c[0] {
      LessStringTransitive(a[1..], b[1..], c[1..]);
    }
  }

  lemma OwnersAreOrdered(a: Owner, b: Owner)
    ensures a == b || LessOwner(a, b) || LessOwner(b, a)
    ensures !(LessOwner(a, b) && LessOwner(b, a)) && (a == b ==> !LessOwner(a, b))
  {
    LessStringTotal(a.client, b.client);
    LessStringTotal(a.id, b.id);
  }

  lemma EarlierTransitive(a: Lock, b: Lock, c: Lock)
    requires Earlier(a, b) && Earlier(b, c)
    ensures Earlier(a, c)
  {
    if a.held.start == b.held.start == c.held.start {
      var x, y, z := a.owner, b.owner, c.owner;
      LessStringTotal(x.client, y.client);
      LessStringTotal(y.client, z.client);
      if x.client != y.client && y.client != z.client {
        LessStringTransitive(x.client, y.client, z.client);
        LessStringTotal(x.client, z.client);
      } else if x.client == y.client == z.client {
        LessStringTransitive(x.id, y.id, z.id);
      }
    }
  }

  /** a comes before b: it is a proper prefix of b, or smaller where they first differ. */
  ghost predicate Before(a: string, b: string) {
    exists k :: 0 <= k <= |a| && k < |b| && a[..k] == b[..k] && (k == |a| || a[k] < b[k])
  }

  lemma {:induction false} LessStringExactly(a: string, b: string)
    ensures LessString(a, b) <==> Before(a, b)
  {
    if a != [] && b != [] && a[0] == b[0] {
      LessStringExactly(a[1..], b[1..]);
      if k :| 0 <= k <= |a[1..]| && k < |b[1..]| && a[1..][..k] == b[1..][..k] &&
              (k == |a[1..]| || a[1..][k] < b[1..][k]) {
        assert a[..k + 1] == [a[0]] + a[1..][..k] && b[..k + 1] == [b[0]] + b[1..][..k];
        assert Before(a, b);
      }
      if k :| 0 <= k <= |a| && k < |b| && a[..k] == b[..k] && (k == |a| || a[k] < b[k]) {
        assert k > 0;
        assert a[1..][..k - 1] == a[..k][1..] && b[1..][..k - 1] == b[..k][1..];
        assert Before(a[1..], b[1..]);
      }
    } else if LessString(a, b) {
      assert a[..0] == b[..0];
    }
  }

  /** What a denial prefers: the lowest start, then the client, then the owner. */
  lemma EarlierExactly(a: Lock, b: Lock)
    ensures Earlier(a, b) <==>
            || a.held.start < b.held.start
            || (a.held.start == b.held.start && Before(a.owner.client, b.owner.client))
            || (a.held.start == b.held.start && a.owner.client == b.owner.client && Before(a.owner.id, b.owner.id))
  {
    LessStringExactly(a.owner.client, b.owner.client);
    LessStringExactly(a.owner.id, b.owner.id);
    LessStringTotal(a.owner.client, b.owner.client);
  }

  /** Denials describe the same lock every time. */
  lemma LeastIsUnique(files: Files, o: Owner, p: Path, r: Range, mode: Mode, a: Lock, b: Lock)
    requires IsLeast(files, o, p, r, mode, a) && IsLeast(files, o, p, r, mode, b)
    ensures a == b
  {
    OwnersAreOrdered(a.owner, b.owner);
    assert Conflicts(files, o, p, r, mode, a) && Conflicts(files, o, p, r, mode, b);
  }

  lemma {:induction false} DistinctStarts(s: seq<Held>, i: nat, j: nat)
    requires Ordered(s) && i < j < |s|
    ensures s[i].start < s[j].start
    decreases |s|
  {
    OrderedMember(s, i);
    if j == |s| - 1 {
      EndBeforeLast(s, i);
    } else {
      DistinctStarts(Front(s), i, j);
    }
  }

  /** Locks of one owner on one file that start at the same byte are one lock. */
  lemma SameStart(files: Files, p: Path, a: Lock, b: Lock)
    requires ListsOk(files) && a.owner == b.owner && a.held.start == b.held.start
    requires a.held in Ranges(files, p, a.owner) && b.held in Ranges(files, p, b.owner)
    ensures a == b
  {
    var s := Ranges(files, p, a.owner);
    CanonicalRanges(files, p, a.owner);
    var i :| 0 <= i < |s| && s[i] == a.held;
    var j :| 0 <= j < |s| && s[j] == b.held;
    if i < j { DistinctStarts(s, i, j); }
    if j < i { DistinctStarts(s, j, i); }
  }

  /** Whether the search replaces the lock it has found by another one. */
  predicate Replaces(found: Option<Lock>, lock: Lock) {
    found == None || Earlier(lock, found.value)
  }

  function Better(found: Option<Lock>, lock: Lock): Option<Lock> {
    if Replaces(found, lock) then Some(lock) else found
  }

  /** found is at or before every lock of the set. */
  ghost predicate Heads(found: Option<Lock>, seen: set<Lock>) {
    (found == None <==> seen == {}) &&
    (found != None ==> found.value in seen && forall l :: l in seen ==> l == found.value || Earlier(found.value, l))
  }

  lemma BetterHeads(files: Files, p: Path, found: Option<Lock>, seen: set<Lock>, lock: Lock)
    requires ListsOk(files) && Heads(found, seen)
    requires lock.held in Ranges(files, p, lock.owner)
    requires forall l :: l in seen ==> l.held in Ranges(files, p, l.owner)
    ensures Heads(Better(found, lock), seen + {lock})
  {
    if found != None {
      OwnersAreOrdered(lock.owner, found.value.owner);
      if Earlier(lock, found.value) {
        forall l | l in seen ensures l == lock || Earlier(lock, l) {
          if l != found.value { EarlierTransitive(lock, found.value, l); }
        }
      } else if lock.owner == found.value.owner && lock.held.start == found.value.held.start {
        SameStart(files, p, lock, found.value);
      }
    }
  }
}

module LockManagerObject {
  import opened Common
  import opened LockRanges
  import opened LockTable
  import opened LockOrder
  import R = LockReference

  const DefaultMaxLocksPerFile: nat := 512
  const DefaultMaxLocksPerClient: nat := 8192

  datatype Answer = Granted | Denied(lock: Lock) | LimitExceeded | Invalid

  /** The answer without the lock a denial describes. */
  function Reply(answer: Answer): R.Reply {
    match answer
    case Granted => R.Granted
    case Denied(_) => R.Denied
    case LimitExceeded => R.LimitExceeded
    case Invalid => R.Invalid
  }

  class LockManager {
    const caps: Caps
    var files: Files
    var owned: map<Owner, set<Path>>
    var clientLocks: map<string, nat>

    constructor (maxLocksPerFile: int, maxLocksPerClient: int)
      ensures Contents() == EmptyTable && Valid(Contents())
      ensures caps.perFile == if maxLocksPerFile <= 0 then 512 else maxLocksPerFile
      ensures caps.perClient == if maxLocksPerClient <= 0 then 8192 else maxLocksPerClient
    {
      caps := Caps(if maxLocksPerFile <= 0 then DefaultMaxLocksPerFile else maxLocksPerFile,
                   if maxLocksPerClient <= 0 then DefaultMaxLocksPerClient else maxLocksPerClient);
      files, owned, clientLocks := map[], map[], map[];
      EmptyIsValid();
    }

    function Contents(): Table
      reads this
    {
      Table(files, owned, clientLocks)
    }

    /** The conflicting lock that starts first; among equals, the one whose owner
        comes first. */
    method ConflictLocked(o: Owner, p: Path, r: Range, mode: Mode) returns (found: Option<Lock>)
      requires Valid(Contents())
      ensures found == None <==> !Conflicted(files, o, p, r, mode)
      ensures found.Some? ==> IsLeast(files, o, p, r, mode, found.value)
    {
      found := None;
      var rest := if p in files then files[p].Keys else {};
      ghost var seen: set<Lock> := {};
      while rest != {}
        invariant p !in files ==> rest == {}
        invariant p in files ==> rest <= files[p].Keys
        invariant Heads(found, seen)
        invariant forall l :: l in seen ==> Conflicts(files, o, p, r, mode, l)
        invariant forall l :: Conflicts(files, o, p, r, mode, l) && l.owner !in rest ==> l in seen
      {
        var other :| other in rest;
        rest := rest - {other};
        if other == o {
          continue;
        }
        found, seen := SearchOwner(o, p, r, mode, other, found, seen);
      }
    }

    /** The part of the search that goes through one other owner's ranges. */
    method SearchOwner(o: Owner, p: Path, r: Range, mode: Mode, other: Owner, sofar: Option<Lock>,
                       ghost before: set<Lock>)
      returns (found: Option<Lock>, ghost seen: set<Lock>)
      requires Valid(Contents()) && p in files && other in files[p] && other != o
      requires Heads(sofar, before)
      requires forall l :: l in before ==> Conflicts(files, o, p, r, mode, l)
      ensures Heads(found, seen) && before <= seen
      ensures forall l :: l in seen ==> Conflicts(files, o, p, r, mode, l)
      ensures forall l :: Conflicts(files, o, p, r, mode, l) && l.owner == other ==> l in seen
    {
      hide Heads, Earlier, Canonical, IndexOk, CountsOk, Compatible;
      found, seen := sofar, before;
      var ranges := files[p][other];
      for i := 0 to |ranges|
        invariant Heads(found, seen) && before <= seen
        invariant forall l :: l in seen ==> Conflicts(files, o, p, r, mode, l)
        invariant forall j :: 0 <= j < i && Conflicts(files, o, p, r, mode, Lock(ranges[j], other)) ==>
                    Lock(ranges[j], other) in seen
      {
        var h := ranges[i];
        if !Overlaps(h, r) || (h.mode == Shared && mode == Shared) {
          continue;
        }
        var lock := Lock(h, other);
        BetterHeads(files, p, found, seen, lock);
        if Replaces(found, lock) {
          found := Some(lock);
        }
        seen := seen + {lock};
      }
      forall l | Conflicts(files, o, p, r, mode, l) && l.owner == other ensures l in seen {
        var j :| 0 <= j < |ranges| && ranges[j] == l.held;
        assert l == Lock(ranges[j], other);
      }
    }

    /** The number of ranges held on a path. */
    method FileLockCount(p: Path) returns (count: nat)
      ensures count == |HeldSlots(files, OnPath(p))|
    {
      count := 0;
      var rest := if p in files then files[p].Keys else {};
      ghost var counted: set<Slot> := {};
      while rest != {}
        invariant p !in files ==> rest == {}
        invariant p in files ==> rest <= files[p].Keys
        invariant count == |counted|
        invariant forall s: Slot :: s in counted <==> s in HeldSlots(files, OnPath(p)) && s.1 !in rest
      {
        var other :| other in rest;
        rest := rest - {other};
        count := count + |files[p][other]|;
        SlotsCount(p, other, |files[p][other]|);
        ghost var more := Slots(p, other, |files[p][other]|);
        assert counted !! more;
        counted := counted + more;
        forall s: Slot ensures s in HeldSlots(files, OnPath(p)) && s.1 == other <==> s in more {
          HeldSlotsRanges(files, OnPath(p), s);
          assert s == (s.0, s.1, s.2);
        }
      }
      assert counted == HeldSlots(files, OnPath(p)) by {
        forall s: Slot ensures s in counted <==> s in HeldSlots(files, OnPath(p)) {}
      }
    }

    /** Stores an owner's ranges and keeps the index and the count in step. */
    method SetLocked(o: Owner, p: Path, ranges: seq<Held>, delta: int)
      requires delta == |ranges| - |Ranges(files, p, o)|
      modifies this
      ensures Contents() == Stored(old(Contents()), o, p, ranges)
    {
      var owners := if p in files then files[p] else map[];
      if ranges == [] {
        owners := owners - {o};
        if owners == map[] {
          files := files - {p};
        } else {
          files := files[p := owners];
        }
        if o in owned {
          var paths := owned[o] - {p};
          owned := if paths == {} then owned - {o} else owned[o := paths];
        }
      } else {
        files := files[p := owners[o := ranges]];
        owned := owned[o := (if o in owned then owned[o] else {}) + {p}];
      }
      var n := Count(clientLocks, o.client) + delta;
      if n > 0 {
        clientLocks := clientLocks[o.client := n];
      } else {
        clientLocks := clientLocks - {o.client};
      }
    }

    method AcquireRange(o: Owner, p: Path, r: Range, mode: Mode) returns (answer: Answer)
      requires Valid(Contents())
      modifies this
      ensures Valid(Contents())
      ensures Contents() == AfterLock(old(Contents()), caps, o, p, r, mode)
      ensures answer == Granted <==> Grants(old(Contents()), caps, o, p, r, mode)
      ensures answer == Invalid <==> r.start >= r.end || mode == Unknown
      ensures answer.Denied? <==> WellFormed(r, mode) && Conflicted(old(files), o, p, r, mode)
      ensures answer.Denied? ==> IsLeast(old(files), o, p, r, mode, answer.lock)
      ensures forall m :: R.Represents(old(files), m) ==>
                && Reply(answer) == R.Answer(m, caps, LockOp(o, p, r, mode))
                && R.Represents(files, R.Next(m, caps, LockOp(o, p, r, mode)))
    {
      hide Valid, Ranges, HeldSlots, Locked, Stored, Conflicted, IsLeast, Count, R.Represents, R.Answer, R.Next;
      AnswersAsReference(Contents(), caps, LockOp(o, p, r, mode));
      if r.start >= r.end || mode == Unknown {
        return Invalid;
      }
      var conflict := ConflictLocked(o, p, r, mode);
      if conflict.Some? {
        return Denied(conflict.value);
      }
      var before := Ranges(files, p, o);
      var after := Replace(before, r, mode);
      var delta := |after| - |before|;
      if delta > 0 {
        var n := FileLockCount(p);
        if n + delta > caps.perFile || Count(clientLocks, o.client) + delta > caps.perClient {
          return LimitExceeded;
        }
      }
      LockFacts(Contents(), caps, o, p, r, mode);
      SetLocked(o, p, after, delta);
      return Granted;
    }

    /** The owner's ranges with r in mode put over them. The subtraction works on
        a copy, and the merge in place on that copy alone. */
    static method Replace(before: seq<Held>, r: Range, mode: Mode) returns (after: seq<Held>)
      ensures after == Locked(before, r, mode)
    {
      var rest := Subtract(before, r);
      var all := rest + [Held(r.start, r.end, mode)];
      var a := new Held[|all|](i requires 0 <= i < |all| => all[i]);
      assert a[..] == all;
      var n := Coalesce(a);
      after := a[..n];
    }

    method ReleaseRange(o: Owner, p: Path, r: Range) returns (ok: bool)
      requires Valid(Contents())
      modifies this
      ensures Valid(Contents()) && Contents() == AfterUnlock(old(Contents()), o, p, r)
      ensures ok <==> r.start < r.end
      ensures forall m :: R.Represents(old(files), m) ==>
                R.Represents(files, R.Next(m, caps, UnlockOp(o, p, r)))
    {
      AnswersAsReference(Contents(), caps, UnlockOp(o, p, r));
      hide R.Represents, R.Answer, R.Next;
      if r.start >= r.end {
        return false;
      }
      UnlockFacts(Contents(), o, p, r);
      var before := Ranges(files, p, o);
      var after := Subtract(before, r);
      SetLocked(o, p, after, |after| - |before|);
      return true;
    }

    method Test(o: Owner, p: Path, r: Range, mode: Mode) returns (answer: Answer)
      requires Valid(Contents())
      ensures answer == Invalid <==> r.start >= r.end || mode == Unknown
      ensures answer.Denied? <==> WellFormed(r, mode) && Conflicted(files, o, p, r, mode)
      ensures answer.Denied? ==> IsLeast(files, o, p, r, mode, answer.lock)
      ensures answer != LimitExceeded
      ensures forall m :: R.Represents(files, m) ==> Reply(answer) == R.Answer(m, caps, TestOp(o, p, r, mode))
    {
      AnswersAsReference(Contents(), caps, TestOp(o, p, r, mode));
      hide R.Represents, R.Answer, R.Next;
      if r.start >= r.end || mode == Unknown {
        return Invalid;
      }
      var conflict := ConflictLocked(o, p, r, mode);
      return if conflict.Some? then Denied(conflict.value) else Granted;
    }

    method ReleaseOwner(o: Owner)
      requires Valid(Contents())
      modifies this
      ensures Valid(Contents()) && Contents() == AfterRelease(old(Contents()), {o})
      ensures forall m :: R.Represents(old(files), m) ==> R.Represents(files, R.Next(m, caps, ReleaseOwnerOp(o)))
    {
      AnswersAsReference(Contents(), caps, ReleaseOwnerOp(o));
      hide R.Represents, R.Next;
      ghost var before := Contents();
      var rest := if o in owned then owned[o] else {};
      ClearedAtStart(before, o, rest);
      hide Valid, Cleared, Stored, Ranges;
      while rest != {}
        invariant Valid(Contents()) && Cleared(before.files, files, o, rest)
      {
        var p :| p in rest;
        ClearOne(before, Contents(), o, rest, p);
        rest := rest - {p};
        SetLocked(o, p, [], -|Ranges(files, p, o)|);
      }
      ClearedAll(before, Contents(), o);
    }

    method ReleaseClient(client: string)
      requires Valid(Contents())
      modifies this
      ensures Valid(Contents()) && Contents() == AfterRelease(old(Contents()), OwnersOf(old(Contents()), client))
      ensures forall m :: R.Represents(old(files), m) ==> R.Represents(files, R.Next(m, caps, ReleaseClientOp(client)))
    {
      AnswersAsReference(Contents(), caps, ReleaseClientOp(client));
      hide R.Represents, R.Next;
      ghost var before := Contents();
      var rest := owned.Keys;
      ghost var gone: set<Owner> := {};
      while rest != {}
        invariant Valid(Contents()) && rest <= before.owned.Keys
        invariant gone <= OwnersOf(before, client)
        invariant forall o :: o in OwnersOf(before, client) ==> o in gone || o in rest
        invariant forall p, w :: Ranges(files, p, w) == if w in gone then [] else Ranges(before.files, p, w)
      {
        var o :| o in rest;
        rest := rest - {o};
        if o.client == client {
          ReleaseFacts(Contents(), {o});
          ReleaseOwner(o);
          gone := gone + {o};
        }
      }
      assert gone == OwnersOf(before, client);
      ReleaseFacts(before, gone);
      RangesDetermineTable(Contents(), AfterRelease(before, gone));
    }
  }

  lemma AnswersAsReference(t: Table, caps: Caps, op: Op)
    requires Valid(t)
    ensures forall m :: R.Represents(t.files, m) ==>
              R.TableAnswer(t, caps, op) == R.Answer(m, caps, op) &&
              R.Represents(After(t, caps, op).files, R.Next(m, caps, op))
  {
    forall m | R.Represents(t.files, m)
      ensures R.TableAnswer(t, caps, op) == R.Answer(m, caps, op)
      ensures R.Represents(After(t, caps, op).files, R.Next(m, caps, op))
    {
      R.StepRefines(t, m, caps, op);
    }
  }

  /** now is before with the ranges of o gone, except on the paths in rest. */
  ghost predicate Cleared(before: Files, now: Files, o: Owner, rest: set<Path>) {
    forall p, w :: Ranges(now, p, w) == if w == o && p !in rest then [] else Ranges(before, p, w)
  }

  lemma ClearedAtStart(t: Table, o: Owner, rest: set<Path>)
    requires Valid(t) && rest == if o in t.owned then t.owned[o] else {}
    ensures Cleared(t.files, t.files, o, rest)
  {
  }

  lemma ClearOne(before: Table, t: Table, o: Owner, rest: set<Path>, p: Path)
    requires Valid(t) && Cleared(before.files, t.files, o, rest) && p in rest
    ensures Valid(Stored(t, o, p, [])) && Cleared(before.files, Stored(t, o, p, []).files, o, rest - {p})
  {
    assert forall b: nat :: ModeAt([], b) == None;
    StoredKeepsValid(t, o, p, []);
    SetFilesRanges(t.files, o, p, []);
    hide Valid, SetFiles, Ranges, ModeAt;
  }

  lemma ClearedAll(before: Table, t: Table, o: Owner)
    requires Valid(before) && Valid(t) && Cleared(before.files, t.files, o, {})
    ensures t == AfterRelease(before, {o})
  {
    ReleaseFacts(before, {o});
    hide Valid, Ranges, AfterRelease;
    RangesDetermineTable(t, AfterRelease(before, {o}));
  }
}
