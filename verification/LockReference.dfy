/** What the lock table means: a plain model that knows only which byte of which
    file each owner holds, and in which mode, and that the table refines. */
module LockReference {
  import opened Common
  import opened LockRanges
  import opened LockTable

  type Spot = (Path, Owner, nat)

  type Holding = map<Spot, Mode>

  function HeldAs(m: Holding, p: Path, o: Owner, b: nat): Option<Mode> {
    if (p, o, b) in m then Some(m[(p, o, b)]) else None
  }

  function Spots(p: Path, o: Owner, r: Range): set<Spot> {
    set b: nat | r.start <= b < r.end :: (p, o, b)
  }

  function Put(m: Holding, o: Owner, p: Path, r: Range, mode: Mode): Holding {
    m + map s | s in Spots(p, o, r) :: mode
  }

  /** Another owner holds a byte of r, and not both would hold it shared. */
  predicate Clashes(m: Holding, o: Owner, p: Path, r: Range, mode: Mode) {
    exists s :: s in m && s.0 == p && s.1 != o && InRange(r, s.2) && !(m[s] == Shared && mode == Shared)
  }

  /** The first byte of a stretch that an owner holds in one mode. */
  predicate Begins(m: Holding, s: Spot) {
    s in m && (s.2 == 0 || HeldAs(m, s.0, s.1, s.2 - 1) != Some(m[s]))
  }

  function Stretches(m: Holding, f: Filter): set<Spot> {
    set s | s in m && Passes(f, s.0, s.1) && Begins(m, s)
  }

  /** The lock adds to the stretches held on the file, and they or the client's are
      then more than may be. */
  predicate Exceeds(m: Holding, after: Holding, caps: Caps, o: Owner, p: Path) {
    |Stretches(after, OnPath(p))| > |Stretches(m, OnPath(p))| &&
    (|Stretches(after, OnPath(p))| > caps.perFile || |Stretches(after, OfClient(o.client))| > caps.perClient)
  }

  datatype Reply = Granted | Invalid | Denied | LimitExceeded

  function Answer(m: Holding, caps: Caps, op: Op): Reply {
    match op
    case LockOp(o, p, r, mode) =>
      if !WellFormed(r, mode) then Invalid
      else if Clashes(m, o, p, r, mode) then Denied
      else if Exceeds(m, Put(m, o, p, r, mode), caps, o, p) then LimitExceeded
      else Granted
    case UnlockOp(_, _, r) => if r.start < r.end then Granted else Invalid
    case TestOp(o, p, r, mode) =>
      if !WellFormed(r, mode) then Invalid else if Clashes(m, o, p, r, mode) then Denied else Granted
    case ReleaseOwnerOp(_) => Granted
    case ReleaseClientOp(_) => Granted
  }

  function Next(m: Holding, caps: Caps, op: Op): Holding {
    match op
    case LockOp(o, p, r, mode) => if Answer(m, caps, op) == Granted then Put(m, o, p, r, mode) else m
    case UnlockOp(o, p, r) => m - Spots(p, o, r)
    case TestOp(_, _, _, _) => m
    case ReleaseOwnerOp(o) => map s | s in m && s.1 != o :: m[s]
    case ReleaseClientOp(client) => map s | s in m && s.1.client != client :: m[s]
  }

  function NextAll(m: Holding, caps: Caps, ops: seq<Op>): Holding
    decreases ops
  {
    if ops == [] then m else NextAll(Next(m, caps, ops[0]), caps, ops[1..])
  }

  function Answers(m: Holding, caps: Caps, ops: seq<Op>): seq<Reply>
    decreases ops
  {
    if ops == [] then [] else [Answer(m, caps, ops[0])] + Answers(Next(m, caps, ops[0]), caps, ops[1..])
  }

  // ---- what the table answers ----

  ghost function TableAnswer(t: Table, caps: Caps, op: Op): Reply {
    match op
    case LockOp(o, p, r, mode) =>
      if !WellFormed(r, mode) then Invalid
      else if Conflicted(t.files, o, p, r, mode) then Denied
      else if Grants(t, caps, o, p, r, mode) then Granted
      else LimitExceeded
    case UnlockOp(_, _, r) => if r.start < r.end then Granted else Invalid
    case TestOp(o, p, r, mode) =>
      if !WellFormed(r, mode) then Invalid else if Conflicted(t.files, o, p, r, mode) then Denied else Granted
    case ReleaseOwnerOp(_) => Granted
    case ReleaseClientOp(_) => Granted
  }

  ghost function TableAnswers(t: Table, caps: Caps, ops: seq<Op>): seq<Reply>
    decreases ops
  {
    if ops == [] then []
    else [TableAnswer(t, caps, ops[0])] + TableAnswers(LockTable.After(t, caps, ops[0]), caps, ops[1..])
  }

  /** The table and the plain model hold the same bytes. */
  ghost predicate Represents(files: Files, m: Holding) {
    forall p, o, b: nat :: ModeAt(Ranges(files, p, o), b) == HeldAs(m, p, o, b)
  }

  // ---- ranges and stretches ----

  lemma {:induction false} IndexOrdered(s: seq<Held>, i: nat, j: nat)
    requires Ordered(s) && i < j < |s|
    ensures s[i].start < s[i].end <= s[j].start
    decreases |s|
  {
    if j == |s| - 1 {
      EndBeforeLast(s, i);
      OrderedMember(s, i);
    } else {
      IndexOrdered(Front(s), i, j);
    }
  }

  /** Ranges that touch have different modes. */
  lemma {:induction false} TouchingDiffer(s: seq<Held>, i: nat)
    requires Canonical(s) && i + 1 < |s| && s[i].end == s[i + 1].start
    ensures s[i].mode != s[i + 1].mode
    decreases |s|
  {
    if i + 1 < |s| - 1 { TouchingDiffer(Front(s), i); }
  }

  /** The byte before a range is not held in the range's mode. */
  lemma StartsAfresh(s: seq<Held>, i: nat)
    requires Canonical(s) && i < |s| && s[i].start > 0
    ensures ModeAt(s, s[i].start - 1) != Some(s[i].mode)
  {
    CanonicalIsOrdered(s);
    var b := s[i].start - 1;
    if ModeAt(s, b) != None {
      var j := ModeGivesRange(s, b);
      if i < j {
        IndexOrdered(s, i, j);
      } else if j + 1 < i {
        IndexOrdered(s, j, j + 1);
        IndexOrdered(s, j + 1, i);
      } else if j + 1 == i {
        IndexOrdered(s, j, i);
        TouchingDiffer(s, j);
      }
    }
  }

  /** A byte begins a stretch exactly when a range starts with it. */
  lemma BeginsExactly(files: Files, m: Holding, s: Spot)
    requires ListsOk(files) && Represents(files, m)
    ensures var ranges := Ranges(files, s.0, s.1);
            Begins(m, s) <==> exists i :: 0 <= i < |ranges| && ranges[i].start == s.2
  {
    var ranges := Ranges(files, s.0, s.1);
    CanonicalRanges(files, s.0, s.1);
    assert s == (s.0, s.1, s.2);
    assert ModeAt(ranges, s.2) == HeldAs(m, s.0, s.1, s.2);
    if s.2 > 0 {
      assert ModeAt(ranges, s.2 - 1) == HeldAs(m, s.0, s.1, s.2 - 1);
    }
    if Begins(m, s) {
      var i := ModeGivesRange(ranges, s.2);
      if ranges[i].start < s.2 {
        RangeGivesMode(ranges, i, s.2 - 1);
      }
      assert ranges[i].start == s.2;
    }
    if i :| 0 <= i < |ranges| && ranges[i].start == s.2 {
      OrderedMember(ranges, i);
      RangeGivesMode(ranges, i, s.2);
      if s.2 > 0 { StartsAfresh(ranges, i); }
    }
  }

  /** Where the range of a slot starts. */
  function StartOf(files: Files, s: Slot): Spot
    requires s.2 < |Ranges(files, s.0, s.1)|
  {
    (s.0, s.1, Ranges(files, s.0, s.1)[s.2].start)
  }

  lemma StartsDiffer(files: Files, s: Slot, t: Slot)
    requires ListsOk(files) && s != t
    requires s.2 < |Ranges(files, s.0, s.1)| && t.2 < |Ranges(files, t.0, t.1)|
    ensures StartOf(files, s) != StartOf(files, t)
  {
    CanonicalRanges(files, s.0, s.1);
    if s.0 == t.0 && s.1 == t.1 {
      assert s.2 != t.2 by { assert s == (s.0, s.1, s.2) && t == (t.0, t.1, t.2); }
      IndexOrdered(Ranges(files, s.0, s.1), if s.2 < t.2 then s.2 else t.2, if s.2 < t.2 then t.2 else s.2);
    }
  }

  lemma {:induction false} ImageCounts(files: Files, slots: set<Slot>, starts: set<Spot>)
    requires ListsOk(files) && forall s :: s in slots ==> s.2 < |Ranges(files, s.0, s.1)|
    requires starts == set s | s in slots :: StartOf(files, s)
    ensures |starts| == |slots|
    decreases |slots|
  {
    if slots != {} {
      var s :| s in slots;
      var rest := slots - {s};
      forall t | t in rest ensures StartOf(files, t) != StartOf(files, s) {
        StartsDiffer(files, s, t);
      }
      hide StartOf, ListsOk;
      assert starts - {StartOf(files, s)} == set t | t in rest :: StartOf(files, t);
      ImageCounts(files, rest, starts - {StartOf(files, s)});
    }
  }

  /** The ranges a cap counts are as many as the stretches. */
  lemma SlotsAreStretches(files: Files, m: Holding, f: Filter)
    requires ListsOk(files) && Represents(files, m)
    ensures |HeldSlots(files, f)| == |Stretches(m, f)|
  {
    var slots := HeldSlots(files, f);
    forall s | s in slots ensures Passes(f, s.0, s.1) && s.2 < |Ranges(files, s.0, s.1)| {
      HeldSlotsRanges(files, f, s);
    }
    var starts := set s | s in slots :: StartOf(files, s);
    forall x: Spot ensures x in Stretches(m, f) <==> x in starts {
      StretchIsStart(files, m, f, x);
    }
    hide Stretches, HeldSlots, Ranges, ListsOk;
    assert starts == Stretches(m, f);
    ImageCounts(files, slots, starts);
  }

  lemma StretchIsStart(files: Files, m: Holding, f: Filter, x: Spot)
    requires ListsOk(files) && Represents(files, m)
    ensures x in Stretches(m, f) <==>
            exists s :: s in HeldSlots(files, f) && s.2 < |Ranges(files, s.0, s.1)| && StartOf(files, s) == x
  {
    BeginsExactly(files, m, x);
    hide Represents, ListsOk, HeldSlots, Ranges, Begins;
    var ranges := Ranges(files, x.0, x.1);
    if x in Stretches(m, f) {
      var i :| 0 <= i < |ranges| && ranges[i].start == x.2;
      HeldSlotsRanges(files, f, (x.0, x.1, i));
      assert StartOf(files, (x.0, x.1, i)) == x;
    }
    if s :| s in HeldSlots(files, f) && s.2 < |Ranges(files, s.0, s.1)| && StartOf(files, s) == x {
      HeldSlotsRanges(files, f, s);
      assert ranges[s.2].start == x.2;
      assert Begins(m, x);
      BeginsIsHeld(m, x);
    }
  }

  lemma BeginsIsHeld(m: Holding, s: Spot)
    requires Begins(m, s)
    ensures s in m
  {
  }

  // ---- each operation ----

  lemma ClashesExactly(files: Files, m: Holding, o: Owner, p: Path, r: Range, mode: Mode)
    requires ListsOk(files) && Represents(files, m) && r.start < r.end
    ensures Conflicted(files, o, p, r, mode) <==> Clashes(m, o, p, r, mode)
  {
    ConflictedBytes(files, o, p, r, mode);
    hide Conflicted, ListsOk, Ranges, ModeAt;
    if ByteConflict(files, o, p, r, mode) {
      var w, b: nat :| w != o && InRange(r, b) && !Agree(Some(mode), ModeAt(Ranges(files, p, w), b));
      assert ModeAt(Ranges(files, p, w), b) == HeldAs(m, p, w, b);
      assert (p, w, b) in m;
    }
    if s :| s in m && s.0 == p && s.1 != o && InRange(r, s.2) && !(m[s] == Shared && mode == Shared) {
      assert s == (s.0, s.1, s.2);
      assert ModeAt(Ranges(files, p, s.1), s.2) == HeldAs(m, p, s.1, s.2);
    }
  }

  /** Storing the owner's new ranges puts the mode on exactly the bytes. */
  lemma LockRepresents(files: Files, m: Holding, o: Owner, p: Path, r: Range, mode: Mode)
    requires ListsOk(files) && Represents(files, m) && r.start < r.end
    ensures var after := SetFiles(files, o, p, Locked(Ranges(files, p, o), r, mode));
            ListsOk(after) && Represents(after, Put(m, o, p, r, mode))
  {
    var ranges := Locked(Ranges(files, p, o), r, mode);
    var after := SetFiles(files, o, p, ranges);
    CanonicalRanges(files, p, o);
    LockedFacts(Ranges(files, p, o), r, mode);
    SetFilesRanges(files, o, p, ranges);
    SetFilesLists(files, o, p, ranges);
    hide Locked, ListsOk, Ranges, SetFiles, ModeAt, Canonical, Ordered;
    forall q, w, b: nat ensures ModeAt(Ranges(after, q, w), b) == HeldAs(Put(m, o, p, r, mode), q, w, b) {
      assert ModeAt(Ranges(files, q, w), b) == HeldAs(m, q, w, b);
      SpotsAt(p, o, r, q, w, b);
    }
  }

  lemma SpotsAt(p: Path, o: Owner, r: Range, q: Path, w: Owner, b: nat)
    ensures (q, w, b) in Spots(p, o, r) <==> q == p && w == o && InRange(r, b)
  {
  }

  lemma UnlockRepresents(t: Table, m: Holding, o: Owner, p: Path, r: Range)
    requires Valid(t) && Represents(t.files, m)
    ensures Represents(AfterUnlock(t, o, p, r).files, m - Spots(p, o, r))
  {
    UnlockFacts(t, o, p, r);
    var after := AfterUnlock(t, o, p, r);
    hide Valid, AfterUnlock, ModeAt, Ranges;
    forall q, w, b: nat ensures ModeAt(Ranges(after.files, q, w), b) == HeldAs(m - Spots(p, o, r), q, w, b) {
      assert LockTable.Byte(after, q, w, b) ==
             if q == p && w == o && InRange(r, b) then None else LockTable.Byte(t, q, w, b);
      assert ModeAt(Ranges(t.files, q, w), b) == HeldAs(m, q, w, b);
      SpotsAt(p, o, r, q, w, b);
    }
  }

  lemma ReleaseRepresents(t: Table, m: Holding, gone: set<Owner>, rest: Holding)
    requires Valid(t) && Represents(t.files, m)
    requires forall p, o, b: nat :: HeldAs(rest, p, o, b) == if o in gone then None else HeldAs(m, p, o, b)
    ensures Represents(AfterRelease(t, gone).files, rest)
  {
    ReleaseFacts(t, gone);
    NothingHeld();
    var after := AfterRelease(t, gone);
    hide Valid, AfterRelease, ModeAt, Ranges;
    forall p, o, b: nat ensures ModeAt(Ranges(after.files, p, o), b) == HeldAs(rest, p, o, b) {
      assert ModeAt(Ranges(t.files, p, o), b) == HeldAs(m, p, o, b);
      assert Ranges(after.files, p, o) == if o in gone then [] else Ranges(t.files, p, o);
    }
  }

  /** The caps as the table keeps them and as the stretches say. */
  lemma LimitExactly(t: Table, m: Holding, caps: Caps, o: Owner, p: Path, r: Range, mode: Mode)
    requires Valid(t) && Represents(t.files, m) && r.start < r.end
    ensures var before := Ranges(t.files, p, o);
            OverLimit(t, caps, o, p, |Locked(before, r, mode)| - |before|) <==>
            Exceeds(m, Put(m, o, p, r, mode), caps, o, p)
  {
    var ranges := Locked(Ranges(t.files, p, o), r, mode);
    var after := SetFiles(t.files, o, p, ranges);
    LockRepresents(t.files, m, o, p, r, mode);
    SetCounted(t.files, o, p, ranges, OnPath(p));
    SetCounted(t.files, o, p, ranges, OfClient(o.client));
    SlotsAreStretches(t.files, m, OnPath(p));
    SlotsAreStretches(after, Put(m, o, p, r, mode), OnPath(p));
    SlotsAreStretches(after, Put(m, o, p, r, mode), OfClient(o.client));
    hide Locked, ListsOk, Ranges, SetFiles, HeldSlots, Stretches, Represents, Put, IndexOk, Compatible;
  }

  /** One operation gets the same answer from both, and leaves both the same. */
  lemma StepRefines(t: Table, m: Holding, caps: Caps, op: Op)
    requires Valid(t) && Represents(t.files, m)
    ensures TableAnswer(t, caps, op) == Answer(m, caps, op)
    ensures Valid(LockTable.After(t, caps, op)) && Represents(LockTable.After(t, caps, op).files, Next(m, caps, op))
  {
    match op {
      case LockOp(o, p, r, mode) => LockRefines(t, m, caps, o, p, r, mode);
      case UnlockOp(o, p, r) =>
        UnlockFacts(t, o, p, r);
        UnlockRepresents(t, m, o, p, r);
      case TestOp(o, p, r, mode) =>
        if WellFormed(r, mode) { ClashesExactly(t.files, m, o, p, r, mode); }
      case ReleaseOwnerOp(o) =>
        ReleaseFacts(t, {o});
        ReleaseRepresents(t, m, {o}, Next(m, caps, op));
      case ReleaseClientOp(client) =>
        ClientRefines(t, m, caps, client);
    }
  }

  lemma LockRefines(t: Table, m: Holding, caps: Caps, o: Owner, p: Path, r: Range, mode: Mode)
    requires Valid(t) && Represents(t.files, m)
    ensures var op := LockOp(o, p, r, mode);
            && TableAnswer(t, caps, op) == Answer(m, caps, op)
            && Valid(LockTable.After(t, caps, op))
            && Represents(LockTable.After(t, caps, op).files, Next(m, caps, op))
  {
    if WellFormed(r, mode) {
      ClashesExactly(t.files, m, o, p, r, mode);
      LimitExactly(t, m, caps, o, p, r, mode);
      if Grants(t, caps, o, p, r, mode) {
        LockFacts(t, caps, o, p, r, mode);
        LockRepresents(t.files, m, o, p, r, mode);
      }
    }
    hide Valid, Represents, Conflicted, Clashes, Exceeds, OverLimit, Locked, Put;
  }

  lemma ClientRefines(t: Table, m: Holding, caps: Caps, client: string)
    requires Valid(t) && Represents(t.files, m)
    ensures var op := ReleaseClientOp(client);
            && Valid(LockTable.After(t, caps, op))
            && Represents(LockTable.After(t, caps, op).files, Next(m, caps, op))
  {
    var gone, rest := OwnersOf(t, client), Next(m, caps, ReleaseClientOp(client));
    ReleaseFacts(t, gone);
    NothingHeld();
    forall p, o, b: nat ensures HeldAs(rest, p, o, b) == if o in gone then None else HeldAs(m, p, o, b) {
      if o.client == client && o !in gone {
        UnlistedOwner(t, o, p);
        assert ModeAt(Ranges(t.files, p, o), b) == HeldAs(m, p, o, b);
      }
    }
    ReleaseRepresents(t, m, gone, rest);
  }

  /** Over every run, the table gives the answers of the plain model, and then
      holds the bytes it holds, with the lists, the index and the counts exact. */
  lemma {:induction false} RunRefines(t: Table, m: Holding, caps: Caps, ops: seq<Op>)
    requires Valid(t) && Represents(t.files, m)
    ensures TableAnswers(t, caps, ops) == Answers(m, caps, ops)
    ensures Valid(AfterAll(t, caps, ops)) && Represents(AfterAll(t, caps, ops).files, NextAll(m, caps, ops))
    decreases ops
  {
    if ops != [] {
      StepRefines(t, m, caps, ops[0]);
      hide Valid, Represents, Next, Answer, TableAnswer, LockTable.After;
      RunRefines(LockTable.After(t, caps, ops[0]), Next(m, caps, ops[0]), caps, ops[1..]);
    }
  }

  lemma EmptyRepresents()
    ensures Valid(EmptyTable) && Represents(EmptyTable.files, map[])
  {
    EmptyIsValid();
    NothingHeld();
  }

  /** From the start, in particular, no two owners ever hold a common byte unless
      both hold it shared. */
  lemma NeverClash(caps: Caps, ops: seq<Op>, p: Path, o: Owner, w: Owner, b: nat)
    requires o != w
    ensures var m := NextAll(map[], caps, ops);
            Agree(HeldAs(m, p, o, b), HeldAs(m, p, w, b))
  {
    EmptyRepresents();
    RunRefines(EmptyTable, map[], caps, ops);
    var t, m := AfterAll(EmptyTable, caps, ops), NextAll(map[], caps, ops);
    hide AfterAll, NextAll, TableAnswers, Answers;
    assert Agree(ModeAt(Ranges(t.files, p, o), b), ModeAt(Ranges(t.files, p, w), b));
    assert ModeAt(Ranges(t.files, p, o), b) == HeldAs(m, p, o, b);
    assert ModeAt(Ranges(t.files, p, w), b) == HeldAs(m, p, w, b);
  }
}
