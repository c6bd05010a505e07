/** The interval arithmetic of the byte-range lock table
    (internal/lock/manager.go): one owner's ranges on one file. */
module LockRanges {
  import opened Common

  datatype Mode = Shared | Exclusive | Unknown

  /** The bytes from start up to, not including, end. Both are 64-bit values in
      the table; no arithmetic is done on them. */
  datatype Range = Range(start: nat, end: nat)

  datatype Held = Held(start: nat, end: nat, mode: Mode)

  predicate Covers(h: Held, b: nat) {
    h.start <= b < h.end
  }

  predicate InRange(r: Range, b: nat) {
    r.start <= b < r.end
  }

  predicate Overlaps(h: Held, r: Range) {
    h.start < r.end && r.start < h.end
  }

  function Last(s: seq<Held>): Held
    requires s != []
  {
    s[|s| - 1]
  }

  function Front(s: seq<Held>): seq<Held>
    requires s != []
  {
    s[..|s| - 1]
  }

  /** The mode in which a list of ranges holds byte b. */
  function ModeAt(s: seq<Held>, b: nat): Option<Mode> {
    if s == [] then None
    else if Covers(Last(s), b) then Some(Last(s).mode)
    else ModeAt(Front(s), b)
  }

  /** Every range of s ends at or before x. */
  predicate EndsBy(s: seq<Held>, x: nat) {
    s == [] || Last(s).end <= x
  }

  /** Non-empty ranges, each ending before the next starts. */
  predicate Ordered(s: seq<Held>) {
    s == [] || (Ordered(Front(s)) && Last(s).start < Last(s).end && EndsBy(Front(s), Last(s).start))
  }

  /** h starts after s and could not be merged with its last range. */
  predicate Separate(s: seq<Held>, h: Held) {
    s == [] || Last(s).end < h.start || (Last(s).end == h.start && Last(s).mode != h.mode)
  }

  /** Ordered, with no two ranges that could be merged. */
  predicate Canonical(s: seq<Held>) {
    s == [] || (Canonical(Front(s)) && Last(s).start < Last(s).end && Separate(Front(s), Last(s)))
  }

  /** No range of s shares a byte with r. */
  predicate Untouched(s: seq<Held>, r: Range) {
    s == [] || (Untouched(Front(s), r) && !Overlaps(Last(s), r))
  }

  lemma Append(s: seq<Held>, h: Held)
    ensures s + [h] != [] && Front(s + [h]) == s && Last(s + [h]) == h
    ensures Ordered(s + [h]) <==> Ordered(s) && h.start < h.end && EndsBy(s, h.start)
    ensures Canonical(s + [h]) <==> Canonical(s) && h.start < h.end && Separate(s, h)
    ensures forall r :: Untouched(s + [h], r) <==> Untouched(s, r) && !Overlaps(h, r)
    ensures forall b :: ModeAt(s + [h], b) == if Covers(h, b) then Some(h.mode) else ModeAt(s, b)
  {
    assert Front(s + [h]) == s;
  }

  /** The same facts for a list taken apart, and for the empty one. */
  lemma Apart(s: seq<Held>)
    ensures s == [] ==> Ordered(s) && Canonical(s) && forall r :: Untouched(s, r)
    ensures s == [] ==> forall b :: ModeAt(s, b) == None
    ensures s != [] ==> s == Front(s) + [Last(s)] && |Front(s)| + 1 == |s|
    ensures s != [] ==>
              (Ordered(s) <==> Ordered(Front(s)) && Last(s).start < Last(s).end && EndsBy(Front(s), Last(s).start))
    ensures s != [] ==>
              (Canonical(s) <==> Canonical(Front(s)) && Last(s).start < Last(s).end && Separate(Front(s), Last(s)))
    ensures s != [] ==> forall r :: Untouched(s, r) <==> Untouched(Front(s), r) && !Overlaps(Last(s), r)
    ensures s != [] ==>
              forall b :: ModeAt(s, b) == if Covers(Last(s), b) then Some(Last(s).mode) else ModeAt(Front(s), b)
  {
  }

  lemma {:induction false} CanonicalIsOrdered(s: seq<Held>)
    requires Canonical(s)
    ensures Ordered(s)
  {
    if s != [] { CanonicalIsOrdered(Front(s)); }
  }

  // ---- subtract ----

  function Piece(start: nat, end: nat, mode: Mode): seq<Held> {
    if start < end then [Held(start, end, mode)] else []
  }

  /** What is left of one range. */
  function Pieces(h: Held, sub: Range): seq<Held> {
    if !Overlaps(h, sub) then [h] else Piece(h.start, sub.start, h.mode) + Piece(sub.end, h.end, h.mode)
  }

  function Subtracted(s: seq<Held>, sub: Range): seq<Held> {
    if s == [] then [] else Subtracted(Front(s), sub) + Pieces(Last(s), sub)
  }

  method Subtract(ranges: seq<Held>, sub: Range) returns (out: seq<Held>)
    ensures out == Subtracted(ranges, sub)
  {
    out := [];
    for i := 0 to |ranges|
      invariant out == Subtracted(ranges[..i], sub)
    {
      var h := ranges[i];
      assert Front(ranges[..i + 1]) == ranges[..i];
      if !Overlaps(h, sub) {
        out := out + [h];
        continue;
      }
      if h.start < sub.start {
        out := out + [Held(h.start, sub.start, h.mode)];
      }
      if sub.end < h.end {
        out := out + [Held(sub.end, h.end, h.mode)];
      }
    }
    assert ranges[..|ranges|] == ranges;
  }

  /** Subtracting clears exactly the bytes of sub, touches nothing of it
      afterwards, and keeps the list canonical. */
  lemma {:induction false} SubtractedFacts(s: seq<Held>, sub: Range)
    requires Canonical(s) && sub.start < sub.end
    ensures Canonical(Subtracted(s, sub)) && Untouched(Subtracted(s, sub), sub)
    ensures forall b :: ModeAt(Subtracted(s, sub), b) == if InRange(sub, b) then None else ModeAt(s, b)
    ensures Subtracted(s, sub) != [] ==> s != [] && Last(Subtracted(s, sub)).end <= Last(s).end
    ensures Subtracted(s, sub) != [] && Last(Subtracted(s, sub)).end == Last(s).end ==>
              Last(Subtracted(s, sub)).mode == Last(s).mode
    decreases |s|
  {
    hide Ordered, Canonical, Untouched, ModeAt, Front, Last;
    Apart(s);
    if s != [] {
      var before, h := Subtracted(Front(s), sub), Last(s);
      SubtractedFacts(Front(s), sub);
      if !Overlaps(h, sub) {
        Append(before, h);
      } else {
        var left, right := Piece(h.start, sub.start, h.mode), Piece(sub.end, h.end, h.mode);
        assert before + (left + right) == (before + left) + right;
        if left != [] { Append(before, left[0]); } else { assert before + left == before; }
        if right != [] { Append(before + left, right[0]); } else { assert before + left + right == before + left; }
      }
    }
  }

  // ---- sort and coalesce ----

  /** Where sorting by start puts one range more. */
  function Insert(s: seq<Held>, h: Held): seq<Held> {
    if s == [] || Last(s).start <= h.start then s + [h] else Insert(Front(s), h) + [Last(s)]
  }

  function Sorted(s: seq<Held>): seq<Held> {
    if s == [] then [] else Insert(Sorted(Front(s)), Last(s))
  }

  predicate Ascending(s: seq<Held>) {
    s == [] || (Ascending(Front(s)) && (Front(s) == [] || Last(Front(s)).start <= Last(s).start))
  }

  lemma AscendingAppend(s: seq<Held>, h: Held)
    ensures Front(s + [h]) == s && Last(s + [h]) == h
    ensures Ascending(s + [h]) <==> Ascending(s) && (s == [] || Last(s).start <= h.start)
  {
    assert Front(s + [h]) == s;
  }

  lemma {:induction false} InsertAscends(s: seq<Held>, h: Held)
    requires Ascending(s)
    ensures Ascending(Insert(s, h)) && Insert(s, h) != []
    ensures Last(Insert(s, h)).start == if s == [] then h.start else Max(Last(s).start, h.start)
  {
    if s == [] || Last(s).start <= h.start {
      AscendingAppend(s, h);
    } else {
      InsertAscends(Front(s), h);
      AscendingAppend(Insert(Front(s), h), Last(s));
    }
  }

  lemma {:induction false} InsertPermutes(s: seq<Held>, h: Held)
    ensures multiset(Insert(s, h)) == multiset(s) + multiset{h} && |Insert(s, h)| == |s| + 1
  {
    if s != [] && Last(s).start > h.start {
      InsertPermutes(Front(s), h);
      assert s == Front(s) + [Last(s)];
    }
  }

  /** Sorting yields a permutation in ascending order of start. */
  lemma {:induction false} SortedSorts(s: seq<Held>)
    ensures Ascending(Sorted(s)) && multiset(Sorted(s)) == multiset(s) && |Sorted(s)| == |s|
  {
    if s != [] {
      var front, last := Front(s), Last(s);
      assert s == front + [last];
      SortedSorts(front);
      hide Ascending, Insert;
      InsertAscends(Sorted(front), last);
      InsertPermutes(Sorted(front), last);
    }
  }

  /** The list so far with h merged into its last range, or put after it. */
  function Absorb(s: seq<Held>, h: Held): seq<Held> {
    if s != [] && h.mode == Last(s).mode && h.start <= Last(s).end
    then Front(s) + [Last(s).(end := Max(Last(s).end, h.end))]
    else s + [h]
  }

  function Merged(s: seq<Held>): seq<Held> {
    if s == [] then [] else Absorb(Merged(Front(s)), Last(s))
  }

  lemma MergedAppend(s: seq<Held>, i: nat)
    requires i < |s|
    ensures Merged(s[..i + 1]) == Absorb(Merged(s[..i]), s[i])
  {
    assert Front(s[..i + 1]) == s[..i];
  }

  /** Merges h into the first n elements, or puts it after them. */
  method AbsorbNext(a: array<Held>, n: nat, h: Held) returns (m: nat)
    requires 0 < n < a.Length
    modifies a
    ensures 0 < m <= n + 1 && a[..m] == Absorb(old(a[..n]), h)
    ensures forall j :: n < j < a.Length ==> a[j] == old(a[j])
  {
    AbsorbInPlace(a[..n], h);
    if h.mode == a[n - 1].mode && h.start <= a[n - 1].end {
      if h.end > a[n - 1].end {
        a[n - 1] := a[n - 1].(end := h.end);
        assert a[..n] == old(a[..n])[n - 1 := a[n - 1]];
      }
      return n;
    }
    a[n] := h;
    assert a[..n + 1] == old(a[..n]) + [h];
    return n + 1;
  }

  /** Merges neighbours in place; the result is the first n elements. */
  method MergeInPlace(a: array<Held>) returns (n: nat)
    requires a.Length > 0
    modifies a
    ensures n <= a.Length && a[..n] == Merged(old(a[..]))
  {
    ghost var before := a[..];
    n := 1;
    MergedAppend(before, 0);
    hide Merged, Absorb;
    for i := 1 to a.Length
      invariant 1 <= n <= i
      invariant a[..n] == Merged(before[..i])
      invariant forall j :: i <= j < a.Length ==> a[j] == before[j]
    {
      MergedAppend(before, i);
      n := AbsorbNext(a, n, a[i]);
    }
    assert before[..a.Length] == before;
  }

  lemma AbsorbInPlace(s: seq<Held>, h: Held)
    requires s != []
    ensures var k := |s| - 1;
            Absorb(s, h) == if h.mode == s[k].mode && h.start <= s[k].end
                            then (if h.end > s[k].end then s[k := s[k].(end := h.end)] else s)
                            else s + [h]
  {
  }

  /** coalesce: sorts by start, then merges. */
  method Coalesce(a: array<Held>) returns (n: nat)
    modifies a
    ensures n <= a.Length && a[..n] == Merged(Sorted(old(a[..])))
  {
    if a.Length < 2 {
      assert Sorted(a[..]) == a[..] && Merged(a[..]) == a[..];
      return a.Length;
    }
    SortedSorts(a[..]);
    var sorted := Sorted(a[..]);
    forall i | 0 <= i < a.Length {
      a[i] := sorted[i];
    }
    assert a[..] == sorted;
    n := MergeInPlace(a);
  }

  /** Merging an ordered list changes the mode of no byte and leaves it canonical. */
  lemma {:induction false} MergedFacts(s: seq<Held>)
    requires Ordered(s)
    ensures Canonical(Merged(s))
    ensures forall b :: ModeAt(Merged(s), b) == ModeAt(s, b)
    ensures s != [] ==> Merged(s) != [] && Last(Merged(s)).end == Last(s).end
    decreases |s|
  {
    hide Ordered, Canonical, Untouched, ModeAt, Front, Last;
    Apart(s);
    if s != [] {
      var m, h := Merged(Front(s)), Last(s);
      MergedFacts(Front(s));
      if m != [] && h.mode == Last(m).mode && h.start <= Last(m).end {
        Apart(m);
        Append(Front(m), Last(m).(end := Max(Last(m).end, h.end)));
      } else {
        Append(m, h);
      }
    }
  }

  lemma {:induction false} SortedAlready(s: seq<Held>)
    requires Ordered(s)
    ensures Sorted(s) == s
  {
    if s != [] { SortedAlready(Front(s)); }
  }

  /** Inserting a range that no other one touches. */
  lemma {:induction false} InsertFacts(s: seq<Held>, h: Held)
    requires Ordered(s) && h.start < h.end && Untouched(s, Range(h.start, h.end))
    ensures Ordered(Insert(s, h)) && Insert(s, h) != []
    ensures forall b :: ModeAt(Insert(s, h), b) == if Covers(h, b) then Some(h.mode) else ModeAt(s, b)
    ensures Last(Insert(s, h)).end == if s == [] then h.end else Max(h.end, Last(s).end)
    decreases |s|
  {
    hide Ordered, Canonical, Untouched, ModeAt, Front, Last;
    Apart(s);
    if s == [] || Last(s).start <= h.start {
      Append(s, h);
    } else {
      InsertFacts(Front(s), h);
      Append(Insert(Front(s), h), Last(s));
    }
  }

  // ---- the two operations ----

  /** One owner's ranges after a granted lock. */
  function Locked(s: seq<Held>, r: Range, mode: Mode): seq<Held> {
    Merged(Sorted(Subtracted(s, r) + [Held(r.start, r.end, mode)]))
  }

  /** A granted lock gives exactly the requested bytes the requested mode, leaves
      every other byte as it was, and leaves the list canonical. */
  lemma LockedFacts(s: seq<Held>, r: Range, mode: Mode)
    requires Canonical(s) && r.start < r.end
    ensures Canonical(Locked(s, r, mode)) && Locked(s, r, mode) != []
    ensures forall b :: ModeAt(Locked(s, r, mode), b) == if InRange(r, b) then Some(mode) else ModeAt(s, b)
  {
    hide Ordered, Canonical, Untouched, ModeAt, Front, Last, Insert, Merged, Subtracted;
    var rest, h := Subtracted(s, r), Held(r.start, r.end, mode);
    SubtractedFacts(s, r);
    CanonicalIsOrdered(rest);
    SortedAlready(rest);
    Append(rest, h);
    assert Sorted(rest + [h]) == Insert(rest, h);
    InsertFacts(rest, h);
    MergedFacts(Insert(rest, h));
  }

  // ---- ranges and bytes ----

  lemma {:induction false} RangeGivesMode(s: seq<Held>, i: nat, b: nat)
    requires Ordered(s) && i < |s| && Covers(s[i], b)
    ensures ModeAt(s, b) == Some(s[i].mode)
  {
    if i < |s| - 1 {
      RangeGivesMode(Front(s), i, b);
      EndBeforeLast(s, i);
    }
  }

  lemma {:induction false} OrderedMember(s: seq<Held>, i: nat)
    requires Ordered(s) && i < |s|
    ensures s[i].start < s[i].end
  {
    if i < |s| - 1 { OrderedMember(Front(s), i); }
  }

  lemma {:induction false} EndBeforeLast(s: seq<Held>, i: nat)
    requires Ordered(s) && i < |s| - 1
    ensures s[i].end <= Last(s).start
  {
    if i < |s| - 2 { EndBeforeLast(Front(s), i); }
  }

  lemma {:induction false} ModeGivesRange(s: seq<Held>, b: nat) returns (i: nat)
    requires ModeAt(s, b) != None
    ensures i < |s| && Covers(s[i], b) && ModeAt(s, b) == Some(s[i].mode)
  {
    if Covers(Last(s), b) {
      i := |s| - 1;
    } else {
      i := ModeGivesRange(Front(s), b);
    }
  }

  // ---- one list for each set of bytes ----

  lemma {:induction false} NotHeldPast(s: seq<Held>, b: nat)
    requires Canonical(s) && EndsBy(s, b)
    ensures ModeAt(s, b) == None
  {
    if s != [] { NotHeldPast(Front(s), b); }
  }

  /** The last byte that a list can hold is held by its last range. */
  lemma HeldAtEnd(s: seq<Held>, b: nat)
    requires Canonical(s) && EndsBy(s, b + 1) && ModeAt(s, b) != None
    ensures s != [] && Last(s).end == b + 1 && ModeAt(s, b) == Some(Last(s).mode)
  {
    if s != [] && Last(s).end <= b {
      NotHeldPast(s, b);
    }
  }

  lemma HoldsSomething(s: seq<Held>)
    requires Canonical(s) && s != []
    ensures ModeAt(s, Last(s).start) != None
  {
  }

  lemma LastAgrees(s: seq<Held>, t: seq<Held>)
    requires Canonical(s) && Canonical(t) && s != [] && t != []
    requires forall b :: ModeAt(s, b) == ModeAt(t, b)
    ensures Last(s).end <= Last(t).end
    ensures Last(s).end == Last(t).end ==> Last(s).mode == Last(t).mode && Last(s).start >= Last(t).start
  {
    var g, h := Last(s), Last(t);
    if h.end < g.end {
      assert ModeAt(s, g.end - 1) == Some(g.mode);
      NotHeldPast(t, g.end - 1);
    } else if g.end == h.end {
      assert ModeAt(s, g.end - 1) == Some(g.mode);
      assert ModeAt(t, g.end - 1) == Some(h.mode);
      if g.start < h.start {
        assert ModeAt(s, h.start - 1) == Some(g.mode);
        assert ModeAt(t, h.start - 1) == ModeAt(Front(t), h.start - 1);
        HeldAtEnd(Front(t), h.start - 1);
      }
    }
  }

  /** A canonical list is determined by the bytes it holds, mode by mode. */
  lemma {:induction false} CanonicalIsUnique(s: seq<Held>, t: seq<Held>)
    requires Canonical(s) && Canonical(t) && forall b :: ModeAt(s, b) == ModeAt(t, b)
    ensures s == t
  {
    if s == [] && t != [] {
      HoldsSomething(t);
      assert false;
    } else if s != [] && t == [] {
      HoldsSomething(s);
      assert false;
    } else if s != [] && t != [] {
      LastAgrees(s, t);
      LastAgrees(t, s);
      forall b: nat ensures ModeAt(Front(s), b) == ModeAt(Front(t), b) {
        assert ModeAt(s, b) == ModeAt(t, b);
        if b >= Last(s).start {
          NotHeldPast(Front(s), b);
          NotHeldPast(Front(t), b);
        }
      }
      CanonicalIsUnique(Front(s), Front(t));
      assert s == Front(s) + [Last(s)] && t == Front(t) + [Last(t)];
    }
  }
}
