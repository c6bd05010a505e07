/** Case-insensitive lookup of a name in a directory (internal/vfs/names.go):
    by the listings of a few prefixes, against a scan of everything. */
module FoldLookup {
  import opened Common
  import opened Names

  const MaxFoldPrefixes: nat := 8

  /** Simple case folding: next takes a character round the characters equal to
      it, and period is how many there are. */
  datatype Folding = Folding(next: int -> int, period: int -> nat)

  function Iter(f: Folding, n: nat, c: int): int {
    if n == 0 then c else f.next(Iter(f, n - 1, c))
  }

  /** next is a permutation with finite cycles of the given lengths, and leaves
      U+FFFD alone. */
  ghost predicate Cyclic(f: Folding) {
    && (forall c :: f.period(c) > 0 && Iter(f, f.period(c), c) == c)
    && (forall c, i :: 0 < i < f.period(c) ==> Iter(f, i, c) != c)
    && f.next(Replacement) == Replacement
  }

  function Orbit(f: Folding, c: int): seq<int> {
    seq(f.period(c), i requires 0 <= i => Iter(f, i, c))
  }

  predicate EqualChar(f: Folding, a: int, b: int) {
    b in Orbit(f, a)
  }

  /** strings.EqualFold. */
  predicate EqualFold(f: Folding, s: Name, t: Name) {
    |s| == |t| && forall i :: 0 <= i < |s| ==> EqualChar(f, CodeOf(s[i]), CodeOf(t[i]))
  }

  // ---- orbits ----

  method FoldOrbit(f: Folding, c: int) returns (orbit: seq<int>)
    requires Cyclic(f)
    ensures orbit == Orbit(f, c)
    ensures orbit != [] && orbit[0] == c && f.next(orbit[|orbit| - 1]) == c
    ensures forall i :: 0 <= i < |orbit| - 1 ==> orbit[i + 1] == f.next(orbit[i])
    ensures forall i :: 0 < i < |orbit| ==> orbit[i] != c
  {
    orbit := [c];
    var d := f.next(c);
    assert Iter(f, 1, c) == f.next(Iter(f, 0, c));
    while d != c
      invariant 1 <= |orbit| <= f.period(c)
      invariant d == Iter(f, |orbit|, c)
      invariant forall i :: 0 <= i < |orbit| ==> orbit[i] == Iter(f, i, c)
      invariant orbit[0] == c && d == f.next(orbit[|orbit| - 1])
      invariant forall i :: 0 <= i < |orbit| - 1 ==> orbit[i + 1] == f.next(orbit[i])
      decreases f.period(c) - |orbit|
    {
      orbit := orbit + [d];
      d := f.next(d);
    }
  }

  lemma {:induction false} IterAdd(f: Folding, m: nat, n: nat, c: int)
    ensures Iter(f, m, Iter(f, n, c)) == Iter(f, m + n, c)
  {
    if m > 0 { IterAdd(f, m - 1, n, c); }
  }

  lemma {:induction false} IterInOrbit(f: Folding, n: nat, c: int)
    requires Cyclic(f)
    ensures Iter(f, n, c) in Orbit(f, c)
    decreases n
  {
    var p := f.period(c);
    if n < p {
      assert Orbit(f, c)[n] == Iter(f, n, c);
    } else {
      IterAdd(f, n - p, p, c);
      IterInOrbit(f, n - p, c);
    }
  }

  lemma EqualCharSymmetric(f: Folding, a: int, b: int)
    requires Cyclic(f) && EqualChar(f, a, b)
    ensures EqualChar(f, b, a)
  {
    var i :| 0 <= i < f.period(a) && Orbit(f, a)[i] == b;
    IterAdd(f, f.period(a) - i, i, a);
    IterInOrbit(f, f.period(a) - i, b);
  }

  /** round leads from a to b by way of next. */
  ghost predicate LeadsTo(f: Folding, round: seq<int>, a: int, b: int) {
    && round != [] && round[0] == a && round[|round| - 1] == b
    && forall i :: 0 <= i < |round| - 1 ==> round[i + 1] == f.next(round[i])
  }

  lemma {:induction false} LeadsByIter(f: Folding, round: seq<int>, a: int, b: int)
    requires LeadsTo(f, round, a, b)
    ensures b == Iter(f, |round| - 1, a)
    decreases |round|
  {
    if |round| > 1 {
      LeadsByIter(f, round[..|round| - 1], a, round[|round| - 2]);
      assert round[|round| - 2 + 1] == f.next(round[|round| - 2]);
    }
  }

  /** next leads from one character to the other. */
  ghost predicate Cased(f: Folding, a: int, b: int) {
    exists round :: LeadsTo(f, round, a, b)
  }

  lemma EqualCharExactly(f: Folding, a: int, b: int)
    requires Cyclic(f)
    ensures EqualChar(f, a, b) <==> Cased(f, a, b)
  {
    if EqualChar(f, a, b) {
      var i :| 0 <= i < f.period(a) && Orbit(f, a)[i] == b;
      var round := seq(i + 1, j requires 0 <= j => Iter(f, j, a));
      assert forall j :: 0 <= j < i ==> round[j + 1] == f.next(round[j]);
      assert LeadsTo(f, round, a, b);
    }
    if round :| LeadsTo(f, round, a, b) {
      LeadsByIter(f, round, a, b);
      IterInOrbit(f, |round| - 1, a);
    }
  }

  /** Names are equal but for case exactly when they are as long, and folding leads
      from each character of one to that of the other. */
  lemma EqualFoldExactly(f: Folding, s: Name, t: Name)
    requires Cyclic(f)
    ensures EqualFold(f, s, t) <==>
            |s| == |t| && forall i :: 0 <= i < |s| ==> Cased(f, CodeOf(s[i]), CodeOf(t[i]))
  {
    hide EqualChar, Cased;
    if |s| == |t| {
      forall i | 0 <= i < |s|
        ensures EqualChar(f, CodeOf(s[i]), CodeOf(t[i])) <==> Cased(f, CodeOf(s[i]), CodeOf(t[i]))
      {
        EqualCharExactly(f, CodeOf(s[i]), CodeOf(t[i]));
      }
    }
  }

  lemma EqualCharReflexive(f: Folding, a: int)
    requires Cyclic(f)
    ensures EqualChar(f, a, a)
  {
    IterInOrbit(f, 0, a);
  }

  lemma ReplacementAlone(f: Folding, c: int)
    requires Cyclic(f) && EqualChar(f, Replacement, c)
    ensures c == Replacement
  {
    if f.period(Replacement) > 1 {
      assert Iter(f, 1, Replacement) == f.next(Iter(f, 0, Replacement));
    }
  }

  // ---- prefixes ----

  /** How many characters of key the prefixes cover, when those before i have
      count variants. */
  function CoveredFrom(f: Folding, key: Name, limit: nat, i: nat, count: nat): nat
    requires i <= |key|
    decreases |key| - i
  {
    if i == |key| || (i > 0 && count * f.period(CodeOf(key[i])) > limit) then i
    else CoveredFrom(f, key, limit, i + 1, count * f.period(CodeOf(key[i])))
  }

  function Covered(f: Folding, key: Name, limit: nat): nat {
    CoveredFrom(f, key, limit, 0, 1)
  }

  lemma {:induction false} CoveredFacts(f: Folding, key: Name, limit: nat, i: nat, count: nat)
    requires i <= |key|
    ensures i <= CoveredFrom(f, key, limit, i, count) <= |key|
    ensures i == 0 && |key| > 0 ==> CoveredFrom(f, key, limit, i, count) > 0
    decreases |key| - i
  {
    if i < |key| && !(i > 0 && count * f.period(CodeOf(key[i])) > limit) {
      CoveredFacts(f, key, limit, i + 1, count * f.period(CodeOf(key[i])));
    }
  }

  /** The number of case variants of the first m characters. */
  function Variants(f: Folding, key: Name, m: nat): nat
    requires m <= |key|
  {
    if m == 0 then 1 else Variants(f, key, m - 1) * f.period(CodeOf(key[m - 1]))
  }

  /** The prefixes cover as much of the key as has no more variants than the limit,
      and always its first character. */
  lemma {:induction false} CoveredExactly(f: Folding, key: Name, limit: nat, i: nat)
    requires i <= |key| && (i > 1 ==> Variants(f, key, i) <= limit)
    ensures var m := CoveredFrom(f, key, limit, i, Variants(f, key, i));
            && i <= m <= |key| && (key != [] ==> m > 0)
            && (m > 1 ==> Variants(f, key, m) <= limit)
            && (0 < m < |key| ==> Variants(f, key, m + 1) > limit)
    decreases |key| - i
  {
    if i < |key| && !(i > 0 && Variants(f, key, i) * f.period(CodeOf(key[i])) > limit) {
      assert Variants(f, key, i + 1) == Variants(f, key, i) * f.period(CodeOf(key[i]));
      CoveredExactly(f, key, limit, i + 1);
    }
  }

  /** p spells the first m characters of key, each in one of its cases. */
  predicate IsVariant(f: Folding, key: Name, m: nat, p: Name)
    requires m <= |key|
  {
    |p| == m && forall i :: 0 <= i < m ==> p[i].Char? && EqualChar(f, CodeOf(key[i]), p[i].code)
  }

  ghost predicate MadeFrom(prefixes: seq<Name>, orbit: seq<int>, p: Name) {
    exists q, c :: q in prefixes && c in orbit && p == q + [Char(c)]
  }

  lemma MadeFromOneMore(prefixes: seq<Name>, orbit: seq<int>, i: nat, p: Name)
    requires i < |prefixes|
    ensures MadeFrom(prefixes[..i + 1], orbit, p) <==>
            MadeFrom(prefixes[..i], orbit, p) || MadeFrom([prefixes[i]], orbit, p)
  {
    assert prefixes[..i + 1] == prefixes[..i] + [prefixes[i]];
    if MadeFrom(prefixes[..i + 1], orbit, p) {
      var q, c :| q in prefixes[..i + 1] && c in orbit && p == q + [Char(c)];
      assert q in prefixes[..i] || q in [prefixes[i]];
    }
    if MadeFrom(prefixes[..i], orbit, p) {
      var q, c :| q in prefixes[..i] && c in orbit && p == q + [Char(c)];
      assert q in prefixes[..i + 1];
    }
    if MadeFrom([prefixes[i]], orbit, p) {
      var q, c :| q in [prefixes[i]] && c in orbit && p == q + [Char(c)];
      assert q in prefixes[..i + 1];
    }
  }

  lemma OneCharMore(q: Name, orbit: seq<int>, j: nat, p: Name)
    requires j < |orbit|
    ensures MadeFrom([q], orbit[..j + 1], p) <==> MadeFrom([q], orbit[..j], p) || p == q + [Char(orbit[j])]
  {
    assert orbit[..j + 1] == orbit[..j] + [orbit[j]];
    assert q in [q];
    if MadeFrom([q], orbit[..j + 1], p) {
      var r, c :| r in [q] && c in orbit[..j + 1] && p == r + [Char(c)];
      assert c in orbit[..j] || c == orbit[j];
    }
    if MadeFrom([q], orbit[..j], p) {
      var r, c :| r in [q] && c in orbit[..j] && p == r + [Char(c)];
      assert c in orbit[..j + 1];
    }
    if p == q + [Char(orbit[j])] {
      assert orbit[j] in orbit[..j + 1];
    }
  }

  /** Every prefix with every character of orbit after it. */
  method Extend(prefixes: seq<Name>, orbit: seq<int>) returns (next: seq<Name>)
    ensures |next| == |prefixes| * |orbit|
    ensures forall p :: p in next <==> MadeFrom(prefixes, orbit, p)
  {
    next := [];
    for i := 0 to |prefixes|
      invariant |next| == i * |orbit|
      invariant forall p :: p in next <==> MadeFrom(prefixes[..i], orbit, p)
    {
      ghost var before := next;
      for j := 0 to |orbit|
        invariant |next| == i * |orbit| + j
        invariant forall p :: p in next <==> p in before || MadeFrom([prefixes[i]], orbit[..j], p)
      {
        forall p ensures MadeFrom([prefixes[i]], orbit[..j + 1], p) <==>
                         MadeFrom([prefixes[i]], orbit[..j], p) || p == prefixes[i] + [Char(orbit[j])] {
          OneCharMore(prefixes[i], orbit, j, p);
        }
        next := next + [prefixes[i] + [Char(orbit[j])]];
      }
      assert (i + 1) * |orbit| == i * |orbit| + |orbit|;
      assert orbit[..|orbit|] == orbit;
      forall p ensures p in next <==> MadeFrom(prefixes[..i + 1], orbit, p) {
        MadeFromOneMore(prefixes, orbit, i, p);
      }
    }
    assert prefixes[..|prefixes|] == prefixes;
  }

  lemma VariantsOneLonger(f: Folding, key: Name, m: nat, p: Name)
    requires m < |key|
    ensures IsVariant(f, key, m + 1, p) <==>
            exists q, c :: IsVariant(f, key, m, q) && EqualChar(f, CodeOf(key[m]), c) && p == q + [Char(c)]
  {
    if IsVariant(f, key, m + 1, p) {
      assert p == p[..m] + [Char(p[m].code)];
      assert IsVariant(f, key, m, p[..m]);
    }
  }

  /** foldPrefixes lists exactly the case variants of the part of key it covers,
      and no more than the limit of them unless the first character alone has more. */
  method FoldPrefixes(f: Folding, key: Name, limit: nat) returns (prefixes: seq<Name>)
    requires Cyclic(f)
    ensures Covered(f, key, limit) <= |key|
    ensures forall p :: p in prefixes <==> IsVariant(f, key, Covered(f, key, limit), p)
    ensures |key| > 0 ==> |prefixes| <= limit || |prefixes| == f.period(CodeOf(key[0]))
    ensures |key| == 0 ==> |prefixes| == 1
  {
    CoveredFacts(f, key, limit, 0, 1);
    prefixes := [[]];
    var i := 0;
    assert forall p :: IsVariant(f, key, 0, p) <==> p == [];
    while i < |key|
      invariant 0 <= i <= |key|
      invariant Covered(f, key, limit) == CoveredFrom(f, key, limit, i, |prefixes|)
      invariant forall p :: p in prefixes <==> IsVariant(f, key, i, p)
      invariant i == 0 ==> |prefixes| == 1
      invariant i > 0 ==> |prefixes| <= limit || |prefixes| == f.period(CodeOf(key[0]))
    {
      var orbit := FoldOrbit(f, CodeOf(key[i]));
      if i > 0 && |prefixes| * |orbit| > limit {
        break;
      }
      var next := Extend(prefixes, orbit);
      forall p ensures p in next <==> IsVariant(f, key, i + 1, p) {
        VariantsOneLonger(f, key, i, p);
      }
      prefixes := next;
      i := i + 1;
    }
  }

  /** The first m characters of key are not U+FFFD. */
  predicate NoReplacement(key: Name, m: nat)
    requires m <= |key|
  {
    forall i :: 0 <= i < m ==> CodeOf(key[i]) != Replacement
  }

  predicate BeginsWithOne(n: Name, prefixes: seq<Name>) {
    exists p :: p in prefixes && p <= n
  }

  /** Every name equal to key but for case begins with one of the prefixes,
      exactly when the part of key they cover has no U+FFFD: a stored name may
      have an undecodable byte there, which compares equal to it. */
  lemma PrefixesFindAllExactly(f: Folding, key: Name, m: nat, prefixes: seq<Name>)
    requires Cyclic(f) && Decodable(key) && m <= |key|
    requires forall p :: p in prefixes <==> IsVariant(f, key, m, p)
    ensures (forall n :: EqualFold(f, n, key) ==> BeginsWithOne(n, prefixes)) <==>
            NoReplacement(key, m)
  {
    if NoReplacement(key, m) {
      forall n | EqualFold(f, n, key) ensures BeginsWithOne(n, prefixes) {
        EqualBegins(f, key, m, n);
        assert n[..m] in prefixes && n[..m] <= n;
      }
    } else {
      var j :| 0 <= j < m && CodeOf(key[j]) == Replacement;
      var n := key[j := Bad(0xFF)];
      forall i | 0 <= i < |n| ensures EqualChar(f, CodeOf(n[i]), CodeOf(key[i])) {
        EqualCharReflexive(f, CodeOf(key[i]));
      }
      assert EqualFold(f, n, key);
      forall p | p in prefixes ensures !(p <= n) {
        assert IsVariant(f, key, m, p);
        assert p[j] != n[j];
      }
    }
  }

  lemma EqualBegins(f: Folding, key: Name, m: nat, n: Name)
    requires Cyclic(f) && m <= |key| && EqualFold(f, n, key)
    requires NoReplacement(key, m)
    ensures IsVariant(f, key, m, n[..m])
  {
    forall i | 0 <= i < m ensures n[i].Char? && EqualChar(f, CodeOf(key[i]), n[i].code) {
      if n[i].Bad? {
        ReplacementAlone(f, CodeOf(key[i]));
        assert false;
      }
      EqualCharSymmetric(f, CodeOf(n[i]), CodeOf(key[i]));
    }
  }

  // ---- choosing ----

  /** A strict total order of names, as the order of their bytes is. */
  ghost predicate TotalOrder(less: (Name, Name) -> bool) {
    && (forall a, b :: less(a, b) ==> !less(b, a) && a != b)
    && (forall a, b :: a != b ==> less(a, b) || less(b, a))
    && (forall a, b, c :: less(a, b) && less(b, c) ==> less(a, c))
  }

  /** r is what key refers to among names: itself, else the first name in order
      that equals it but for case, else itself again, as a name yet to be created. */
  ghost predicate IsChoice(f: Folding, less: (Name, Name) -> bool, key: Name, names: set<Name>, r: Name) {
    if key in names then r == key
    else if exists n :: n in names && EqualFold(f, n, key) then
      r in names && EqualFold(f, r, key) && forall n :: n in names && EqualFold(f, n, key) ==> n == r || less(r, n)
    else r == key
  }

  lemma ChoiceIsUnique(f: Folding, less: (Name, Name) -> bool, key: Name, names: set<Name>, r: Name, s: Name)
    requires TotalOrder(less) && IsChoice(f, less, key, names, r) && IsChoice(f, less, key, names, s)
    ensures r == s
  {
  }

  /** The choice depends on nothing but the names that equal key. */
  lemma ChoiceDependsOnEquals(f: Folding, less: (Name, Name) -> bool, key: Name, a: set<Name>, b: set<Name>, r: Name)
    requires Cyclic(f) && forall n :: EqualFold(f, n, key) ==> (n in a <==> n in b)
    ensures IsChoice(f, less, key, a, r) <==> IsChoice(f, less, key, b, r)
  {
    forall i | 0 <= i < |key| ensures EqualChar(f, CodeOf(key[i]), CodeOf(key[i])) {
      EqualCharReflexive(f, CodeOf(key[i]));
    }
    assert EqualFold(f, key, key);
  }

  function Among(names: seq<Name>): set<Name> {
    set n | n in names
  }

  /** best is the first in order of the names seen that equal key. */
  ghost predicate IsBest(f: Folding, less: (Name, Name) -> bool, key: Name, seen: set<Name>, best: Option<Name>) {
    match best
    case None => forall n :: n in seen ==> !EqualFold(f, n, key)
    case Some(b) =>
      b in seen && EqualFold(f, b, key) && forall n :: n in seen && EqualFold(f, n, key) ==> n == b || less(b, n)
  }

  lemma BestOfOneMore(f: Folding, less: (Name, Name) -> bool, key: Name, seen: set<Name>, best: Option<Name>,
                      name: Name)
    requires TotalOrder(less) && IsBest(f, less, key, seen, best)
    ensures IsBest(f, less, key, seen + {name},
                   if EqualFold(f, name, key) && (best == None || less(name, best.value)) then Some(name) else best)
  {
    hide EqualFold;
  }

  /** The loop of matchChild, over candidates in whatever order they arrive. */
  method Choose(f: Folding, less: (Name, Name) -> bool, key: Name, candidates: seq<Name>) returns (r: Name)
    requires TotalOrder(less)
    ensures IsChoice(f, less, key, Among(candidates), r)
  {
    hide EqualFold, TotalOrder;
    var best: Option<Name> := None;
    ghost var seen: set<Name> := {};
    for i := 0 to |candidates|
      invariant key !in seen && seen == Among(candidates[..i])
      invariant IsBest(f, less, key, seen, best)
    {
      var name := candidates[i];
      if name == key {
        return name;
      }
      BestOfOneMore(f, less, key, seen, best, name);
      if EqualFold(f, name, key) && (best == None || less(name, best.value)) {
        best := Some(name);
      }
      seen := seen + {name};
    }
    assert candidates[..|candidates|] == candidates;
    return best.GetOr(key);
  }

  /** The names that begin with prefix, as a listing gives them. */
  function WithPrefix(names: seq<Name>, prefix: Name): seq<Name> {
    if names == [] then []
    else (if prefix <= names[0] then [names[0]] else []) + WithPrefix(names[1..], prefix)
  }

  lemma {:induction false} WithPrefixFilters(names: seq<Name>, prefix: Name)
    ensures forall n :: n in WithPrefix(names, prefix) <==> n in names && prefix <= n
  {
    if names != [] {
      WithPrefixFilters(names[1..], prefix);
      assert names == [names[0]] + names[1..];
    }
  }

  /** n begins with a prefix whose listing does not fail. */
  predicate Delivered(n: Name, prefixes: seq<Name>, failed: set<Name>) {
    exists p :: p in prefixes && p !in failed && p <= n
  }

  /** foldCandidates: what the listings of the prefixes find, a listing that fails
      contributing nothing, and what is staged. */
  method FoldCandidates(listed: seq<Name>, staged: seq<Name>, prefixes: seq<Name>, failed: set<Name>)
    returns (found: seq<Name>)
    ensures forall n :: n in found <==> n in staged || (n in listed && Delivered(n, prefixes, failed))
  {
    found := [];
    for i := 0 to |prefixes|
      invariant forall n :: n in found <==> n in listed && Delivered(n, prefixes[..i], failed)
    {
      WithPrefixFilters(listed, prefixes[i]);
      assert prefixes[..i + 1] == prefixes[..i] + [prefixes[i]];
      if prefixes[i] !in failed {
        found := found + WithPrefix(listed, prefixes[i]);
      }
    }
    assert prefixes[..|prefixes|] == prefixes;
    found := found + staged;
  }

  /** How the object store answers one lookup. */
  datatype Answers = Answers(statFails: bool, listingFails: bool, failed: set<Name>)

  /** The names of the directory that the lookup comes to see. */
  ghost function Seen(key: Name, listed: seq<Name>, staged: seq<Name>, cached: bool, prefixes: seq<Name>,
                      answers: Answers): set<Name>
  {
    Among(staged) +
    set n | n in listed && (|| cached
                            || (n == key && !answers.statFails)
                            || (if Decodable(key) then Delivered(n, prefixes, answers.failed)
                                else !answers.listingFails))
  }

  /** With no failure, the prefixes show every name that equals key. */
  lemma SeesAllEquals(f: Folding, key: Name, listed: seq<Name>, staged: seq<Name>, cached: bool,
                      prefixes: seq<Name>, answers: Answers, n: Name)
    requires Cyclic(f) && EqualFold(f, n, key) && Covered(f, key, MaxFoldPrefixes) <= |key|
    requires Decodable(key) ==>
               forall p :: p in prefixes <==> IsVariant(f, key, Covered(f, key, MaxFoldPrefixes), p)
    requires cached || !Decodable(key) || NoReplacement(key, Covered(f, key, MaxFoldPrefixes))
    requires !answers.listingFails && answers.failed == {}
    ensures n in Seen(key, listed, staged, cached, prefixes, answers) <==> n in Among(listed + staged)
  {
    if !cached && Decodable(key) {
      PrefixesFindAllExactly(f, key, Covered(f, key, MaxFoldPrefixes), prefixes);
      hide EqualFold;
      assert BeginsWithOne(n, prefixes);
    }
  }

  /** matchChild. listed is what the directory holds in the bucket and staged what
      it holds in staging, both without entries that are being deleted. The answer
      is the choice among the names the lookup comes to see, and if nothing fails
      that of a scan of the whole directory. */
  method MatchChild(f: Folding, less: (Name, Name) -> bool, key: Name, listed: seq<Name>, staged: seq<Name>,
                    cached: bool, answers: Answers)
    returns (r: Name, ghost prefixes: seq<Name>)
    requires Cyclic(f) && TotalOrder(less)
    ensures Covered(f, key, 8) <= |key|
    ensures Decodable(key) ==> forall p :: p in prefixes <==> IsVariant(f, key, Covered(f, key, 8), p)
    ensures Decodable(key) && key != [] ==> |prefixes| <= 8 || |prefixes| == f.period(CodeOf(key[0]))
    ensures IsChoice(f, less, key, Seen(key, listed, staged, cached, prefixes, answers), r)
    ensures (cached || !Decodable(key) || NoReplacement(key, Covered(f, key, 8))) &&
            !answers.listingFails && answers.failed == {} ==>
              IsChoice(f, less, key, Among(listed + staged), r)
  {
    CoveredFacts(f, key, MaxFoldPrefixes, 0, 1);
    var variants := [];
    if Decodable(key) {
      variants := FoldPrefixes(f, key, MaxFoldPrefixes);
    }
    prefixes := variants;
    ghost var seen := Seen(key, listed, staged, cached, variants, answers);
    if cached {
      r := Choose(f, less, key, listed + staged);
      assert Among(listed + staged) == seen;
    } else if !answers.statFails && (key in listed || key in staged) {
      r := key;
    } else if !Decodable(key) {
      var found := (if answers.listingFails then [] else listed) + staged;
      r := Choose(f, less, key, found);
      assert Among(found) == seen;
    } else {
      var found := FoldCandidates(listed, staged, variants, answers.failed);
      r := Choose(f, less, key, found);
      assert Among(found) == seen;
    }
    if (cached || !Decodable(key) || NoReplacement(key, Covered(f, key, MaxFoldPrefixes))) &&
       !answers.listingFails && answers.failed == {} {
      forall n | EqualFold(f, n, key) ensures n in seen <==> n in Among(listed + staged) {
        SeesAllEquals(f, key, listed, staged, cached, variants, answers, n);
      }
      ChoiceDependsOnEquals(f, less, key, seen, Among(listed + staged), r);
    }
  }
}
