/** Stored names as byte strings, seen as the characters and the undecodable
    bytes they are made of. */
module Names {
  import opened Common

  /** U+FFFD, which reading an undecodable byte as a character yields. */
  const Replacement := 0xFFFD

  datatype Unit = Char(code: int) | Bad(byte: Byte)

  type Name = seq<Unit>

  function CodeOf(u: Unit): int {
    match u
    case Char(code) => code
    case Bad(_) => Replacement
  }

  /** The name as characters. */
  function Codes(name: Name): seq<int> {
    seq(|name|, i requires 0 <= i < |name| => CodeOf(name[i]))
  }

  /** Characters as a name. */
  function FromCodes(codes: seq<int>): Name {
    seq(|codes|, i requires 0 <= i < |codes| => Char(codes[i]))
  }

  predicate Decodable(name: Name) {
    forall i :: 0 <= i < |name| ==> name[i].Char?
  }

  lemma FromCodesOfCodes(name: Name)
    ensures FromCodes(Codes(name)) == name <==> Decodable(name)
    ensures Codes(FromCodes(Codes(name))) == Codes(name)
  {
    if Decodable(name) {
      assert FromCodes(Codes(name)) == name;
    } else {
      var i :| 0 <= i < |name| && !name[i].Char?;
      assert FromCodes(Codes(name))[i] != name[i];
    }
  }
}

/** The names a Windows client is shown for stored keys, and back
    (internal/vfs/names.go, the Services for Macintosh mapping). */
module WindowsNames {
  import opened Common
  import opened Names

  const Space := 0x20
  const Period := 0x2E
  const TrailingSpace := 0xF028
  const TrailingPeriod := 0xF029

  /** The characters Windows reserves, in the order of their stand-ins from
      U+F020 on: quote, asterisk, colon, less, greater, question mark, backslash
      and bar. */
  const Reserved: seq<int> := [0x22, 0x2A, 0x3A, 0x3C, 0x3E, 0x3F, 0x5C, 0x7C]

  const Dot: Name := [Char(Period)]
  const DotDot: Name := [Char(Period), Char(Period)]

  function Shown(c: int): int {
    if 0x01 <= c <= 0x1F then 0xF000 + c
    else if c == 0x22 then 0xF020
    else if c == 0x2A then 0xF021
    else if c == 0x3A then 0xF022
    else if c == 0x3C then 0xF023
    else if c == 0x3E then 0xF024
    else if c == 0x3F then 0xF025
    else if c == 0x5C then 0xF026
    else if c == 0x7C then 0xF027
    else c
  }

  function Stored(c: int): int {
    if 0xF001 <= c <= 0xF01F then c - 0xF000
    else if c == TrailingSpace then Space
    else if c == TrailingPeriod then Period
    else if 0xF020 <= c <= 0xF027 then Reserved[c - 0xF020]
    else c
  }

  predicate InPrivateRange(c: int) {
    0xF001 <= c <= 0xF029
  }

  predicate Dropped(c: int) {
    c == Space || c == Period
  }

  /** The length of name without its trailing spaces and periods. */
  function Kept(codes: seq<int>): nat {
    if codes == [] || !Dropped(codes[|codes| - 1]) then |codes| else Kept(codes[..|codes| - 1])
  }

  lemma {:induction false} KeptFacts(codes: seq<int>)
    ensures Kept(codes) <= |codes|
    ensures forall i :: Kept(codes) <= i < |codes| ==> Dropped(codes[i])
    ensures Kept(codes) > 0 ==> !Dropped(codes[Kept(codes) - 1])
  {
    if codes != [] && Dropped(codes[|codes| - 1]) {
      KeptFacts(codes[..|codes| - 1]);
    }
  }

  function ShownTrailing(c: int): int {
    if c == Space then TrailingSpace else TrailingPeriod
  }

  /** The characters a client is shown: each mapped alone, except for the
      trailing spaces and periods. */
  function Presented(codes: seq<int>): seq<int> {
    seq(|codes|, i requires 0 <= i < |codes| => if i < Kept(codes) then Shown(codes[i]) else ShownTrailing(codes[i]))
  }

  function WindowsName(key: Name): Name {
    if key == Dot || key == DotDot || Presented(Codes(key)) == Codes(key) then key
    else FromCodes(Presented(Codes(key)))
  }

  predicate HasPrivate(codes: seq<int>) {
    exists i :: 0 <= i < |codes| && InPrivateRange(codes[i])
  }

  function Unmapped(codes: seq<int>): seq<int> {
    seq(|codes|, i requires 0 <= i < |codes| => Stored(codes[i]))
  }

  function KeyName(name: Name): Name {
    if HasPrivate(Codes(name)) then FromCodes(Unmapped(Codes(name))) else name
  }

  // ---- the mapping, written out ----

  /** The stand-ins of the Services for Macintosh mapping, and the way back. */
  lemma MappingTable(c: int)
    ensures 0x01 <= c <= 0x1F ==> Shown(c) == 0xF000 + c && Stored(0xF000 + c) == c
    ensures Shown('"' as int) == 0xF020 && Shown('*' as int) == 0xF021 && Shown(':' as int) == 0xF022
    ensures Shown('<' as int) == 0xF023 && Shown('>' as int) == 0xF024 && Shown('?' as int) == 0xF025
    ensures Shown('\\' as int) == 0xF026 && Shown('|' as int) == 0xF027
    ensures Stored(0xF020) == '"' as int && Stored(0xF021) == '*' as int && Stored(0xF022) == ':' as int
    ensures Stored(0xF023) == '<' as int && Stored(0xF024) == '>' as int && Stored(0xF025) == '?' as int
    ensures Stored(0xF026) == '\\' as int && Stored(0xF027) == '|' as int
    ensures Stored(0xF028) == ' ' as int && Stored(0xF029) == '.' as int
    ensures 0x01 <= c <= 0x1F || Shown(c) == c || c == '"' as int || c == '*' as int || c == ':' as int
            || c == '<' as int || c == '>' as int || c == '?' as int || c == '\\' as int || c == '|' as int
    ensures 0xF001 <= c <= 0xF029 || Stored(c) == c
  {
  }

  /** Where the trailing run of spaces and periods begins. */
  predicate TrailsFrom(codes: seq<int>, k: nat) {
    && k <= |codes|
    && (forall i :: k <= i < |codes| ==> codes[i] == ' ' as int || codes[i] == '.' as int)
    && (k > 0 ==> codes[k - 1] != ' ' as int && codes[k - 1] != '.' as int)
  }

  // ---- the loops ----

  /** Maps control and reserved characters in place. */
  method MapChars(runes: array<int>) returns (changed: bool)
    modifies runes
    ensures forall j :: 0 <= j < runes.Length ==> runes[j] == Shown(old(runes[j]))
    ensures changed <==> exists j :: 0 <= j < runes.Length && runes[j] != old(runes[j])
  {
    hide Shown;
    changed := false;
    for i := 0 to runes.Length
      invariant forall j :: i <= j < runes.Length ==> runes[j] == old(runes[j])
      invariant forall j :: 0 <= j < i ==> runes[j] == Shown(old(runes[j]))
      invariant changed <==> exists j :: 0 <= j < i && runes[j] != old(runes[j])
    {
      var mapped := Shown(runes[i]);
      if mapped != runes[i] {
        runes[i] := mapped;
        changed := true;
      }
    }
  }

  /** Maps trailing spaces and periods in place, from the end. */
  method MapTrailing(runes: array<int>) returns (changed: bool)
    modifies runes
    ensures forall j :: 0 <= j < runes.Length ==>
              runes[j] == if j < Kept(old(runes[..])) then old(runes[j]) else ShownTrailing(old(runes[j]))
    ensures changed <==> Kept(old(runes[..])) < runes.Length
  {
    KeptFacts(runes[..]);
    ghost var before := runes[..];
    changed := false;
    var i := runes.Length;
    while i > 0 && Dropped(runes[i - 1])
      invariant Kept(before) <= i <= runes.Length && (changed <==> i < runes.Length)
      invariant forall j :: 0 <= j < i ==> runes[j] == before[j]
      invariant forall j :: i <= j < runes.Length ==> runes[j] == ShownTrailing(before[j])
    {
      i := i - 1;
      runes[i] := ShownTrailing(runes[i]);
      changed := true;
    }
  }

  /** Mapping the other characters leaves the trailing run where it is. */
  lemma {:induction false} KeptOfMapped(codes: seq<int>, mapped: seq<int>)
    requires |mapped| == |codes| && forall j :: 0 <= j < |codes| ==> mapped[j] == Shown(codes[j])
    ensures Kept(mapped) == Kept(codes)
    decreases |codes|
  {
    if codes != [] && Dropped(codes[|codes| - 1]) {
      KeptOfMapped(codes[..|codes| - 1], mapped[..|codes| - 1]);
    }
  }

  /** What windowsName shows, character by character; k is where the trailing run
      begins. A name none of whose characters is mapped stays as it is stored. */
  lemma ShownExactly(key: Name) returns (k: nat)
    ensures TrailsFrom(Codes(key), k)
    ensures key == [Char('.' as int)] || key == [Char('.' as int), Char('.' as int)] ==> WindowsName(key) == key
    ensures |WindowsName(key)| == |key|
    ensures key != [Char('.' as int)] && key != [Char('.' as int), Char('.' as int)] ==>
              forall i :: 0 <= i < |key| ==>
                CodeOf(WindowsName(key)[i]) ==
                if i < k then Shown(CodeOf(key[i]))
                else if CodeOf(key[i]) == ' ' as int then 0xF028
                else 0xF029
    ensures Codes(WindowsName(key)) == Codes(key) ==> WindowsName(key) == key
  {
    var codes := Codes(key);
    KeptFacts(codes);
    k := Kept(codes);
    CodesOfFromCodes(Presented(codes));
    hide Kept, Shown;
    assert forall i :: 0 <= i < |key| ==> codes[i] == CodeOf(key[i]);
    var name := WindowsName(key);
    if key != Dot && key != DotDot {
      assert Codes(name) == Presented(codes);
      assert forall i :: 0 <= i < |name| ==> CodeOf(name[i]) == Codes(name)[i];
    }
  }

  /** windowsName. */
  method PresentName(key: Name) returns (name: Name)
    ensures name == WindowsName(key)
  {
    if key == Dot || key == DotDot {
      return key;
    }
    var codes := Codes(key);
    var runes := new int[|codes|](i requires 0 <= i < |codes| => codes[i]);
    var mapped := MapChars(runes);
    KeptOfMapped(codes, runes[..]);
    KeptFacts(codes);
    ghost var between := runes[..];
    var trailed := MapTrailing(runes);
    assert runes[..] == Presented(codes);
    if trailed {
      assert Presented(codes)[|codes| - 1] != codes[|codes| - 1];
    } else {
      assert runes[..] == between;
    }
    return if mapped || trailed then FromCodes(runes[..]) else key;
  }

  /** What keyName gives, character by character; a name without private characters
      is the key itself. */
  lemma StoredExactly(name: Name)
    ensures |KeyName(name)| == |name|
    ensures forall i :: 0 <= i < |name| ==> CodeOf(KeyName(name)[i]) == Stored(CodeOf(name[i]))
    ensures (forall i :: 0 <= i < |name| ==> !(0xF001 <= CodeOf(name[i]) <= 0xF029)) ==> KeyName(name) == name
  {
    assert forall i :: 0 <= i < |name| ==> Codes(name)[i] == CodeOf(name[i]);
    if HasPrivate(Codes(name)) {
      assert FromCodes(Unmapped(Codes(name))) == KeyName(name);
    } else {
      assert forall i :: 0 <= i < |name| ==> !InPrivateRange(CodeOf(name[i]));
    }
  }

  method KeyOf(name: Name) returns (key: Name)
    ensures key == KeyName(name)
  {
    var codes := Codes(name);
    if !exists i :: 0 <= i < |codes| && InPrivateRange(codes[i]) {
      return name;
    }
    var runes := new int[|codes|](i requires 0 <= i < |codes| => codes[i]);
    for i := 0 to runes.Length
      invariant forall j :: 0 <= j < runes.Length ==> runes[j] == if j < i then Stored(codes[j]) else codes[j]
    {
      runes[i] := Stored(runes[i]);
    }
    assert runes[..] == Unmapped(codes);
    return FromCodes(runes[..]);
  }

  // ---- what the two promise together ----

  /** A key with a character that windowsName would show differently. */
  predicate NeedsMapping(codes: seq<int>) {
    (exists i :: 0 <= i < |codes| && Shown(codes[i]) != codes[i]) ||
    (codes != [] && Dropped(codes[|codes| - 1]))
  }

  lemma PresentedChanges(codes: seq<int>)
    ensures Presented(codes) != codes <==> NeedsMapping(codes)
    ensures NeedsMapping(codes) ==> HasPrivate(Presented(codes))
  {
    KeptFacts(codes);
    if NeedsMapping(codes) {
      var i := if codes != [] && Dropped(codes[|codes| - 1]) then |codes| - 1
               else var k :| 0 <= k < |codes| && Shown(codes[k]) != codes[k]; k;
      assert InPrivateRange(Presented(codes)[i]) && Presented(codes)[i] != codes[i];
    } else {
      assert Presented(codes) == codes;
    }
  }

  lemma UnmappedPresented(codes: seq<int>)
    requires !HasPrivate(codes)
    ensures Unmapped(Presented(codes)) == codes
  {
    KeptFacts(codes);
    forall i | 0 <= i < |codes| ensures Stored(Presented(codes)[i]) == codes[i] {
      assert !InPrivateRange(codes[i]);
    }
  }

  lemma UnmappedChanges(codes: seq<int>)
    requires HasPrivate(codes)
    ensures Unmapped(Presented(codes)) != codes && Unmapped(codes) != codes
  {
    KeptFacts(codes);
    var i :| 0 <= i < |codes| && InPrivateRange(codes[i]);
    assert Unmapped(Presented(codes))[i] != codes[i];
    assert Unmapped(codes)[i] != codes[i];
  }

  lemma CodesOfFromCodes(codes: seq<int>)
    ensures Codes(FromCodes(codes)) == codes
  {
  }

  /** The key behind a shown name is the key that was shown, exactly when the key
      has no character in the private range and, if anything in it is mapped, no
      undecodable byte. */
  lemma RoundTripExactly(key: Name)
    ensures KeyName(WindowsName(key)) == key <==>
            key == Dot || key == DotDot ||
            (!HasPrivate(Codes(key)) && (NeedsMapping(Codes(key)) ==> Decodable(key)))
  {
    var codes := Codes(key);
    PresentedChanges(codes);
    FromCodesOfCodes(key);
    if key == Dot || key == DotDot {
      assert Codes(Dot) == [Period] && Codes(DotDot) == [Period, Period];
    } else if NeedsMapping(codes) {
      CodesOfFromCodes(Presented(codes));
      if HasPrivate(codes) {
        UnmappedChanges(codes);
        CodesOfFromCodes(Unmapped(Presented(codes)));
      } else {
        UnmappedPresented(codes);
      }
    } else if HasPrivate(codes) {
      UnmappedChanges(codes);
      CodesOfFromCodes(Unmapped(codes));
    }
  }

  /** Distinct keys are shown under distinct names. */
  lemma DistinctKeysDistinctNames(j: Name, k: Name)
    requires j != k && !HasPrivate(Codes(j)) && !HasPrivate(Codes(k)) && Decodable(j) && Decodable(k)
    ensures WindowsName(j) != WindowsName(k)
  {
    RoundTripExactly(j);
    RoundTripExactly(k);
  }

  /** A key with an undecodable byte beside a mapped character does not come back:
      it is shown, and looked for, with U+FFFD in the byte's place. */
  lemma UndecodableByteIsLost()
    ensures var key: Name := [Char(0x3A), Bad(0xFF)]; KeyName(WindowsName(key)) == [Char(0x3A), Char(Replacement)]
  {
    var key: Name := [Char(0x3A), Bad(0xFF)];
    assert Codes(key) == [0x3A, Replacement];
    assert Presented([0x3A, Replacement]) == [0xF022, Replacement];
    var shown := FromCodes([0xF022, Replacement]);
    CodesOfFromCodes([0xF022, Replacement]);
    assert InPrivateRange(Codes(shown)[0]);
    assert Unmapped([0xF022, Replacement]) == [0x3A, Replacement];
    assert FromCodes([0x3A, Replacement]) == [Char(0x3A), Char(Replacement)];
  }

  /** What Windows can use as a name. */
  predicate Usable(codes: seq<int>) {
    (forall i :: 0 <= i < |codes| ==> !(0x01 <= codes[i] <= 0x1F) && codes[i] !in Reserved) &&
    (codes != [] ==> !Dropped(codes[|codes| - 1]))
  }

  /** Every key but the two dot names is shown under a name Windows can use. */
  lemma ShownNamesAreUsable(key: Name)
    requires key != Dot && key != DotDot
    ensures Usable(Codes(WindowsName(key)))
  {
    var codes := Codes(key);
    KeptFacts(codes);
    CodesOfFromCodes(Presented(codes));
    assert Codes(WindowsName(key)) == Presented(codes);
    forall i | 0 <= i < |codes| ensures !(0x01 <= Presented(codes)[i] <= 0x1F) && Presented(codes)[i] !in Reserved {
    }
  }
}
