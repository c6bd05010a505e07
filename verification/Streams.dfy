/** Named data streams as one metadata value (internal/posix/streams.go). */
module Varint {
  import opened Common

  const MaxVarintLen: nat := 10

  /** An unsigned 64-bit length, seven bits to a byte, lowest first. */
  function Encoded(n: nat): Bytes {
    if n < 128 then [n] else [n % 128 + 128] + Encoded(n / 128)
  }

  /** The value and the number of bytes of the varint at the head of b, of which
      i bytes are read already; none if b ends early or the value needs more
      than 64 bits. */
  function Decoded(b: Bytes, i: nat): Option<(nat, nat)> {
    if b == [] || i >= MaxVarintLen then None
    else if b[0] < 128 then (if i == 9 && b[0] > 1 then None else Some((b[0], 1)))
    else match Decoded(b[1..], i + 1) {
      case None => None
      case Some(rest) => Some((b[0] - 128 + 128 * rest.0, rest.1 + 1))
    }
  }

  /** What is left for a value whose first i sevens of bits are taken off. */
  function Limit(i: nat): nat {
    if i == 0 then 0x1_0000_0000_0000_0000 else Limit(i - 1) / 128
  }

  lemma LimitAtTheEnd()
    ensures Limit(9) == 2 && forall i :: 0 <= i < 9 ==> Limit(i) % 128 == 0
  {
    assert Limit(1) == 0x200_0000_0000_0000;
    assert Limit(2) == 0x4_0000_0000_0000;
    assert Limit(3) == 0x800_0000_0000;
    assert Limit(4) == 0x10_0000_0000;
    assert Limit(5) == 0x2000_0000;
    assert Limit(6) == 0x40_0000;
    assert Limit(7) == 0x8000;
    assert Limit(8) == 0x100;
  }

  lemma LimitStep(n: nat, i: nat)
    requires 128 <= n < Limit(i) && i < MaxVarintLen
    ensures i < 9 && n / 128 < Limit(i + 1)
  {
    LimitAtTheEnd();
    assert i < 9;
    assert Limit(i) % 128 == 0;
  }

  /** A varint is read back, whatever follows it. */
  lemma {:induction false} RoundTrip(n: nat, rest: Bytes, i: nat)
    requires n < Limit(i) && i < MaxVarintLen
    ensures Decoded(Encoded(n) + rest, i) == Some((n, |Encoded(n)|)) && |Encoded(n)| > 0
    decreases n
  {
    var b := Encoded(n) + rest;
    LimitAtTheEnd();
    hide Limit;
    if n < 128 {
      assert b[0] == n;
    } else {
      LimitStep(n, i);
      RoundTrip(n / 128, rest, i + 1);
      assert b[1..] == Encoded(n / 128) + rest;
      assert b[0] == n % 128 + 128;
    }
  }

  /** The number whose groups of seven bits b gives, lowest first. */
  function Value(b: Bytes): nat {
    if b == [] then 0 else b[0] % 128 + 128 * Value(b[1..])
  }

  /** The first size bytes of b are a varint: the high bit is set in all but the last. */
  predicate Ends(b: Bytes, size: nat) {
    0 < size <= |b| && b[size - 1] < 128 && forall j :: 0 <= j < size - 1 ==> b[j] >= 128
  }

  /** The encoding is a varint of the number and no longer than it need be. */
  lemma {:induction false} EncodedExactly(n: nat)
    ensures Ends(Encoded(n), |Encoded(n)|) && Value(Encoded(n)) == n
    ensures |Encoded(n)| > 1 ==> Encoded(n)[|Encoded(n)| - 1] != 0
    decreases n
  {
    if n < 128 {
      assert [n][1..] == [];
    } else {
      EncodedExactly(n / 128);
      assert Encoded(n)[1..] == Encoded(n / 128);
    }
  }

  /** What is read is the varint at the head of b and nothing else, unless it takes
      more than ten bytes or more than 64 bits. */
  lemma {:induction false} DecodedExactly(b: Bytes, i: nat, n: nat, size: nat)
    requires i < MaxVarintLen
    ensures Decoded(b, i) == Some((n, size)) <==>
            Ends(b, size) && i + size <= 10 && (i + size == 10 ==> b[size - 1] <= 1) && n == Value(b[..size])
    decreases |b|
  {
    if b != [] && b[0] < 128 {
      assert b[..1] == [b[0]] && [b[0]][1..] == [];
      assert Value([b[0]]) == b[0];
    } else if b != [] && size > 1 {
      if size <= |b| {
        assert b[..size][1..] == b[1..][..size - 1];
        assert Ends(b, size) <==> Ends(b[1..], size - 1) by {
          if Ends(b[1..], size - 1) {
            forall j | 0 <= j < size - 1 ensures b[j] >= 128 {
              if j > 0 { assert b[j] == b[1..][j - 1]; }
            }
          }
          if Ends(b, size) {
            assert forall j :: 0 <= j < size - 2 ==> b[1..][j] == b[j + 1];
          }
        }
      }
      if i + 1 < MaxVarintLen {
        if size <= |b| { DecodedExactly(b[1..], i + 1, Value(b[1..][..size - 1]), size - 1); }
        if Decoded(b[1..], i + 1).Some? {
          var rest := Decoded(b[1..], i + 1).value;
          DecodedExactly(b[1..], i + 1, rest.0, rest.1);
        }
      }
    } else if b != [] {
      if i + 1 < MaxVarintLen && Decoded(b[1..], i + 1).Some? {
        DecodedSize(b[1..], i + 1);
      }
    }
  }

  lemma {:induction false} DecodedSize(b: Bytes, i: nat)
    requires Decoded(b, i).Some?
    ensures 0 < Decoded(b, i).value.1 <= |b|
    decreases |b|
  {
    if b[0] >= 128 { DecodedSize(b[1..], i + 1); }
  }
}

/** Base64 of section 4 of RFC 4648, without padding. Text is ASCII codes. */
module Base64 {
  import opened Common

  function Letter(v: nat): Byte
    requires v < 64
  {
    if v < 26 then 0x41 + v
    else if v < 52 then 0x61 + (v - 26)
    else if v < 62 then 0x30 + (v - 52)
    else if v == 62 then 0x2B
    else 0x2F
  }

  function ValueOf(c: Byte): Option<nat> {
    if 0x41 <= c <= 0x5A then Some(c - 0x41)
    else if 0x61 <= c <= 0x7A then Some(c - 0x61 + 26)
    else if 0x30 <= c <= 0x39 then Some(c - 0x30 + 52)
    else if c == 0x2B then Some(62)
    else if c == 0x2F then Some(63)
    else None
  }

  lemma LetterRoundTrip(v: nat)
    requires v < 64
    ensures ValueOf(Letter(v)) == Some(v) && !LineBreak(Letter(v))
  {
  }

  /** A letter of the alphabet of section 4 of RFC 4648. */
  predicate InAlphabet(c: Byte) {
    var x := c as char;
    'A' <= x <= 'Z' || 'a' <= x <= 'z' || '0' <= x <= '9' || x == '+' || x == '/'
  }

  /** The alphabet in order: capital letters, small letters, digits, plus, slash. */
  lemma AlphabetInOrder(c: Byte)
    ensures ValueOf(c).Some? <==> InAlphabet(c)
    ensures ValueOf(c) == Some(0) <==> c as char == 'A'
    ensures ValueOf(c) == Some(26) <==> c as char == 'a'
    ensures ValueOf(c) == Some(52) <==> c as char == '0'
    ensures ValueOf(c) == Some(62) <==> c as char == '+'
    ensures ValueOf(c) == Some(63) <==> c as char == '/'
    ensures 'A' < c as char <= 'Z' || 'a' < c as char <= 'z' || '0' < c as char <= '9' ==>
              ValueOf(c).Some? && ValueOf(c - 1) == Some(ValueOf(c).value - 1)
    ensures ValueOf(c).Some? ==> ValueOf(c).value < 64 && Letter(ValueOf(c).value) == c
  {
  }

  type Sextet = x: int | 0 <= x < 64

  // The four sextets of three bytes, and the three bytes of four sextets.

  function High(x: Byte): Sextet { x / 4 }

  function HighMiddle(x: Byte, y: Byte): Sextet { x % 4 * 16 + y / 16 }

  function LowMiddle(y: Byte, z: Byte): Sextet { y % 16 * 4 + z / 64 }

  function Low(z: Byte): Sextet { z % 64 }

  function First(s: Sextet, t: Sextet): Byte { s * 4 + t / 16 }

  function Second(t: Sextet, u: Sextet): Byte { t % 16 * 16 + u / 4 }

  function Third(u: Sextet, v: Sextet): Byte { u % 4 * 64 + v }

  /** The bits of b, six at a time, the last value filled up with zeros. */
  function Sextets(b: Bytes): (v: seq<nat>)
    ensures forall i :: 0 <= i < |v| ==> v[i] < 64
  {
    if |b| == 0 then []
    else if |b| == 1 then [High(b[0]), HighMiddle(b[0], 0)]
    else if |b| == 2 then [High(b[0]), HighMiddle(b[0], b[1]), LowMiddle(b[1], 0)]
    else [High(b[0]), HighMiddle(b[0], b[1]), LowMiddle(b[1], b[2]), Low(b[2])] + Sextets(b[3..])
  }

  function Letters(v: seq<nat>): Bytes
    requires forall i :: 0 <= i < |v| ==> v[i] < 64
  {
    seq(|v|, i requires 0 <= i < |v| => Letter(v[i]))
  }

  function Encoded(b: Bytes): Bytes {
    Letters(Sextets(b))
  }

  function EncodedLen(n: nat): nat {
    n / 3 * 4 + (n % 3 * 8 + 5) / 6
  }

  /** The decoder passes over line breaks. */
  predicate LineBreak(c: Byte) {
    c == 0x0A || c == 0x0D
  }

  function Values(text: Bytes): Option<seq<nat>> {
    if text == [] then Some([])
    else if LineBreak(text[0]) then Values(text[1..])
    else match (ValueOf(text[0]), Values(text[1..])) {
      case (Some(v), Some(rest)) => Some([v] + rest)
      case _ => None
    }
  }

  /** Groups of four values of six bits as three bytes; a last group of two or
      three gives one or two bytes, and one of a single value is refused. */
  function Joined(v: seq<nat>): Option<Bytes>
    requires forall i :: 0 <= i < |v| ==> v[i] < 64
  {
    if |v| == 0 then Some([])
    else if |v| == 1 then None
    else if |v| == 2 then Some([First(v[0], v[1])])
    else if |v| == 3 then Some([First(v[0], v[1]), Second(v[1], v[2])])
    else match Joined(v[4..]) {
      case None => None
      case Some(rest) => Some([First(v[0], v[1]), Second(v[1], v[2]), Third(v[2], v[3])] + rest)
    }
  }

  lemma {:induction false} ValuesAreSmall(text: Bytes)
    ensures Values(text).Some? ==> forall i :: 0 <= i < |Values(text).value| ==> Values(text).value[i] < 64
    decreases |text|
  {
    if text != [] { ValuesAreSmall(text[1..]); }
  }

  function Decoded(text: Bytes): Option<Bytes> {
    ValuesAreSmall(text);
    if Values(text).None? then None else Joined(Values(text).value)
  }

  lemma {:induction false} ValuesOfLetters(v: seq<nat>)
    requires forall i :: 0 <= i < |v| ==> v[i] < 64
    ensures Values(Letters(v)) == Some(v)
    decreases |v|
  {
    if v != [] {
      ValuesOfLetters(v[1..]);
      LetterRoundTrip(v[0]);
      assert Letters(v)[1..] == Letters(v[1..]);
      assert v == [v[0]] + v[1..];
    }
  }

  /** Three bytes cut into sextets and put together again. */
  lemma Together(x: Byte, y: Byte, z: Byte)
    ensures First(High(x), HighMiddle(x, y)) == x
    ensures Second(HighMiddle(x, y), LowMiddle(y, z)) == y
    ensures Third(LowMiddle(y, z), Low(z)) == z
  {
  }

  lemma {:induction false} JoinedSextets(b: Bytes)
    ensures Joined(Sextets(b)) == Some(b)
    decreases |b|
  {
    hide High, HighMiddle, LowMiddle, Low, First, Second, Third;
    if |b| >= 3 {
      JoinedSextets(b[3..]);
      Together(b[0], b[1], b[2]);
      assert Sextets(b)[4..] == Sextets(b[3..]);
      assert b == [b[0], b[1], b[2]] + b[3..];
    } else if |b| == 2 {
      Together(b[0], b[1], 0);
      assert b == [b[0], b[1]];
    } else if |b| == 1 {
      Together(b[0], 0, 0);
      assert b == [b[0]];
    }
  }

  /** Three bytes and their sextets are the same 24 bits. */
  lemma SameBits(x: Byte, y: Byte, z: Byte)
    ensures High(x) as int * 0x4_0000 + HighMiddle(x, y) as int * 0x1000 + LowMiddle(y, z) as int * 0x40 + Low(z)
            == x as int * 0x1_0000 + y as int * 0x100 + z
    ensures Low(0) == 0 && LowMiddle(0, 0) == 0
  {
  }

  /** Three bytes become four letters, highest bits first; one or two bytes at the
      end are filled up with zero bits to two or three letters. */
  lemma SextetsExactly(b: Bytes)
    ensures var v := Sextets(b);
            && (|b| >= 3 ==> |v| >= 4 && v[4..] == Sextets(b[3..]))
            && (|b| >= 3 ==>
                  v[0] * 0x4_0000 + v[1] * 0x1000 + v[2] * 0x40 + v[3]
                  == b[0] as int * 0x1_0000 + b[1] as int * 0x100 + b[2])
            && (|b| == 2 ==> |v| == 3)
            && (|b| == 2 ==>
                  v[0] * 0x4_0000 + v[1] * 0x1000 + v[2] * 0x40 == b[0] as int * 0x1_0000 + b[1] as int * 0x100)
            && (|b| == 1 ==> |v| == 2)
            && (|b| == 1 ==> v[0] * 0x4_0000 + v[1] * 0x1000 == b[0] as int * 0x1_0000)
            && (|b| == 0 ==> v == [])
  {
    hide High, HighMiddle, LowMiddle, Low;
    if |b| >= 3 {
      SameBits(b[0], b[1], b[2]);
      assert Sextets(b)[4..] == Sextets(b[3..]);
    } else if |b| == 2 {
      SameBits(b[0], b[1], 0);
    } else if |b| == 1 {
      SameBits(b[0], 0, 0);
    }
  }

  /** The text without its line breaks. */
  function Stripped(text: Bytes): Bytes {
    if text == [] then [] else (if text[0] == 10 || text[0] == 13 then [] else [text[0]]) + Stripped(text[1..])
  }

  lemma {:induction false} ValuesExactly(text: Bytes)
    ensures Values(text).Some? <==> forall c :: c in Stripped(text) ==> ValueOf(c).Some?
    ensures Values(text).Some? ==> |Values(text).value| == |Stripped(text)|
    ensures Values(text).Some? ==> forall i :: 0 <= i < |Stripped(text)| ==>
              ValueOf(Stripped(text)[i]) == Some(Values(text).value[i])
    decreases |text|
  {
    if text != [] { ValuesExactly(text[1..]); }
  }

  lemma {:induction false} JoinedUnless(v: seq<nat>)
    requires forall i :: 0 <= i < |v| ==> v[i] < 64
    ensures Joined(v).Some? <==> |v| % 4 != 1
    decreases |v|
  {
    hide First, Second, Third;
    if |v| >= 4 {
      JoinedUnless(v[4..]);
      assert Joined(v).Some? <==> Joined(v[4..]).Some?;
      hide Joined;
      assert |v| == |v[4..]| + 4;
    }
  }

  /** Text is decoded exactly when, line breaks aside, it is letters of the alphabet
      and does not end in a group of one. */
  lemma DecodesExactly(text: Bytes)
    ensures Decoded(text).Some? <==>
            (forall c :: c in Stripped(text) ==> InAlphabet(c)) && |Stripped(text)| % 4 != 1
  {
    ValuesExactly(text);
    ValuesAreSmall(text);
    if Values(text).Some? { JoinedUnless(Values(text).value); }
    forall c: Byte ensures ValueOf(c).Some? <==> InAlphabet(c) {
      AlphabetInOrder(c);
    }
    hide ValueOf, Stripped, Values;
  }

  lemma RoundTrip(b: Bytes)
    ensures Decoded(Encoded(b)) == Some(b)
  {
    ValuesOfLetters(Sextets(b));
    JoinedSextets(b);
  }

  lemma {:induction false} LengthOfEncoded(b: Bytes)
    ensures |Encoded(b)| == EncodedLen(|b|)
    decreases |b|
  {
    if |b| >= 3 { LengthOfEncoded(b[3..]); }
  }
}

module Streams {
  import opened Common
  import Varint
  import Base64

  type StreamMap = map<Bytes, Bytes>

  /** A field with its length before it. */
  function Field(b: Bytes): Bytes {
    Varint.Encoded(|b|) + b
  }

  function TakeField(b: Bytes): Option<(Bytes, Bytes)> {
    match Varint.Decoded(b, 0)
    case None => None
    case Some(head) =>
      Varint.DecodedSize(b, 0);
      var (n, size) := head;
      if n > |b| - size then None else Some((b[size..size + n], b[size + n..]))
  }

  /** Lengths are 64-bit: every slice of the program has such a length. */
  predicate Storable(b: Bytes) {
    |b| < Varint.Limit(0)
  }

  lemma TakeFieldOfField(b: Bytes, rest: Bytes)
    requires Storable(b)
    ensures TakeField(Field(b) + rest) == Some((b, rest)) && Field(b) != []
  {
    Varint.RoundTrip(|b|, b + rest, 0);
    var head := Varint.Encoded(|b|);
    var all := Field(b) + rest;
    assert all == head + (b + rest);
    assert all[|head|..|head| + |b|] == b;
    assert all[|head| + |b|..] == rest;
  }

  /** The first size bytes of b are a varint of no more than 64 bits that gives the
      length of field; field and then rest follow. */
  ghost predicate Heads(b: Bytes, size: nat, field: Bytes, rest: Bytes) {
    && Varint.Ends(b, size) && size <= 10 && (size == 10 ==> b[9] <= 1)
    && Varint.Value(b[..size]) == |field| && b == b[..size] + field + rest
  }

  /** What is taken off is such a field, whoever wrote it, and nothing else is. */
  lemma TakeFieldExactly(b: Bytes, field: Bytes, rest: Bytes)
    ensures TakeField(b) == Some((field, rest)) <==> exists size :: Heads(b, size, field, rest)
  {
    if TakeField(b) == Some((field, rest)) {
      Varint.DecodedSize(b, 0);
      var (n, size) := Varint.Decoded(b, 0).value;
      Varint.DecodedExactly(b, 0, n, size);
      assert b == b[..size] + b[size..size + n] + b[size + n..];
      assert Heads(b, size, field, rest);
    }
    if size: nat :| Heads(b, size, field, rest) {
      Varint.DecodedExactly(b, 0, |field|, size);
      assert b[size..size + |field|] == field && b[size + |field|..] == rest;
    }
  }

  lemma TakeFieldShrinks(b: Bytes)
    requires TakeField(b).Some?
    ensures |TakeField(b).value.1| < |b|
  {
    Varint.DecodedSize(b, 0);
  }

  // ---- encoding ----

  /** Byte strings compare byte by byte, a prefix before what extends it. */
  predicate Less(a: Bytes, b: Bytes) {
    b != [] && (a == [] || a[0] < b[0] || (a[0] == b[0] && Less(a[1..], b[1..])))
  }

  ghost predicate Ascending(names: seq<Bytes>) {
    forall i, j :: 0 <= i < j < |names| ==> Less(names[i], names[j])
  }

  function Names(names: seq<Bytes>): set<Bytes> {
    set n | n in names
  }

  function RawOf(streams: StreamMap, names: seq<Bytes>): Bytes
    requires Names(names) <= streams.Keys
  {
    if names == [] then []
    else
      assert names[0] in Names(names);
      assert Names(names[1..]) <= Names(names);
      Field(names[0]) + Field(streams[names[0]]) + RawOf(streams, names[1..])
  }

  /** The format of one stream: the length of its name, the name, its length, its bytes. */
  lemma RawOfOne(streams: StreamMap, name: Bytes)
    requires name in streams
    ensures Names([name]) <= streams.Keys
    ensures RawOf(streams, [name]) ==
            Varint.Encoded(|name|) + name + Varint.Encoded(|streams[name]|) + streams[name]
  {
    var data := streams[name];
    assert [name][1..] == [];
    assert RawOf(streams, [name]) == Field(name) + Field(data) + [];
    Regroup(Varint.Encoded(|name|) + name, Varint.Encoded(|data|), data, []);
    hide RawOf;
    assert Field(name) + Field(data) == Varint.Encoded(|name|) + name + Varint.Encoded(|data|) + data;
  }

  /** And of several: one after the other. */
  lemma {:induction false} RawOfJoins(streams: StreamMap, names: seq<Bytes>, more: seq<Bytes>)
    requires Names(names) <= streams.Keys && Names(more) <= streams.Keys
    ensures Names(names + more) <= streams.Keys
    ensures RawOf(streams, names + more) == RawOf(streams, names) + RawOf(streams, more)
    decreases |names|
  {
    hide Field;
    if names == [] {
      assert names + more == more && RawOf(streams, []) == [];
    } else {
      assert (names + more)[1..] == names[1..] + more && (names + more)[0] == names[0];
      assert names[0] in Names(names) && Names(names[1..]) <= Names(names);
      RawOfJoins(streams, names[1..], more);
      var head := Field(names[0]) + Field(streams[names[0]]);
      var rest, end := RawOf(streams, names[1..]), RawOf(streams, more);
      assert RawOf(streams, names + more) == head + (rest + end);
      assert RawOf(streams, names) == head + rest;
      hide RawOf;
      assert head + (rest + end) == head + rest + end;
    }
  }

  lemma RawOfNext(streams: StreamMap, names: seq<Bytes>, i: nat)
    requires i < |names| && Names(names[i..]) <= streams.Keys
    ensures names[i] in streams && Names(names[i + 1..]) <= streams.Keys
    ensures RawOf(streams, names[i..]) == Field(names[i]) + Field(streams[names[i]]) + RawOf(streams, names[i + 1..])
  {
    assert names[i..][0] == names[i] && names[i] in Names(names[i..]);
    assert names[i..][1..] == names[i + 1..];
    assert Names(names[i + 1..]) <= Names(names[i..]);
  }

  lemma Regroup(a: Bytes, b: Bytes, c: Bytes, d: Bytes)
    ensures a + (b + c + d) == (a + b) + c + d
  {
  }

  /** appendStreams; names is the result of sorting the names. */
  method AppendStreams(streams: StreamMap, names: seq<Bytes>) returns (dst: Bytes)
    requires Names(names) == streams.Keys
    ensures dst == RawOf(streams, names)
  {
    dst := [];
    for i := 0 to |names|
      invariant Names(names[i..]) <= streams.Keys && dst + RawOf(streams, names[i..]) == RawOf(streams, names)
    {
      var name := names[i];
      assert name in Names(names);
      RawOfNext(streams, names, i);
      hide RawOf, Field, Names;
      Regroup(dst, Field(name), Field(streams[name]), RawOf(streams, names[i + 1..]));
      dst := dst + Field(name);
      dst := dst + Field(streams[name]);
    }
    assert names[|names|..] == [];
  }

  // ---- decoding ----

  /** What decoding adds to the streams found so far; none if a field is cut
      short. */
  function Parsed(raw: Bytes, sofar: StreamMap): Option<StreamMap>
    decreases |raw|
  {
    if raw == [] then Some(sofar)
    else match TakeField(raw) {
      case None => None
      case Some(first) =>
        match TakeField(first.1) {
          case None => None
          case Some(second) =>
            TakeFieldShrinks(raw);
            TakeFieldShrinks(first.1);
            Parsed(second.1, sofar[first.0 := second.0])
        }
    }
  }

  function Decoded(text: Bytes): Option<StreamMap> {
    match Base64.Decoded(text)
    case None => None
    case Some(raw) =>
      match Parsed(raw, map[]) {
        case None => None
        case Some(streams) => if streams == map[] then None else Some(streams)
      }
  }

  /** DecodeStreams: on any text it ends, within the bounds of its buffers. */
  method DecodeStreams(text: Bytes) returns (streams: Option<StreamMap>)
    ensures streams == Decoded(text)
  {
    var decoded := Base64.Decoded(text);
    if decoded == None {
      return None;
    }
    var raw := decoded.value;
    var found: StreamMap := map[];
    while |raw| > 0
      invariant Parsed(decoded.value, map[]) == Parsed(raw, found)
      decreases |raw|
    {
      var name := TakeField(raw);
      if name == None {
        return None;
      }
      var data := TakeField(name.value.1);
      if data == None {
        return None;
      }
      TakeFieldShrinks(raw);
      TakeFieldShrinks(name.value.1);
      found := found[name.value.0 := data.value.0];
      raw := data.value.1;
    }
    if |found| == 0 {
      return None;
    }
    return Some(found);
  }

  // ---- together ----

  predicate AllStorable(streams: StreamMap) {
    forall n :: n in streams ==> Storable(n) && Storable(streams[n])
  }

  /** The streams with the given names. */
  function Part(streams: StreamMap, names: set<Bytes>): StreamMap
    requires names <= streams.Keys
  {
    map n | n in names :: streams[n]
  }

  lemma PartStep(streams: StreamMap, names: set<Bytes>, n: Bytes, sofar: StreamMap)
    requires names <= streams.Keys && n in streams
    ensures sofar[n := streams[n]] + Part(streams, names) == sofar + Part(streams, names + {n})
  {
  }

  lemma {:induction false} ParsedRaw(streams: StreamMap, names: seq<Bytes>, sofar: StreamMap)
    requires Names(names) <= streams.Keys && AllStorable(streams)
    ensures Parsed(RawOf(streams, names), sofar) == Some(sofar + Part(streams, Names(names)))
    decreases |names|
  {
    hide Field, TakeField;
    if names == [] {
      assert sofar + Part(streams, Names(names)) == sofar;
    } else {
      assert names[0] in Names(names) && Names(names[1..]) <= Names(names);
      var n, data, rest := names[0], streams[names[0]], RawOf(streams, names[1..]);
      assert Names(names) == Names(names[1..]) + {n};
      PartStep(streams, Names(names[1..]), n, sofar);
      hide Part, Names;
      var raw := RawOf(streams, names);
      assert raw == Field(n) + (Field(data) + rest);
      TakeFieldOfField(n, Field(data) + rest);
      TakeFieldOfField(data, rest);
      ParsedRaw(streams, names[1..], sofar[n := data]);
    }
  }

  /** Decoding the encoding of a stream map gives the map back; of an empty one,
      no streams. */
  lemma RoundTrip(streams: StreamMap, names: seq<Bytes>)
    requires Names(names) == streams.Keys && AllStorable(streams)
    ensures Decoded(Base64.Encoded(RawOf(streams, names))) == if streams == map[] then None else Some(streams)
  {
    var raw := RawOf(streams, names);
    Base64.RoundTrip(raw);
    ParsedRaw(streams, names, map[]);
    assert map[] + Part(streams, Names(names)) == streams;
  }

  lemma NoNames(names: seq<Bytes>)
    ensures Names(names) == {} <==> names == []
  {
    if names != [] {
      assert names[0] in Names(names);
    }
  }

  /** StreamsSize, worked out without encoding. */
  function StreamsSize(streams: StreamMap, names: seq<Bytes>): nat
    requires Names(names) <= streams.Keys
  {
    if streams == map[] then 0 else Base64.EncodedLen(|RawOf(streams, names)|)
  }

  lemma SizeIsLength(streams: StreamMap, names: seq<Bytes>)
    requires Names(names) == streams.Keys
    ensures StreamsSize(streams, names) == |Base64.Encoded(RawOf(streams, names))|
  {
    Base64.LengthOfEncoded(RawOf(streams, names));
    NoNames(names);
  }

  // ---- one encoding for each map ----

  /** Names are sorted as their bytes are: a prefix first, then by the first byte
      in which they differ. */
  lemma {:induction false} LessExactly(a: Bytes, b: Bytes)
    ensures Less(a, b) <==>
            exists k :: 0 <= k <= |a| && k < |b| && a[..k] == b[..k] && (k == |a| || a[k] < b[k])
    decreases |a|
  {
    if a != [] && b != [] && a[0] == b[0] {
      LessExactly(a[1..], b[1..]);
      if k :| 0 <= k <= |a[1..]| && k < |b[1..]| && a[1..][..k] == b[1..][..k] &&
              (k == |a[1..]| || a[1..][k] < b[1..][k]) {
        assert a[..k + 1] == [a[0]] + a[1..][..k] && b[..k + 1] == [b[0]] + b[1..][..k];
      }
      if k :| 0 <= k <= |a| && k < |b| && a[..k] == b[..k] && (k == |a| || a[k] < b[k]) {
        assert k > 0;
        assert a[1..][..k - 1] == a[..k][1..] && b[1..][..k - 1] == b[..k][1..];
      }
    } else if Less(a, b) {
      assert a[..0] == b[..0];
    }
  }

  lemma {:induction false} LessIsStrict(a: Bytes, b: Bytes)
    ensures !(Less(a, b) && Less(b, a)) && !Less(a, a)
    decreases |a|
  {
    if a != [] {
      LessIsStrict(a[1..], if b == [] then [] else b[1..]);
    }
  }

  /** Two sorted lists of the same names are the same list. */
  lemma {:induction false} SortedNamesAreUnique(a: seq<Bytes>, b: seq<Bytes>)
    requires Ascending(a) && Ascending(b) && Names(a) == Names(b)
    ensures a == b
    decreases |a|
  {
    NoNames(a);
    NoNames(b);
    if a != [] {
      assert a[0] in Names(a) && b[0] in Names(b);
      var i :| 0 <= i < |b| && b[i] == a[0];
      var j :| 0 <= j < |a| && a[j] == b[0];
      LessIsStrict(a[0], b[0]);
      assert a[0] == b[0];
      forall n ensures n in Names(a[1..]) <==> n in Names(b[1..]) {
        LessIsStrict(n, n);
        assert n in Names(a[1..]) <==> n in Names(a) && n != a[0] by { TailNames(a, n); }
        assert n in Names(b[1..]) <==> n in Names(b) && n != b[0] by { TailNames(b, n); }
      }
      assert Names(a[1..]) == Names(b[1..]);
      SortedNamesAreUnique(a[1..], b[1..]);
      assert a == [a[0]] + a[1..] && b == [b[0]] + b[1..];
    }
  }

  lemma TailNames(a: seq<Bytes>, n: Bytes)
    requires Ascending(a) && a != []
    ensures n in Names(a[1..]) <==> n in Names(a) && n != a[0]
  {
    if n in a[1..] {
      var i :| 0 <= i < |a[1..]| && a[1..][i] == n;
      assert Less(a[0], a[i + 1]);
      LessIsStrict(a[0], n);
    }
    if n in a && n != a[0] {
      var i :| 0 <= i < |a| && a[i] == n;
      assert a[1..][i - 1] == n;
    }
  }
}
