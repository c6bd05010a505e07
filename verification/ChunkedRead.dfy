/** Range reads served from cached and fetched chunks of an object
    (internal/posix/operations.go, internal/cache/data.go). */
module ChunkedRead {
  import opened Common

  const DefaultChunkSize: int := 1024 * 1024

  /** The plain answer: the bytes of obj from a up to b, as far as it has them. */
  function Slice(obj: Bytes, a: int, b: int): Bytes
    requires 0 <= a
  {
    if a < b && a < |obj| then obj[a..if b < |obj| then b else |obj|] else []
  }

  /** A read of one cache file; a length that is not positive means the rest. */
  function CacheRead(chunk: Bytes, offset: nat, length: int): Bytes {
    Slice(chunk, offset, if length <= 0 then |chunk| else offset + length)
  }

  /** Every chunk holds what the object holds at its place. */
  ghost predicate Agrees(obj: Bytes, size: int, chunks: map<int, Bytes>) {
    forall s :: s in chunks ==> 0 <= s && chunks[s] == Slice(obj, s, s + size)
  }

  /** Division that truncates towards zero. */
  function Quotient(x: int, d: int): int
    requires d > 0
  {
    if x >= 0 then x / d else -((-x) / d)
  }

  /** Where chunk number k starts. */
  function StartAt(k: int, size: int): int {
    k * size
  }

  /** The start of the chunk that byte x is in. */
  function ChunkOf(x: int, size: int): int
    requires size > 0
  {
    StartAt(Quotient(x, size), size)
  }

  /** The request needs chunk number k, which starts at StartAt(k, size). */
  predicate Needed(k: int, offset: int, length: int, size: int)
    requires size > 0
  {
    Quotient(offset, size) <= k <= Quotient(offset + length - 1, size)
  }

  ghost predicate NeededStart(s: int, offset: int, length: int, size: int)
    requires size > 0
  {
    exists k :: Needed(k, offset, length, size) && s == StartAt(k, size)
  }

  lemma ChunkOfFacts(x: int, size: int)
    requires size > 0 && x >= 0
    ensures ChunkOf(x, size) <= x < ChunkOf(x, size) + size && 0 <= ChunkOf(x, size)
  {
    DivMod(x, size);
    var q := x / size;
    assert q >= 0;
    assert ChunkOf(x, size) == q * size;
    Monotonic(0, q, size);
  }

  lemma NextStart(k: int, size: int)
    ensures StartAt(k + 1, size) == StartAt(k, size) + size
  {
    Successor(k, size);
  }

  lemma StartsInOrder(i: int, j: int, size: int)
    requires size > 0
    ensures i <= j <==> StartAt(i, size) <= StartAt(j, size)
  {
    if i <= j {
      Monotonic(i, j, size);
    } else {
      Monotonic(j + 1, i, size);
      Successor(j, size);
    }
  }

  /** A chunk that starts after another starts at least one chunk later. */
  lemma ChunksApart(i: int, j: int, size: int)
    requires size > 0 && StartAt(i, size) > StartAt(j, size)
    ensures i > j && StartAt(i, size) >= StartAt(j, size) + size
  {
    StartsInOrder(i, j, size);
    Monotonic(j + 1, i, size);
    Successor(j, size);
  }

  /** A slice, byte by byte. */
  lemma SliceAt(obj: Bytes, a: int, b: int)
    requires 0 <= a
    ensures |Slice(obj, a, b)| == if a < b && a < |obj| then Min(b, |obj|) - a else 0
    ensures forall i :: 0 <= i < |Slice(obj, a, b)| ==> Slice(obj, a, b)[i] == obj[a + i]
  {
  }

  lemma SliceStep(obj: Bytes, a: int, m: int, e: int)
    requires 0 <= a && 0 <= m <= e
    ensures Slice(obj, a, m) + Slice(obj, if a < m then m else a, e) == Slice(obj, a, e)
  {
    var m' := if a < m then m else a;
    SliceAt(obj, a, m);
    SliceAt(obj, m', e);
    SliceAt(obj, a, e);
    hide Slice;
    var both, whole := Slice(obj, a, m) + Slice(obj, m', e), Slice(obj, a, e);
    assert |both| == |whole|;
    forall i | 0 <= i < |both| ensures both[i] == whole[i] {
    }
  }

  /** A slice of a chunk is a slice of the object. */
  lemma SliceOfChunk(obj: Bytes, start: int, size: int, lo: int, hi: int)
    requires 0 <= start && 0 <= lo && hi <= size
    ensures Slice(Slice(obj, start, start + size), lo, hi) == Slice(obj, start + lo, start + hi)
  {
    var chunk := Slice(obj, start, start + size);
    SliceAt(obj, start, start + size);
    SliceAt(chunk, lo, hi);
    SliceAt(obj, start + lo, start + hi);
    hide Slice;
    var part, whole := Slice(chunk, lo, hi), Slice(obj, start + lo, start + hi);
    assert |part| == |whole|;
    forall i | 0 <= i < |part| ensures part[i] == whole[i] {
      assert part[i] == chunk[lo + i] == obj[start + (lo + i)];
      assert whole[i] == obj[start + lo + i];
    }
  }

  /** How many bytes of the chunk at start the request [offset, end) asks for. */
  function Asked(offset: int, end: int, start: int, size: int): int {
    (if end < start + size then end - start else size) - (if offset > start then offset - start else 0)
  }

  /** What the cache delivers of that chunk for the request. */
  function PartRead(chunk: Bytes, offset: int, end: int, start: int, size: int): Bytes {
    CacheRead(chunk, if offset > start then offset - start else 0, Asked(offset, end, start, size))
  }

  lemma PartIsSlice(obj: Bytes, offset: nat, end: int, size: int, start: int)
    requires size > 0 && offset < end && 0 <= start <= end - 1 && offset < start + size
    ensures PartRead(Slice(obj, start, start + size), offset, end, start, size)
            == Slice(obj, Max(offset, start), Min(start + size, end))
    ensures Asked(offset, end, start, size) == Min(start + size, end) - Max(offset, start) > 0
  {
    hide Slice;
    var from := if offset > start then offset - start else 0;
    var to := if end < start + size then end - start else size;
    assert from + Asked(offset, end, start, size) == to;
    SliceOfChunk(obj, start, size, from, to);
  }

  /** A slice shorter than asked for ends with the object. */
  lemma ShortSliceEnds(obj: Bytes, a: int, b: int, offset: nat, end: int)
    requires offset <= a < b <= end && |Slice(obj, a, b)| < b - a
    ensures Slice(obj, offset, b) == Slice(obj, offset, end)
  {
  }

  lemma PartContinues(obj: Bytes, offset: nat, end: int, size: int, start: int)
    requires size > 0 && offset < end && 0 <= start <= end - 1 && offset < start + size
    ensures Slice(obj, offset, Min(start, end)) + PartRead(Slice(obj, start, start + size), offset, end, start, size)
            == Slice(obj, offset, Min(start + size, end))
    ensures |PartRead(Slice(obj, start, start + size), offset, end, start, size)| < Asked(offset, end, start, size) ==>
              Slice(obj, offset, Min(start + size, end)) == Slice(obj, offset, end)
  {
    hide PartRead, Asked, Slice;
    PartIsSlice(obj, offset, end, size, start);
    var a, b := Max(offset, start), Min(start + size, end);
    SliceStep(obj, offset, start, b);
    if |Slice(obj, a, b)| < b - a {
      ShortSliceEnds(obj, a, b, offset, end);
    }
  }

  /** A request for no bytes gets the rest of the chunk. */
  lemma NothingAsked(chunk: Bytes, offset: nat, first: int, size: int)
    requires 0 <= first <= offset < first + size
    ensures PartRead(chunk, offset, offset, first, size) == Slice(chunk, offset - first, |chunk|)
  {
  }

  lemma NothingBefore(obj: Bytes, offset: nat, first: int, end: int)
    requires 0 <= first <= offset
    ensures Slice(obj, offset, Min(first, end)) == []
  {
  }

  /** Serves a read from cached chunks alone, or reports that one is missing. A
      chunk that gives less than was asked of it is the object's last. */
  method ReadWarmChunks(ghost obj: Bytes, warm: map<int, Bytes>, offset: nat, length: nat, size: int,
                        first: int, last: int)
    returns (r: Option<Bytes>)
    requires size > 0 && Agrees(obj, size, warm)
    requires first == ChunkOf(offset, size) && last == ChunkOf(offset + length - 1, size)
    ensures length > 0 && r.Some? ==> r.value == Slice(obj, offset, offset + length)
    ensures length > 0 && (forall k :: Needed(k, offset, length, size) ==> StartAt(k, size) in warm) ==> r.Some?
    ensures length == 0 ==>
      r == if last < first then Some([])
           else if first in warm then Some(Slice(warm[first], offset - first, |warm[first]|))
           else None
  {
    hide Quotient, Slice, StartAt, Asked, PartRead, ChunkOf, Needed, Agrees, Min;
    ghost var k := Quotient(offset, size);
    ReadStarts(obj, offset, length, size, first);
    var end := offset + length;
    var out: Bytes := [];
    var start := first;
    while start <= last
      invariant 0 <= first <= start == StartAt(k, size) && k >= Quotient(offset, size)
      invariant length > 0 ==> out == Slice(obj, offset, Min(start, end))
      invariant length == 0 ==> start == first && out == []
      decreases last - start + size
    {
      if start !in warm {
        if length > 0 { IsNeeded(offset, length, size, last, k); }
        return None;
      }
      var data := PartRead(warm[start], offset, end, start, size);
      if length == 0 {
        NothingAsked(warm[start], offset, start, size);
        return Some(data);
      }
      WarmStep(obj, warm, offset, length, size, last, k);
      out := out + data;
      if |data| < Asked(offset, end, start, size) {
        return Some(out);
      }
      start, k := start + size, k + 1;
    }
    if length > 0 {
      ReadEnds(obj, offset, length, size, first, last, k, out);
    }
    return Some(out);
  }

  lemma ReadStarts(obj: Bytes, offset: nat, length: nat, size: int, first: int)
    requires size > 0 && first == ChunkOf(offset, size)
    ensures 0 <= first == StartAt(Quotient(offset, size), size) && first <= offset < first + size
    ensures Slice(obj, offset, Min(first, offset + length)) == []
  {
    ChunkOfFacts(offset, size);
    NothingBefore(obj, offset, first, offset + length);
  }

  /** Chunk number k is needed, and lies where the request does. */
  lemma IsNeeded(offset: nat, length: nat, size: int, last: int, k: int)
    requires size > 0 && length > 0 && last == ChunkOf(offset + length - 1, size)
    requires k >= Quotient(offset, size) && 0 <= StartAt(k, size) <= last
    ensures Needed(k, offset, length, size) && StartAt(k + 1, size) == StartAt(k, size) + size
    ensures StartAt(k, size) <= offset + length - 1 && offset < StartAt(k, size) + size
  {
    hide StartAt, Quotient;
    ChunkOfFacts(offset, size);
    ChunkOfFacts(offset + length - 1, size);
    StartsInOrder(k, Quotient(offset + length - 1, size), size);
    StartsInOrder(Quotient(offset, size), k, size);
    NextStart(k, size);
  }

  /** One turn of the loop over cached chunks, at chunk number k. */
  lemma WarmStep(obj: Bytes, warm: map<int, Bytes>, offset: nat, length: nat, size: int, last: int, k: int)
    requires size > 0 && Agrees(obj, size, warm) && length > 0
    requires last == ChunkOf(offset + length - 1, size) && k >= Quotient(offset, size)
    requires 0 <= StartAt(k, size) <= last && StartAt(k, size) in warm
    ensures var start, end := StartAt(k, size), offset + length;
            var data := PartRead(warm[start], offset, end, start, size);
            && StartAt(k + 1, size) == start + size
            && Slice(obj, offset, Min(start, end)) + data == Slice(obj, offset, Min(start + size, end))
            && (|data| < Asked(offset, end, start, size) ==>
                  Slice(obj, offset, Min(start + size, end)) == Slice(obj, offset, end))
  {
    hide StartAt, Quotient, Slice, PartRead, Asked, ChunkOf, Needed;
    IsNeeded(offset, length, size, last, k);
    PartContinues(obj, offset, offset + length, size, StartAt(k, size));
  }

  /** The chunks of the request that the cache has, and the starts of the others. */
  method Gather(ghost obj: Bytes, cached: map<int, Bytes>, offset: nat, length: nat, size: int, first: int, last: int)
    returns (chunks: map<int, Bytes>, missing: seq<int>)
    requires size > 0 && Agrees(obj, size, cached)
    requires first == ChunkOf(offset, size) && last == ChunkOf(offset + length - 1, size)
    ensures Agrees(obj, size, chunks)
    ensures forall k :: Needed(k, offset, length, size) ==> StartAt(k, size) in chunks || StartAt(k, size) in missing
    ensures forall s :: s in missing ==> s !in cached && NeededStart(s, offset, length, size)
  {
    ChunkOfFacts(offset, size);
    chunks, missing := map[], [];
    ghost var k, m := Quotient(offset, size), Quotient(offset + length - 1, size);
    ghost var k0 := k;
    var start := first;
    while start <= last
      invariant 0 <= start == StartAt(k, size) && k >= k0
      invariant Agrees(obj, size, chunks)
      invariant forall j :: k0 <= j < k ==> StartAt(j, size) in chunks || StartAt(j, size) in missing
      invariant forall s :: s in missing ==> s !in cached && NeededStart(s, offset, length, size)
      decreases last - start + size
    {
      if start in cached {
        chunks := chunks[start := cached[start]];
      } else {
        StartsInOrder(k, m, size);
        assert Needed(k, offset, length, size);
        missing := missing + [start];
      }
      NextStart(k, size);
      start, k := start + size, k + 1;
    }
    forall j | Needed(j, offset, length, size) ensures k0 <= j < k {
      ChunksApart(k, m, size);
    }
  }

  /** The start of the last chunk that read-ahead looks at. */
  function ReadAheadLast(offset: nat, length: nat, size: int, readAhead: int, known: Option<nat>): int
    requires size > 0
  {
    var wanted := offset + Max(readAhead, length);
    var bounded := if known.Some? then Min(wanted, known.value) else wanted;
    ChunkOf(Max(bounded, offset + length) - 1, size)
  }

  /** The chunks to fetch beyond the request: those that are not cached, as far
      as the window and the known size of the object reach. */
  method ReadAhead(cached: map<int, Bytes>, offset: nat, length: nat, size: int, last: int, readAhead: int,
                   known: Option<nat>)
    returns (more: seq<int>)
    requires size > 0
    ensures forall s :: s in more ==> last < s <= ReadAheadLast(offset, length, size, readAhead, known) && s !in cached
    ensures forall k: nat :: 0 < k && Ahead(last, k, size) <= ReadAheadLast(offset, length, size, readAhead, known) ==>
              Ahead(last, k, size) in cached || Ahead(last, k, size) in more
    ensures last >= 0 && last % size == 0 ==>
              var wanted := offset + (if readAhead < length then length else readAhead);
              var known := if known.Some? && wanted > known.value then known.value else wanted;
              var end := if known < offset + length then offset + length else known;
              forall s :: s in more <==> last < s < end && s % size == 0 && s !in cached
  {
    var fetchEnd := offset + if readAhead < length then length else readAhead;
    if known.Some? && fetchEnd > known.value {
      fetchEnd := known.value;
    }
    if fetchEnd < offset + length {
      fetchEnd := offset + length;
    }
    more := [];
    var start := last + size;
    var end := ChunkOf(fetchEnd - 1, size);
    ghost var k: nat := 1;
    hide ChunkOf;
    assert Ahead(last, 1, size) == start;
    SizeMore(last, size);
    while start <= end
      invariant k > 0 && start == Ahead(last, k, size) && start > last
      invariant forall s :: s in more ==> last < s <= end && s !in cached
      invariant last % size == 0 ==> start % size == 0 && forall s :: s in more ==> s % size == 0
      invariant forall j: nat :: 0 < j < k && Ahead(last, j, size) !in cached ==> Ahead(last, j, size) in more
      decreases end - start + size
    {
      if start !in cached {
        more := more + [start];
      }
      NextAhead(last, k, size);
      SizeMore(start, size);
      start, k := start + size, k + 1;
    }
    forall j: nat | j > 0 && Ahead(last, j, size) <= end && Ahead(last, j, size) !in cached
      ensures Ahead(last, j, size) in more
    {
      if j >= k { Monotonic(k, j, size); }
    }
    if last >= 0 && last % size == 0 {
      forall s ensures s in more <==> last < s < fetchEnd && s % size == 0 && s !in cached {
        if s > last && s % size == 0 {
          StartsBy(s, fetchEnd - 1, size);
          var j := MultipleAhead(last, s, size);
        }
      }
    }
  }

  lemma SizeMore(s: int, size: int)
    requires size > 0
    ensures s % size == 0 ==> (s + size) % size == 0
  {
    if s % size == 0 {
      Successor(s / size, size);
      assert s + size == StartAt(s / size + 1, size);
      MultipleOf(s / size + 1, size);
    }
  }

  /** A chunk that starts after the first byte starts at or before a byte exactly
      when it starts at or before the byte's own chunk. */
  lemma StartsBy(s: int, x: int, size: int)
    requires size > 0 && s > 0 && s % size == 0 && x >= -1
    ensures s <= ChunkOf(x, size) <==> s <= x
  {
    if x >= 0 {
      ChunkOfFacts(x, size);
      assert s == StartAt(s / size, size);
      if s <= x && s > ChunkOf(x, size) {
        ChunksApart(s / size, Quotient(x, size), size);
      }
    }
  }

  lemma MultipleAhead(last: int, s: int, size: int) returns (j: nat)
    requires size > 0 && 0 <= last < s && last % size == 0 && s % size == 0
    ensures j > 0 && Ahead(last, j, size) == s
  {
    var a, b := last / size, s / size;
    assert last == a * size && s == b * size;
    StartsInOrder(b, a, size);
    j := b - a;
    Difference(a, b, size);
  }

  lemma Difference(a: int, b: int, size: int)
    ensures b * size == a * size + (b - a) * size
  {
  }

  /** The start of the k-th chunk after the one at last. */
  function Ahead(last: int, k: nat, size: int): int {
    last + k * size
  }

  lemma NextAhead(last: int, k: nat, size: int)
    ensures Ahead(last, k + 1, size) == Ahead(last, k, size) + size
  {
    Successor(k, size);
  }

  /** Fetches chunks from the bucket. A failed fetch of a chunk that the request
      needs fails the read; one of a chunk beyond it is ignored. */
  method FetchMissing(ghost obj: Bytes, remote: map<int, Bytes>, missing: seq<int>, size: int, last: int)
    returns (fetched: Option<map<int, Bytes>>)
    requires size > 0 && Agrees(obj, size, remote)
    ensures fetched.Some? ==> Agrees(obj, size, fetched.value)
    ensures fetched.Some? ==> forall s :: s in missing && s <= last ==> s in fetched.value
    ensures fetched.None? <==> exists s :: s in missing && s <= last && s !in remote
  {
    var got: map<int, Bytes> := map[];
    for i := 0 to |missing|
      invariant Agrees(obj, size, got)
      invariant forall j :: 0 <= j < i && missing[j] <= last ==> missing[j] in got && missing[j] in remote
    {
      var s := missing[i];
      if s in remote {
        got := got[s := remote[s]];
      } else if s <= last {
        return None;
      }
    }
    return Some(got);
  }

  /** The part of the chunk at start that the request [offset, end) copies. */
  function Part(chunk: Bytes, offset: nat, end: int, start: int): Bytes
    requires 0 <= start
  {
    var from := if offset > start then offset - start else 0;
    var to := if end < start + |chunk| then end - start else |chunk|;
    if |chunk| > 0 && to > from then chunk[from..to] else []
  }

  /** Copies the requested part of each chunk to the result. */
  method Assemble(ghost obj: Bytes, chunks: map<int, Bytes>, offset: nat, length: nat, size: int, first: int, last: int)
    returns (out: Bytes)
    requires size > 0 && Agrees(obj, size, chunks)
    requires first == ChunkOf(offset, size) && last == ChunkOf(offset + length - 1, size)
    requires forall k :: Needed(k, offset, length, size) ==> StartAt(k, size) in chunks
    ensures out == Slice(obj, offset, offset + length)
  {
    hide Quotient, Slice, StartAt, Part, ChunkOf, Needed, Agrees, Min;
    ghost var k := Quotient(offset, size);
    ReadStarts(obj, offset, length, size, first);
    var end := offset + length;
    out := [];
    var start := first;
    while start <= last && |out| < end - offset
      invariant 0 <= start == StartAt(k, size) && k >= Quotient(offset, size)
      invariant out == Slice(obj, offset, Min(start, end))
      decreases last - start + size
    {
      AssembleStep(obj, chunks, offset, length, size, last, k);
      out := out + Part(chunks[start], offset, end, start);
      start, k := start + size, k + 1;
    }
    ReadEnds(obj, offset, length, size, first, last, k, out);
  }

  /** One turn of the loop, at chunk number k. */
  lemma AssembleStep(obj: Bytes, chunks: map<int, Bytes>, offset: nat, length: nat, size: int, last: int, k: int)
    requires size > 0 && Agrees(obj, size, chunks) && length > 0
    requires last == ChunkOf(offset + length - 1, size) && k >= Quotient(offset, size)
    requires forall j :: Needed(j, offset, length, size) ==> StartAt(j, size) in chunks
    requires 0 <= StartAt(k, size) <= last
    ensures var start, end := StartAt(k, size), offset + length;
            && start in chunks && StartAt(k + 1, size) == start + size
            && Slice(obj, offset, Min(start, end)) + Part(chunks[start], offset, end, start)
               == Slice(obj, offset, Min(start + size, end))
  {
    hide StartAt, Quotient, Slice, Part, ChunkOf, Needed;
    var start := StartAt(k, size);
    IsNeeded(offset, length, size, last, k);
    PartContinues(obj, offset, offset + length, size, start);
    SliceAt(obj, start, start + size);
    PartIsRead(Slice(obj, start, start + size), offset, offset + length, start, size);
  }

  /** The loop ends past the last chunk, or with as much as was asked for. */
  lemma ReadEnds(obj: Bytes, offset: nat, length: nat, size: int, first: int, last: int, k: int, out: Bytes)
    requires size > 0 && first == ChunkOf(offset, size) && last == ChunkOf(offset + length - 1, size)
    requires k >= Quotient(offset, size) && out == Slice(obj, offset, Min(StartAt(k, size), offset + length))
    requires StartAt(k, size) > last || |out| >= length
    ensures out == Slice(obj, offset, offset + length)
  {
    var start := StartAt(k, size);
    SliceAt(obj, offset, Min(start, offset + length));
    SliceAt(obj, offset, offset + length);
    if length > 0 {
      if start > last {
        ChunkOfFacts(offset + length - 1, size);
        ChunksApart(k, Quotient(offset + length - 1, size), size);
      } else {
        FullSliceIsAll(obj, offset, Min(start, offset + length), offset + length);
      }
    }
  }

  lemma FullSliceIsAll(obj: Bytes, offset: nat, m: int, end: int)
    requires m <= end && |Slice(obj, offset, m)| >= end - offset
    ensures Slice(obj, offset, m) == Slice(obj, offset, end)
  {
    SliceAt(obj, offset, m);
  }

  /** Copying a part of a chunk in memory and reading it from the cache are one. */
  lemma PartIsRead(chunk: Bytes, offset: nat, end: int, start: int, size: int)
    requires size > 0 && offset < end && 0 <= start <= end - 1 && offset < start + size && |chunk| <= size
    ensures Part(chunk, offset, end, start) == PartRead(chunk, offset, end, start, size)
  {
  }

  datatype Result = Data(bytes: Bytes) | Failed

  /** The part of a read that fetches what the cache does not have. */
  method ReadCold(ghost obj: Bytes, cached: map<int, Bytes>, remote: map<int, Bytes>,
                  offset: nat, length: nat, size: int, first: int, last: int, readAhead: int, known: Option<nat>)
    returns (r: Result)
    requires size > 0 && Agrees(obj, size, cached) && Agrees(obj, size, remote)
    requires first == ChunkOf(offset, size) && last == ChunkOf(offset + length - 1, size)
    ensures r.Data? ==> r.bytes == Slice(obj, offset, offset + length)
    ensures r == Failed ==> exists s :: NeededStart(s, offset, length, size) && s !in cached && s !in remote
  {
    hide Quotient, Slice, NeededStart;
    var chunks, missing := Gather(obj, cached, offset, length, size, first, last);
    if |missing| > 0 {
      var more := ReadAhead(cached, offset, length, size, last, readAhead, known);
      var fetched := FetchMissing(obj, remote, missing + more, size, last);
      if fetched.None? {
        return Failed;
      }
      forall k | Needed(k, offset, length, size)
        ensures StartAt(k, size) in chunks || StartAt(k, size) in fetched.value
      {
        StartsInOrder(k, Quotient(offset + length - 1, size), size);
      }
      chunks := chunks + fetched.value;
    }
    var out := Assemble(obj, chunks, offset, length, size, first, last);
    return Data(out);
  }

  /** readRangeWithCache. The cache may change while it runs: warm is what it
      holds at the first look, cached at the second; remote is what the bucket
      delivers. Whatever mixture answers, a successful read of at least one byte
      is the plain slice of the object. */
  method ReadRange(ghost obj: Bytes, warm: map<int, Bytes>, cached: map<int, Bytes>, remote: map<int, Bytes>,
                   offset: int, length: int, chunkSize: int, readAhead: int, known: Option<nat>)
    returns (r: Result)
    requires var size := if chunkSize <= 0 then DefaultChunkSize else chunkSize;
             Agrees(obj, size, warm) && Agrees(obj, size, cached) && Agrees(obj, size, remote)
    ensures offset < 0 || length < 0 ==> r == Failed
    ensures offset >= 0 && length > 0 && r.Data? ==>
              && |r.bytes| == Max(0, Min(offset + length, |obj|) - offset)
              && forall i :: 0 <= i < |r.bytes| ==> r.bytes[i] == obj[offset + i]
    ensures var size := if chunkSize <= 0 then 1024 * 1024 else chunkSize;
            offset >= 0 && length == 0 && r.Data? ==>
              var s := offset - offset % size;
              r.bytes == if size > 1 && (offset == 0 || offset % size != 0) && s in warm && offset - s < |warm[s]|
                         then warm[s][offset - s..] else []
    ensures var size := if chunkSize <= 0 then 1024 * 1024 else chunkSize;
            offset >= 0 && length >= 0 && r == Failed ==>
              exists s :: 0 <= s && s % size == 0 && s <= Max(offset, offset + length - 1) && offset < s + size
                          && s !in cached && s !in remote
  {
    hide Quotient, NeededStart, ChunkOf, Slice, Agrees;
    if offset < 0 || length < 0 {
      return Failed;
    }
    var size := if chunkSize <= 0 then DefaultChunkSize else chunkSize;
    var first, last := ChunkOf(offset, size), ChunkOf(offset + length - 1, size);
    ChunkOfFacts(offset, size);
    SliceAt(obj, offset, offset + length);
    FirstChunk(offset, size);
    forall s | NeededStart(s, offset, length, size)
      ensures 0 <= s && s % size == 0 && s <= Max(offset, offset + length - 1) && offset < s + size
    {
      NeededSpelled(s, offset, length, size);
    }
    var data := ReadWarmChunks(obj, warm, offset, length, size, first, last);
    if data.Some? {
      if length == 0 && first in warm { SliceAt(warm[first], offset - first, |warm[first]|); }
      return Data(data.value);
    }
    r := ReadCold(obj, cached, remote, offset, length, size, first, last, readAhead, known);
  }

  /** Where the chunk of the first byte starts, and whether a read of no bytes looks
      at it. */
  lemma FirstChunk(offset: nat, size: int)
    requires size > 0
    ensures ChunkOf(offset, size) == offset - offset % size
    ensures ChunkOf(offset, size) <= ChunkOf(offset - 1, size) <==> size > 1 && (offset == 0 || offset % size != 0)
  {
    DivMod(offset, size);
    if offset > 0 {
      DivMod(offset - 1, size);
      ChunkOfFacts(offset, size);
      ChunkOfFacts(offset - 1, size);
      StartsInOrder(offset / size, (offset - 1) / size, size);
      var s := ChunkOf(offset - 1, size);
      if offset % size == 0 {
        assert ChunkOf(offset, size) == offset;
      } else {
        assert ChunkOf(offset, size) <= offset - 1;
        SameChunk(offset - 1, offset / size, size);
      }
    }
  }

  /** The chunk of a byte is the one it lies in. */
  lemma SameChunk(x: nat, k: int, size: int)
    requires size > 0 && StartAt(k, size) <= x < StartAt(k, size) + size
    ensures x / size == k
  {
    DivMod(x, size);
    var q := x / size;
    if q < k {
      Monotonic(q + 1, k, size);
      Successor(q, size);
    } else if k < q {
      Monotonic(k + 1, q, size);
      Successor(k, size);
    }
  }

  /** A chunk that is needed starts at a multiple of the size and overlaps the
      request; a request of no bytes needs at most the chunk it points into. */
  lemma NeededSpelled(s: int, offset: nat, length: nat, size: int)
    requires size > 0 && NeededStart(s, offset, length, size)
    ensures 0 <= s && s % size == 0 && s <= Max(offset, offset + length - 1) && offset < s + size
  {
    var k :| Needed(k, offset, length, size) && s == StartAt(k, size);
    ChunkOfFacts(offset, size);
    StartsInOrder(Quotient(offset, size), k, size);
    StartsInOrder(k, Quotient(offset + length - 1, size), size);
    MultipleOf(k, size);
    if offset + length > 0 {
      ChunkOfFacts(offset + length - 1, size);
    }
  }

  lemma MultipleOf(k: int, size: int)
    requires size > 0
    ensures StartAt(k, size) % size == 0
  {
    var m := k * size;
    assert m == (m / size) * size + m % size;
    var d := k - m / size;
    assert d * size == m % size;
    if d >= 1 {
      Monotonic(1, d, size);
    } else if d <= -1 {
      Monotonic(d, -1, size);
    }
  }

  /** A read of no bytes can return some: a cached chunk [1, 2, 3] of an object
      with these bytes, read at offset 1 for length 0, yields [2, 3]. */
  method ZeroLengthReadReturnsBytes() returns (r: Result)
    ensures r == Data([2, 3])
  {
    var chunk: Bytes := [1, 2, 3];
    var cache: map<int, Bytes> := map[0 := chunk];
    assert chunk[0..3] == chunk && chunk[1..] == [2, 3];
    assert Agrees(chunk, 4, cache);
    hide *;
    r := ReadRange(chunk, cache, cache, cache, 1, 0, 4, 0, None);
  }
}
