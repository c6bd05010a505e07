/** The parts of a multipart upload (internal/staging/sync_worker.go,
    uploadMultipartOnce). */
module Multipart {
  import opened Common

  datatype Part = Part(number: nat, bytes: Bytes)

  function Joined(parts: seq<Part>): Bytes {
    if parts == [] then [] else Joined(parts[..|parts| - 1]) + parts[|parts| - 1].bytes
  }

  /** Where part number k + 1 starts. */
  function StartOf(k: nat, partSize: nat): nat {
    k * partSize
  }

  lemma NextStart(k: nat, partSize: nat)
    ensures StartOf(k + 1, partSize) == StartOf(k, partSize) + partSize
  {
    Successor(k, partSize);
  }

  lemma NoParts(partSize: nat)
    ensures Joined([]) == [] && StartOf(0, partSize) == 0 && Full([], partSize, true) && Full([], partSize, false)
  {
  }

  lemma JoinedAppend(parts: seq<Part>, part: Part)
    ensures Joined(parts + [part]) == Joined(parts) + part.bytes
  {
    assert (parts + [part])[..|parts|] == parts;
  }

  /** The number of parts is size / partSize, rounded up. */
  lemma RoundedUp(k: nat, size: nat, partSize: nat)
    requires partSize > 0 && StartOf(k, partSize) >= size && (k == 0 || StartOf(k - 1, partSize) < size)
    ensures k == (size + partSize - 1) / partSize
  {
    DivMod(size + partSize - 1, partSize);
    var q := (size + partSize - 1) / partSize;
    if k < q {
      Monotonic(k + 1, q, partSize);
      Successor(k, partSize);
    } else if k > q {
      Monotonic(q + 1, k, partSize);
      Successor(q, partSize);
      Successor(k - 1, partSize);
    }
  }

  /** What a reader of the part of the snapshot from offset on delivers. */
  function Section(snapshot: Bytes, offset: nat, length: nat): Bytes {
    snapshot[Min(offset, |snapshot|)..Min(offset + length, |snapshot|)]
  }

  /** The first size bytes of the snapshot, as far as offset. */
  function Sofar(snapshot: Bytes, size: nat, offset: nat): Bytes {
    snapshot[..Min(Min(offset, size), |snapshot|)]
  }

  lemma SectionContinues(snapshot: Bytes, size: nat, offset: nat, partSize: nat)
    requires offset < size
    ensures Sofar(snapshot, size, offset) + Section(snapshot, offset, Min(partSize, size - offset))
            == Sofar(snapshot, size, offset + partSize)
    ensures size <= |snapshot| ==>
              |Section(snapshot, offset, Min(partSize, size - offset))| == Min(partSize, size - offset)
  {
  }

  lemma SofarEnds(snapshot: Bytes, size: nat, offset: nat)
    ensures Sofar(snapshot, size, 0) == []
    ensures offset >= size ==> Sofar(snapshot, size, offset) == snapshot[..Min(size, |snapshot|)]
  {
  }

  /** All parts but the last are full, and the last one is if more follows. */
  ghost predicate Full(parts: seq<Part>, partSize: nat, more: bool) {
    && (forall i :: 0 <= i < |parts| - 1 ==> |parts[i].bytes| == partSize)
    && (parts != [] ==> 0 < |parts[|parts| - 1].bytes| <= partSize)
    && (parts != [] && more ==> |parts[|parts| - 1].bytes| == partSize)
  }

  lemma FullSays(parts: seq<Part>, partSize: nat)
    requires Full(parts, partSize, false)
    ensures forall i :: 0 <= i < |parts| - 1 ==> |parts[i].bytes| == partSize
    ensures parts != [] ==> 0 < |parts[|parts| - 1].bytes| <= partSize
  {
  }

  lemma FullAppend(parts: seq<Part>, part: Part, partSize: nat, more: bool)
    requires Full(parts, partSize, true) && 0 < |part.bytes| <= partSize && (more ==> |part.bytes| == partSize)
    ensures Full(parts + [part], partSize, more)
  {
  }

  /** The parts of the first size bytes of a snapshot: numbered from 1 without a
      gap, full but for the last, and together exactly those bytes in order. */
  method UploadParts(snapshot: Bytes, size: nat, partSize: nat) returns (parts: seq<Part>)
    requires partSize > 0
    ensures |parts| == (size + partSize - 1) / partSize
    ensures forall i :: 0 <= i < |parts| ==> parts[i].number == i + 1
    ensures size <= |snapshot| ==> forall i :: 0 <= i < |parts| - 1 ==> |parts[i].bytes| == partSize
    ensures size <= |snapshot| && parts != [] ==> 0 < |parts[|parts| - 1].bytes| <= partSize
    ensures Joined(parts) == snapshot[..Min(size, |snapshot|)]
  {
    hide Section, Joined, StartOf, Sofar, Full;
    parts := [];
    var offset, number := 0, 1;
    NoParts(partSize);
    SofarEnds(snapshot, size, 0);
    while offset < size
      invariant number == |parts| + 1 && offset == StartOf(|parts|, partSize)
      invariant |parts| > 0 ==> StartOf(|parts| - 1, partSize) < size
      invariant forall i :: 0 <= i < |parts| ==> parts[i].number == i + 1
      invariant size <= |snapshot| ==> Full(parts, partSize, offset < size)
      invariant Joined(parts) == Sofar(snapshot, size, offset)
      decreases size - offset
    {
      var current := partSize;
      if size - offset < current {
        current := size - offset;
      }
      var part := Part(number, Section(snapshot, offset, current));
      JoinedAppend(parts, part);
      SectionContinues(snapshot, size, offset, partSize);
      NextStart(|parts|, partSize);
      if size <= |snapshot| {
        FullAppend(parts, part, partSize, offset + partSize < size);
      }
      parts := parts + [part];
      offset, number := offset + partSize, number + 1;
    }
    SofarEnds(snapshot, size, offset);
    if size <= |snapshot| { FullSays(parts, partSize); }
    RoundedUp(|parts|, size, partSize);
  }
}
