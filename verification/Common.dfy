/** Types shared by the models of the gateway's components. */
module Common {

  datatype Option<+T> = None | Some(value: T) {
    function GetOr(default: T): T {
      if Some? then value else default
    }
  }

  type Path = string

  type Byte = x: int | 0 <= x < 256
  type Bytes = seq<Byte>

  function Min(a: int, b: int): int {
    if a < b then a else b
  }

  function Max(a: int, b: int): int {
    if a < b then b else a
  }

  function Zeros(n: nat): Bytes {
    seq(n, _ => 0)
  }

  /** What a file holds once data has been written at offset: a gap is filled
      with zeros, and writing nothing changes nothing. */
  function WriteAt(file: Bytes, data: Bytes, offset: nat): Bytes {
    if data == [] then file
    else if |file| <= offset then file + Zeros(offset - |file|) + data
    else file[..offset] + data + (if offset + |data| < |file| then file[offset + |data|..] else [])
  }

  /** What a file holds once it has been truncated or extended to size. */
  function Resize(file: Bytes, size: nat): Bytes {
    if size <= |file| then file[..size] else file + Zeros(size - |file|)
  }

  /** A write, byte by byte: the data lies at its offset, every other byte of the
      file stays, and what is between the end of the file and the data is zero. */
  lemma WriteAtBytes(file: Bytes, data: Bytes, offset: nat)
    ensures data == [] ==> WriteAt(file, data, offset) == file
    ensures data != [] ==> |WriteAt(file, data, offset)| == Max(|file|, offset + |data|)
    ensures data != [] ==> forall k :: 0 <= k < |WriteAt(file, data, offset)| ==>
              WriteAt(file, data, offset)[k] ==
              if offset <= k < offset + |data| then data[k - offset] else if k < |file| then file[k] else 0
  {
  }

  /** A truncate, byte by byte: what is kept stays, what is added is zero. */
  lemma ResizeBytes(file: Bytes, size: nat)
    ensures |Resize(file, size)| == size
    ensures forall k :: 0 <= k < size ==> Resize(file, size)[k] == if k < |file| then file[k] else 0
  {
  }

  // ---- arithmetic that the solver needs one step at a time ----

  lemma DivMod(x: nat, d: nat)
    requires d > 0
    ensures x == (x / d) * d + x % d
  {
  }

  lemma Monotonic(i: int, j: int, size: int)
    requires i <= j && size > 0
    ensures i * size <= j * size
  {
    assert (j - i) * size >= 0;
  }

  lemma Successor(k: int, size: int)
    ensures (k + 1) * size == k * size + size
  {
  }
}
