/** A staging session and the upload snapshots taken of it
    (internal/staging/session.go, internal/staging/session_upload.go).

    A session writes to one staging file. While an upload snapshot of that file
    is open, the next change first copies the bytes it keeps into a new file and
    renames it over the staging path, so the upload goes on reading the old one.
    Files are inodes here: the staging path names `entry`, the session's open
    descriptor addresses `file`, and each snapshot keeps a descriptor of its own. */
module SessionState {
  import opened Common

  datatype Snapshot = Snapshot(inode: nat, size: nat, generation: nat)

  datatype Session = Session(
    inodes: map<nat, Bytes>,
    nextInode: nat,
    entry: nat,
    file: nat,
    size: nat,
    dirty: bool,
    prefetched: bool,
    uploadReaders: nat,
    fileGeneration: nat,
    snapshots: map<nat, Snapshot>)

  /** A session over a staging file that holds bytes. */
  function NewSession(bytes: Bytes): (s: Session)
    ensures Valid(s) && Contents(s) == bytes
  {
    var s := Session(map[0 := bytes], 1, 0, 0, |bytes|, false, false, 0, 0, map[]);
    assert ReadersOf(s) == {};
    s
  }

  /** The bytes the session's own descriptor reads. */
  function Contents(s: Session): Bytes {
    if s.file in s.inodes then s.inodes[s.file] else []
  }

  /** The bytes an upload reads through an open snapshot: a section of the
      snapshot's file as long as the size recorded at the opening. */
  function SnapshotBytes(s: Session, id: nat): Bytes
    requires id in s.snapshots
  {
    var snapshot := s.snapshots[id];
    var bytes := if snapshot.inode in s.inodes then s.inodes[snapshot.inode] else [];
    bytes[..Min(snapshot.size, |bytes|)]
  }

  /** The open snapshots of the file the session writes to now. */
  ghost function ReadersOf(s: Session): set<nat> {
    set id | id in s.snapshots && s.snapshots[id].generation == s.fileGeneration
  }

  ghost predicate ValidSnapshot(s: Session, snapshot: Snapshot) {
    && snapshot.inode in s.inodes
    && snapshot.size >= |s.inodes[snapshot.inode]|
    && snapshot.generation <= s.fileGeneration
    && (snapshot.generation == s.fileGeneration <==> snapshot.inode == s.file)
  }

  /** The recorded size is never less than the file's length; it is more after a
      write of no bytes past the end. */
  ghost predicate Valid(s: Session) {
    && s.file in s.inodes
    && s.entry == s.file
    && s.size >= |s.inodes[s.file]|
    && (forall i :: i in s.inodes ==> i < s.nextInode)
    && (forall id :: id in s.snapshots ==> ValidSnapshot(s, s.snapshots[id]))
    && s.uploadReaders == |ReadersOf(s)|
  }

  /** detachFromUploadsLocked. None when the file holds fewer bytes than the
      change keeps, which the copy reports as an error. */
  function Detach(s: Session, keep: nat): Option<Session> {
    if s.uploadReaders == 0 then Some(s)
    else if keep > |Contents(s)| then None
    else Some(s.(inodes := s.inodes[s.nextInode := Contents(s)[..keep]],
                 nextInode := s.nextInode + 1,
                 entry := s.nextInode,
                 file := s.nextInode,
                 uploadReaders := 0,
                 fileGeneration := s.fileGeneration + 1))
  }

  /** write: the session after data is written at offset, unchanged when the
      staging file could not be detached from the uploads reading it. */
  function AfterWrite(s: Session, data: Bytes, offset: nat): Session {
    match Detach(s, s.size)
    case None => s
    case Some(t) => t.(inodes := t.inodes[t.file := WriteAt(Contents(t), data, offset)],
                       size := Max(t.size, offset + |data|),
                       dirty := true)
  }

  /** Truncate. */
  function AfterTruncate(s: Session, size: nat): Session {
    match Detach(s, Min(size, s.size))
    case None => s
    case Some(t) => t.(inodes := t.inodes[t.file := Resize(Contents(t), size)],
                       size := size,
                       dirty := true)
  }

  /** Prefetch: the fetcher rewrites the file the staging path names,
      once in the life of the session. */
  function AfterPrefetch(s: Session, fetched: Bytes): Session {
    if s.prefetched then s
    else
      match Detach(s, 0)
      case None => s
      case Some(t) =>
        var u := t.(inodes := t.inodes[t.entry := fetched]);
        u.(size := |Contents(u)|, prefetched := true)
  }

  /** OpenUploadSnapshot, under the name id. */
  function AfterOpen(s: Session, id: nat): Session {
    if id in s.snapshots then s
    else s.(uploadReaders := s.uploadReaders + 1,
            snapshots := s.snapshots[id := Snapshot(s.entry, s.size, s.fileGeneration)])
  }

  /** UploadSnapshot.Close. Closing twice does nothing. */
  function AfterClose(s: Session, id: nat): Session {
    if id !in s.snapshots then s
    else s.(uploadReaders := if s.fileGeneration == s.snapshots[id].generation && s.uploadReaders > 0
                             then s.uploadReaders - 1 else s.uploadReaders,
            snapshots := s.snapshots - {id})
  }

  datatype Op =
    | WriteOp(data: Bytes, offset: nat)
    | TruncateOp(size: nat)
    | PrefetchOp(fetched: Bytes)
    | OpenOp(id: nat)
    | CloseOp(id: nat)

  function After(s: Session, op: Op): Session {
    match op
    case WriteOp(data, offset) => AfterWrite(s, data, offset)
    case TruncateOp(size) => AfterTruncate(s, size)
    case PrefetchOp(fetched) => AfterPrefetch(s, fetched)
    case OpenOp(id) => AfterOpen(s, id)
    case CloseOp(id) => AfterClose(s, id)
  }

  function AfterAll(s: Session, ops: seq<Op>): Session
    decreases ops
  {
    if ops == [] then s else AfterAll(After(s, ops[0]), ops[1..])
  }

  /** The reference: a plain file, changed by the writes and truncates and
      filled by the first prefetch, with no snapshots at all. */
  datatype PlainFile = PlainFile(bytes: Bytes, prefetched: bool)

  function PlainAfter(f: PlainFile, op: Op): PlainFile {
    match op
    case WriteOp(data, offset) => f.(bytes := WriteAt(f.bytes, data, offset))
    case TruncateOp(size) => f.(bytes := Resize(f.bytes, size))
    case PrefetchOp(fetched) => if f.prefetched then f else PlainFile(fetched, true)
    case OpenOp(_) => f
    case CloseOp(_) => f
  }

  function PlainAfterAll(f: PlainFile, ops: seq<Op>): PlainFile
    decreases ops
  {
    if ops == [] then f else PlainAfterAll(PlainAfter(f, ops[0]), ops[1..])
  }

  /** The session refuses the change: the copy it needs cannot be made. */
  predicate Refused(s: Session, op: Op) {
    match op
    case WriteOp(_, _) => Detach(s, s.size).None?
    case TruncateOp(size) => Detach(s, Min(size, s.size)).None?
    case _ => false
  }

  /** The operations of a run that the session does not refuse. */
  function AcceptedOps(s: Session, ops: seq<Op>): seq<Op>
    decreases ops
  {
    if ops == [] then []
    else (if Refused(s, ops[0]) then [] else [ops[0]]) + AcceptedOps(After(s, ops[0]), ops[1..])
  }

  /** A write of no bytes past the end of the file. It extends the recorded size
      and not the file. */
  predicate Phantom(size: nat, op: Op) {
    op.WriteOp? && op.data == [] && op.offset > size
  }

  predicate NoPhantom(f: PlainFile, ops: seq<Op>)
    decreases ops
  {
    ops == [] || (!Phantom(|f.bytes|, ops[0]) && NoPhantom(PlainAfter(f, ops[0]), ops[1..]))
  }

  predicate SizeIsExact(s: Session) {
    s.size == |Contents(s)|
  }

  lemma DetachLemma(s: Session, keep: nat)
    requires Valid(s) && Detach(s, keep).Some?
    ensures var t := Detach(s, keep).value;
            && t.file in t.inodes && t.entry == t.file && t.uploadReaders == 0
            && t.uploadReaders == |ReadersOf(t)|
            && (forall i :: i in t.inodes ==> i < t.nextInode)
            && t.snapshots == s.snapshots
            && t.size == s.size && t.prefetched == s.prefetched && t.dirty == s.dirty
            && Contents(t) == if s.uploadReaders == 0 then Contents(s) else Contents(s)[..keep]
    ensures var t := Detach(s, keep).value;
            forall id :: id in s.snapshots ==>
              && s.snapshots[id].inode != t.file
              && s.snapshots[id].inode in t.inodes
              && t.inodes[s.snapshots[id].inode] == s.inodes[s.snapshots[id].inode]
              && s.snapshots[id].generation < t.fileGeneration
  {
    var t := Detach(s, keep).value;
    if s.uploadReaders == 0 {
      assert ReadersOf(s) == {};
      assert forall id :: id in s.snapshots ==> id !in ReadersOf(s);
    }
    assert ReadersOf(t) == {};
  }

  /** Changing the detached file leaves every snapshot's file alone. */
  lemma ChangeLemma(s: Session, keep: nat, bytes: Bytes, u: Session)
    requires Valid(s) && Detach(s, keep).Some?
    requires var t := Detach(s, keep).value;
             && t.file in t.inodes
             && u.inodes == t.inodes[t.file := bytes] && u.nextInode == t.nextInode
             && u.entry == t.entry && u.file == t.file && u.size >= |bytes|
             && u.uploadReaders == t.uploadReaders && u.fileGeneration == t.fileGeneration
             && u.snapshots == t.snapshots
    ensures Valid(u) && Contents(u) == bytes
    ensures forall id :: id in s.snapshots ==> id in u.snapshots && SnapshotBytes(u, id) == SnapshotBytes(s, id)
  {
    DetachLemma(s, keep);
    var t := Detach(s, keep).value;
    assert ReadersOf(u) == ReadersOf(t);
  }

  lemma OpenCloseLemma(s: Session, id: nat)
    requires Valid(s)
    ensures Valid(AfterOpen(s, id)) && Contents(AfterOpen(s, id)) == Contents(s)
    ensures Valid(AfterClose(s, id)) && Contents(AfterClose(s, id)) == Contents(s)
    ensures id !in s.snapshots ==> SnapshotBytes(AfterOpen(s, id), id) == Contents(s)
  {
    if id !in s.snapshots {
      assert ReadersOf(AfterOpen(s, id)) == ReadersOf(s) + {id};
    } else {
      assert ReadersOf(AfterClose(s, id)) == ReadersOf(s) - {id};
    }
  }

  /** The operation keeps the session valid, changes it as the plain file is
      changed or is refused and changes nothing, and leaves what every other
      snapshot reads alone. */
  ghost predicate StepOk(s: Session, op: Op, u: Session) {
    && Valid(u)
    && (Refused(s, op) ==> u == s)
    && (!Refused(s, op) ==>
          PlainFile(Contents(u), u.prefetched) == PlainAfter(PlainFile(Contents(s), s.prefetched), op))
    && forall id :: id in s.snapshots && op != CloseOp(id) ==>
         id in u.snapshots && id in s.snapshots && SnapshotBytes(u, id) == SnapshotBytes(s, id)
  }

  lemma WriteStep(s: Session, data: Bytes, offset: nat)
    requires Valid(s)
    ensures StepOk(s, WriteOp(data, offset), AfterWrite(s, data, offset))
  {
    if Detach(s, s.size).Some? {
      DetachLemma(s, s.size);
      assert Contents(Detach(s, s.size).value) == Contents(s);
      ChangeLemma(s, s.size, WriteAt(Contents(s), data, offset), AfterWrite(s, data, offset));
    }
  }

  lemma TruncateStep(s: Session, size: nat)
    requires Valid(s)
    ensures StepOk(s, TruncateOp(size), AfterTruncate(s, size))
  {
    var keep := Min(size, s.size);
    if Detach(s, keep).Some? {
      DetachLemma(s, keep);
      assert Resize(Contents(Detach(s, keep).value), size) == Resize(Contents(s), size);
      ChangeLemma(s, keep, Resize(Contents(s), size), AfterTruncate(s, size));
    }
  }

  lemma PrefetchStep(s: Session, fetched: Bytes)
    requires Valid(s)
    ensures StepOk(s, PrefetchOp(fetched), AfterPrefetch(s, fetched))
  {
    if !s.prefetched {
      DetachLemma(s, 0);
      ChangeLemma(s, 0, fetched, AfterPrefetch(s, fetched));
    }
  }

  lemma StepLemma(s: Session, op: Op)
    requires Valid(s)
    ensures StepOk(s, op, After(s, op))
  {
    match op
    case WriteOp(data, offset) =>
      hide StepOk;
      WriteStep(s, data, offset);
    case TruncateOp(size) =>
      hide StepOk;
      TruncateStep(s, size);
    case PrefetchOp(fetched) =>
      hide StepOk;
      PrefetchStep(s, fetched);
    case OpenOp(id) =>
      OpenCloseLemma(s, id);
    case CloseOp(id) =>
      OpenCloseLemma(s, id);
  }

  /** Over every run, the session is the plain file after the operations it did
      not refuse, the reader count is the number of open snapshots of the current
      file, and the staging path names the file the session writes to. */
  lemma {:induction false} RunMatchesPlainFile(s: Session, ops: seq<Op>)
    requires Valid(s)
    ensures var u := AfterAll(s, ops);
            && PlainFile(Contents(u), u.prefetched)
               == PlainAfterAll(PlainFile(Contents(s), s.prefetched), AcceptedOps(s, ops))
            && u.size >= |Contents(u)|
            && u.entry == u.file
            && u.uploadReaders == |ReadersOf(u)|
            && Valid(u)
    decreases ops
  {
    if ops != [] {
      StepLemma(s, ops[0]);
      RunMatchesPlainFile(After(s, ops[0]), ops[1..]);
      var rest := AcceptedOps(After(s, ops[0]), ops[1..]);
      if !Refused(s, ops[0]) {
        assert ([ops[0]] + rest)[1..] == rest;
      } else {
        assert [] + rest == rest;
      }
    }
  }

  /** Over every run that does not close it, an upload reads through its
      snapshot the bytes the session held when the snapshot was opened. */
  lemma {:induction false} SnapshotIsolation(s: Session, id: nat, ops: seq<Op>)
    requires Valid(s) && id !in s.snapshots && CloseOp(id) !in ops
    ensures var u := AfterAll(AfterOpen(s, id), ops);
            id in u.snapshots && SnapshotBytes(u, id) == Contents(s)
  {
    OpenCloseLemma(s, id);
    SnapshotFrozen(AfterOpen(s, id), id, ops);
  }

  lemma {:induction false} SnapshotFrozen(s: Session, id: nat, ops: seq<Op>)
    requires Valid(s) && id in s.snapshots && CloseOp(id) !in ops
    ensures id in AfterAll(s, ops).snapshots
    ensures SnapshotBytes(AfterAll(s, ops), id) == SnapshotBytes(s, id)
    decreases ops
  {
    if ops != [] {
      StepLemma(s, ops[0]);
      SnapshotFrozen(After(s, ops[0]), id, ops[1..]);
    }
  }

  /** A session whose size is exact refuses nothing, and a write leaves the size
      exact exactly when it is not a write of no bytes past the end. */
  lemma WriteKeepsSizeExactly(s: Session, data: Bytes, offset: nat)
    requires Valid(s) && SizeIsExact(s)
    ensures !Refused(s, WriteOp(data, offset))
    ensures SizeIsExact(AfterWrite(s, data, offset)) <==> !(data == [] && offset > s.size)
  {
    DetachLemma(s, s.size);
  }

  lemma StepKeepsSizeExact(s: Session, op: Op)
    requires Valid(s) && SizeIsExact(s) && !Phantom(s.size, op)
    ensures !Refused(s, op) && SizeIsExact(After(s, op))
  {
    match op
    case WriteOp(data, offset) => WriteKeepsSizeExactly(s, data, offset);
    case TruncateOp(size) => DetachLemma(s, Min(size, s.size));
    case PrefetchOp(fetched) => DetachLemma(s, 0);
    case OpenOp(id) => OpenCloseLemma(s, id);
    case CloseOp(id) => OpenCloseLemma(s, id);
  }

  /** Without such writes nothing is ever refused, and the recorded size is the
      length of the file throughout. */
  lemma {:induction false} NothingIsRefused(s: Session, ops: seq<Op>)
    requires Valid(s) && SizeIsExact(s) && NoPhantom(PlainFile(Contents(s), s.prefetched), ops)
    ensures AcceptedOps(s, ops) == ops && SizeIsExact(AfterAll(s, ops))
    decreases ops
  {
    if ops != [] {
      StepLemma(s, ops[0]);
      StepKeepsSizeExact(s, ops[0]);
      NothingIsRefused(After(s, ops[0]), ops[1..]);
      assert ops == [ops[0]] + ops[1..];
    }
  }

  /** What goes wrong after one: with an upload reading the file, every later
      write is refused, because the copy asks for bytes the file does not have. */
  lemma PhantomWriteBlocksLaterWrites(s: Session, offset: nat, id: nat, data: Bytes, later: nat)
    requires Valid(s) && offset > s.size && id !in s.snapshots
    ensures var u := AfterOpen(AfterWrite(s, [], offset), id);
            Refused(u, WriteOp(data, later)) && AfterWrite(u, data, later) == u
  {
    WriteStep(s, [], offset);
    if Detach(s, s.size).Some? {
      DetachLemma(s, s.size);
    }
  }
}

/** The session as the object the manager holds. */
module StagingSession {
  import opened Common
  import opened SessionState

  class WriteSession {
    var inodes: map<nat, Bytes>
    var nextInode: nat
    var stagingEntry: nat
    var file: nat
    var size: nat
    var dirty: bool
    var prefetched: bool
    var uploadReaders: nat
    var fileGeneration: nat
    var snapshots: map<nat, Snapshot>

    function State(): Session
      reads this
    {
      Session(inodes, nextInode, stagingEntry, file, size, dirty, prefetched,
              uploadReaders, fileGeneration, snapshots)
    }

    constructor (bytes: Bytes)
      ensures State() == NewSession(bytes)
      ensures Valid(State())
    {
      inodes, nextInode, stagingEntry, file := map[0 := bytes], 1, 0, 0;
      size, dirty, prefetched := |bytes|, false, false;
      uploadReaders, fileGeneration, snapshots := 0, 0, map[];
      new;
      assert State() == NewSession(bytes);
    }

    method DetachFromUploads(keepBytes: nat) returns (ok: bool)
      requires file in inodes
      modifies this
      ensures ok == Detach(old(State()), keepBytes).Some?
      ensures State() == Detach(old(State()), keepBytes).GetOr(old(State()))
      ensures ok <==> old(uploadReaders) == 0 || keepBytes <= |old(inodes[file])|
      ensures !ok || old(uploadReaders) == 0 ==> State() == old(State())
      ensures ok && old(uploadReaders) > 0 ==>
                && file == stagingEntry == old(nextInode) && file in inodes && uploadReaders == 0
                && inodes[file] == old(inodes[file])[..keepBytes]
                && forall i :: i in old(inodes) && i != file ==> i in inodes && inodes[i] == old(inodes)[i]
    {
      if uploadReaders == 0 {
        return true;
      }
      if keepBytes > |inodes[file]| {
        return false;
      }
      var copied := inodes[file][..keepBytes];
      inodes := inodes[nextInode := copied];
      stagingEntry := nextInode;
      file := nextInode;
      nextInode := nextInode + 1;
      uploadReaders := 0;
      fileGeneration := fileGeneration + 1;
      ok := true;
    }

    method Write(data: Bytes, offset: nat) returns (n: nat, ok: bool)
      requires Valid(State())
      modifies this
      ensures State() == AfterWrite(old(State()), data, offset)
      ensures Valid(State())
      ensures ok <==> old(uploadReaders) == 0 || old(size) <= |old(Contents(State()))|
      ensures ok ==> size == Max(old(size), offset + |data|)
      ensures ok ==> n == |data| && dirty
      ensures ok && data == [] ==> Contents(State()) == Contents(old(State()))
      ensures ok && data != [] ==> |Contents(State())| == Max(|old(Contents(State()))|, offset + |data|)
      ensures ok && data != [] ==> forall k :: 0 <= k < |Contents(State())| ==>
                Contents(State())[k] ==
                if offset <= k < offset + |data| then data[k - offset]
                else if k < |old(Contents(State()))| then old(Contents(State()))[k]
                else 0
      ensures !ok ==> n == 0 && State() == old(State())
      ensures forall id :: id in old(snapshots) ==>
                id in snapshots && SnapshotBytes(State(), id) == SnapshotBytes(old(State()), id)
    {
      StepLemma(State(), WriteOp(data, offset));
      WriteAtBytes(Contents(State()), data, offset);
      ok := DetachFromUploads(size);
      if !ok {
        return 0, false;
      }
      inodes := inodes[file := WriteAt(inodes[file], data, offset)];
      var newSize := offset + |data|;
      if newSize > size {
        size := newSize;
      }
      dirty := true;
      n := |data|;
    }

    method Truncate(newSize: nat) returns (ok: bool)
      requires Valid(State())
      modifies this
      ensures State() == AfterTruncate(old(State()), newSize)
      ensures Valid(State())
      ensures ok <==> old(uploadReaders) == 0 || Min(newSize, old(size)) <= |old(Contents(State()))|
      ensures ok ==> size == newSize == |Contents(State())| && dirty
      ensures ok ==> forall k :: 0 <= k < newSize ==>
                Contents(State())[k] ==
                if k < |old(Contents(State()))| then old(Contents(State()))[k] else 0
      ensures !ok ==> State() == old(State())
      ensures forall id :: id in old(snapshots) ==>
                id in snapshots && SnapshotBytes(State(), id) == SnapshotBytes(old(State()), id)
    {
      StepLemma(State(), TruncateOp(newSize));
      ResizeBytes(Contents(State()), newSize);
      ok := DetachFromUploads(Min(newSize, size));
      if ok {
        inodes := inodes[file := Resize(inodes[file], newSize)];
        size := newSize;
        dirty := true;
      }
    }

    method Prefetch(fetched: Bytes)
      requires Valid(State())
      modifies this
      ensures State() == AfterPrefetch(old(State()), fetched)
      ensures Valid(State())
      ensures Contents(State()) == if old(prefetched) then Contents(old(State())) else fetched
    {
      ghost var before := State();
      StepLemma(before, PrefetchOp(fetched));
      if prefetched {
        return;
      }
      DetachLemma(before, 0);
      var _ := DetachFromUploads(0);
      inodes := inodes[stagingEntry := fetched];
      size := |inodes[file]|;
      prefetched := true;
    }

    method OpenUploadSnapshot(id: nat)
      requires Valid(State()) && id !in snapshots
      modifies this`uploadReaders, this`snapshots
      ensures State() == AfterOpen(old(State()), id)
      ensures Valid(State()) && id in snapshots && SnapshotBytes(State(), id) == Contents(old(State()))
    {
      OpenCloseLemma(State(), id);
      uploadReaders := uploadReaders + 1;
      snapshots := snapshots[id := Snapshot(stagingEntry, size, fileGeneration)];
    }

    method CloseSnapshot(id: nat)
      requires Valid(State())
      modifies this`uploadReaders, this`snapshots
      ensures State() == AfterClose(old(State()), id)
      ensures Valid(State()) && Contents(State()) == Contents(old(State()))
    {
      OpenCloseLemma(State(), id);
      if id !in snapshots {
        return;
      }
      if fileGeneration == snapshots[id].generation && uploadReaders > 0 {
        uploadReaders := uploadReaders - 1;
      }
      snapshots := snapshots - {id};
    }
  }
}
