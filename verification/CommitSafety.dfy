/** A committed file survives a power loss: the invariant behind it, kept by
    every step of writers, commits and the sync worker. */
module CommitSafety {
  import opened Common
  import opened Commit

  ghost predicate Covers(m: map<nat, Byte>, part: map<nat, Byte>) {
    forall k :: k in part ==> k in m && m[k] == part[k]
  }

  /** Every version of the sidecar a power loss may leave is whole. */
  ghost predicate SidesFirm(a: Area) {
    forall x :: x in a.sideMay ==> x.Side? && x.committed
  }

  /** Every file a power loss may leave under the staging path holds part. */
  ghost predicate DataFirm(a: Area, part: map<nat, Byte>) {
    forall d :: d in a.dataMay ==> d.Some? && d.value in a.firm && Covers(a.firm[d.value], part)
  }

  /** The sidecar and both directory entries are on the disk as they are. */
  ghost predicate MetaFirm(a: Area) {
    SidesFirm(a) && a.dataMay == {Some(a.file)}
  }

  /** The session's own file holds part, on the disk. */
  ghost predicate FileFirm(a: Area, part: map<nat, Byte>) {
    a.file in a.firm && Covers(a.firm[a.file], part)
  }

  /** The session's own file holds part. */
  ghost predicate FileHolds(a: Area, part: map<nat, Byte>) {
    a.file in a.live && Covers(AsMap(a.live[a.file]), part)
  }

  ghost predicate InvFiles(a: Area) {
    && a.file in a.live && Some(a.file) in a.dataMay
    && (forall i :: i in a.live <==> i in a.firm)
    && (forall i :: i in a.live ==> i < a.nextInode)
    && (forall i :: i in a.live && i in a.firm ==> Covers(AsMap(a.live[i]), a.firm[i]))
    && (forall d :: d in a.dataMay && d.Some? ==> d.value in a.firm)
  }

  ghost predicate InvSides(a: Area) {
    && a.side in a.sideMay
    && (forall x :: x in a.sideMay && x.Side? && x.committed ==> x.durable)
    && (a.dirty || a.mutex.Recorded? || a.mutex.Bumped? ==> a.side.Side?)
    && (!a.mutex.Free? ==> !a.dirty)
  }

  ghost predicate InvVersions(a: Area) {
    && 0 < a.version && a.committedVersion <= a.version
    && (a.mutex.Bumped? ==> a.committedVersion < a.version)
    && (a.dirty && a.version == a.committedVersion ==> MetaFirm(a))
  }

  /** What has been promised is on the disk. */
  ghost predicate InvPromise(a: Area, promised: bool, guaranteed: map<nat, Byte>) {
    && (promised ==> a.dirty && SidesFirm(a) && DataFirm(a, guaranteed))
    && (!promised ==> guaranteed == map[])
    && FileHolds(a, guaranteed)
  }

  /** A version a call has read but not yet reported. */
  ghost predicate InvVersion(a: Area, u: nat) {
    u <= a.version && (a.mutex.Bumped? ==> u < a.version)
  }

  ghost predicate InvCall(a: Area, call: Call) {
    && call.epoch <= a.epoch
    && (call.counts ==> a.dirty && call.epoch == a.epoch && FileHolds(a, call.target))
    && match call.phase
       case Started => true
       case Flushing(f) => f in a.live
       case Flushed(f) => f in a.live && (call.counts && f == a.file ==> FileFirm(a, call.target))
       case Checked(u) =>
         && (call.epoch == a.epoch ==> u <= a.version)
         && (call.counts ==> FileFirm(a, call.target))
         && (call.counts && u == 0 ==> SidesFirm(a) && DataFirm(a, call.target))
       case Recording(u) =>
         && (call.epoch == a.epoch ==> u <= a.version)
         && (call.counts ==> FileFirm(a, call.target))
       case MetaDone(u) =>
         && (call.counts ==> FileFirm(a, call.target) && a.side.Side? && a.side.committed)
         && (call.epoch == a.epoch ==>
               InvVersion(a, u) && (u == a.version && a.dirty ==> a.side.Side? && a.side.committed))
       case DirDone(u) =>
         && (call.counts ==> SidesFirm(a) && DataFirm(a, call.target))
         && (call.epoch == a.epoch ==> InvVersion(a, u) && (u == a.version && a.dirty ==> MetaFirm(a)))
  }

  ghost predicate InvCalls(a: Area, calls: map<nat, Call>) {
    forall c :: c in calls ==> InvCall(a, calls[c])
  }

  ghost predicate InvArea(a: Area) {
    InvFiles(a) && InvSides(a) && InvVersions(a)
  }

  ghost predicate Inv(s: State) {
    InvArea(s.area) && InvPromise(s.area, s.promised, s.guaranteed) && InvCalls(s.area, s.calls)
  }

  predicate Has(bytes: Bytes, k: nat, b: Byte) {
    k < |bytes| && bytes[k] == b
  }

  /** bytes is file but for [from, to). */
  ghost predicate SameOutside(file: Bytes, bytes: Bytes, from: nat, to: nat) {
    forall k: nat :: k < |file| && !(from <= k < to) ==> Has(bytes, k, file[k])
  }

  /** What a change of the area, from a to b, does to a part of the file that
      becomes rest. */
  ghost predicate Evolves(a: Area, b: Area, part: map<nat, Byte>, rest: map<nat, Byte>) {
    && (FileHolds(a, part) ==> FileHolds(b, rest))
    && (FileHolds(a, part) && FileFirm(a, part) ==> FileFirm(b, rest))
    && (FileHolds(a, part) && DataFirm(a, part) ==> DataFirm(b, rest))
  }

  /** A copy that keeps a part has it on the disk, whichever file is found. */
  lemma DetachEvolves(a: Area, keep: nat, part: map<nat, Byte>)
    requires InvArea(a) && keep <= |a.live[a.file]|
    requires forall k :: k in part ==> k < keep
    ensures InvArea(Detach(a, keep))
    ensures Evolves(a, Detach(a, keep), part, part)
  {
    var b := Detach(a, keep);
    if FileHolds(a, part) {
      assert forall k :: k in part ==> k in AsMap(b.live[b.file]) && AsMap(b.live[b.file])[k] == part[k];
    }
  }

  lemma ChangeKeepsArea(a: Area, bytes: Bytes, from: nat, to: nat)
    requires InvArea(a)
    requires SameOutside(a.live[a.file], bytes, from, to)
    ensures InvArea(Change(a, bytes, from, to))
  {
    var b := Change(a, bytes, from, to);
    assert Covers(AsMap(bytes), b.firm[b.file]) by {
      forall k | k in b.firm[b.file] ensures k in AsMap(bytes) && AsMap(bytes)[k] == b.firm[b.file][k] {
        assert k in AsMap(a.live[a.file]);
      }
    }
  }

  lemma ChangeEvolves(a: Area, bytes: Bytes, from: nat, to: nat, part: map<nat, Byte>)
    requires InvArea(a)
    requires SameOutside(a.live[a.file], bytes, from, to)
    ensures Evolves(a, Change(a, bytes, from, to), part, Without(part, from, to))
  {
    var b := Change(a, bytes, from, to);
    if FileHolds(a, part) {
      forall k | k in Without(part, from, to) ensures k in AsMap(bytes) && AsMap(bytes)[k] == part[k] {
        assert k in AsMap(a.live[a.file]);
      }
    }
  }

  /** A call goes on undisturbed when the area changes under it. */
  lemma CallEvolves(a: Area, b: Area, call: Call, rest: map<nat, Byte>)
    requires InvCall(a, call) && Evolves(a, b, call.target, rest)
    requires b.dirty == a.dirty && b.epoch == a.epoch && b.mutex == a.mutex
    requires b.side == a.side && b.sideMay == a.sideMay
    requires forall i :: i in a.live ==> i in b.live
    requires (b.version == a.version && b.file == a.file && b.dataMay == a.dataMay)
             || (b.version > a.version && b.file !in a.live)
    ensures InvCall(b, call.(target := rest))
  {
    hide FileHolds, FileFirm, DataFirm, Covers;
    assert SidesFirm(b) <==> SidesFirm(a);
    assert b.version == a.version ==> (MetaFirm(b) <==> MetaFirm(a));
    match call.phase
    case Started =>
    case Flushing(f) =>
    case Flushed(f) =>
    case Checked(u) =>
    case Recording(u) =>
    case MetaDone(u) =>
    case DirDone(u) =>
  }

  lemma PrefixSame(file: Bytes, keep: nat, bytes: Bytes, from: nat, to: nat)
    requires SameOutside(file, bytes, from, to) && keep <= |file|
    ensures SameOutside(file[..keep], bytes, from, to)
  {
  }

  lemma CopyAgrees(a: Area, bytes: Bytes, from: nat, to: nat, keep: nat)
    requires InvArea(a) && keep <= |a.live[a.file]|
    requires SameOutside(a.live[a.file], bytes, from, to)
    ensures var t := Detach(a, keep); InvArea(t) && SameOutside(t.live[t.file], bytes, from, to)
  {
    DetachEvolves(a, keep, map[]);
    PrefixSame(a.live[a.file], keep, bytes, from, to);
    hide SameOutside;
  }

  /** A part of a part is no harder to have on the disk. */
  lemma PartOfPart(a: Area, part: map<nat, Byte>, from: nat, to: nat)
    ensures var rest := Without(part, from, to);
            && (FileHolds(a, part) ==> FileHolds(a, rest))
            && (FileFirm(a, part) ==> FileFirm(a, rest))
            && (DataFirm(a, part) ==> DataFirm(a, rest))
            && Without(rest, from, to) == rest
  {
  }

  lemma CopyEvolves(a: Area, bytes: Bytes, from: nat, to: nat, keep: nat, part: map<nat, Byte>)
    requires InvArea(a) && keep <= |a.live[a.file]|
    requires keep == |a.live[a.file]| || (keep == from && |a.live[a.file]| <= to)
    requires SameOutside(a.live[a.file], bytes, from, to)
    ensures InvArea(Change(Detach(a, keep), bytes, from, to))
    ensures Evolves(a, Change(Detach(a, keep), bytes, from, to), part, Without(part, from, to))
  {
    var t, rest := Detach(a, keep), Without(part, from, to);
    CopyAgrees(a, bytes, from, to, keep);
    ChangeKeepsArea(t, bytes, from, to);
    if FileHolds(a, part) {
      assert forall k :: k in rest ==> k in AsMap(a.live[a.file]) && k < keep;
      DetachEvolves(a, keep, rest);
      ChangeEvolves(t, bytes, from, to, rest);
      PartOfPart(a, part, from, to);
      hide InvArea, FileHolds, FileFirm, DataFirm, Detach, Change, SameOutside;
    }
  }

  lemma PartEvolves(a: Area, t: Area, bytes: Bytes, from: nat, to: nat, keep: nat, part: map<nat, Byte>)
    requires InvArea(a) && keep <= |a.live[a.file]|
    requires t == a || t == Detach(a, keep)
    requires keep == |a.live[a.file]| || (keep == from && |a.live[a.file]| <= to)
    requires SameOutside(a.live[a.file], bytes, from, to)
    ensures InvArea(Change(t, bytes, from, to))
    ensures Evolves(a, Change(t, bytes, from, to), part, Without(part, from, to))
  {
    if t == a {
      ChangeKeepsArea(a, bytes, from, to);
      ChangeEvolves(a, bytes, from, to, part);
    } else {
      CopyEvolves(a, bytes, from, to, keep, part);
    }
  }

  /** Bytes in [from, to) change, in place or in a copy of the first keep bytes. */
  lemma BytesChange(s: State, t: Area, bytes: Bytes, from: nat, to: nat, keep: nat)
    requires Inv(s) && keep <= |s.area.live[s.area.file]|
    requires t == s.area || t == Detach(s.area, keep)
    requires keep == |s.area.live[s.area.file]| || (keep == from && |s.area.live[s.area.file]| <= to)
    requires SameOutside(s.area.live[s.area.file], bytes, from, to)
    ensures Inv(Overwritten(s, from, to).(area := Change(t, bytes, from, to)))
  {
    var a, b := s.area, Change(t, bytes, from, to);
    PartEvolves(a, t, bytes, from, to, keep, s.guaranteed);
    forall c | c in s.calls ensures InvCall(b, s.calls[c].(target := Without(s.calls[c].target, from, to))) {
      PartEvolves(a, t, bytes, from, to, keep, s.calls[c].target);
      CallEvolves(a, b, s.calls[c], Without(s.calls[c].target, from, to));
    }
    hide InvArea, InvCall, FileHolds, FileFirm, DataFirm;
  }

  lemma WriteAtSame(file: Bytes, data: Bytes, offset: nat)
    ensures SameOutside(file, WriteAt(file, data, offset), offset, offset + |data|)
  {
  }

  lemma DetachWhole(a: Area)
    requires a.file in a.live
    ensures var t := Detach(a, |a.live[a.file]|);
            t.file in t.live && t.file in t.firm && t.live[t.file] == a.live[a.file]
  {
  }

  lemma WriteKeeps(s: State, data: Bytes, offset: nat, uploading: bool)
    requires Inv(s)
    ensures var r := DoWrite(s, data, offset, uploading); r.Some? ==> Inv(r.value)
  {
    hide Inv, SameOutside, WriteAt, Detach, Change, Overwritten;
    if DoWrite(s, data, offset, uploading).Some? {
      var a := s.area;
      DetachWhole(a);
      var t := if uploading then Detach(a, |a.live[a.file]|) else a;
      WriteAtSame(a.live[a.file], data, offset);
      BytesChange(s, t, WriteAt(a.live[a.file], data, offset), offset, offset + |data|, |a.live[a.file]|);
    }
  }

  lemma TruncateKeeps(s: State, size: nat, uploading: bool)
    requires Inv(s)
    ensures var r := DoTruncate(s, size, uploading); r.Some? ==> Inv(r.value)
  {
    if DoTruncate(s, size, uploading).Some? {
      var a := s.area;
      var length := |a.live[a.file]|;
      var t := if uploading then Detach(a, Min(size, length)) else a;
      assert Resize(t.live[t.file], size) == Resize(a.live[a.file], size);
      BytesChange(s, t, Resize(a.live[a.file], size), Min(size, length), Max(size, length), Min(size, length));
    }
  }

  /** The area changes and no call does. */
  lemma AreaKeeps(s: State, b: Area)
    requires InvArea(b) && InvPromise(b, s.promised, s.guaranteed)
    requires forall c :: c in s.calls ==> InvCall(b, s.calls[c])
    ensures Inv(s.(area := b))
  {
    hide InvArea, InvPromise, InvCall;
  }

  predicate SameFiles(a: Area, b: Area) {
    b.live == a.live && b.firm == a.firm && b.file == a.file && b.dataMay == a.dataMay && b.dirty == a.dirty
  }

  /** A new version of the sidecar, committed if the one it replaces was. */
  lemma SideRewritten(a: Area, call: Call)
    requires InvArea(a) && a.side.Side?
    ensures var b := SetSide(a, Rewritten(a.side, a.side.committed)).(pendingBumps := a.pendingBumps + 1);
            InvArea(b) && SameFiles(a, b) && (SidesFirm(a) ==> SidesFirm(b)) && (InvCall(a, call) ==> InvCall(b, call))
  {
    hide Covers;
  }

  /** What is promised stays so while the files stay as they are. */
  lemma PromiseKeeps(a: Area, b: Area, promised: bool, guaranteed: map<nat, Byte>)
    requires InvPromise(a, promised, guaranteed)
    requires SameFiles(a, b) && (SidesFirm(a) ==> SidesFirm(b))
    ensures InvPromise(b, promised, guaranteed)
  {
  }

  lemma RewriteAttributesKeeps(s: State)
    requires Inv(s)
    ensures var r := DoRewriteAttributes(s); r.Some? ==> Inv(r.value)
  {
    hide InvArea, InvPromise, InvCall, SetSide, Rewritten;
    if DoRewriteAttributes(s).Some? {
      var a, b := s.area, DoRewriteAttributes(s).value.area;
      SideRewritten(a, Call(0, false, map[], Started));
      forall c | c in s.calls ensures InvCall(b, s.calls[c]) {
        SideRewritten(a, s.calls[c]);
      }
      PromiseKeeps(a, b, s.promised, s.guaranteed);
      AreaKeeps(s, b);
    }
  }

  /** A higher version number. */
  lemma VersionRaised(a: Area, bumps: nat, call: Call)
    requires InvArea(a)
    ensures var b := a.(version := a.version + 1, pendingBumps := bumps);
            InvArea(b) && (InvCall(a, call) ==> InvCall(b, call))
  {
    hide Covers;
  }

  lemma NoteRewriteKeeps(s: State)
    requires Inv(s)
    ensures var r := DoNoteRewrite(s); r.Some? ==> Inv(r.value)
  {
    hide InvArea, InvPromise, InvCall;
    if DoNoteRewrite(s).Some? {
      var a, b := s.area, DoNoteRewrite(s).value.area;
      VersionRaised(a, a.pendingBumps - 1, Call(0, false, map[], Started));
      forall c | c in s.calls ensures InvCall(b, s.calls[c]) {
        VersionRaised(a, a.pendingBumps - 1, s.calls[c]);
      }
      PromiseKeeps(a, b, s.promised, s.guaranteed);
      AreaKeeps(s, b);
    }
  }

  lemma RecordKeeps(s: State)
    requires Inv(s)
    ensures var r := DoRecord(s); r.Some? ==> Inv(r.value)
  {
  }

  lemma BumpKeeps(s: State)
    requires Inv(s)
    ensures var r := DoBump(s); r.Some? ==> Inv(r.value)
  {
  }

  lemma ListEntryKeeps(s: State)
    requires Inv(s)
    ensures var r := DoListEntry(s); r.Some? ==> Inv(r.value)
  {
  }

  lemma CleanEntryKeeps(s: State)
    requires Inv(s)
    ensures var r := DoCleanEntry(s); r.Some? ==> Inv(r.value)
  {
  }

  lemma RemoveSideKeeps(s: State)
    requires Inv(s)
    ensures var r := DoRemoveSide(s); r.Some? ==> Inv(r.value)
  {
  }

  lemma RenewKeeps(s: State)
    requires Inv(s)
    ensures var r := DoRenew(s); r.Some? ==> Inv(r.value)
  {
  }

  lemma BeginKeeps(s: State, c: nat)
    requires Inv(s)
    ensures var r := DoBegin(s, c); r.Some? ==> Inv(r.value)
  {
  }

  lemma TakeFileKeeps(s: State, c: nat)
    requires Inv(s)
    ensures var r := DoTakeFile(s, c); r.Some? ==> Inv(r.value)
  {
  }

  /** Flushing a file only adds to what is firm. */
  lemma FlushEvolves(a: Area, file: nat, part: map<nat, Byte>)
    requires InvArea(a) && file in a.live
    ensures var b := a.(firm := a.firm[file := AsMap(a.live[file])]);
            && InvArea(b) && Evolves(a, b, part, part)
            && (file == b.file && FileHolds(a, part) ==> FileFirm(b, part))
  {
  }

  lemma FlushKeeps(s: State, c: nat)
    requires Inv(s)
    ensures var r := DoFlush(s, c); r.Some? ==> Inv(r.value)
  {
    if DoFlush(s, c).Some? {
      var a, file := s.area, s.calls[c].phase.file;
      var b := a.(firm := a.firm[file := AsMap(a.live[file])]);
      FlushEvolves(a, file, s.guaranteed);
      forall d | d in s.calls ensures InvCall(b, s.calls[d]) {
        FlushEvolves(a, file, s.calls[d].target);
        CallEvolves(a, b, s.calls[d], s.calls[d].target);
      }
      FlushEvolves(a, file, s.calls[c].target);
      assert InvCall(b, s.calls[c].(phase := Flushed(file)));
      hide InvArea, InvCall, FileHolds, FileFirm, DataFirm;
    }
  }

  /** A call goes on to another phase. */
  lemma PhaseKeeps(s: State, c: nat, phase: Phase)
    requires Inv(s) && c in s.calls && InvCall(s.area, s.calls[c].(phase := phase))
    ensures Inv(SetPhase(s, c, phase))
  {
    hide InvArea, InvPromise, InvCall;
  }

  lemma CheckedCall(a: Area, call: Call)
    requires InvArea(a) && InvCall(a, call) && call.phase == Flushed(a.file)
    ensures InvCall(a, call.(phase := Checked(if a.version != a.committedVersion then a.version else 0)))
  {
    hide Covers, InvFiles, InvSides;
  }

  lemma CheckKeeps(s: State, c: nat)
    requires Inv(s)
    ensures var r := DoCheck(s, c); r.Some? ==> Inv(r.value)
  {
    if DoCheck(s, c).Some? {
      var a, call := s.area, s.calls[c];
      assert InvCall(a, call);
      if call.epoch != a.epoch {
        ReturnedKeeps(s, c);
      } else if call.phase.file != a.file {
        PhaseKeeps(s, c, Started);
      } else {
        CheckedCall(a, call);
        hide Inv, InvCall;
        PhaseKeeps(s, c, Checked(if a.version != a.committedVersion then a.version else 0));
      }
    }
  }

  lemma LookKeeps(s: State, c: nat)
    requires Inv(s)
    ensures var r := DoLook(s, c); r.Some? ==> Inv(r.value)
  {
    if DoLook(s, c).Some? {
      var a, call := s.area, s.calls[c];
      assert InvCall(a, call);
      if call.phase.uncommitted == 0 && !(a.side.NoSide? && a.dirty) {
        ReturnedKeeps(s, c);
      } else {
        PhaseKeeps(s, c, Recording(call.phase.uncommitted));
      }
    }
  }

  /** A call goes on undisturbed when another commits the sidecar. */
  lemma CallSeesCommit(a: Area, call: Call)
    requires InvArea(a) && InvCall(a, call) && a.mutex.Free?
    ensures InvCall(CommittedSide(a), call)
  {
    hide Covers;
  }

  lemma CommitSideKeeps(s: State, c: nat)
    requires Inv(s)
    ensures var r := DoCommitSide(s, c); r.Some? ==> Inv(r.value)
  {
    if DoCommitSide(s, c).Some? {
      var a := s.area;
      var b := CommittedSide(a);
      forall d | d in s.calls ensures InvCall(b, s.calls[d]) {
        CallSeesCommit(a, s.calls[d]);
      }
      assert InvArea(b);
      assert InvCall(b, s.calls[c].(phase := MetaDone(s.calls[c].phase.uncommitted)));
      assert InvPromise(b, s.promised, s.guaranteed);
      hide InvArea, InvCall, InvPromise;
    }
  }

  /** A call goes on undisturbed when another flushes the directory. */
  lemma CallSeesSync(a: Area, call: Call)
    requires InvArea(a) && InvCall(a, call)
    ensures InvCall(a.(dataMay := {Some(a.file)}, sideMay := {a.side}), call)
  {
    hide Covers;
  }

  lemma SyncDirKeeps(s: State, c: nat)
    requires Inv(s)
    ensures var r := DoSyncDir(s, c); r.Some? ==> Inv(r.value)
  {
    if DoSyncDir(s, c).Some? {
      var a := s.area;
      var b := a.(dataMay := {Some(a.file)}, sideMay := {a.side});
      forall d | d in s.calls ensures InvCall(b, s.calls[d]) {
        CallSeesSync(a, s.calls[d]);
      }
      assert InvArea(b) && InvPromise(b, s.promised, s.guaranteed);
      assert InvCall(b, s.calls[c].(phase := DirDone(s.calls[c].phase.uncommitted)));
      hide InvArea, InvCall, InvPromise;
    }
  }

  /** A call does not depend on the version last committed. */
  lemma CallSeesVersion(a: Area, u: nat, call: Call)
    requires InvCall(a, call)
    ensures InvCall(a.(committedVersion := u), call)
  {
  }

  /** Returning adds what the call promised. */
  lemma ReturnedKeeps(s: State, c: nat)
    requires Inv(s) && c in s.calls
    requires s.calls[c].counts ==> SidesFirm(s.area) && DataFirm(s.area, s.calls[c].target)
    ensures Inv(Returned(s, c))
  {
    hide InvArea;
    assert InvCall(s.area, s.calls[c]);
  }

  lemma ReturnKeeps(s: State, c: nat)
    requires Inv(s)
    ensures var r := DoReturn(s, c); r.Some? ==> Inv(r.value)
  {
    if DoReturn(s, c).Some? {
      var a, u := s.area, s.calls[c].phase.uncommitted;
      assert InvCall(a, s.calls[c]);
      if s.calls[c].epoch == a.epoch && u > a.committedVersion {
        var b := a.(committedVersion := u);
        forall d | d in s.calls ensures InvCall(b, s.calls[d]) {
          CallSeesVersion(a, u, s.calls[d]);
        }
        assert InvArea(b);
        hide InvCall;
        ReturnedKeeps(s.(area := b), c);
      } else {
        ReturnedKeeps(s, c);
      }
    }
  }

  lemma StepKeeps(s: State, step: Step)
    requires Inv(s)
    ensures Next(s, step).Some? ==> Inv(Next(s, step).value)
  {
    hide Inv;
    match step
    case Write(data, offset, uploading) => WriteKeeps(s, data, offset, uploading);
    case Truncate(size, uploading) => TruncateKeeps(s, size, uploading);
    case RewriteAttributes => RewriteAttributesKeeps(s);
    case NoteRewrite => NoteRewriteKeeps(s);
    case Record => RecordKeeps(s);
    case Bump => BumpKeeps(s);
    case ListEntry => ListEntryKeeps(s);
    case CleanEntry => CleanEntryKeeps(s);
    case RemoveSide => RemoveSideKeeps(s);
    case Renew => RenewKeeps(s);
    case Begin(c) => BeginKeeps(s, c);
    case TakeFile(c) => TakeFileKeeps(s, c);
    case Flush(c) => FlushKeeps(s, c);
    case Check(c) => CheckKeeps(s, c);
    case Look(c) => LookKeeps(s, c);
    case CommitSide(c) => CommitSideKeeps(s, c);
    case SyncDir(c) => SyncDirKeeps(s, c);
    case Return(c) => ReturnKeeps(s, c);
  }

  lemma {:induction false} RunKeeps(s: State, steps: seq<Step>)
    requires Inv(s) && Run(s, steps).Some?
    ensures Inv(Run(s, steps).value)
    decreases steps
  {
    hide Inv, Next;
    if steps != [] {
      StepKeeps(s, steps[0]);
      RunKeeps(Next(s, steps[0]).value, steps[1..]);
    }
  }

  /** Once a commit has returned, and until the file is marked clean, whatever a
      power loss leaves after whatever run of writes, copies, attribute rewrites
      and further commits: the staging path names a file that holds every promised
      byte, and a whole sidecar says whose it is. */
  lemma CommitSurvivesPowerLoss(steps: seq<Step>, named: Option<nat>, bytes: Bytes, side: Side)
    requires Run(Fresh, steps).Some?
    requires var s := Run(Fresh, steps).value; s.promised && AfterPowerLoss(s.area, named, bytes, side)
    ensures named.Some? && side.Side? && side.durable
    ensures var s := Run(Fresh, steps).value;
            forall k :: k in s.guaranteed ==> k < |bytes| && bytes[k] == s.guaranteed[k]
  {
    FreshIsGood();
    RunKeeps(Fresh, steps);
  }

  lemma FreshIsGood()
    ensures Inv(Fresh)
  {
  }

  /** Whether a step overwrites the byte at k. */
  predicate Touches(step: Step, k: nat) {
    match step
    case Write(data, offset, _) => offset <= k < offset + |data|
    case Truncate(size, _) => size <= k
    case _ => false
  }

  /** The byte b at k is under way to be promised by call c, or is promised. */
  predicate Tracked(calls: map<nat, Call>, guaranteed: map<nat, Byte>, c: nat, k: nat, b: Byte) {
    || (c in calls && calls[c].counts && k in calls[c].target && calls[c].target[k] == b)
    || (k in guaranteed && guaranteed[k] == b)
  }

  /** A tracked byte is the one the file holds. */
  lemma TrackedIsHeld(s: State, c: nat, k: nat, b: Byte)
    requires Inv(s) && Tracked(s.calls, s.guaranteed, c, k, b)
    ensures k in AsMap(s.area.live[s.area.file]) && AsMap(s.area.live[s.area.file])[k] == b
  {
    hide InvVersions, InvSides;
    if c in s.calls { assert InvCall(s.area, s.calls[c]); }
  }

  lemma ReturnTracks(s: State, d: nat, c: nat, k: nat, b: Byte)
    requires Inv(s) && Tracked(s.calls, s.guaranteed, c, k, b) && d in s.calls
    ensures Tracked(Returned(s, d).calls, Returned(s, d).guaranteed, c, k, b)
  {
    TrackedIsHeld(s, c, k, b);
    assert InvCall(s.area, s.calls[d]);
    hide InvVersions, InvSides, InvFiles;
  }

  lemma OverwriteTracks(s: State, from: nat, to: nat, c: nat, k: nat, b: Byte)
    requires Tracked(s.calls, s.guaranteed, c, k, b) && !(from <= k < to)
    ensures Tracked(Overwritten(s, from, to).calls, Overwritten(s, from, to).guaranteed, c, k, b)
  {
  }

  lemma PhaseTracks(s: State, d: nat, phase: Phase, c: nat, k: nat, b: Byte)
    requires d in s.calls && Tracked(s.calls, s.guaranteed, c, k, b)
    ensures Tracked(SetPhase(s, d, phase).calls, SetPhase(s, d, phase).guaranteed, c, k, b)
  {
  }

  lemma ReturnedArea(s: State, d: nat, a: Area)
    requires d in s.calls
    ensures Returned(s.(area := a), d).calls == Returned(s, d).calls
    ensures Returned(s.(area := a), d).guaranteed == Returned(s, d).guaranteed
  {
  }

  lemma CallStepTracks(s: State, step: Step, c: nat, k: nat, b: Byte)
    requires Inv(s) && Tracked(s.calls, s.guaranteed, c, k, b) && Next(s, step).Some?
    requires || step.TakeFile? || step.Flush? || step.Check? || step.Look?
             || step.CommitSide? || step.SyncDir? || step.Return?
    ensures Tracked(Next(s, step).value.calls, Next(s, step).value.guaranteed, c, k, b)
  {
    hide Inv, Returned, SetPhase, Tracked, CommittedSide;
    ReturnTracks(s, step.c, c, k, b);
    match step
    case TakeFile(d) => PhaseTracks(s, d, Flushing(s.area.file), c, k, b);
    case Flush(d) => PhaseTracks(s, d, Flushed(s.calls[d].phase.file), c, k, b);
    case Check(d) =>
      PhaseTracks(s, d, Started, c, k, b);
      PhaseTracks(s, d, Checked(if s.area.version != s.area.committedVersion then s.area.version else 0), c, k, b);
    case Look(d) => PhaseTracks(s, d, Recording(s.calls[d].phase.uncommitted), c, k, b);
    case CommitSide(d) => PhaseTracks(s, d, MetaDone(s.calls[d].phase.uncommitted), c, k, b);
    case SyncDir(d) => PhaseTracks(s, d, DirDone(s.calls[d].phase.uncommitted), c, k, b);
    case Return(d) => ReturnedArea(s, d, s.area.(committedVersion := s.calls[d].phase.uncommitted));
  }

  predicate AreaStep(step: Step) {
    step.RewriteAttributes? || step.NoteRewrite? || step.Record? || step.Bump? || step.ListEntry? || step.RemoveSide?
    || step.Renew?
  }

  lemma AreaStepKeepsCalls(s: State, step: Step)
    requires AreaStep(step) && Next(s, step).Some?
    ensures Next(s, step).value.calls == s.calls && Next(s, step).value.guaranteed == s.guaranteed
  {
    hide SetSide, Rewritten;
  }

  lemma BytesStepTracks(s: State, step: Step, c: nat, k: nat, b: Byte)
    requires Inv(s) && Tracked(s.calls, s.guaranteed, c, k, b) && (step.Write? || step.Truncate?)
    requires !Touches(step, k) && Next(s, step).Some?
    ensures Tracked(Next(s, step).value.calls, Next(s, step).value.guaranteed, c, k, b)
  {
    TrackedIsHeld(s, c, k, b);
    hide Inv, Overwritten, Detach, Change, WriteAt, Resize, Tracked;
    var length := |s.area.live[s.area.file]|;
    if step.Write? {
      OverwriteTracks(s, step.offset, step.offset + |step.data|, c, k, b);
    } else {
      OverwriteTracks(s, Min(step.size, length), Max(step.size, length), c, k, b);
    }
  }

  lemma StepTracks(s: State, step: Step, c: nat, k: nat, b: Byte)
    requires Inv(s) && Tracked(s.calls, s.guaranteed, c, k, b)
    requires !Touches(step, k) && !step.CleanEntry? && Next(s, step).Some?
    ensures Tracked(Next(s, step).value.calls, Next(s, step).value.guaranteed, c, k, b)
  {
    if AreaStep(step) {
      AreaStepKeepsCalls(s, step);
    } else if step.Write? || step.Truncate? {
      BytesStepTracks(s, step, c, k, b);
    } else if step.Begin? {
      BeginTracks(s, step.c, c, k, b);
    } else {
      CallStepTracks(s, step, c, k, b);
    }
    hide *;
  }

  lemma BeginTracks(s: State, d: nat, c: nat, k: nat, b: Byte)
    requires Tracked(s.calls, s.guaranteed, c, k, b) && DoBegin(s, d).Some?
    ensures Tracked(DoBegin(s, d).value.calls, DoBegin(s, d).value.guaranteed, c, k, b)
  {
  }

  /** What a commit promises is exactly what its name says: every byte the file
      held when it began stays under way, and once the call has returned promised,
      unless it is overwritten or the file marked clean. */
  lemma {:induction false} BytesStayPromised(s: State, steps: seq<Step>, c: nat, k: nat, b: Byte)
    requires Inv(s) && Tracked(s.calls, s.guaranteed, c, k, b) && Run(s, steps).Some?
    requires forall i :: 0 <= i < |steps| ==> !Touches(steps[i], k) && !steps[i].CleanEntry?
    ensures Tracked(Run(s, steps).value.calls, Run(s, steps).value.guaranteed, c, k, b)
    ensures c !in Run(s, steps).value.calls ==>
              k in Run(s, steps).value.guaranteed && Run(s, steps).value.guaranteed[k] == b
    decreases steps
  {
    if steps != [] {
      StepKeeps(s, steps[0]);
      StepTracks(s, steps[0], c, k, b);
      hide Inv, Next;
      BytesStayPromised(Next(s, steps[0]).value, steps[1..], c, k, b);
    }
  }

  lemma {:induction false} RunJoins(s: State, first: seq<Step>, rest: seq<Step>)
    ensures Run(s, first + rest) == if Run(s, first).None? then None else Run(Run(s, first).value, rest)
    decreases first
  {
    hide Next;
    if first == [] {
      assert first + rest == rest;
    } else {
      assert (first + rest)[0] == first[0] && (first + rest)[1..] == first[1..] + rest;
      if Next(s, first[0]).Some? {
        RunJoins(Next(s, first[0]).value, first[1..], rest);
      }
    }
  }

  /** Call c counts, or one that counted has returned. */
  predicate Promising(s: State, c: nat) {
    s.promised || (c in s.calls && s.calls[c].counts)
  }

  lemma StepKeepsPromising(s: State, step: Step, c: nat)
    requires Promising(s, c) && !step.CleanEntry? && Next(s, step).Some?
    ensures Promising(Next(s, step).value, c)
  {
    hide SetSide, Rewritten, Detach, Change, Without, CommittedSide, WriteAt, Resize, AsMap;
  }

  lemma {:induction false} RunKeepsPromising(s: State, steps: seq<Step>, c: nat)
    requires Promising(s, c) && Run(s, steps).Some?
    requires forall i :: 0 <= i < |steps| ==> !steps[i].CleanEntry?
    ensures Promising(Run(s, steps).value, c)
    decreases steps
  {
    if steps != [] {
      StepKeepsPromising(s, steps[0], c);
      hide Next, Promising;
      RunKeepsPromising(Next(s, steps[0]).value, steps[1..], c);
    }
  }

  /** Beginning a commit of a dirty file, always possible, puts every byte of the
      file under way to be promised. */
  lemma BeginCoversFile(s: State, c: nat, k: nat)
    requires Inv(s) && s.area.dirty
    ensures s.area.file in s.area.live && (Next(s, Begin(c)).Some? <==> c !in s.calls)
    ensures Next(s, Begin(c)).Some? ==> Promising(Next(s, Begin(c)).value, c) && Inv(Next(s, Begin(c)).value)
    ensures Next(s, Begin(c)).Some? && k < |s.area.live[s.area.file]| ==>
              Tracked(Next(s, Begin(c)).value.calls, Next(s, Begin(c)).value.guaranteed, c, k,
                      s.area.live[s.area.file][k])
  {
    if c !in s.calls { StepKeeps(s, Begin(c)); }
    hide InvVersions, InvSides, InvCall, InvPromise;
  }

  /** The same from any state of the invariant. */
  lemma BeginThenReturned(s: State, c: nat, steps: seq<Step>, k: nat)
    requires Inv(s) && s.area.dirty && Next(s, Begin(c)).Some?
    requires Run(Next(s, Begin(c)).value, steps).Some? && c !in Run(Next(s, Begin(c)).value, steps).value.calls
    requires forall i :: 0 <= i < |steps| ==> !Touches(steps[i], k) && !steps[i].CleanEntry?
    ensures var t := Run(Next(s, Begin(c)).value, steps).value;
            && Inv(t) && t.promised && s.area.file in s.area.live
            && (k < |s.area.live[s.area.file]| ==>
                  k in t.guaranteed && t.guaranteed[k] == s.area.live[s.area.file][k])
  {
    hide Next, Run, Inv, Tracked;
    BeginCoversFile(s, c, k);
    var begun := Next(s, Begin(c)).value;
    RunKeeps(begun, steps);
    RunKeepsPromising(begun, steps, c);
    if k < |s.area.live[s.area.file]| {
      BytesStayPromised(begun, steps, c, k, s.area.live[s.area.file][k]);
    }
  }

  /** From the beginning of a commit to a power loss. After whatever run, a commit
      of a dirty file begins; after whatever further run, in which nothing overwrites
      byte k and the file is not marked clean, the call has returned. Whatever a
      power loss then leaves, the staging path names a file that holds at k the byte
      it held when the commit began, and a whole sidecar says whose it is. */
  lemma CommittedBytesSurvive(before: seq<Step>, c: nat, steps: seq<Step>, k: nat,
                              named: Option<nat>, bytes: Bytes, side: Side)
    requires Run(Fresh, before).Some? && Run(Fresh, before).value.area.dirty
    requires Run(Fresh, before + [Begin(c)] + steps).Some?
    requires forall i :: 0 <= i < |steps| ==>
               match steps[i]
               case Write(data, offset, _) => !(offset <= k < offset + |data|)
               case Truncate(size, _) => k < size
               case CleanEntry => false
               case _ => true
    requires c !in Run(Fresh, before + [Begin(c)] + steps).value.calls
    requires AfterPowerLoss(Run(Fresh, before + [Begin(c)] + steps).value.area, named, bytes, side)
    ensures var a := Run(Fresh, before).value.area;
            && a.file in a.live && named.Some? && side.Side? && side.durable
            && (k < |a.live[a.file]| ==> k < |bytes| && bytes[k] == a.live[a.file][k])
  {
    hide Next, Run, Inv, AfterPowerLoss;
    FreshIsGood();
    RunKeeps(Fresh, before);
    RunJoins(Fresh, before + [Begin(c)], steps);
    RunThen(Fresh, before, Begin(c));
    var s := Run(Fresh, before).value;
    forall i | 0 <= i < |steps| ensures !Touches(steps[i], k) && !steps[i].CleanEntry? {
    }
    BeginThenReturned(s, c, steps, k);
    CommitSurvivesPowerLoss(before + [Begin(c)] + steps, named, bytes, side);
  }

  /** A commit goes without flushing the sidecar and the directory only when both
      are on the disk already. */
  lemma SkipsOnlyWhenDurable(s: State, c: nat)
    requires Inv(s) && c in s.calls && s.calls[c].counts
    requires DoLook(s, c).Some? && c !in DoLook(s, c).value.calls
    ensures forall x :: x in s.area.sideMay ==> x.Side? && x.durable
    ensures DataFirm(s.area, s.calls[c].target)
  {
    assert InvCall(s.area, s.calls[c]);
  }

  lemma {:induction false} RunThen(s: State, steps: seq<Step>, step: Step)
    requires Run(s, steps).Some?
    ensures Run(s, steps + [step]) == Next(Run(s, steps).value, step)
    decreases steps
  {
    hide Next;
    if steps == [] {
      assert Run(s, [step]) == if Next(s, step).None? then None else Run(Next(s, step).value, []);
    } else {
      RunThen(Next(s, steps[0]).value, steps[1..], step);
      assert (steps + [step])[1..] == steps[1..] + [step];
    }
  }

  lemma Extends(s: State, steps: seq<Step>, mid: State, step: Step, next: State)
    requires Run(s, steps) == Some(mid) && Next(mid, step) == Some(next)
    ensures Run(s, steps + [step]) == Some(next)
  {
    hide Next, Run;
    RunThen(s, steps, step);
  }

  /** Where a first write of one byte has been listed as dirty. */
  function ListedByte(b: Byte): State {
    State(Area(map[0 := [b]], map[0 := map[]], 1, 0, {None, Some(0)}, Side(false, false),
               {NoSide, Side(false, false)}, true, Free, 2, 0, 0, 0), map[], false, map[])
  }

  lemma ReachesListed(b: Byte) returns (steps: seq<Step>)
    ensures Run(Fresh, steps) == Some(ListedByte(b))
  {
    assert WriteAt([], [b], 0) == [b];
    var s1 := DoWrite(Fresh, [b], 0, false).value;
    assert s1.area.live == map[0 := [b]] && s1.area.firm == map[0 := map[]];
    assert s1.calls == map[] && s1.guaranteed == map[];
    var s2 := DoRecord(s1).value;
    assert s2.area.sideMay == {NoSide, Side(false, false)};
    var s3 := DoBump(s2).value;
    var s4 := DoListEntry(s3).value;
    assert s4 == ListedByte(b);
    assert Run(Fresh, []) == Some(Fresh);
    Extends(Fresh, [], Fresh, Write([b], 0, false), s1);
    steps := [] + [Write([b], 0, false)];
    Extends(Fresh, steps, s1, Record, s2);
    steps := steps + [Record];
    Extends(Fresh, steps, s2, Bump, s3);
    steps := steps + [Bump];
    Extends(Fresh, steps, s3, ListEntry, s4);
    steps := steps + [ListEntry];
  }

  /** Call c will find its file the session's own, or the session gone. */
  predicate Settled(s: State, c: nat, file: nat)
    requires c in s.calls
  {
    file == s.area.file || s.calls[c].epoch != s.area.epoch
  }

  /** How far call c still has to go when it is left alone. */
  function Rank(s: State, c: nat): nat
    requires c in s.calls
  {
    match s.calls[c].phase
    case DirDone(_) => 0
    case MetaDone(_) => 1
    case Recording(_) => 2
    case Checked(_) => 3
    case Flushed(f) => if Settled(s, c, f) then 4 else 7
    case Flushing(f) => if Settled(s, c, f) then 5 else 8
    case Started => 6
  }

  function OwnStep(phase: Phase, c: nat): Step {
    match phase
    case Started => TakeFile(c)
    case Flushing(_) => Flush(c)
    case Flushed(_) => Check(c)
    case Checked(_) => Look(c)
    case Recording(_) => CommitSide(c)
    case MetaDone(_) => SyncDir(c)
    case DirDone(_) => Return(c)
  }

  /** The files of an area and its mutex, as the steps of a call leave them. */
  predicate LeavesFiles(a: Area, b: Area) {
    a.live == b.live && a.file == b.file && a.epoch == b.epoch && a.mutex == b.mutex
  }

  lemma PhaseMoves(s: State, c: nat)
    requires c in s.calls
    ensures forall phase :: var next := SetPhase(s, c, phase);
              next.area == s.area && c in next.calls && next.calls[c] == s.calls[c].(phase := phase)
    ensures Returned(s, c).area == s.area && c !in Returned(s, c).calls
    ensures forall a :: c !in Returned(s.(area := a), c).calls && Returned(s.(area := a), c).area == a
    ensures LeavesFiles(s.area, CommittedSide(s.area))
  {
  }

  /** What a call moves on by: its own steps leave the files alone. */
  ghost predicate MovesOn(s: State, c: nat, next: Option<State>)
    requires c in s.calls
  {
    && next.Some? && LeavesFiles(s.area, next.value.area)
    && (c in next.value.calls ==> Rank(next.value, c) < Rank(s, c))
  }

  lemma FlushingMoves(s: State, c: nat)
    requires Inv(s) && c in s.calls
    ensures s.calls[c].phase.Started? ==> MovesOn(s, c, DoTakeFile(s, c))
    ensures s.calls[c].phase.Flushing? ==> MovesOn(s, c, DoFlush(s, c))
    ensures s.calls[c].phase.Flushed? ==> MovesOn(s, c, DoCheck(s, c))
  {
    assert s.calls[c].phase.Flushing? ==> s.calls[c].phase.file in s.area.live by {
      assert InvCall(s.area, s.calls[c]);
    }
    PhaseMoves(s, c);
    hide Inv, AsMap, SetPhase, Returned;
  }

  lemma RecordingMoves(s: State, c: nat)
    requires c in s.calls && s.area.mutex.Free?
    ensures s.calls[c].phase.Checked? ==> MovesOn(s, c, DoLook(s, c))
    ensures s.calls[c].phase.Recording? ==> MovesOn(s, c, DoCommitSide(s, c))
    ensures s.calls[c].phase.MetaDone? ==> MovesOn(s, c, DoSyncDir(s, c))
    ensures s.calls[c].phase.DirDone? ==> MovesOn(s, c, DoReturn(s, c))
  {
    PhaseMoves(s, c);
    hide SetPhase, Returned, CommittedSide;
  }

  lemma OwnStepMoves(s: State, c: nat)
    requires Inv(s) && c in s.calls && s.area.mutex.Free?
    ensures MovesOn(s, c, Next(s, OwnStep(s.calls[c].phase, c)))
  {
    hide Inv, MovesOn;
    FlushingMoves(s, c);
    RecordingMoves(s, c);
  }

  /** Every commit under way can return: with the sidecar mutex free, its own steps
      alone take it there, and leave the files as they are. */
  lemma {:induction false} CommitCanFinish(s: State, c: nat) returns (steps: seq<Step>)
    requires Inv(s) && c in s.calls && s.area.mutex.Free?
    ensures Run(s, steps).Some? && c !in Run(s, steps).value.calls
    ensures LeavesFiles(s.area, Run(s, steps).value.area)
    ensures forall i :: 0 <= i < |steps| ==> !steps[i].Write? && !steps[i].Truncate? && !steps[i].CleanEntry?
    decreases Rank(s, c)
  {
    hide Next, Inv, Rank;
    var step := OwnStep(s.calls[c].phase, c);
    OwnStepMoves(s, c);
    StepKeeps(s, step);
    var next := Next(s, step).value;
    var rest := [];
    if c in next.calls {
      rest := CommitCanFinish(next, c);
    }
    steps := [step] + rest;
    assert steps[1..] == rest;
  }

  /** Commits do return: after one write and one commit the byte is promised. */
  lemma CommitCanReturn(b: Byte, c: nat) returns (steps: seq<Step>)
    ensures Run(Fresh, steps).Some?
    ensures Run(Fresh, steps).value.promised && Run(Fresh, steps).value.guaranteed == map[0 := b]
  {
    var s := ListedByte(b);
    var begun := Next(s, Begin(c)).value;
    assert begun.area == s.area && c in begun.calls;
    hide Run, Next, Inv;
    FreshIsGood();
    var first := ReachesListed(b);
    RunKeeps(Fresh, first);
    BeginCoversFile(s, c, 0);
    RunThen(Fresh, first, Begin(c));
    var rest := CommitCanFinish(begun, c);
    forall i | 0 <= i < |rest| ensures !Touches(rest[i], 0) && !rest[i].CleanEntry? {
    }
    BeginThenReturned(s, c, rest, 0);
    steps := first + [Begin(c)] + rest;
    RunJoins(Fresh, first + [Begin(c)], rest);
    PromisedIsHeld(Run(begun, rest).value, b);
  }

  lemma PromisedIsHeld(s: State, b: Byte)
    requires Inv(s) && s.area.live[s.area.file] == [b] && 0 in s.guaranteed && s.guaranteed[0] == b
    ensures s.guaranteed == map[0 := b]
  {
    hide InvVersions, InvSides, InvCalls;
    assert forall k :: k in s.guaranteed ==> k in AsMap([b]);
  }

  // ---- what each step is for ----

  /** Attribute changes: the sidecar stays committed if it was, and the session learns
      that there is something new to commit. */
  lemma AttributeStepsDo(s: State)
    ensures Next(s, RewriteAttributes).Some? <==> s.area.mutex.Free? && s.area.side.Side?
    ensures Next(s, RewriteAttributes).Some? ==>
              var b := Next(s, RewriteAttributes).value.area;
              && b.side.Side? && (b.side.committed <==> s.area.side.committed) && (b.side.committed ==> b.side.durable)
              && b.pendingBumps == s.area.pendingBumps + 1 && b.version == s.area.version && b.dirty == s.area.dirty
    ensures Next(s, NoteRewrite).Some? <==> s.area.pendingBumps > 0
    ensures Next(s, NoteRewrite).Some? ==>
              var b := Next(s, NoteRewrite).value.area;
              b.version == s.area.version + 1 && b.pendingBumps == s.area.pendingBumps - 1 && b.side == s.area.side
  {
  }

  /** Marking the path dirty: sidecar, version, entry. A sidecar written over a
      committed one is committed. */
  lemma ListingStepsDo(s: State)
    ensures Next(s, Record).Some? <==> s.area.mutex.Free? && !s.area.dirty
    ensures Next(s, Record).Some? ==>
              var b := Next(s, Record).value.area;
              && b.side.Side? && (b.side.committed <==> s.area.side.Side? && s.area.side.committed)
              && b.mutex.Recorded? && b.version == s.area.version && !b.dirty
    ensures Next(s, Bump).Some? <==> s.area.mutex.Recorded?
    ensures Next(s, Bump).Some? ==>
              var b := Next(s, Bump).value.area;
              b.version == s.area.version + 1 && b.mutex.Bumped? && b.dirty == s.area.dirty
    ensures Next(s, ListEntry).Some? <==> s.area.mutex.Bumped?
    ensures Next(s, ListEntry).Some? ==>
              var b := Next(s, ListEntry).value.area;
              b.dirty && b.mutex.Free? && b.version == s.area.version && b.side == s.area.side
  {
  }

  /** Marking it clean: entry, then sidecar. A new session starts with an empty file
      and nothing committed. */
  lemma CleaningStepsDo(s: State)
    ensures Next(s, CleanEntry).Some? <==> s.area.mutex.Free?
    ensures Next(s, CleanEntry).Some? ==>
              var b := Next(s, CleanEntry).value;
              && !b.area.dirty && b.area.mutex.Cleaning? && b.area.side == s.area.side
              && !b.promised && b.guaranteed == map[]
    ensures Next(s, RemoveSide).Some? <==> s.area.mutex.Cleaning?
    ensures Next(s, RemoveSide).Some? ==>
              var b := Next(s, RemoveSide).value.area;
              b.side.NoSide? && b.mutex.Free? && b.version == s.area.version && b.dirty == s.area.dirty
    ensures Next(s, Renew).Some? <==> s.area.mutex.Free? && !s.area.dirty
    ensures Next(s, Renew).Some? ==>
              var b := Next(s, Renew).value.area;
              && b.file in b.live && b.live[b.file] == [] && b.file == s.area.nextInode && b.epoch == s.area.epoch + 1
              && b.version == 1 && b.committedVersion == 0 && b.pendingBumps == 0 && b.side == Side(false, false)
  {
  }

  /** A change while an upload reads the file goes to a copy, which is a new version to
      commit, and leaves the file the upload reads alone. */
  lemma ChangesGoWhere(s: State, data: Bytes, offset: nat, size: nat, uploading: bool)
    requires Inv(s)
    ensures Next(s, Write(data, offset, uploading)).Some? && Next(s, Truncate(size, uploading)).Some?
    ensures var a, b := s.area, Next(s, Write(data, offset, uploading)).value.area;
            && b.file == (if uploading then a.nextInode else a.file)
            && b.version == a.version + (if uploading then 1 else 0) && b.side == a.side && b.dirty == a.dirty
            && a.file in a.live && b.file in b.live && b.live[b.file] == WriteAt(a.live[a.file], data, offset)
            && forall i :: i in a.live && i != b.file ==> i in b.live && b.live[i] == a.live[i]
    ensures var a, b := s.area, Next(s, Truncate(size, uploading)).value.area;
            && b.file == (if uploading then a.nextInode else a.file)
            && b.version == a.version + (if uploading then 1 else 0) && b.side == a.side && b.dirty == a.dirty
            && a.file in a.live && b.file in b.live && b.live[b.file] == Resize(a.live[a.file], size)
            && forall i :: i in a.live && i != b.file ==> i in b.live && b.live[i] == a.live[i]
  {
    hide InvVersions, InvSides, InvPromise, InvCalls, WriteAt, Overwritten, Without, AsMap;
    var file := s.area.live[s.area.file];
    assert file[..|file|] == file;
    assert Resize(file[..Min(size, |file|)], size) == Resize(file, size);
  }

  /** A call that has flushed goes straight back exactly when nothing has changed since
      the last commit and the path has its sidecar, or needs none. */
  lemma SkipsExactly(s: State, c: nat)
    requires c in s.calls && s.calls[c].phase.Checked?
    ensures Next(s, Look(c)).Some?
    ensures c !in Next(s, Look(c)).value.calls <==>
            s.calls[c].phase.uncommitted == 0 && (s.area.side.Side? || !s.area.dirty)
  {
  }

  /** A call whose session is gone has nothing to flush and returns. */
  lemma ClosedSessionReturns(s: State, c: nat)
    requires c in s.calls && s.calls[c].epoch != s.area.epoch
    ensures s.calls[c].phase.Started? ==>
              Next(s, TakeFile(c)).Some? && c !in Next(s, TakeFile(c)).value.calls
    ensures s.calls[c].phase.Flushed? ==>
              Next(s, Check(c)).Some? && c !in Next(s, Check(c)).value.calls
  {
  }

  /** A commit that returns has committed the version it read, so that one which begins
      before anything changes again goes straight back. */
  lemma ReturnCommitsVersion(s: State, c: nat, d: nat)
    requires Inv(s) && c in s.calls && s.calls[c].phase.DirDone? && s.calls[c].epoch == s.area.epoch
    requires s.calls[c].phase.uncommitted == s.area.version
    requires d in s.calls && d != c && s.calls[d].phase == Flushed(s.area.file) && s.calls[d].epoch == s.area.epoch
    ensures var t := Next(s, Return(c));
            && t.Some? && t.value.area.committedVersion == t.value.area.version == s.area.version
            && Next(t.value, Check(d)).Some?
            && Next(t.value, Check(d)).value.calls[d].phase == Checked(0)
  {
    hide InvFiles, InvSides, InvPromise, InvCalls;
  }

  // ---- what a power loss can take ----

  /** What nobody has flushed may be lost. After a write in place, a power loss may
      leave anything at all where it wrote; after one that went to a copy, the staging
      path may still name the file from before. */
  lemma UnflushedMayBeLost(s: State, data: Bytes, offset: nat, bytes: Bytes)
    requires Inv(s)
    ensures var a, next := s.area, Next(s, Write(data, offset, false));
            && next.Some? && next.value.area.file in next.value.area.live
            && var live := next.value.area.live[next.value.area.file];
               |bytes| == |live| && SameOutside(live, bytes, offset, offset + |data|) ==>
                 AfterPowerLoss(next.value.area, Some(a.file), bytes, a.side)
    ensures var a, next := s.area, Next(s, Write(data, offset, true));
            && next.Some? && a.file in a.live && next.value.area.file != a.file
            && AfterPowerLoss(next.value.area, Some(a.file), a.live[a.file], a.side)
  {
    hide InvVersions, InvPromise, InvCalls, Overwritten;
    var a := s.area;
    StepKeeps(s, Write(data, offset, false));
    var b := Next(s, Write(data, offset, false)).value.area;
    var live := b.live[b.file];
    assert Covers(AsMap(live), b.firm[b.file]);
    assert forall k :: offset <= k < offset + |data| ==> k !in b.firm[b.file];
    hide WriteAt, Without;
    if |bytes| == |live| && SameOutside(live, bytes, offset, offset + |data|) {
      forall k | k in b.firm[b.file] ensures k < |bytes| && bytes[k] == b.firm[b.file][k] {
        assert Has(bytes, k, live[k]);
      }
    }
  }

  /** Every byte firm in a file of b was firm in it in a, as it is. */
  ghost predicate NoFirmer(a: Area, b: Area, file: nat) {
    file in a.firm && file in b.firm ==> Covers(a.firm[file], b.firm[file])
  }

  lemma ChangesLoseFirmness(s: State, step: Step)
    requires Inv(s) && Next(s, step).Some? && (step.Write? || step.Truncate?)
    ensures var a, b := s.area, Next(s, step).value.area;
            && a.dataMay <= b.dataMay && a.sideMay <= b.sideMay
            && (forall i :: i in a.live ==> NoFirmer(a, b, i))
            && a.file in a.live && b.file in b.firm
            && (step.Write? ==> forall k :: step.offset <= k < step.offset + |step.data| ==> k !in b.firm[b.file])
            && (step.Truncate? ==>
                  forall k :: k in b.firm[b.file] ==> k < step.size && k < |a.live[a.file]|)
  {
    hide InvVersions, InvSides, InvPromise, InvCalls, WriteAt, Resize, Overwritten;
  }

  /** Every byte firm in a stays as it is, and nothing a power loss could leave is
      ruled out. */
  ghost predicate KeepsFirm(a: Area, b: Area) {
    && a.dataMay <= b.dataMay && a.sideMay <= b.sideMay
    && forall i :: i in a.firm ==> i in b.firm && b.firm[i] == a.firm[i]
  }

  lemma CallsKeepFirmness(s: State, step: Step)
    requires Next(s, step).Some?
    requires step.TakeFile? || step.Check? || step.Look? || step.CommitSide? || step.SyncDir? || step.Return?
    ensures var a, b := s.area, Next(s, step).value.area;
            if step.SyncDir? then b.firm == a.firm else KeepsFirm(a, b)
  {
    PhaseMoves(s, step.c);
    assert KeepsFirm(s.area, CommittedSide(s.area));
    hide SetPhase, Returned, CommittedSide;
  }

  lemma AreaStepsKeepFirmness(s: State, step: Step)
    requires InvFiles(s.area) && Next(s, step).Some? && (AreaStep(step) || step.CleanEntry? || step.Begin?)
    ensures KeepsFirm(s.area, Next(s, step).value.area)
  {
    hide AsMap, Covers, Rewritten;
  }

  lemma OthersKeepFirmness(s: State, step: Step)
    requires InvFiles(s.area) && Next(s, step).Some? && !(step.Write? || step.Truncate? || step.Flush?)
    ensures var a, b := s.area, Next(s, step).value.area;
            && (!step.SyncDir? ==> a.dataMay <= b.dataMay && a.sideMay <= b.sideMay)
            && (forall i :: i in a.firm ==> i in b.firm && b.firm[i] == a.firm[i])
  {
    hide Next, InvFiles;
    if AreaStep(step) || step.CleanEntry? || step.Begin? {
      AreaStepsKeepFirmness(s, step);
    } else {
      CallsKeepFirmness(s, step);
    }
  }

  /** Nothing but a flush of a file makes its bytes firm, what is written or cut off
      is not, and until the directory is flushed a power loss may still leave every
      entry it could have left before, and the present ones. */
  lemma OnlyFlushesAreFirm(s: State, step: Step)
    requires Inv(s) && Next(s, step).Some?
    ensures var a, b := s.area, Next(s, step).value.area;
            && (!step.SyncDir? ==> a.dataMay <= b.dataMay && a.sideMay <= b.sideMay)
            && Some(b.file) in b.dataMay && b.side in b.sideMay && b.file in b.firm && a.file in a.live
            && (forall i, k :: i in a.firm && i in b.firm && k in b.firm[i] ==>
                  || (k in a.firm[i] && a.firm[i][k] == b.firm[i][k])
                  || (step.Flush? && step.c in s.calls && s.calls[step.c].phase == Flushing(i)))
            && (step.Write? ==> forall k :: step.offset <= k < step.offset + |step.data| ==> k !in b.firm[b.file])
            && (step.Truncate? ==>
                  forall k :: k in b.firm[b.file] ==> k < step.size && k < |a.live[a.file]|)
  {
    StepKeeps(s, step);
    hide InvVersions, InvPromise, InvCalls;
    if step.Write? || step.Truncate? {
      ChangesLoseFirmness(s, step);
      hide Next;
    } else if !step.Flush? {
      OthersKeepFirmness(s, step);
      hide Next;
    }
  }
}
