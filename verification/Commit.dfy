/** Committing a staged file so that it survives a power loss (CommitPath in
    internal/staging/manager.go, flushThen and syncToDisk in
    internal/staging/session.go, writePathMetadataState in
    internal/staging/path_state.go).

    A power loss keeps of a file the bytes that were flushed and not changed
    since, and of a directory entry any one of the files it has named since the
    directory was last flushed. `firm` holds the former for each file, the `May`
    sets hold the latter. */
module Commit {
  import opened Common

  /** A version of the sidecar. All of them name the path. One that is not
      durable may come back from a power loss empty or torn. */
  datatype Side = NoSide | Side(committed: bool, durable: bool)

  /** What the holder of the sidecar mutex is about to do. */
  datatype Mutex =
    | Free
    | Recorded  // markPathDirty wrote the sidecar, the session is to learn of it
    | Bumped    // the session knows, the entry is to be listed
    | Cleaning  // markCleanIfUnchanged took the entry away, the sidecar is to go

  datatype Phase =
    | Started
    | Flushing(file: nat)
    | Flushed(file: nat)
    | Checked(uncommitted: nat)    // 0 when nothing is recorded as changed
    | Recording(uncommitted: nat)  // goes on to the sidecar
    | MetaDone(uncommitted: nat)
    | DirDone(uncommitted: nat)

  /** A call of CommitPath. `target` is the reference: the bytes the file held
      when the call began and that nothing has overwritten since. It counts as
      long as the path stays dirty. */
  datatype Call = Call(epoch: nat, counts: bool, target: map<nat, Byte>, phase: Phase)

  /** The staging area of the path and what the gateway knows of it. */
  datatype Area = Area(
    live: map<nat, Bytes>,             // what each file holds now
    firm: map<nat, map<nat, Byte>>,    // and what of it is on the disk for good
    nextInode: nat,
    file: nat,                         // the session's file, which the staging path names
    dataMay: set<Option<nat>>,         // what the staging path may name after a power loss
    side: Side,
    sideMay: set<Side>,
    dirty: bool,
    mutex: Mutex,
    version: nat,                      // metadataVersion
    committedVersion: nat,
    pendingBumps: nat,                 // attribute rewrites the session has yet to learn of
    epoch: nat)                        // counts the sessions of the path

  datatype State = State(
    area: Area,
    calls: map<nat, Call>,
    promised: bool,                    // a call that counts has returned
    guaranteed: map<nat, Byte>)        // the bytes such calls promised, not since overwritten

  function AsMap(bytes: Bytes): map<nat, Byte> {
    map k: nat | k < |bytes| :: bytes[k]
  }

  function Without(m: map<nat, Byte>, from: nat, to: nat): map<nat, Byte> {
    map k | k in m && !(from <= k < to) :: m[k]
  }

  function Below(m: map<nat, Byte>, size: nat): map<nat, Byte> {
    map k | k in m && k < size :: m[k]
  }

  /** writePathMetadataState: a version that takes the place of a committed one
      is committed, and a committed one is flushed before it takes its place. */
  function Rewritten(replaced: Side, committed: bool): Side {
    var c := committed || (replaced.Side? && replaced.committed);
    Side(c, c)
  }

  function SetSide(a: Area, side: Side): Area {
    a.(side := side, sideMay := a.sideMay + {side})
  }

  /** detachFromUploadsLocked: the first keep bytes are copied, flushed, and the
      copy renamed over the staging path. */
  function Detach(a: Area, keep: nat): Area
    requires a.file in a.live && keep <= |a.live[a.file]|
  {
    var copy := a.live[a.file][..keep];
    a.(live := a.live[a.nextInode := copy],
       firm := a.firm[a.nextInode := AsMap(copy)],
       nextInode := a.nextInode + 1,
       file := a.nextInode,
       dataMay := a.dataMay + {Some(a.nextInode)},
       version := a.version + 1)
  }

  /** The bytes in [from, to) change: they are no longer on the disk for good. */
  function Change(a: Area, bytes: Bytes, from: nat, to: nat): Area
    requires a.file in a.firm
  {
    a.(live := a.live[a.file := bytes], firm := a.firm[a.file := Without(a.firm[a.file], from, to)])
  }

  /** And no longer promised. */
  function Overwritten(s: State, from: nat, to: nat): State {
    s.(calls := map c | c in s.calls :: s.calls[c].(target := Without(s.calls[c].target, from, to)),
       guaranteed := Without(s.guaranteed, from, to))
  }

  datatype Step =
    | Write(data: Bytes, offset: nat, uploading: bool)
    | Truncate(size: nat, uploading: bool)
    | RewriteAttributes
    | NoteRewrite
    | Record
    | Bump
    | ListEntry
    | CleanEntry
    | RemoveSide
    | Renew
    | Begin(c: nat)
    | TakeFile(c: nat)
    | Flush(c: nat)
    | Check(c: nat)
    | Look(c: nat)
    | CommitSide(c: nat)
    | SyncDir(c: nat)
    | Return(c: nat)

  function SetPhase(s: State, c: nat, phase: Phase): State
    requires c in s.calls
  {
    s.(calls := s.calls[c := s.calls[c].(phase := phase)])
  }

  /** The call returns nil: if it counts, its bytes are promised. */
  function Returned(s: State, c: nat): State
    requires c in s.calls
  {
    var call := s.calls[c];
    var left := s.(calls := s.calls - {c});
    if call.counts then left.(promised := true, guaranteed := s.guaranteed + call.target) else left
  }

  function DoWrite(s: State, data: Bytes, offset: nat, uploading: bool): Option<State> {
    var a := s.area;
    if a.file !in a.live || a.file !in a.firm then None
    else
      var t := if uploading then Detach(a, |a.live[a.file]|) else a;
      Some(Overwritten(s, offset, offset + |data|)
           .(area := Change(t, WriteAt(t.live[t.file], data, offset), offset, offset + |data|)))
  }

  function DoTruncate(s: State, size: nat, uploading: bool): Option<State> {
    var a := s.area;
    if a.file !in a.live || a.file !in a.firm then None
    else
      var length := |a.live[a.file]|;
      var from, to := Min(size, length), Max(size, length);
      var t := if uploading then Detach(a, from) else a;
      Some(Overwritten(s, from, to).(area := Change(t, Resize(t.live[t.file], size), from, to)))
  }

  /** persistSessionAttributes writes under the mutex and tells the session after. */
  function DoRewriteAttributes(s: State): Option<State> {
    var a := s.area;
    if !a.mutex.Free? || a.side.NoSide? then None
    else Some(s.(area := SetSide(a, Rewritten(a.side, a.side.committed)).(pendingBumps := a.pendingBumps + 1)))
  }

  function DoNoteRewrite(s: State): Option<State> {
    var a := s.area;
    if a.pendingBumps == 0 then None
    else Some(s.(area := a.(version := a.version + 1, pendingBumps := a.pendingBumps - 1)))
  }

  function DoRecord(s: State): Option<State> {
    var a := s.area;
    if !a.mutex.Free? || a.dirty then None
    else Some(s.(area := SetSide(a, Rewritten(a.side, false)).(mutex := Recorded)))
  }

  function DoBump(s: State): Option<State> {
    var a := s.area;
    if !a.mutex.Recorded? then None else Some(s.(area := a.(version := a.version + 1, mutex := Bumped)))
  }

  function DoListEntry(s: State): Option<State> {
    var a := s.area;
    if !a.mutex.Bumped? then None else Some(s.(area := a.(dirty := true, mutex := Free)))
  }

  /** The upload of the file stands: nothing promised about it matters any more. */
  function DoCleanEntry(s: State): Option<State> {
    var a := s.area;
    if !a.mutex.Free? then None
    else Some(State(a.(dirty := false, mutex := Cleaning),
                    map c | c in s.calls :: s.calls[c].(counts := false, target := map[]),
                    false, map[]))
  }

  function DoRemoveSide(s: State): Option<State> {
    var a := s.area;
    if !a.mutex.Cleaning? then None else Some(s.(area := SetSide(a, NoSide).(mutex := Free)))
  }

  /** The session of a clean file is removed with its file and sidecar, and the
      path opened again: a new session, a new file, a sidecar for it. */
  function DoRenew(s: State): Option<State> {
    var a := s.area;
    if a.dirty || !a.mutex.Free? then None
    else Some(s.(area := a.(live := a.live[a.nextInode := []],
                            firm := a.firm[a.nextInode := map[]],
                            nextInode := a.nextInode + 1,
                            file := a.nextInode,
                            dataMay := a.dataMay + {None, Some(a.nextInode)},
                            side := Side(false, false),
                            sideMay := a.sideMay + {NoSide, Side(false, false)},
                            version := 1,
                            committedVersion := 0,
                            pendingBumps := 0,
                            epoch := a.epoch + 1)))
  }

  function DoBegin(s: State, c: nat): Option<State> {
    var a := s.area;
    if c in s.calls || a.file !in a.live then None
    else
      var target := if a.dirty then AsMap(a.live[a.file]) else map[];
      Some(s.(calls := s.calls[c := Call(a.epoch, a.dirty, target, Started)]))
  }

  /** flushThen looks at the session's file. A closed session has none left, and
      the call returns. */
  function DoTakeFile(s: State, c: nat): Option<State> {
    if c !in s.calls || !s.calls[c].phase.Started? then None
    else if s.calls[c].epoch != s.area.epoch then Some(Returned(s, c))
    else Some(SetPhase(s, c, Flushing(s.area.file)))
  }

  function DoFlush(s: State, c: nat): Option<State> {
    var a := s.area;
    if c !in s.calls || !s.calls[c].phase.Flushing? || s.calls[c].phase.file !in a.live then None
    else
      var file := s.calls[c].phase.file;
      Some(SetPhase(s, c, Flushed(file)).(area := a.(firm := a.firm[file := AsMap(a.live[file])])))
  }

  /** Under the session's mutex: flush again if the session has moved to another
      file, and otherwise read what is still to be committed. */
  function DoCheck(s: State, c: nat): Option<State> {
    var a := s.area;
    if c !in s.calls || !s.calls[c].phase.Flushed? then None
    else if s.calls[c].epoch != a.epoch then Some(Returned(s, c))
    else if s.calls[c].phase.file != a.file then Some(SetPhase(s, c, Started))
    else Some(SetPhase(s, c, Checked(if a.version != a.committedVersion then a.version else 0)))
  }

  /** Nothing changed and a sidecar there, or nothing dirty to need one: done. */
  function DoLook(s: State, c: nat): Option<State> {
    if c !in s.calls || !s.calls[c].phase.Checked? then None
    else if s.calls[c].phase.uncommitted == 0 && !(s.area.side.NoSide? && s.area.dirty) then Some(Returned(s, c))
    else Some(SetPhase(s, c, Recording(s.calls[c].phase.uncommitted)))
  }

  /** commitPathMetadata. */
  function CommittedSide(a: Area): Area {
    if a.side.NoSide? && !a.dirty then a
    else
      var present := if a.side.NoSide? then SetSide(a, Rewritten(NoSide, false)) else a;
      if present.side.committed then present else SetSide(present, Rewritten(present.side, true))
  }

  function DoCommitSide(s: State, c: nat): Option<State> {
    if c !in s.calls || !s.calls[c].phase.Recording? || !s.area.mutex.Free? then None
    else Some(SetPhase(s, c, MetaDone(s.calls[c].phase.uncommitted)).(area := CommittedSide(s.area)))
  }

  function DoSyncDir(s: State, c: nat): Option<State> {
    var a := s.area;
    if c !in s.calls || !s.calls[c].phase.MetaDone? then None
    else Some(SetPhase(s, c, DirDone(s.calls[c].phase.uncommitted))
              .(area := a.(dataMay := {Some(a.file)}, sideMay := {a.side})))
  }

  /** metadataCommitted, on the session the call began with. */
  function DoReturn(s: State, c: nat): Option<State> {
    if c !in s.calls || !s.calls[c].phase.DirDone? then None
    else
      var u := s.calls[c].phase.uncommitted;
      var known := s.calls[c].epoch == s.area.epoch && u > s.area.committedVersion;
      Some(Returned(if known then s.(area := s.area.(committedVersion := u)) else s, c))
  }

  function Next(s: State, step: Step): Option<State> {
    match step
    case Write(data, offset, uploading) => DoWrite(s, data, offset, uploading)
    case Truncate(size, uploading) => DoTruncate(s, size, uploading)
    case RewriteAttributes => DoRewriteAttributes(s)
    case NoteRewrite => DoNoteRewrite(s)
    case Record => DoRecord(s)
    case Bump => DoBump(s)
    case ListEntry => DoListEntry(s)
    case CleanEntry => DoCleanEntry(s)
    case RemoveSide => DoRemoveSide(s)
    case Renew => DoRenew(s)
    case Begin(c) => DoBegin(s, c)
    case TakeFile(c) => DoTakeFile(s, c)
    case Flush(c) => DoFlush(s, c)
    case Check(c) => DoCheck(s, c)
    case Look(c) => DoLook(s, c)
    case CommitSide(c) => DoCommitSide(s, c)
    case SyncDir(c) => DoSyncDir(s, c)
    case Return(c) => DoReturn(s, c)
  }

  function Run(s: State, steps: seq<Step>): Option<State>
    decreases steps
  {
    if steps == [] then Some(s)
    else
      var next := Next(s, steps[0]);
      if next.None? then None else Run(next.value, steps[1..])
  }

  /** A session just opened over an empty staging directory. */
  const Fresh := State(Area(map[0 := []], map[0 := map[]], 1, 0, {None, Some(0)},
                            Side(false, false), {NoSide, Side(false, false)},
                            false, Free, 1, 0, 0, 0),
                       map[], false, map[])

  /** What a power loss may leave: a file under the staging path, whose bytes
      agree with what was firm in it, and a version of the sidecar. */
  ghost predicate AfterPowerLoss(a: Area, named: Option<nat>, bytes: Bytes, side: Side) {
    && named in a.dataMay && side in a.sideMay
    && (named.Some? && named.value in a.firm ==>
          forall k :: k in a.firm[named.value] ==> k < |bytes| && bytes[k] == a.firm[named.value][k])
  }
}
