/** Admission of writes to the staging area (internal/staging/manager.go,
    ReserveWrite, releaseReservation and pressureStateLocked). */
module Pressure {
  import opened Common

  datatype Config = Config(quotaGB: int, enabled: bool, highPct: int, criticalPct: int, block: bool)

  datatype Level = Normal | High | Critical

  datatype Decision = Allow | Reject | Wait

  function Quota(c: Config): int {
    c.quotaGB * 0x4000_0000
  }

  function HighMark(c: Config): int {
    Quota(c) * c.highPct / 100
  }

  function CriticalMark(c: Config): int {
    Quota(c) * c.criticalPct / 100
  }

  /** What may still be added: within the quota, and on the disk if its free
      space is known. */
  function Available(c: Config, used: int, disk: Option<int>): int {
    var room := if Quota(c) - used < 0 then 0 else Quota(c) - used;
    if disk.Some? && disk.value < room then disk.value else room
  }

  function LevelAt(c: Config, used: int, growth: int, disk: Option<int>): Level {
    if used + growth >= CriticalMark(c) || growth > Available(c, used, disk) then Critical
    else if used + growth >= HighMark(c) then High
    else Normal
  }

  /** One pass of ReserveWrite's loop, made under its lock. A write that waits
      looks again later, until a deadline rejects it. */
  function Decide(c: Config, used: int, growth: int, disk: Option<int>): Decision {
    if !c.enabled then (if used + growth > Quota(c) then Reject else Allow)
    else if LevelAt(c, used, growth, disk) == Critical || used + growth > Quota(c) then Reject
    else if LevelAt(c, used, growth, disk) == High && c.block then Wait
    else Allow
  }

  /** Who is admitted, in numbers. With backpressure on, a write is rejected when it
      would reach the critical watermark, exceed the quota, or grow by more than the
      disk has free; of the others, one that would reach the high watermark waits if
      writes are to block. With backpressure off only the quota counts. */
  lemma DecideExactly(c: Config, used: nat, growth: nat, disk: Option<int>)
    requires c.quotaGB > 0
    ensures var quota, sum := c.quotaGB * 1024 * 1024 * 1024, used + growth;
            var fits := sum <= quota && sum < quota * c.criticalPct / 100 && (disk.Some? ==> growth <= disk.value);
            var high := sum >= quota * c.highPct / 100;
            && (c.enabled ==>
                  && (Decide(c, used, growth, disk) == Allow <==> fits && !(high && c.block))
                  && (Decide(c, used, growth, disk) == Wait <==> fits && high && c.block)
                  && (Decide(c, used, growth, disk) == Reject <==> !fits))
            && (!c.enabled ==>
                  && (Decide(c, used, growth, disk) == Allow <==> sum <= quota)
                  && (Decide(c, used, growth, disk) == Reject <==> sum > quota))
  {
    MarksExactly(c);
    hide Quota, HighMark, CriticalMark;
  }

  lemma MarksExactly(c: Config)
    ensures Quota(c) == c.quotaGB * 1024 * 1024 * 1024
    ensures HighMark(c) == Quota(c) * c.highPct / 100 && CriticalMark(c) == Quota(c) * c.criticalPct / 100
  {
  }

  /** Whether so many bytes are within bounds: below the critical watermark with
      backpressure on, and within the quota. */
  predicate Within(c: Config, bytes: int) {
    bytes <= Quota(c) && (c.enabled ==> bytes < CriticalMark(c))
  }

  lemma WithinFalls(c: Config, bytes: int, fewer: int)
    requires Within(c, bytes) && fewer <= bytes
    ensures Within(c, fewer)
  {
  }

  // ---- sums ----

  /** The amounts with an id below n. */
  function Sum(amounts: map<nat, nat>, n: nat): nat {
    if n == 0 then 0 else Sum(amounts, n - 1) + At(amounts, n - 1)
  }

  function At(amounts: map<nat, nat>, id: nat): nat {
    if id in amounts then amounts[id] else 0
  }

  /** What changing one amount does to a sum. */
  lemma {:induction false} SumOther(amounts: map<nat, nat>, other: map<nat, nat>, n: nat, id: nat)
    requires forall i :: i != id ==> At(amounts, i) == At(other, i)
    ensures Sum(amounts, n) - (if id < n then At(amounts, id) else 0) ==
            Sum(other, n) - (if id < n then At(other, id) else 0)
  {
    if n > 0 { SumOther(amounts, other, n - 1, id); }
  }

  lemma {:induction false} SumAtMost(amounts: map<nat, nat>, other: map<nat, nat>, n: nat)
    requires forall i :: At(amounts, i) <= At(other, i)
    ensures Sum(amounts, n) <= Sum(other, n)
  {
    if n > 0 { SumAtMost(amounts, other, n - 1); }
  }

  function Total(files: seq<nat>): nat {
    if files == [] then 0 else Total(files[..|files| - 1]) + files[|files| - 1]
  }

  lemma {:induction false} TotalOther(files: seq<nat>, file: nat, size: nat)
    requires file < |files|
    ensures Total(files[file := size]) == Total(files) - files[file] + size
  {
    var last := |files| - 1;
    if file == last {
      assert files[file := size][..last] == files[..last];
    } else {
      TotalOther(files[..last], file, size);
      assert files[file := size][..last] == files[..last][file := size];
    }
  }

  // ---- runs ----

  /** Where a write or truncate is: it has read the file's size, has been admitted,
      or has changed the file and has still to release what it reserved. */
  datatype Phase = Looked | Admitted | Applied

  /** A write up to end, or a truncate to end, of a file that had size seen. */
  datatype Call = Call(file: nat, end: nat, truncates: bool, seen: nat, reserved: nat, phase: Phase)

  datatype State = State(files: seq<nat>, reserved: nat, calls: map<nat, Call>, nextId: nat)

  datatype Event =
    | Look(file: nat, end: nat, truncates: bool)
    | Reserve(id: nat, disk: Option<int>)
    | Apply(id: nat, reached: nat)  // a write may fall short of its end
    | Return(id: nat)
    | Put(file: nat, size: nat)     // a fetch, or the removal of a session, asks nobody

  function Released(reserved: nat, bytes: nat): nat {
    if bytes > reserved then 0 else reserved - bytes
  }

  /** By how much a call seems to grow its file, from the size it has read. */
  function Growth(call: Call): nat {
    Max(call.end - call.seen, 0)
  }

  /** The size of the file after the call. */
  function SizeAfter(now: nat, call: Call, reached: nat): nat {
    if call.truncates then call.end else Max(now, reached)
  }

  function SetCall(s: State, id: nat, call: Call): State {
    s.(calls := s.calls[id := call])
  }

  /** The size is read, the write admitted and the file changed with no lock held
      from one to the next. A truncate that seems not to grow its file asks for no
      admission, and without a quota nothing is reserved. */
  function Step(c: Config, s: State, e: Event): Option<State> {
    match e
    case Look(file, end, truncates) =>
      if file >= |s.files| then None
      else
        var phase := if truncates && end <= s.files[file] then Admitted else Looked;
        Some(SetCall(s, s.nextId, Call(file, end, truncates, s.files[file], 0, phase)).(nextId := s.nextId + 1))
    case Reserve(id, disk) =>
      if id !in s.calls || !s.calls[id].phase.Looked? then None
      else if c.quotaGB <= 0 then Some(SetCall(s, id, s.calls[id].(phase := Admitted)))
      else if Decide(c, Total(s.files) + s.reserved, Growth(s.calls[id]), disk) != Allow then None
      else Some(SetCall(s, id, s.calls[id].(reserved := Growth(s.calls[id]), phase := Admitted))
                .(reserved := s.reserved + Growth(s.calls[id])))
    case Apply(id, reached) =>
      if id !in s.calls || !s.calls[id].phase.Admitted? || reached > s.calls[id].end
         || s.calls[id].file >= |s.files| then None
      else
        var call := s.calls[id];
        Some(SetCall(s, id, call.(phase := Applied))
             .(files := s.files[call.file := SizeAfter(s.files[call.file], call, reached)]))
    case Return(id) =>
      if id !in s.calls then None
      else Some(s.(reserved := Released(s.reserved, s.calls[id].reserved), calls := s.calls - {id}))
    case Put(file, size) =>
      if file >= |s.files| then None else Some(s.(files := s.files[file := size]))
  }

  function Run(c: Config, s: State, events: seq<Event>): Option<State>
    decreases events
  {
    if events == [] then Some(s)
    else match Step(c, s, events[0]) { case None => None case Some(next) => Run(c, next, events[1..]) }
  }

  /** The bytes an event adds beyond what was reserved for it. */
  function Excess(s: State, e: Event): nat {
    match e
    case Apply(id, reached) =>
      if id !in s.calls || s.calls[id].file >= |s.files| then 0
      else
        var now := s.files[s.calls[id].file];
        Max(SizeAfter(now, s.calls[id], reached) - now - s.calls[id].reserved, 0)
    case Put(file, size) => if file >= |s.files| then 0 else Max(size - s.files[file], 0)
    case _ => 0
  }

  function ExcessOf(c: Config, s: State, events: seq<Event>): nat
    decreases events
  {
    if events == [] then 0
    else
      Excess(s, events[0]) +
      match Step(c, s, events[0]) { case None => 0 case Some(next) => ExcessOf(c, next, events[1..]) }
  }

  function AllReserved(s: State): map<nat, nat> {
    map id | id in s.calls :: s.calls[id].reserved
  }

  function Unapplied(s: State): map<nat, nat> {
    map id | id in s.calls && s.calls[id].phase.Admitted? :: s.calls[id].reserved
  }

  /** Staged bytes and the growth that has been admitted and not applied. */
  function Committed(s: State): nat {
    Total(s.files) + Sum(Unapplied(s), s.nextId)
  }

  /** The reservation total is the sum of what the calls under way reserved. */
  ghost predicate Inv(s: State) {
    && (forall id :: id in s.calls ==> id < s.nextId && (s.calls[id].phase.Looked? ==> s.calls[id].reserved == 0))
    && s.reserved == Sum(AllReserved(s), s.nextId)
  }

  /** What a call's event does to a sum of amounts by call. */
  lemma SumMoves(before: map<nat, nat>, after: map<nat, nat>, n: nat, m: nat, id: nat)
    requires forall i :: i != id ==> At(before, i) == At(after, i)
    requires (n == m && id < n) || (m == n + 1 && id == n && n !in before)
    ensures Sum(after, m) == Sum(before, n) - At(before, id) + At(after, id)
  {
    SumOther(before, after, n, id);
  }

  lemma PartOfSum(amounts: map<nat, nat>, n: nat, id: nat)
    requires id < n
    ensures At(amounts, id) <= Sum(amounts, n)
  {
    SumOther(amounts, amounts - {id}, n, id);
  }

  /** What a call's event does to both sums. */
  lemma SumsMove(c: Config, s: State, e: Event, id: nat)
    requires Inv(s) && Step(c, s, e).Some? && !e.Put?
    requires id == if e.Look? then s.nextId else e.id
    ensures var next := Step(c, s, e).value;
            && Sum(AllReserved(next), next.nextId) ==
               Sum(AllReserved(s), s.nextId) - At(AllReserved(s), id) + At(AllReserved(next), id)
            && Sum(Unapplied(next), next.nextId) ==
               Sum(Unapplied(s), s.nextId) - At(Unapplied(s), id) + At(Unapplied(next), id)
            && Sum(Unapplied(s), s.nextId) <= Sum(AllReserved(s), s.nextId)
            && (e.Return? ==> At(AllReserved(s), id) <= Sum(AllReserved(s), s.nextId))
  {
    hide Decide, Total, Sum, Growth, SizeAfter;
    var next := Step(c, s, e).value;
    SumMoves(AllReserved(s), AllReserved(next), s.nextId, next.nextId, id);
    SumMoves(Unapplied(s), Unapplied(next), s.nextId, next.nextId, id);
    SumAtMost(Unapplied(s), AllReserved(s), s.nextId);
    if e.Return? { PartOfSum(AllReserved(s), s.nextId, id); }
  }

  /** One event keeps the reservation total exact, never releases more than is
      reserved, and moves the committed bytes up only to within bounds or by its
      excess. */
  lemma StepKeeps(c: Config, s: State, e: Event)
    requires Inv(s) && Step(c, s, e).Some?
    ensures Inv(Step(c, s, e).value)
    ensures var more := Committed(Step(c, s, e).value) - Excess(s, e);
            more <= Committed(s) || Within(c, more)
    ensures e.Return? ==> s.calls[e.id].reserved <= s.reserved
  {
    var next := Step(c, s, e).value;
    if e.Put? {
      TotalOther(s.files, e.file, e.size);
      assert AllReserved(next) == AllReserved(s) && Unapplied(next) == Unapplied(s);
    } else {
      SumsMove(c, s, e, if e.Look? then s.nextId else e.id);
      hide Sum, Total;
      if e.Apply? {
        var call := s.calls[e.id];
        TotalOther(s.files, call.file, SizeAfter(s.files[call.file], call, e.reached));
      }
    }
  }

  /** Over every run, the reservation total equals the sum outstanding, and the
      committed bytes, but for the excess of the run, are within bounds or no more
      than they were at the start. */
  lemma {:induction false} RunIsBounded(c: Config, s: State, events: seq<Event>)
    requires Inv(s) && Run(c, s, events).Some?
    ensures Inv(Run(c, s, events).value)
    ensures var more := Committed(Run(c, s, events).value) - ExcessOf(c, s, events);
            more <= Committed(s) || Within(c, more)
    decreases events
  {
    if events != [] {
      StepKeeps(c, s, events[0]);
      hide Inv, Step, Committed, Excess, Within;
      var next := Step(c, s, events[0]).value;
      RunIsBounded(c, next, events[1..]);
      var more := Committed(Run(c, s, events).value) - ExcessOf(c, s, events);
      var after := Committed(next) - Excess(s, events[0]);
      if Within(c, more + Excess(s, events[0])) {
        WithinFalls(c, more + Excess(s, events[0]), more);
      } else if Within(c, after) {
        WithinFalls(c, after, more);
      }
    }
  }

  /** What the steps of a call do: every write asks to be admitted, and of truncates
      those that seem to grow their file; a truncate leaves exactly its end, a write
      the greater of the file and what it reached; and a call may return at any time. */
  lemma CallStepsDo(c: Config, s: State, file: nat, end: nat, truncates: bool, id: nat, reached: nat)
    requires file < |s.files|
    ensures var t := Step(c, s, Look(file, end, truncates));
            && t.Some? && t.value.files == s.files && t.value.reserved == s.reserved
            && t.value.calls == s.calls[s.nextId := t.value.calls[s.nextId]]
            && t.value.calls[s.nextId] ==
               Call(file, end, truncates, s.files[file], 0,
                    if truncates && s.files[file] >= end then Admitted else Looked)
    ensures id in s.calls && s.calls[id].phase.Admitted? && s.calls[id].file == file && reached <= s.calls[id].end ==>
              var t := Step(c, s, Apply(id, reached));
              && t.Some? && t.value.reserved == s.reserved
              && t.value.files[file] ==
                 (if s.calls[id].truncates then s.calls[id].end
                  else if reached > s.files[file] then reached
                  else s.files[file])
              && |t.value.files| == |s.files|
              && forall g :: 0 <= g < |s.files| && g != file ==> t.value.files[g] == s.files[g]
    ensures id in s.calls ==>
              var t := Step(c, s, Return(id));
              t.Some? && t.value.files == s.files && t.value.calls == s.calls - {id}
  {
  }

  /** A call that has been admitted adds nothing beyond what it reserved, however
      far it gets, exactly when its file is not now smaller than both the size it
      read and its end. */
  lemma NoExcessExactly(s: State, id: nat)
    requires id in s.calls && s.calls[id].file < |s.files| && s.calls[id].reserved == Growth(s.calls[id])
    ensures var call := s.calls[id];
            (forall reached: nat :: reached <= call.end ==> Excess(s, Apply(id, reached)) == 0)
            <==> s.files[call.file] >= Min(call.seen, call.end)
  {
    var call := s.calls[id];
    if s.files[call.file] < Min(call.seen, call.end) {
      assert Excess(s, Apply(id, call.end)) > 0;
    }
  }

  /** No event grows a file that has shrunk since its size was read, and no file is
      fetched. */
  predicate Steady(s: State, e: Event) {
    match e
    case Apply(id, _) =>
      id in s.calls && s.calls[id].file < |s.files| ==>
        s.files[s.calls[id].file] >= Min(s.calls[id].seen, s.calls[id].end)
    case Put(file, size) => file < |s.files| ==> size <= s.files[file]
    case _ => true
  }

  predicate SteadyRun(c: Config, s: State, events: seq<Event>)
    decreases events
  {
    events == [] ||
    (Steady(s, events[0]) &&
     match Step(c, s, events[0]) { case None => true case Some(next) => SteadyRun(c, next, events[1..]) })
  }

  /** With a quota, an admitted call has reserved its growth. */
  ghost predicate Grown(s: State) {
    forall id :: id in s.calls && s.calls[id].phase.Admitted? ==> s.calls[id].reserved == Growth(s.calls[id])
  }

  lemma {:induction false} SteadyHasNoExcess(c: Config, s: State, events: seq<Event>)
    requires c.quotaGB > 0 && Grown(s) && SteadyRun(c, s, events) && Run(c, s, events).Some?
    ensures ExcessOf(c, s, events) == 0
    decreases events
  {
    if events != [] {
      var next := Step(c, s, events[0]).value;
      assert Grown(next) && Excess(s, events[0]) == 0 by {
        hide Decide, Total;
        if events[0].Apply? { NoExcessExactly(s, events[0].id); }
      }
      hide Step, Steady, Grown;
      SteadyHasNoExcess(c, next, events[1..]);
    }
  }

  function Fresh(files: nat): State {
    State(seq(files, _ => 0), 0, map[], 0)
  }

  lemma {:induction false} NothingStaged(files: nat)
    ensures Total(Fresh(files).files) == 0
  {
    if files > 0 {
      assert Fresh(files).files[..files - 1] == Fresh(files - 1).files;
      NothingStaged(files - 1);
    }
  }

  /** A steady run from an empty staging area keeps the staged bytes within the
      quota, and below the critical watermark with backpressure on. */
  lemma SteadyRunIsBounded(c: Config, files: nat, events: seq<Event>)
    requires c.quotaGB > 0 && SteadyRun(c, Fresh(files), events) && Run(c, Fresh(files), events).Some?
    ensures var staged := Total(Run(c, Fresh(files), events).value.files);
            staged == 0 || Within(c, staged)
  {
    NothingStaged(files);
    RunIsBounded(c, Fresh(files), events);
    SteadyHasNoExcess(c, Fresh(files), events);
    hide Run, SteadyRun, ExcessOf;
    var t := Run(c, Fresh(files), events).value;
    if Within(c, Committed(t)) {
      WithinFalls(c, Committed(t), Total(t.files));
    }
  }

  // ---- a run that is not steady ----

  ghost predicate Reached(c: Config, s: State) {
    exists events :: Run(c, Fresh(2), events) == Some(s)
  }

  lemma {:induction false} RunOneMore(c: Config, s: State, events: seq<Event>, t: State, e: Event)
    requires Run(c, s, events) == Some(t)
    ensures Run(c, s, events + [e]) == Step(c, t, e)
    decreases events
  {
    hide Step;
    if events == [] {
      assert events + [e] == [e] && [e][1..] == [];
    } else {
      RunOneMore(c, Step(c, s, events[0]).value, events[1..], t, e);
      assert (events + [e])[1..] == events[1..] + [e];
    }
  }

  lemma Take(c: Config, s: State, e: Event, t: State)
    requires Reached(c, s) && Step(c, s, e) == Some(t)
    ensures Reached(c, t)
  {
    hide Step;
    var events :| Run(c, Fresh(2), events) == Some(s);
    RunOneMore(c, Fresh(2), events, s, e);
  }

  /** A write that is alone reads the size, is admitted, grows its file, returns. */
  lemma WriteAlone(c: Config, s: State, file: nat, end: nat)
    requires Reached(c, s) && file < |s.files| && s.files[file] <= end && s.nextId !in s.calls
    requires c.quotaGB > 0 && !c.enabled && Total(s.files) + s.reserved + end - s.files[file] <= Quota(c)
    ensures Reached(c, s.(files := s.files[file := end], nextId := s.nextId + 1))
  {
    hide Reached, Quota;
    var id, seen := s.nextId, s.files[file];
    var s1 := SetCall(s, id, Call(file, end, false, seen, 0, Looked)).(nextId := id + 1);
    Take(c, s, Look(file, end, false), s1);
    var call := Call(file, end, false, seen, end - seen, Admitted);
    var s2 := SetCall(s1, id, call).(reserved := s.reserved + (end - seen));
    Take(c, s1, Reserve(id, None), s2);
    var s3 := SetCall(s2, id, call.(phase := Applied)).(files := s.files[file := end]);
    Take(c, s2, Apply(id, end), s3);
    var s4 := s3.(reserved := s.reserved, calls := s3.calls - {id});
    Take(c, s3, Return(id), s4);
    assert s4.calls == s.calls;
  }

  /** A write of the last bytes below the quota reads the size of its file and is
      admitted. The file is then truncated to nothing, and the room that this makes
      goes to another file. The write then grows its own file to the quota. */
  lemma ShrunkFileExceedsQuota(c: Config)
    requires c.quotaGB > 0 && !c.enabled
    ensures exists s :: Reached(c, s) && Total(s.files) == 2 * Quota(c) - 10
  {
    hide Reached;
    var q := Quota(c);
    var s0 := Fresh(2);
    Started(c);
    TwoFiles(0, 0); TwoFiles(q - 5, 0); TwoFiles(0, q - 10); TwoFiles(q, q - 10);
    assert s0.files == [0, 0];
    WriteAlone(c, s0, 0, q - 5);
    var s1 := State([q - 5, 0], 0, map[], 1);
    assert s0.files[0 := q - 5] == s1.files;
    var late := Call(0, q, false, q - 5, 0, Looked);
    var s2 := State([q - 5, 0], 0, map[1 := late], 2);
    Take(c, s1, Look(0, q, false), s2);
    var admitted := late.(reserved := 5, phase := Admitted);
    var s3 := State([q - 5, 0], 5, map[1 := admitted], 2);
    assert s3.calls == s2.calls[1 := admitted];
    Take(c, s2, Reserve(1, None), s3);
    TruncateAlone(c, s3, 0, 0);
    var s4 := State([0, 0], 5, map[1 := admitted], 3);
    assert s3.files[0 := 0] == s4.files;
    WriteAlone(c, s4, 1, q - 10);
    var s5 := State([0, q - 10], 5, map[1 := admitted], 4);
    assert s4.files[1 := q - 10] == s5.files;
    var s6 := State([q, q - 10], 5, map[1 := admitted.(phase := Applied)], 4);
    assert s5.files[0 := q] == s6.files && s6.calls == s5.calls[1 := admitted.(phase := Applied)];
    Take(c, s5, Apply(1, q), s6);
  }

  lemma Started(c: Config)
    ensures Reached(c, Fresh(2))
  {
    assert Run(c, Fresh(2), []) == Some(Fresh(2));
  }

  lemma TwoFiles(a: nat, b: nat)
    ensures Total([a, b]) == a + b
  {
    assert [a, b][..1] == [a] && [a][..0] == [];
    assert Total([a]) == a;
  }

  lemma TruncateAlone(c: Config, s: State, file: nat, end: nat)
    requires Reached(c, s) && file < |s.files| && end <= s.files[file] && s.nextId !in s.calls
    ensures Reached(c, s.(files := s.files[file := end], nextId := s.nextId + 1))
  {
    hide Reached;
    var id := s.nextId;
    var call := Call(file, end, true, s.files[file], 0, Admitted);
    var s1 := SetCall(s, id, call).(nextId := id + 1);
    Take(c, s, Look(file, end, true), s1);
    var s2 := SetCall(s1, id, call.(phase := Applied)).(files := s.files[file := end]);
    Take(c, s1, Apply(id, 0), s2);
    var s3 := s2.(calls := s2.calls - {id});
    Take(c, s2, Return(id), s3);
    assert s3.calls == s.calls;
  }

  /** The reservation total as the staging manager keeps it, and what each write
      that has been admitted and not returned has reserved of it. */
  class Reservations {
    const config: Config
    var reservedBytes: nat
    ghost var held: map<nat, nat>
    ghost var nextId: nat

    ghost predicate Valid()
      reads this
    {
      (forall id :: id in held ==> id < nextId) && reservedBytes == Sum(held, nextId)
    }

    constructor (config: Config)
      ensures Valid() && this.config == config && held == map[] && reservedBytes == 0
    {
      this.config, reservedBytes, held, nextId := config, 0, map[], 0;
    }

    /** One pass of ReserveWrite: staged is the size of all staged files. A quota
        that is not positive admits everything and reserves nothing. */
    method TryReserve(staged: nat, requested: int, growth: int, disk: Option<int>, bucketFull: bool)
      returns (decision: Decision, reserved: nat, ghost id: nat)
      requires Valid()
      modifies this
      ensures Valid()
      ensures config.quotaGB <= 0 ==> decision == Allow && reserved == 0
      ensures config.quotaGB > 0 && bucketFull && requested > 0 ==> decision == Reject
      ensures config.quotaGB > 0 && !(bucketFull && requested > 0) ==>
                var quota, more := config.quotaGB * 1024 * 1024 * 1024, if growth < 0 then 0 else growth;
                var sum := staged + old(reservedBytes) + more;
                var fits := sum <= quota && sum < quota * config.criticalPct / 100 &&
                            (disk.Some? ==> more <= disk.value);
                var high := sum >= quota * config.highPct / 100;
                && (config.enabled ==>
                      && (decision == Allow <==> fits && !(high && config.block))
                      && (decision == Wait <==> fits && high && config.block)
                      && (decision == Reject <==> !fits))
                && (!config.enabled ==>
                      (decision == Allow <==> sum <= quota) && (decision == Reject <==> sum > quota))
      ensures config.quotaGB > 0 && decision == Allow ==> reserved == Max(growth, 0)
      ensures decision != Allow ==> reserved == 0
      ensures id !in old(held) && held == old(held)[id := reserved]
      ensures reservedBytes == old(reservedBytes) + reserved
      ensures config.quotaGB > 0 && decision == Allow ==> Within(config, staged + reservedBytes)
    {
      var more := if growth < 0 then 0 else growth;
      if config.quotaGB <= 0 {
        decision, reserved := Allow, 0;
      } else if requested > 0 && bucketFull {
        decision, reserved := Reject, 0;
      } else {
        DecideExactly(config, staged + reservedBytes, more, disk);
        decision := Decide(config, staged + reservedBytes, more, disk);
        reserved := if decision == Allow then more else 0;
      }
      SumOther(held, held[nextId := reserved], nextId, nextId);
      reservedBytes := reservedBytes + reserved;
      id, held, nextId := nextId, held[nextId := reserved], nextId + 1;
    }

    /** A write returns: its own reservation goes, in full, and no other's. */
    method Release(bytes: nat, ghost id: nat)
      requires Valid() && id in held && held[id] == bytes
      modifies this
      ensures Valid() && held == old(held) - {id} && reservedBytes == Sum(held, nextId)
      ensures reservedBytes + bytes == old(reservedBytes)
    {
      SumOther(held, held - {id}, nextId, id);
      reservedBytes := Released(reservedBytes, bytes);
      held := held - {id};
    }
  }
}
