/** The fence that keeps a directory listing out of the cache when the directory
    was invalidated while the listing was in flight
    (internal/posix/listing_fence.go). */
module FenceState {
  import opened Common

  /** Generations are 64-bit and wrap round. */
  const Wrap: nat := 0x1_0000_0000_0000_0000

  datatype Entry = Entry(listings: nat, generation: nat)

  type Inflight = map<Path, Entry>

  function EntryOf(s: Inflight, dir: Path): Entry {
    if dir in s then s[dir] else Entry(0, 0)
  }

  function Later(e: Entry): Entry {
    e.(generation := (e.generation + 1) % Wrap)
  }

  function AfterBegin(s: Inflight, dir: Path): Inflight {
    s[dir := Entry(EntryOf(s, dir).listings + 1, EntryOf(s, dir).generation)]
  }

  predicate Unchanged(s: Inflight, dir: Path, token: nat) {
    dir in s && s[dir].generation == token
  }

  function AfterEnd(s: Inflight, dir: Path): Inflight {
    if dir !in s then s
    else if s[dir].listings <= 1 then s - {dir}
    else s[dir := s[dir].(listings := s[dir].listings - 1)]
  }

  function AfterInvalidate(s: Inflight, dir: Path): Inflight {
    if dir in s then s[dir := Later(s[dir])] else s
  }

  function AfterInvalidatePrefix(s: Inflight, prefix: Path): Inflight {
    map d | d in s :: if prefix <= d then Later(s[d]) else s[d]
  }

  // ---- runs ----

  datatype Event =
    | Begin(id: nat, dir: Path)
    | End(id: nat)
    | Invalidate(dir: Path)
    | InvalidatePrefix(prefix: Path)

  /** A listing in flight: its directory and the generation it must still see. */
  datatype Listing = Listing(dir: Path, token: nat)

  datatype System = System(fence: Inflight, listings: map<nat, Listing>)

  const Idle := System(map[], map[])

  /** A listing ends once, and its id is not used by another one meanwhile. */
  function Step(s: System, e: Event): Option<System> {
    match e
    case Begin(id, dir) =>
      if id in s.listings then None
      else Some(System(AfterBegin(s.fence, dir), s.listings[id := Listing(dir, EntryOf(s.fence, dir).generation)]))
    case End(id) =>
      if id !in s.listings then None
      else Some(System(AfterEnd(s.fence, s.listings[id].dir), s.listings - {id}))
    case Invalidate(dir) => Some(s.(fence := AfterInvalidate(s.fence, dir)))
    case InvalidatePrefix(prefix) => Some(s.(fence := AfterInvalidatePrefix(s.fence, prefix)))
  }

  function Run(s: System, events: seq<Event>): Option<System>
    decreases events
  {
    if events == [] then Some(s)
    else match Step(s, events[0]) { case None => None case Some(next) => Run(next, events[1..]) }
  }

  predicate Covers(e: Event, dir: Path) {
    (e.Invalidate? && e.dir == dir) || (e.InvalidatePrefix? && e.prefix <= dir)
  }

  /** How often dir was invalidated. */
  function Hits(events: seq<Event>, dir: Path): nat {
    if events == [] then 0 else (if Covers(events[0], dir) then 1 else 0) + Hits(events[1..], dir)
  }

  function Of(listings: map<nat, Listing>, dir: Path): set<nat> {
    set id | id in listings && listings[id].dir == dir
  }

  /** A directory has an entry exactly while listings of it are in flight, and
      the entry counts them. */
  ghost predicate Inv(s: System) {
    && (forall d :: EntryOf(s.fence, d).listings == |Of(s.listings, d)|)
    && (forall d :: d in s.fence ==> s.fence[d].listings > 0 && s.fence[d].generation < Wrap)
    && (forall id :: id in s.listings ==> s.listings[id].token < Wrap)
  }

  lemma InFlightHasEntry(s: System, id: nat)
    requires Inv(s) && id in s.listings
    ensures s.listings[id].dir in s.fence
  {
    assert id in Of(s.listings, s.listings[id].dir);
  }

  lemma OfBegin(listings: map<nat, Listing>, id: nat, l: Listing, d: Path)
    requires id !in listings
    ensures |Of(listings[id := l], d)| == |Of(listings, d)| + if d == l.dir then 1 else 0
  {
    assert Of(listings[id := l], d) == if d == l.dir then Of(listings, d) + {id} else Of(listings, d);
  }

  lemma OfEnd(listings: map<nat, Listing>, id: nat, d: Path)
    requires id in listings
    ensures |Of(listings - {id}, d)| == |Of(listings, d)| - if d == listings[id].dir then 1 else 0
  {
    assert Of(listings - {id}, d) == if d == listings[id].dir then Of(listings, d) - {id} else Of(listings, d);
    assert d == listings[id].dir ==> id in Of(listings, d);
  }

  lemma StepKeeps(s: System, e: Event)
    requires Inv(s) && Step(s, e).Some?
    ensures Inv(Step(s, e).value)
  {
    var next := Step(s, e).value;
    match e
    case Begin(id, dir) =>
      forall d ensures EntryOf(next.fence, d).listings == |Of(next.listings, d)| {
        OfBegin(s.listings, id, next.listings[id], d);
      }
    case End(id) =>
      InFlightHasEntry(s, id);
      forall d ensures EntryOf(next.fence, d).listings == |Of(next.listings, d)| {
        OfEnd(s.listings, id, d);
      }
    case Invalidate(dir) =>
    case InvalidatePrefix(prefix) =>
  }

  /** Whether listing id stays in flight. */
  predicate Untouched(events: seq<Event>, id: nat) {
    forall e :: e in events ==> e != End(id)
  }

  /** One event moves the generation of a directory being listed exactly when it
      invalidates the directory. */
  lemma StepMoves(s: System, e: Event, id: nat)
    requires Inv(s) && Step(s, e).Some? && id in s.listings && e != End(id)
    ensures var next := Step(s, e).value;
            var dir := s.listings[id].dir;
            id in next.listings && next.listings[id] == s.listings[id] && dir in s.fence && dir in next.fence &&
            next.fence[dir].generation == (s.fence[dir].generation + if Covers(e, dir) then 1 else 0) % Wrap
  {
    InFlightHasEntry(s, id);
    var dir := s.listings[id].dir;
    if e.End? && s.listings[e.id].dir == dir {
      assert {id, e.id} <= Of(s.listings, dir);
      TwoAreTwo(Of(s.listings, dir), id, e.id);
    }
  }

  lemma TwoAreTwo(ids: set<nat>, a: nat, b: nat)
    requires a in ids && b in ids && a != b
    ensures |ids| >= 2
  {
    assert |ids - {a}| == |ids| - 1;
    assert b in ids - {a};
  }

  lemma WrapsAgain(g: nat, c: nat, h: nat)
    ensures ((g + c) % Wrap + h) % Wrap == (g + (c + h)) % Wrap
  {
  }

  /** Over any stretch of a run, the generation of a directory being listed moves
      by the number of its invalidations. */
  lemma {:induction false} RunMoves(s: System, events: seq<Event>, id: nat)
    requires Inv(s) && Run(s, events).Some? && id in s.listings && Untouched(events, id)
    ensures var after := Run(s, events).value;
            var dir := s.listings[id].dir;
            Inv(after) && id in after.listings && after.listings[id] == s.listings[id] &&
            dir in s.fence && dir in after.fence &&
            after.fence[dir].generation == (s.fence[dir].generation + Hits(events, dir)) % Wrap
    decreases events
  {
    InFlightHasEntry(s, id);
    if events != [] {
      assert events[0] in events && forall e :: e in events[1..] ==> e in events;
      StepKeeps(s, events[0]);
      StepMoves(s, events[0], id);
      hide Inv, Step, Covers;
      var dir := s.listings[id].dir;
      RunMoves(Step(s, events[0]).value, events[1..], id);
      WrapsAgain(s.fence[dir].generation, if Covers(events[0], dir) then 1 else 0, Hits(events[1..], dir));
    }
  }

  lemma {:induction false} RunKeeps(s: System, events: seq<Event>)
    requires Inv(s) && Run(s, events).Some?
    ensures Inv(Run(s, events).value)
    decreases events
  {
    if events != [] {
      StepKeeps(s, events[0]);
      RunKeeps(Step(s, events[0]).value, events[1..]);
    }
  }

  /** After any run, with any number of other listings beginning and ending: a
      listing that begins, and later ends, is told that its directory was left
      alone exactly when the number of invalidations of it in between is a
      multiple of 2^64, which below 2^64 means none. Entries come and go and restart
      at generation 0; that changes nothing. */
  lemma EndIsExact(before: seq<Event>, id: nat, dir: Path, between: seq<Event>)
    requires Run(Idle, before).Some?
    requires Step(Run(Idle, before).value, Begin(id, dir)).Some?
    requires Run(Step(Run(Idle, before).value, Begin(id, dir)).value, between).Some?
    requires Untouched(between, id)
    ensures var after := Run(Step(Run(Idle, before).value, Begin(id, dir)).value, between).value;
            id in after.listings && after.listings[id].dir == dir &&
            (Unchanged(after.fence, dir, after.listings[id].token) <==>
               Hits(between, dir) % 0x1_0000_0000_0000_0000 == 0) &&
            (Hits(between, dir) < 0x1_0000_0000_0000_0000 ==>
               (Unchanged(after.fence, dir, after.listings[id].token) <==> Hits(between, dir) == 0))
  {
    hide Inv, Run, Step, Hits;
    IdleIsGood();
    RunKeeps(Idle, before);
    var s := Run(Idle, before).value;
    BeginTakesToken(s, id, dir);
    RunMoves(Step(s, Begin(id, dir)).value, between, id);
    WrapsRound(Step(s, Begin(id, dir)).value.listings[id].token, Hits(between, dir));
  }

  lemma IdleIsGood()
    ensures Inv(Idle)
  {
  }

  /** A listing begins with the generation its directory has. */
  lemma BeginTakesToken(s: System, id: nat, dir: Path)
    requires Inv(s) && Step(s, Begin(id, dir)).Some?
    ensures var next := Step(s, Begin(id, dir)).value;
            Inv(next) && id in next.listings && next.listings[id].dir == dir && dir in next.fence &&
            next.fence[dir].generation == next.listings[id].token < Wrap
  {
    StepKeeps(s, Begin(id, dir));
  }

  lemma WrapsRound(token: nat, hits: nat)
    requires token < Wrap
    ensures (token + hits) % Wrap == token <==> hits % Wrap == 0
    ensures hits < Wrap ==> (hits % Wrap == 0 <==> hits == 0)
  {
  }
}

module ListingFenceObject {
  import opened Common
  import opened FenceState

  class ListingFence {
    var inflight: Inflight

    constructor ()
      ensures inflight == map[]
    {
      inflight := map[];
    }

    method BeginListing(dir: Path) returns (generation: nat)
      modifies this
      ensures inflight == AfterBegin(old(inflight), dir) && generation == EntryOf(old(inflight), dir).generation
      ensures Unchanged(inflight, dir, generation)
      ensures inflight[dir].listings == 1 + if dir in old(inflight) then old(inflight)[dir].listings else 0
      ensures forall d :: d != dir ==> EntryOf(inflight, d) == EntryOf(old(inflight), d)
    {
      if dir !in inflight {
        inflight := inflight[dir := Entry(0, 0)];
      }
      inflight := inflight[dir := inflight[dir].(listings := inflight[dir].listings + 1)];
      return inflight[dir].generation;
    }

    method EndListing(dir: Path, generation: nat) returns (same: bool)
      requires dir in inflight ==> inflight[dir].listings > 0
      modifies this
      ensures inflight == AfterEnd(old(inflight), dir)
      ensures same <==> dir in old(inflight) && old(inflight)[dir].generation == generation
      ensures dir in inflight <==> dir in old(inflight) && old(inflight)[dir].listings > 1
      ensures dir in inflight ==> inflight[dir] == Entry(old(inflight)[dir].listings - 1, old(inflight)[dir].generation)
      ensures forall d :: d != dir ==> EntryOf(inflight, d) == EntryOf(old(inflight), d)
    {
      if dir !in inflight {
        return false;
      }
      same := inflight[dir].generation == generation;
      inflight := inflight[dir := inflight[dir].(listings := inflight[dir].listings - 1)];
      if inflight[dir].listings == 0 {
        inflight := inflight - {dir};
      }
    }

    /** No listing of the directory that is in flight will be told it was left
        alone; listings of other directories do not notice, and all still end. */
    method InvalidateDir(dir: Path)
      modifies this
      ensures inflight == AfterInvalidate(old(inflight), dir)
      ensures forall token: nat :: token < Wrap && Unchanged(old(inflight), dir, token) ==>
                !Unchanged(inflight, dir, token)
      ensures forall d: Path, token: nat :: d != dir ==>
                (Unchanged(inflight, d, token) <==> Unchanged(old(inflight), d, token))
      ensures forall d: Path :: EntryOf(inflight, d).listings == EntryOf(old(inflight), d).listings
    {
      if dir in inflight {
        inflight := inflight[dir := Later(inflight[dir])];
      }
    }

    method InvalidatePrefix(prefix: Path)
      modifies this
      ensures inflight == AfterInvalidatePrefix(old(inflight), prefix)
      ensures forall d: Path, token: nat ::
                |prefix| <= |d| && d[..|prefix|] == prefix && token < Wrap && Unchanged(old(inflight), d, token) ==>
                  !Unchanged(inflight, d, token)
      ensures forall d: Path, token: nat :: !(|prefix| <= |d| && d[..|prefix|] == prefix) ==>
                (Unchanged(inflight, d, token) <==> Unchanged(old(inflight), d, token))
      ensures forall d: Path :: EntryOf(inflight, d).listings == EntryOf(old(inflight), d).listings
    {
      var rest := inflight.Keys;
      while rest != {}
        invariant rest <= inflight.Keys == old(inflight).Keys
        invariant forall d :: d in inflight ==>
                    inflight[d] == if prefix <= d && d !in rest then Later(old(inflight)[d]) else old(inflight)[d]
      {
        var d :| d in rest;
        rest := rest - {d};
        if prefix <= d {
          inflight := inflight[d := Later(inflight[d])];
        }
      }
    }
  }
}
