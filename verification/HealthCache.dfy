// The single-flight cache of `getCachedSystemHealth` in apps/console/server/index.ts.

module HealthCache {
  import opened Prelude

  const TTL := 5000

  // Fills are numbered in the order they start. A rejected fill is `Evicted` once its
  // rejection handler has run.
  datatype FillStatus = InFlight | Resolved(at: int) | Rejected | Evicted

  datatype Entry = Entry(expiresAt: int, fill: nat)

  datatype Cache = Cache(slot: Option<Entry>, fills: seq<FillStatus>)

  // The clock is read on arrival and again when a fill is installed.
  datatype Event =
    | Ask(now: int, installedAt: int)
    | Resolve(resolved: nat, at: int)
    | Reject(rejected: nat)
    | HandleRejection(handled: nat)

  predicate Fresh(slot: Option<Entry>, now: int) { slot.Some? && slot.value.expiresAt > now }

  predicate Holds(slot: Option<Entry>, fill: nat) { slot.Some? && slot.value.fill == fill }

  // Events about fills that are not in the matching state cannot happen and change nothing.
  function Next(c: Cache, e: Event): Cache {
    match e
    case Ask(now, installedAt) =>
      if Fresh(c.slot, now) then c
      else Cache(Some(Entry(installedAt + TTL, |c.fills|)), c.fills + [InFlight])
    case Resolve(f, at) =>
      if f < |c.fills| && c.fills[f].InFlight? then
        Cache(if Holds(c.slot, f) then Some(Entry(at + TTL, f)) else c.slot, c.fills[f := Resolved(at)])
      else c
    case Reject(f) =>
      if f < |c.fills| && c.fills[f].InFlight? then c.(fills := c.fills[f := Rejected]) else c
    case HandleRejection(f) =>
      if f < |c.fills| && c.fills[f].Rejected? then
        Cache(if Holds(c.slot, f) then None else c.slot, c.fills[f := Evicted])
      else c
  }

  // The fill whose promise an arriving caller is given.
  function Served(c: Cache, now: int): nat { if Fresh(c.slot, now) then c.slot.value.fill else |c.fills| }

  function ExecFrom(c: Cache, events: seq<Event>): Cache
    decreases |events|
  {
    if events == [] then c else ExecFrom(Next(c, events[0]), events[1..])
  }

  function Exec(events: seq<Event>): Cache { ExecFrom(Cache(None, []), events) }

  // ---- The variable and the code that assigns it ----

  class SystemHealthCache {
    var entry: Option<Entry>
    var fills: seq<FillStatus>

    function State(): Cache reads this { Cache(entry, fills) }

    constructor ()
      ensures State() == Cache(None, [])
    {
      entry, fills := None, [];
    }

    method GetCachedSystemHealth(now: int, installedAt: int) returns (value: nat)
      modifies this
      ensures State() == Next(old(State()), Ask(now, installedAt))
      ensures value == Served(old(State()), now)
      ensures
        if old(entry) != None && now < old(entry).value.expiresAt then
          value == old(entry).value.fill && State() == old(State())
        else
          value == |old(fills)| && fills == old(fills) + [InFlight] && entry == Some(Entry(installedAt + 5000, value))
    {
      if entry != None && entry.value.expiresAt > now { return entry.value.fill; }
      value := |fills|;
      fills := fills + [InFlight];
      entry := Some(Entry(installedAt + TTL, value));
    }

    method OnResolved(value: nat, at: int)
      requires value < |fills| && fills[value].InFlight?
      modifies this
      ensures State() == Next(old(State()), Resolve(value, at))
      ensures fills == old(fills)[value := Resolved(at)]
      ensures entry == if old(entry) != None && old(entry).value.fill == value then Some(Entry(at + 5000, value)) else old(entry)
    {
      if entry != None && entry.value.fill == value { entry := Some(Entry(at + TTL, value)); }
      fills := fills[value := Resolved(at)];
    }

    method OnRejectionHandled(value: nat)
      requires value < |fills| && fills[value].Rejected?
      modifies this
      ensures State() == Next(old(State()), HandleRejection(value))
      ensures fills == old(fills)[value := Evicted]
      ensures entry == if old(entry) != None && old(entry).value.fill == value then None else old(entry)
    {
      if entry != None && entry.value.fill == value { entry := None; }
      fills := fills[value := Evicted];
    }
  }

  // ---- Every run ----

  // The slot holds the newest fill or nothing, never an evicted one, and once that fill
  // has resolved its lifetime runs from the resolution.
  predicate Sound(c: Cache) {
    c.slot.Some? ==>
      && c.slot.value.fill + 1 == |c.fills|
      && !c.fills[c.slot.value.fill].Evicted?
      && (c.fills[c.slot.value.fill].Resolved? ==> c.slot.value.expiresAt == c.fills[c.slot.value.fill].at + TTL)
  }

  lemma {:induction false} RunsStaySound(c: Cache, events: seq<Event>)
    requires Sound(c)
    ensures Sound(ExecFrom(c, events))
    decreases |events|
  {
    if events != [] { RunsStaySound(Next(c, events[0]), events[1..]); }
  }

  lemma SlotIsSound(events: seq<Event>)
    ensures Sound(Exec(events))
  {
    RunsStaySound(Cache(None, []), events);
  }

  // No later event puts an older fill in place of a newer one.
  lemma OlderNeverReplacesNewer(events: seq<Event>, more: seq<Event>)
    ensures
      var before, after := Exec(events), ExecFrom(Exec(events), more);
      before.slot.Some? && after.slot.Some? ==> before.slot.value.fill <= after.slot.value.fill
  {
    SlotIsSound(events);
    RunsStaySound(Exec(events), more);
    FillsOnlyGrow(Exec(events), more);
  }

  lemma {:induction false} FillsOnlyGrow(c: Cache, events: seq<Event>)
    ensures |c.fills| <= |ExecFrom(c, events).fills|
    ensures forall f :: 0 <= f < |c.fills| && !c.fills[f].InFlight? && !c.fills[f].Rejected? ==>
              ExecFrom(c, events).fills[f] == c.fills[f]
    decreases |events|
  {
    if events != [] { FillsOnlyGrow(Next(c, events[0]), events[1..]); }
  }

  // A fill whose rejection has been handled is never served again.
  lemma EvictedIsNeverServed(events: seq<Event>, more: seq<Event>, f: nat, now: int)
    requires f < |Exec(events).fills| && Exec(events).fills[f].Evicted?
    ensures Served(ExecFrom(Exec(events), more), now) != f
  {
    SlotIsSound(events);
    RunsStaySound(Exec(events), more);
    FillsOnlyGrow(Exec(events), more);
  }

  // A caller given a resolved fill arrives less than the time-to-live after it resolved.
  lemma ServedIsFresh(events: seq<Event>, now: int)
    ensures
      var c := Exec(events);
      var f := Served(c, now);
      f < |c.fills| && c.fills[f].Resolved? ==> now < c.fills[f].at + TTL
  {
    SlotIsSound(events);
  }

  // Clock readings that fit between the moment the entry's lifetime started and `now`.
  predicate Between(e: Event, expiresAt: int, now: int) {
    && (e.Ask? ==> e.now <= now)
    && (e.Resolve? ==> e.at >= expiresAt - TTL)
  }

  lemma {:induction false} EntryHolds(c: Cache, events: seq<Event>, expiresAt: int, f: nat, now: int)
    requires Sound(c) && Holds(c.slot, f) && c.slot.value.expiresAt >= expiresAt > now
    requires forall e :: e in events ==> Between(e, expiresAt, now)
    requires f < |ExecFrom(c, events).fills| && !ExecFrom(c, events).fills[f].Evicted?
    ensures
      var c' := ExecFrom(c, events);
      Holds(c'.slot, f) && c'.slot.value.expiresAt >= expiresAt && |c'.fills| == |c.fills|
    decreases |events|
  {
    if events != [] {
      var c1 := Next(c, events[0]);
      assert Between(events[0], expiresAt, now);
      if events[0] == HandleRejection(f) && c.fills[f].Rejected? {
        FillsOnlyGrow(c1, events[1..]);
        assert false;
      } else {
        EntryHolds(c1, events[1..], expiresAt, f, now);
      }
    }
  }

  // Callers share: whatever happens in between, a caller that arrives before the entry
  // expires is given the same fill, and no other fill has started, unless that fill was
  // rejected and evicted.
  lemma CallersShareUntilExpiry(events: seq<Event>, between: seq<Event>, now: int)
    requires Exec(events).slot.Some? && now < Exec(events).slot.value.expiresAt
    requires forall e :: e in between ==> Between(e, Exec(events).slot.value.expiresAt, now)
    ensures
      var f, later := Exec(events).slot.value.fill, ExecFrom(Exec(events), between);
      f < |later.fills| && (later.fills[f].Evicted? || (Served(later, now) == f && |later.fills| == |Exec(events).fills|))
  {
    var c := Exec(events);
    SlotIsSound(events);
    FillsOnlyGrow(c, between);
    if !ExecFrom(c, between).fills[c.slot.value.fill].Evicted? {
      EntryHolds(c, between, c.slot.value.expiresAt, c.slot.value.fill, now);
    }
  }

  // ---- The lifetime of a fill ----

  // An arrival that finds nothing to share starts a fill.
  predicate Starts(c: Cache, now: int) { c.slot == None || c.slot.value.expiresAt <= now }

  // Fill f, installed at `installedAt`, lives five seconds from there, or from when it resolved.
  predicate Living(c: Cache, f: nat, installedAt: int) {
    && f < |c.fills|
    && (Holds(c.slot, f) ==> c.slot.value.expiresAt == EndOfLife(c, f, installedAt))
    && (|c.fills| == f + 1 && !c.fills[f].Evicted? ==> Holds(c.slot, f))
    && (|c.fills| > f + 1 || c.fills[f].Evicted? ==> !Holds(c.slot, f))
  }

  function EndOfLife(c: Cache, f: nat, installedAt: int): int
    requires f < |c.fills|
  {
    (if c.fills[f].Resolved? then c.fills[f].at else installedAt) + 5000
  }

  lemma {:induction false} FillsLive(c: Cache, events: seq<Event>, f: nat, installedAt: int)
    requires Sound(c) && Living(c, f, installedAt)
    ensures Living(ExecFrom(c, events), f, installedAt)
    decreases |events|
  {
    if events != [] {
      assert Living(Next(c, events[0]), f, installedAt);
      FillsLive(Next(c, events[0]), events[1..], f, installedAt);
    }
  }

  // From the arrival that starts it on, and through any events: a caller is given the fill exactly when
  // it is still the newest, has not been evicted, and the caller arrives less than 5000 ms after it was
  // installed or, once it has resolved, after it resolved. Any other caller of the newest fill's time
  // starts a new one.
  lemma ServedExactlyWhileAlive(events: seq<Event>, first: int, installedAt: int, between: seq<Event>, now: int)
    requires Starts(Exec(events), first)
    ensures
      var f := |Exec(events).fills|;
      var later := ExecFrom(Next(Exec(events), Ask(first, installedAt)), between);
      && f < |later.fills|
      && (Served(later, now) == f
          <==> |later.fills| == f + 1 && !later.fills[f].Evicted? && now < EndOfLife(later, f, installedAt))
      && (|later.fills| == f + 1 && Served(later, now) != f ==>
            Starts(later, now) && Served(later, now) == f + 1 && |Next(later, Ask(now, now)).fills| == f + 2)
  {
    var c := Exec(events);
    SlotIsSound(events);
    var c1 := Next(c, Ask(first, installedAt));
    RunsStaySound(c1, between);
    FillsLive(c1, between, |c.fills|, installedAt);
  }

  // The clock does not run backwards: arrivals come before `now`, resolutions after the installation.
  predicate InWindow(e: Event, installedAt: int, now: int) {
    (e.Ask? ==> e.now <= now) && (e.Resolve? ==> e.at >= installedAt)
  }

  lemma {:induction false} NobodyElseStarts(c: Cache, events: seq<Event>, f: nat, installedAt: int, now: int)
    requires Sound(c) && Living(c, f, installedAt) && |c.fills| == f + 1 && now < installedAt + 5000
    requires EndOfLife(c, f, installedAt) >= installedAt + 5000
    requires forall e :: e in events ==> InWindow(e, installedAt, now)
    ensures
      var later := ExecFrom(c, events);
      && f < |later.fills|
      && (later.fills[f].Evicted? || (|later.fills| == f + 1 && EndOfLife(later, f, installedAt) >= installedAt + 5000))
    decreases |events|
  {
    if events != [] {
      var c1 := Next(c, events[0]);
      assert InWindow(events[0], installedAt, now);
      FillsOnlyGrow(c1, events[1..]);
      if !c1.fills[f].Evicted? && |c1.fills| == f + 1 {
        NobodyElseStarts(c1, events[1..], f, installedAt, now);
      }
    }
  }

  // Whatever happens in between, every caller that arrives within 5000 ms of a fill's installation is
  // given that fill, in flight or resolved, and no other starts, unless it was rejected and evicted.
  lemma InFlightFillIsShared(events: seq<Event>, first: int, installedAt: int, between: seq<Event>, now: int)
    requires Starts(Exec(events), first) && now < installedAt + 5000
    requires forall e :: e in between ==> InWindow(e, installedAt, now)
    ensures
      var f := |Exec(events).fills|;
      var later := ExecFrom(Next(Exec(events), Ask(first, installedAt)), between);
      && f < |later.fills|
      && (later.fills[f].Evicted? || (Served(later, now) == f && |later.fills| == f + 1))
  {
    var c := Exec(events);
    SlotIsSound(events);
    NobodyElseStarts(Next(c, Ask(first, installedAt)), between, |c.fills|, installedAt, now);
    ServedExactlyWhileAlive(events, first, installedAt, between, now);
  }
}
