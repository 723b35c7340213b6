// Serial histories: dispatches and attestations one after the other, in any order and
// any number, starting from an empty store. No reaper.

module ClaimHistories {
  import opened Prelude
  import opened ClaimProtocol
  import opened ClaimRuns
  import opened ClaimInvariant
  import opened ClaimAlone
  import opened ClaimSerial

  datatype Event =
    | Dispatch(din: DispatchInput, denv: DispatchEnv)
    | Attest(input: Input, env: nat -> Choice)

  function Serve(s: Store, e: Event): Store {
    match e
    case Dispatch(din, denv) => AfterDispatch(s, din, denv)
    case Attest(input, env) => Alone(Started(input), s, env, 0).1
  }

  function ServeAll(s: Store, events: seq<Event>): Store
    decreases |events|
  {
    if events == [] then s else ServeAll(Serve(s, events[0]), events[1..])
  }

  // ---- One attestation from start to end ----

  // Where the claim's record stands, seen from the store s0 the call started in.
  predicate RecordStands(c: Call, m0: ClaimMeta, m: ClaimMeta) {
    if c.pc.Failed? then
      || m == m0
      || ((m0.state.Executing? || m0.state.Attesting?) && m == m0.(state := Attesting))
      || Settled(c, m0, m)
    else if c.pc.PutStalled? || (c.pc.Returned? && c.verdict.Some?) then
      Settled(c, m0, m)
    else if c.pc.ResolvePolicies? || c.pc.Verifying? || Settling(c) then
      m == m0.(state := Attesting)
    else
      m == m0
  }

  // The closing update happened: one call, one verdict, one write. ClaimAlone says at which time.
  predicate Settled(c: Call, m0: ClaimMeta, m: ClaimMeta) {
    && c.snap == Some(m0)
    && c.cap.Some?
    && c.verdict.Some?
    && c.audit.Some?
    && (match Judge(c.verdict.value)
        case Accept(_) => m == m0.(state := Complete, failures := 0)
        case Mismatch(_) => m.lastRejectedAt.Some? && m == m0.(state := Attesting, lastRejectedAt := m.lastRejectedAt)
        case Infra(_, _) =>
          m.lastRejectedAt.Some? &&
          m == m0.(state := StateAfterInfra(m0.failures + 1, c.cap.value), failures := m0.failures + 1,
                   lastRejectedAt := m.lastRejectedAt))
  }

  ghost predicate Alongside(c: Call, s0: Store, s: Store) {
    && PcOk(c)
    && Extends(s0, s)
    && (forall id :: IsClaim(s, id) <==> IsClaim(s0, id))
    && (forall id :: IsClaim(s0, id) && id != c.input.claim ==> s[id] == s0[id])
    && (c.snap.Some? ==>
          && IsClaim(s0, c.input.claim)
          && c.snap == Some(s0[c.input.claim].meta)
          && GatePassed(c.input, s0[c.input.claim].meta))
    && (c.pc.WriteLatest? ==> IsClaim(s, c.input.claim) && c.pc.latest == s[c.input.claim].meta)
    && (IsClaim(s0, c.input.claim) ==> RecordStands(c, s0[c.input.claim].meta, s[c.input.claim].meta))
    && (c.cap.Some? ==> c.cap.value > 0.0)
  }

  // What the record becomes if this step writes it.
  function RecordAfter(m: ClaimMeta, e: Effect): ClaimMeta { if e.Update? then e.meta else m }

  lemma StepMovesRecord(c: Call, s: Store, x: Choice, m0: ClaimMeta, m: ClaimMeta)
    requires PcOk(c) && Running(c) && IsClaim(s, c.input.claim) && s[c.input.claim].meta == m
    requires RecordStands(c, m0, m)
    requires c.snap.Some? ==> c.snap == Some(m0) && GatePassed(c.input, m0)
    requires c.pc.WriteLatest? ==> c.pc.latest == m
    ensures RecordStands(Advance(c, s, x).0, m0, RecordAfter(m, Advance(c, s, x).1))
  {
    if c.pc.WriteLatest? && c.pc.goal.Settle? && !x.fault {
      SettlingWrite(c, s, x, m0);
    }
  }

  lemma SettlingWrite(c: Call, s: Store, x: Choice, m0: ClaimMeta)
    requires PcOk(c) && c.pc == WriteLatest(Settle, m0.(state := Attesting)) && c.snap == Some(m0)
    requires IsClaim(s, c.input.claim) && !x.fault
    ensures
      var (c', e) := Advance(c, s, x);
      e.Update? && Settled(c', m0, e.meta) && (c'.pc.PutStalled? || c'.pc.Returned?) && c'.verdict.Some?
  {
  }

  lemma StepKeepsRecord(c: Call, s0: Store, s: Store, x: Choice)
    requires Alongside(c, s0, s) && Running(c) && IsClaim(s0, c.input.claim)
    ensures
      var (c', e) := Advance(c, s, x);
      var s' := Apply(s, e);
      && IsClaim(s', c.input.claim)
      && RecordStands(c', s0[c.input.claim].meta, s'[c.input.claim].meta)
      && (c'.pc.WriteLatest? ==> c'.pc.latest == s'[c.input.claim].meta)
      && (c'.snap.Some? ==>
            && c'.snap == Some(s0[c.input.claim].meta)
            && GatePassed(c.input, s0[c.input.claim].meta))
  {
    var m0 := s0[c.input.claim].meta;
    var m := s[c.input.claim].meta;
    StepMovesRecord(c, s, x, m0, m);
    StepWritesOnlyItsClaim(c, s, x);
    SnapshotIsTheStart(c, s, x, m0);
  }

  lemma StepWritesOnlyItsClaim(c: Call, s: Store, x: Choice)
    requires PcOk(c) && Running(c) && IsClaim(s, c.input.claim)
    ensures
      var (c', e) := Advance(c, s, x);
      && IsClaim(Apply(s, e), c.input.claim)
      && Apply(s, e)[c.input.claim].meta == RecordAfter(s[c.input.claim].meta, e)
      && (c'.pc.WriteLatest? ==> e.Quiet? && c'.pc.latest == s[c.input.claim].meta)
  {
    StepsThatRead(c, s, x);
  }

  lemma SnapshotIsTheStart(c: Call, s: Store, x: Choice, m0: ClaimMeta)
    requires PcOk(c) && Running(c) && IsClaim(s, c.input.claim)
    requires RecordStands(c, m0, s[c.input.claim].meta)
    requires c.snap.Some? ==> c.snap == Some(m0) && GatePassed(c.input, m0)
    ensures Advance(c, s, x).0.snap.Some? ==>
              Advance(c, s, x).0.snap == Some(m0) && GatePassed(c.input, m0)
  {
    StepsThatRead(c, s, x);
  }

  lemma StepKeepsOthers(c: Call, s0: Store, s: Store, x: Choice)
    requires Alongside(c, s0, s) && Running(c)
    ensures
      var (c', e) := Advance(c, s, x);
      var s' := Apply(s, e);
      && c'.input == c.input
      && Extends(s0, s')
      && (forall id :: IsClaim(s', id) <==> IsClaim(s0, id))
      && (forall id :: IsClaim(s0, id) && id != c.input.claim ==> s'[id] == s0[id])
      && ((c'.snap.Some? || c'.pc.WriteLatest?) ==> IsClaim(s0, c.input.claim))
      && (c'.cap.Some? ==> c'.cap.value > 0.0)
  {
    StepsThatRead(c, s, x);
  }

  lemma StepStaysAlongside(c: Call, s0: Store, s: Store, x: Choice)
    requires Alongside(c, s0, s) && Running(c)
    ensures Alongside(Advance(c, s, x).0, s0, Apply(s, Advance(c, s, x).1))
  {
    AdvanceKeepsPc(c, s, x);
    StepKeepsOthers(c, s0, s, x);
    if IsClaim(s0, c.input.claim) { StepKeepsRecord(c, s0, s, x); }
  }

  lemma {:induction false} RunStaysAlongside(c: Call, s0: Store, s: Store, env: nat -> Choice, i: nat)
    requires Alongside(c, s0, s)
    ensures Alongside(Alone(c, s, env, i).0, s0, Alone(c, s, env, i).1)
    ensures Alone(c, s, env, i).0.input == c.input
    decreases StepsLeft(c)
  {
    if Running(c) {
      StepStaysAlongside(c, s0, s, env(i));
      StepKeepsOthers(c, s0, s, env(i));
      AdvanceTakesAStep(c, s, env(i));
      hide Advance;
      hide RecordStands;
      var (c', e) := Advance(c, s, env(i));
      RunStaysAlongside(c', s0, Apply(s, e), env, i + 1);
    }
  }

  lemma StartIsAlongside(input: Input, s: Store)
    ensures Alongside(Started(input), s, s)
  {
  }

  // ---- The failures on record ----

  // One more failure goes on record exactly when the call rejected for one.
  function Recorded(c: Call, id: AtomId): nat {
    if c.input.claim == id && c.audit.Some? && c.verdict.Some? && Judge(c.verdict.value).Infra? then 1 else 0
  }

  lemma NeutralStepKeepsCount(s: Store, e: Effect, id: AtomId)
    requires e.Put? ==> e.id !in s && !InfraAtom(e.atom, id)
    requires e.Update? ==> IsClaim(s, e.target)
    ensures InfraCount(Apply(s, e), id) == InfraCount(s, id)
  {
    assert InfraRejections(Apply(s, e), id) == InfraRejections(s, id);
  }

  lemma StepRecords(c: Call, s: Store, x: Choice, id: AtomId)
    requires PcOk(c) && Running(c) && (c.pc.WriteLatest? ==> IsClaim(s, c.input.claim))
    ensures
      var (c', e) := Advance(c, s, x);
      && (e.Put? ==> e.id !in s)
      && (e.Update? ==> IsClaim(s, e.target))
      && Recorded(c', id) == Recorded(c, id) + (if e.Put? && InfraAtom(e.atom, id) then 1 else 0)
  {
  }

  lemma StepCounts(c: Call, s: Store, x: Choice, id: AtomId)
    requires PcOk(c) && Running(c) && (c.pc.WriteLatest? ==> IsClaim(s, c.input.claim))
    ensures
      var (c', e) := Advance(c, s, x);
      InfraCount(Apply(s, e), id) + Recorded(c, id) == InfraCount(s, id) + Recorded(c', id)
  {
    var e := Advance(c, s, x).1;
    StepRecords(c, s, x, id);
    if e.Put? && InfraAtom(e.atom, id) {
      RecordingCountsOne(s, e.id, e.atom, id);
    } else {
      NeutralStepKeepsCount(s, e, id);
    }
  }

  lemma {:induction false} RunRecords(c: Call, s0: Store, s: Store, env: nat -> Choice, i: nat, id: AtomId)
    requires Alongside(c, s0, s)
    ensures
      var (c', s') := Alone(c, s, env, i);
      InfraCount(s', id) + Recorded(c, id) == InfraCount(s, id) + Recorded(c', id)
    decreases StepsLeft(c)
  {
    if Running(c) {
      StepCounts(c, s, env(i), id);
      AdvanceTakesAStep(c, s, env(i));
      hide Advance;
      var (c', e) := Advance(c, s, env(i));
      StepStaysAlongside(c, s0, s, env(i));
      RunRecords(c', s0, Apply(s, e), env, i + 1, id);
    }
  }

  // ---- What one attestation does ----

  predicate Open(m: ClaimMeta) { m.state.Executing? || m.state.Attesting? }

  lemma OneAttestation(s: Store, input: Input, env: nat -> Choice, id: AtomId)
    requires IsClaim(s, id)
    ensures
      var (c, s') := Alone(Started(input), s, env, 0);
      && IsClaim(s', id)
      && c.input == input
      && InfraCount(s', id) == InfraCount(s, id) + Recorded(c, id)
      && (id != input.claim || !Open(s[id].meta) ==> s'[id] == s[id])
      && (id == input.claim ==> RecordStands(c, s[id].meta, s'[id].meta))
      && (id == input.claim && c.pc == Returned(Acceptance) ==> Open(s[id].meta) && s'[id].meta.state.Complete?)
      && (c.cap.Some? ==> c.cap.value > 0.0)
  {
    StartIsAlongside(input, s);
    RunStaysAlongside(Started(input), s, s, env, 0);
    RunRecords(Started(input), s, s, env, 0, id);
  }

  // A rejection for infrastructure failure names a claim that existed.
  lemma FailuresNameClaims(s: Store, input: Input, env: nat -> Choice, id: AtomId)
    requires !IsClaim(s, id)
    ensures
      var s' := Alone(Started(input), s, env, 0).1;
      !IsClaim(s', id) && InfraCount(s', id) == InfraCount(s, id)
  {
    StartIsAlongside(input, s);
    RunStaysAlongside(Started(input), s, s, env, 0);
    RunRecords(Started(input), s, s, env, 0, id);
  }

  // Each write of the run, as the state it found and the state it left.
  function Transitions(c: Call, s: Store, env: nat -> Choice, i: nat): seq<(ClaimState, ClaimState)>
    requires Formed(c)
    decreases StepsLeft(c)
  {
    if !Running(c) then []
    else
      AdvanceStaysFormed(c, s, env(i));
      var (c', e) := Advance(c, s, env(i));
      Prepend(s, e, Transitions(c', Apply(s, e), env, i + 1))
  }

  predicate Documented(a: ClaimState, b: ClaimState) {
    match a
    case Pending => b.Executing? || b.Stalled? || b.Abandoned?
    case Executing => b.Attesting? || b.Stalled? || b.Abandoned?
    case Attesting => b.Complete? || b.Executing? || b.Stalled?
    case Stalled => b.Executing? || b.Abandoned?
    case Complete => false
    case Abandoned => false
  }

  lemma StepFollowsTheGraph(c: Call, s0: Store, s: Store, x: Choice)
    requires Alongside(c, s0, s) && Running(c) && Advance(c, s, x).1.Update?
    ensures
      var e := Advance(c, s, x).1;
      && e.target == c.input.claim
      && IsClaim(s, e.target)
      && (e.meta.state == s[e.target].meta.state || Documented(s[e.target].meta.state, e.meta.state))
  {
  }

  predicate FollowTheGraph(ts: seq<(ClaimState, ClaimState)>) {
    forall t :: t in ts ==> t.0 == t.1 || Documented(t.0, t.1)
  }

  function Prepend(s: Store, e: Effect, rest: seq<(ClaimState, ClaimState)>): seq<(ClaimState, ClaimState)> {
    if e.Update? && IsClaim(s, e.target) then [(s[e.target].meta.state, e.meta.state)] + rest else rest
  }

  lemma PrependFollowsTheGraph(s: Store, e: Effect, rest: seq<(ClaimState, ClaimState)>)
    requires FollowTheGraph(rest)
    requires e.Update? && IsClaim(s, e.target) ==>
      e.meta.state == s[e.target].meta.state || Documented(s[e.target].meta.state, e.meta.state)
    ensures FollowTheGraph(Prepend(s, e, rest))
  {
  }

  lemma StepPrepends(c: Call, s0: Store, s: Store, x: Choice, rest: seq<(ClaimState, ClaimState)>)
    requires Alongside(c, s0, s) && Running(c) && FollowTheGraph(rest)
    ensures FollowTheGraph(Prepend(s, Advance(c, s, x).1, rest))
  {
    var e := Advance(c, s, x).1;
    if e.Update? { StepFollowsTheGraph(c, s0, s, x); }
    PrependFollowsTheGraph(s, e, rest);
  }

  lemma {:induction false} WritesFollowTheGraph(c: Call, s0: Store, s: Store, env: nat -> Choice, i: nat)
    requires Alongside(c, s0, s)
    ensures FollowTheGraph(Transitions(c, s, env, i))
    decreases StepsLeft(c)
  {
    if Running(c) {
      AdvanceTakesAStep(c, s, env(i));
      hide Advance;
      var (c', e) := Advance(c, s, env(i));
      StepStaysAlongside(c, s0, s, env(i));
      WritesFollowTheGraph(c', s0, Apply(s, e), env, i + 1);
      StepPrepends(c, s0, s, env(i), Transitions(c', Apply(s, e), env, i + 1));
    }
  }

  // Whatever store it starts in, an attestation that runs alone moves a claim only along
  // the documented edges, write by write.
  lemma AttestationFollowsTheGraph(s: Store, input: Input, env: nat -> Choice)
    ensures FollowTheGraph(Transitions(Started(input), s, env, 0))
  {
    StartIsAlongside(input, s);
    WritesFollowTheGraph(Started(input), s, s, env, 0);
  }

  // ---- Histories ----

  lemma OneEventKeepsClosed(s: Store, e: Event, id: AtomId)
    requires IsClaim(s, id) && s[id].meta.state in {Complete, Abandoned, Stalled}
    ensures IsClaim(Serve(s, e), id) && Serve(s, e)[id] == s[id]
  {
    if e.Attest? { OneAttestation(s, e.input, e.env, id); }
  }

  // Without the reaper, a claim that is complete, abandoned or stalled never changes again.
  lemma {:induction false} ClosedStaysClosed(s: Store, events: seq<Event>, id: AtomId)
    requires IsClaim(s, id) && s[id].meta.state in {Complete, Abandoned, Stalled}
    ensures IsClaim(ServeAll(s, events), id) && ServeAll(s, events)[id] == s[id]
    decreases |events|
  {
    if events != [] {
      OneEventKeepsClosed(s, events[0], id);
      ClosedStaysClosed(Serve(s, events[0]), events[1..], id);
    }
  }

  predicate Accepts(s: Store, e: Event, id: AtomId) {
    e.Attest? && e.input.claim == id && Alone(Started(e.input), s, e.env, 0).0.pc == Returned(Acceptance)
  }

  function Acceptances(s: Store, events: seq<Event>, id: AtomId): nat
    decreases |events|
  {
    if events == [] then 0
    else (if Accepts(s, events[0], id) then 1 else 0) + Acceptances(Serve(s, events[0]), events[1..], id)
  }

  lemma AcceptanceCompletes(s: Store, e: Event, id: AtomId)
    requires Accepts(s, e, id)
    ensures IsClaim(s, id) && Open(s[id].meta)
    ensures IsClaim(Serve(s, e), id) && Serve(s, e)[id].meta.state.Complete?
  {
    StartIsAlongside(e.input, s);
    RunStaysAlongside(Started(e.input), s, s, e.env, 0);
    OneAttestation(s, e.input, e.env, id);
  }

  lemma {:induction false} CompleteIsNotAcceptedAgain(s: Store, events: seq<Event>, id: AtomId)
    requires IsClaim(s, id) && s[id].meta.state.Complete?
    ensures Acceptances(s, events, id) == 0
    decreases |events|
  {
    if events != [] {
      if Accepts(s, events[0], id) { AcceptanceCompletes(s, events[0], id); }
      OneEventKeepsClosed(s, events[0], id);
      CompleteIsNotAcceptedAgain(Serve(s, events[0]), events[1..], id);
    }
  }

  // A claim is accepted at most once.
  lemma {:induction false} AtMostOneAcceptance(s: Store, events: seq<Event>, id: AtomId)
    ensures Acceptances(s, events, id) <= 1
    decreases |events|
  {
    if events != [] {
      if Accepts(s, events[0], id) {
        AcceptanceCompletes(s, events[0], id);
        CompleteIsNotAcceptedAgain(Serve(s, events[0]), events[1..], id);
      } else {
        AtMostOneAcceptance(Serve(s, events[0]), events[1..], id);
      }
    }
  }

  // ---- Counting and stalling ----

  // Every policy read of the history returns this cap.
  ghost predicate CapThroughout(events: seq<Event>, cap: real) {
    forall j, i: nat :: 0 <= j < |events| && events[j].Attest? ==> events[j].env(i).cap == cap
  }

  lemma StepUsesItsCap(c: Call, s: Store, x: Choice)
    requires Running(c) && Formed(c) && (c.cap.Some? ==> c.cap.value == x.cap)
    ensures var c' := Advance(c, s, x).0;
            Formed(c') && (c'.cap.Some? ==> c'.cap.value == x.cap) && StepsLeft(c') < StepsLeft(c)
  {
    AdvanceStaysFormed(c, s, x);
  }

  lemma {:induction false} RunUsesItsCap(c: Call, s: Store, env: nat -> Choice, i: nat, cap: real)
    requires Formed(c) && (c.cap.Some? ==> c.cap.value == cap)
    requires forall j :: env(j).cap == cap
    ensures Alone(c, s, env, i).0.cap.Some? ==> Alone(c, s, env, i).0.cap.value == cap
    decreases StepsLeft(c)
  {
    if Running(c) {
      StepUsesItsCap(c, s, env(i));
      hide Advance;
      var (c', e) := Advance(c, s, env(i));
      RunUsesItsCap(c', Apply(s, e), env, i + 1, cap);
    }
  }

  predicate AtCap(m: ClaimMeta, cap: real) {
    && (m.state.Stalled? <==> m.failures as real >= cap)
    && (m.state.Complete? ==> m.failures == 0)
  }

  ghost predicate AllAtCap(s: Store, cap: real) {
    forall id :: IsClaim(s, id) ==> AtCap(s[id].meta, cap)
  }

  lemma RecordKeepsCap(c: Call, m0: ClaimMeta, m: ClaimMeta, cap: real)
    requires RecordStands(c, m0, m) && AtCap(m0, cap) && cap > 0.0
    requires m != m0 ==> Open(m0)
    requires c.cap.Some? ==> c.cap.value == cap
    ensures AtCap(m, cap)
  {
  }

  lemma EventKeepsCap(s: Store, e: Event, cap: real)
    requires AllAtCap(s, cap) && cap > 0.0
    requires e.Attest? ==> forall i :: e.env(i).cap == cap
    ensures AllAtCap(Serve(s, e), cap)
  {
    var s' := Serve(s, e);
    forall id | IsClaim(s', id)
      ensures AtCap(s'[id].meta, cap)
    {
      if e.Attest? {
        if IsClaim(s, id) {
          OneAttestation(s, e.input, e.env, id);
          RunUsesItsCap(Started(e.input), s, e.env, 0, cap);
          if id == e.input.claim {
            RecordKeepsCap(Alone(Started(e.input), s, e.env, 0).0, s[id].meta, s'[id].meta, cap);
          }
        } else {
          FailuresNameClaims(s, e.input, e.env, id);
        }
      }
    }
  }

  lemma {:induction false} HistoryKeepsCap(s: Store, events: seq<Event>, cap: real)
    requires AllAtCap(s, cap) && cap > 0.0 && CapThroughout(events, cap)
    ensures AllAtCap(ServeAll(s, events), cap)
    decreases |events|
  {
    if events != [] {
      EventKeepsCap(s, events[0], cap);
      assert forall j :: 0 <= j < |events[1..]| ==> events[1..][j] == events[j + 1];
      HistoryKeepsCap(Serve(s, events[0]), events[1..], cap);
    }
  }

  // In a serial history a claim is stalled exactly when its count has reached the cap.
  lemma StalledExactlyAtCap(events: seq<Event>, cap: real, id: AtomId)
    requires cap > 0.0 && CapThroughout(events, cap)
    requires IsClaim(ServeAll(map[], events), id)
    ensures
      var m := ServeAll(map[], events)[id].meta;
      m.state.Stalled? <==> m.failures as real >= cap
  {
    HistoryKeepsCap(map[], events, cap);
  }

  // Every attestation of the history returned: no store, policy or notifier fault.
  predicate AllReturn(s: Store, events: seq<Event>)
    decreases |events|
  {
    events == [] ||
    (&& (events[0].Attest? ==> Alone(Started(events[0].input), s, events[0].env, 0).0.pc.Returned?)
     && AllReturn(Serve(s, events[0]), events[1..]))
  }

  ghost predicate CountsExact(s: Store) {
    forall id :: CountExactFor(s, id)
  }

  ghost predicate CountExactFor(s: Store, id: AtomId) {
    if IsClaim(s, id) then s[id].meta.state.Complete? || s[id].meta.failures == InfraCount(s, id)
    else InfraCount(s, id) == 0
  }

  lemma DispatchKeepsCount(s: Store, e: Event, id: AtomId)
    requires e.Dispatch? && CountExactFor(s, id)
    ensures CountExactFor(Serve(s, e), id)
  {
    assert InfraRejections(Serve(s, e), id) == InfraRejections(s, id);
  }

  lemma AttestKeepsCount(s: Store, e: Event, id: AtomId)
    requires e.Attest? && CountExactFor(s, id)
    requires Alone(Started(e.input), s, e.env, 0).0.pc.Returned?
    ensures CountExactFor(Serve(s, e), id)
  {
    if IsClaim(s, id) {
      OneAttestation(s, e.input, e.env, id);
      AttestationCounts(s, e.input, e.env, id);
    } else {
      FailuresNameClaims(s, e.input, e.env, id);
    }
  }

  lemma EventKeepsCounts(s: Store, e: Event)
    requires CountsExact(s)
    requires e.Attest? ==> Alone(Started(e.input), s, e.env, 0).0.pc.Returned?
    ensures CountsExact(Serve(s, e))
  {
    forall id
      ensures CountExactFor(Serve(s, e), id)
    {
      assert CountExactFor(s, id);
      if e.Dispatch? { DispatchKeepsCount(s, e, id); } else { AttestKeepsCount(s, e, id); }
    }
  }

  // An attestation that returns adds to the count what it adds to the record.
  lemma AttestationCounts(s: Store, input: Input, env: nat -> Choice, id: AtomId)
    requires IsClaim(s, id) && Alone(Started(input), s, env, 0).0.pc.Returned?
    ensures
      var (c, s') := Alone(Started(input), s, env, 0);
      && IsClaim(s', id)
      && (s'[id].meta.state.Complete? || s'[id].meta.failures == s[id].meta.failures + Recorded(c, id))
  {
    OneAttestation(s, input, env, id);
    StartIsAlongside(input, s);
    RunStaysAlongside(Started(input), s, s, env, 0);
  }

  lemma {:induction false} HistoryKeepsCounts(s: Store, events: seq<Event>)
    requires CountsExact(s) && AllReturn(s, events)
    ensures CountsExact(ServeAll(s, events))
    decreases |events|
  {
    if events != [] {
      EventKeepsCounts(s, events[0]);
      HistoryKeepsCounts(Serve(s, events[0]), events[1..]);
    }
  }

  // Until a claim is accepted, its count is exactly the failures on record.
  lemma CountIsExact(events: seq<Event>, id: AtomId)
    requires AllReturn(map[], events) && IsClaim(ServeAll(map[], events), id)
    ensures
      var s := ServeAll(map[], events);
      s[id].meta.state.Complete? || s[id].meta.failures == InfraCount(s, id)
  {
    assert forall id :: InfraRejections(map[], id) == {};
    HistoryKeepsCounts(map[], events);
    assert CountExactFor(ServeAll(map[], events), id);
  }

  // ---- Dispatch composed with attestation ----

  lemma {:induction false} HistoryHonours(s: Store, events: seq<Event>, p: Preamble)
    requires Honours(s, p)
    ensures Honours(ServeAll(s, events), p)
    decreases |events|
  {
    if events != [] {
      if events[0].Attest? { OneAttestation(s, events[0].input, events[0].env, p.claim); }
      HistoryHonours(Serve(s, events[0]), events[1..], p);
    }
  }

  lemma OpenGatesLeadToVerifier(s: Store, input: Input, env: nat -> Choice)
    requires IsClaim(s, input.claim) && GatePassed(input, s[input.claim].meta)
    requires !env(0).stop && env(4).cap > 0.0
    requires forall i :: 0 <= i <= 5 ==> !env(i).fault
    ensures Alone(Started(input), s, env, 0).0.verdict == Some(env(5).verdict)
  {
    var m := s[input.claim].meta;
    var c0 := Started(input);
    var c1 := c0.(pc := Lookup);
    var c2 := c1.(pc := ReadLatest(Flip), snap := Some(m));
    var c3 := c2.(pc := WriteLatest(Flip, m));
    var s4 := s[input.claim := WorkClaim(m.(state := Attesting))];
    var c4 := c3.(pc := ResolvePolicies);
    var c5 := c4.(pc := Verifying, cap := Some(env(4).cap));
    assert Alone(c0, s, env, 0) == Alone(c1, s, env, 1);
    assert Alone(c1, s, env, 1) == Alone(c2, s, env, 2);
    assert Alone(c2, s, env, 2) == Alone(c3, s, env, 3);
    assert Alone(c3, s, env, 3) == Alone(c4, s4, env, 4);
    assert Alone(c4, s4, env, 4) == Alone(c5, s4, env, 5);
    AnswerIsKept(c5, s4, env);
  }

  lemma AnswerIsKept(c: Call, s: Store, env: nat -> Choice)
    requires Formed(c) && c.pc == Verifying && !env(5).fault
    ensures Alone(c, s, env, 5).0.verdict == Some(env(5).verdict)
  {
    AdvanceStaysFormed(c, s, env(5));
    var c' := Advance(c, s, env(5)).0;
    VerdictIsKept(c', s, env, 6);
  }

  lemma {:induction false} VerdictIsKept(c: Call, s: Store, env: nat -> Choice, i: nat)
    requires Formed(c) && (Settling(c) || !Running(c))
    ensures Alone(c, s, env, i).0.verdict == c.verdict
    decreases StepsLeft(c)
  {
    if Running(c) {
      AdvanceStaysFormed(c, s, env(i));
      var (c', e) := Advance(c, s, env(i));
      VerdictIsKept(c', Apply(s, e), env, i + 1);
    }
  }

  // After any serial history since its dispatch, an attestation that echoes the preamble
  // reaches the verifier whenever STOP is off, nothing faults on the way and the claim is
  // executing or attesting.
  lemma EchoReachesVerifier(s: Store, p: Preamble, events: seq<Event>, env: nat -> Choice)
    requires Honours(s, p)
    requires IsClaim(ServeAll(s, events), p.claim) && Open(ServeAll(s, events)[p.claim].meta)
    requires !env(0).stop && env(4).cap > 0.0
    requires forall i :: 0 <= i <= 5 ==> !env(i).fault
    ensures Alone(Started(Echo(p)), ServeAll(s, events), env, 0).0.verdict == Some(env(5).verdict)
  {
    HistoryHonours(s, events, p);
    OpenGatesLeadToVerifier(ServeAll(s, events), Echo(p), env);
  }

  // ---- Serial runs are runs ----

  function RunSteps(k: nat, env: nat -> Choice, i: nat, n: nat): seq<Step>
    decreases n
  {
    if n == 0 then [] else [Run(k, env(i))] + RunSteps(k, env, i + 1, n - 1)
  }

  lemma AdvanceTakesAStep(c: Call, s: Store, x: Choice)
    requires Running(c) && Formed(c)
    ensures StepsLeft(Advance(c, s, x).0) < StepsLeft(c)
  {
  }

  // A call that runs alone is an interleaved run in which only that call steps.
  lemma {:induction false} AloneIsARun(s: Sys, k: nat, env: nat -> Choice, i: nat, n: nat)
    requires k in s.calls && Formed(s.calls[k]) && n >= StepsLeft(s.calls[k])
    ensures
      var (c, store) := Alone(s.calls[k], s.store, env, i);
      ExecFrom(s, RunSteps(k, env, i, n)) == s.(store := store, calls := s.calls[k := c])
    decreases n
  {
    hide Advance;
    var c := s.calls[k];
    if n == 0 {
      assert s.calls[k := c] == s.calls;
    } else {
      var steps := RunSteps(k, env, i, n);
      assert steps[1..] == RunSteps(k, env, i + 1, n - 1);
      var s' := Next(s, Run(k, env(i)));
      if Running(c) {
        AdvanceStaysFormed(c, s.store, env(i));
        AdvanceTakesAStep(c, s.store, env(i));
        AloneIsARun(s', k, env, i + 1, n - 1);
        var (c1, store1) := Alone(s'.calls[k], s'.store, env, i + 1);
        assert s'.(store := store1, calls := s'.calls[k := c1]) == s.(store := store1, calls := s.calls[k := c1]);
      } else {
        assert s' == s;
        AloneIsARun(s, k, env, i + 1, n - 1);
      }
    }
  }
}
