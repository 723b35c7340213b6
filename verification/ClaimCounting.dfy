// Exactly when a claim's failure count equals its failures on record, whatever else interleaves.

module ClaimCounting {
  import opened Prelude
  import opened ClaimProtocol
  import opened ClaimRuns
  import opened ClaimInvariant
  import opened ClaimTheorems
  import opened ClaimHistories

  // ---- Calls on one claim that do not overlap ----

  // The call passed the gates of the claim and has yet to make its last write to it.
  predicate Busy(c: Call, id: AtomId) { c.input.claim == id && PastGates(c) && !c.pc.PutStalled? }

  ghost predicate NoneBusy(s: Sys, id: AtomId) { forall k :: k in s.calls ==> !Busy(s.calls[k], id) }

  // No two calls are busy with the claim, none faulted with an uncounted failure on record, and the
  // reaper has left the claim alone.
  ghost predicate Calm(s: Sys, id: AtomId) {
    && id !in s.reaped
    && (forall j, k :: j in s.calls && k in s.calls && Busy(s.calls[j], id) && Busy(s.calls[k], id) ==> j == k)
    && (forall k :: k in s.calls && s.calls[k].pc.Failed? ==> Recorded(s.calls[k], id) == 0)
  }

  ghost predicate CalmRun(s: Sys, steps: seq<Step>, id: AtomId)
    decreases |steps|
  {
    Calm(s, id) && (steps == [] || CalmRun(Next(s, steps[0]), steps[1..], id))
  }

  // The busy call has seen the count the record still holds.
  predicate UpToDate(c: Call, m: ClaimMeta) {
    && c.snap.Some? && c.snap.value.failures == m.failures && Open(m)
    && (c.pc.WriteLatest? ==> c.pc.latest.failures == m.failures)
  }

  // The record's count is the failures on record, less one the busy call has recorded but not counted.
  ghost predicate Counted(s: Sys, id: AtomId) {
    if IsClaim(s.store, id) then
      var m := s.store[id].meta;
      && (id in s.activating ==> m.state.Pending?)
      && (m.state.Pending? ==> m.failures == 0 && InfraCount(s.store, id) == 0)
      && (forall k :: k in s.calls && Busy(s.calls[k], id) ==> CountsWith(s, id, k))
      && (NoneBusy(s, id) ==> m.state.Complete? || m.failures == InfraCount(s.store, id))
    else
      InfraCount(s.store, id) == 0 && NoneBusy(s, id) && id !in s.activating
  }

  predicate CountsWith(s: Sys, id: AtomId, k: nat)
    requires IsClaim(s.store, id) && k in s.calls
  {
    && UpToDate(s.calls[k], s.store[id].meta)
    && InfraCount(s.store, id) == s.store[id].meta.failures + Recorded(s.calls[k], id)
  }

  // ---- One step of one call ----

  lemma OtherClaimsCallStep(c: Call, s: Store, x: Choice, id: AtomId)
    requires PcOk(c) && Running(c) && (c.pc.WriteLatest? ==> IsClaim(s, c.input.claim)) && c.input.claim != id
    ensures
      var (c', e) := Advance(c, s, x);
      && c'.input == c.input
      && (IsClaim(Apply(s, e), id) <==> IsClaim(s, id))
      && (IsClaim(s, id) ==> Apply(s, e)[id] == s[id])
      && InfraCount(Apply(s, e), id) == InfraCount(s, id)
  {
    StepCounts(c, s, x, id);
    StepTouches(c, s, x, id);
  }

  lemma StepTouches(c: Call, s: Store, x: Choice, id: AtomId)
    requires PcOk(c) && Running(c) && (c.pc.WriteLatest? ==> IsClaim(s, c.input.claim)) && c.input.claim != id
    ensures
      var (c', e) := Advance(c, s, x);
      && c'.input == c.input
      && (IsClaim(Apply(s, e), id) <==> IsClaim(s, id))
      && (IsClaim(s, id) ==> Apply(s, e)[id] == s[id])
  {
  }

  // A call that is not busy leaves the record alone; if it becomes busy, it is up to date.
  lemma QuietCallStep(c: Call, s: Store, x: Choice, id: AtomId)
    requires PcOk(c) && Running(c) && c.input.claim == id && !Busy(c, id)
    ensures
      var (c', e) := Advance(c, s, x);
      && c'.input == c.input
      && (IsClaim(Apply(s, e), id) <==> IsClaim(s, id))
      && (IsClaim(s, id) ==> Apply(s, e)[id] == s[id])
      && InfraCount(Apply(s, e), id) == InfraCount(s, id)
      && (Busy(c', id) ==> IsClaim(s, id) && UpToDate(c', s[id].meta) && Recorded(c', id) == 0)
  {
    StepCounts(c, s, x, id);
    QuietStepTouches(c, s, x, id);
  }

  lemma QuietStepTouches(c: Call, s: Store, x: Choice, id: AtomId)
    requires PcOk(c) && Running(c) && c.input.claim == id && !Busy(c, id)
    ensures
      var (c', e) := Advance(c, s, x);
      && c'.input == c.input
      && (IsClaim(Apply(s, e), id) <==> IsClaim(s, id))
      && (IsClaim(s, id) ==> Apply(s, e)[id] == s[id])
      && Recorded(c', id) == Recorded(c, id)
      && (Busy(c', id) ==> IsClaim(s, id) && UpToDate(c', s[id].meta) && Recorded(c', id) == 0)
  {
  }

  // A busy call that is up to date stays so until its last write, which makes the count exact.
  lemma BusyCallStep(c: Call, s: Store, x: Choice, id: AtomId)
    requires PcOk(c) && Running(c) && Busy(c, id) && IsClaim(s, id) && UpToDate(c, s[id].meta)
    requires InfraCount(s, id) == s[id].meta.failures + Recorded(c, id)
    ensures
      var (c', e) := Advance(c, s, x);
      var s' := Apply(s, e);
      && c'.input == c.input
      && IsClaim(s', id) && !s'[id].meta.state.Pending?
      && (Busy(c', id) ==>
            UpToDate(c', s'[id].meta) && InfraCount(s', id) == s'[id].meta.failures + Recorded(c', id))
      && (!Busy(c', id) && !(c'.pc.Failed? && Recorded(c', id) == 1) ==>
            s'[id].meta.state.Complete? || s'[id].meta.failures == InfraCount(s', id))
  {
    StepCounts(c, s, x, id);
    BusyStepWrites(c, s, x, id);
  }

  lemma BusyStepWrites(c: Call, s: Store, x: Choice, id: AtomId)
    requires PcOk(c) && Running(c) && Busy(c, id) && IsClaim(s, id) && UpToDate(c, s[id].meta)
    ensures
      var (c', e) := Advance(c, s, x);
      var s' := Apply(s, e);
      && c'.input == c.input
      && IsClaim(s', id) && !s'[id].meta.state.Pending?
      && (Busy(c', id) ==> UpToDate(c', s'[id].meta) && s'[id].meta.failures == s[id].meta.failures)
      && (!Busy(c', id) && !c'.pc.Failed? ==>
            && Recorded(c', id) == Recorded(c, id)
            && (s'[id].meta.state.Complete? || s'[id].meta.failures == s[id].meta.failures + Recorded(c, id)))
      && (c'.pc.Failed? ==> s' == s && Recorded(c', id) == Recorded(c, id))
  {
  }

  // ---- Every step of a calm run ----

  lemma RunKeepsCounted(s: Sys, k: nat, x: Choice, id: AtomId)
    requires CanRun(s, k) && ClaimsOk(s) && Counted(s, id) && Calm(s, id) && Calm(Next(s, Run(k, x)), id)
    ensures Counted(Next(s, Run(k, x)), id)
  {
    var c, s' := s.calls[k], Next(s, Run(k, x));
    var (c', e) := Advance(c, s.store, x);
    assert c.pc.WriteLatest? ==> IsClaim(s.store, c.input.claim);
    assert Formed(c);
    if c.input.claim != id {
      OtherClaimsCallStep(c, s.store, x, id);
    } else if Busy(c, id) {
      BusyCallStep(c, s.store, x, id);
    } else {
      QuietCallStep(c, s.store, x, id);
    }
    hide Advance;
    hide CallOk;
    hide ClaimsOk;
    StillCounted(s, s', k, c', e, id);
  }

  lemma StillCounted(s: Sys, s': Sys, k: nat, c': Call, e: Effect, id: AtomId)
    requires Counted(s, id) && Calm(s, id) && Calm(s', id) && k in s.calls && Running(s.calls[k])
    requires s' == s.(store := Apply(s.store, e), calls := s.calls[k := c']) && c'.input == s.calls[k].input
    requires c'.input.claim != id || !Busy(s.calls[k], id) ==>
      && (IsClaim(s'.store, id) <==> IsClaim(s.store, id))
      && (IsClaim(s.store, id) ==> s'.store[id] == s.store[id])
      && InfraCount(s'.store, id) == InfraCount(s.store, id)
      && (Busy(c', id) ==> IsClaim(s.store, id) && UpToDate(c', s.store[id].meta) && Recorded(c', id) == 0)
    requires Busy(s.calls[k], id) ==>
      && IsClaim(s'.store, id) && !s'.store[id].meta.state.Pending?
      && (Busy(c', id) ==> CountsWith(s', id, k))
      && (!Busy(c', id) && !(c'.pc.Failed? && Recorded(c', id) == 1) ==>
            s'.store[id].meta.state.Complete? || s'.store[id].meta.failures == InfraCount(s'.store, id))
    ensures Counted(s', id)
  {
    hide InfraRejections;
    assert s'.calls[k] == c' && forall j :: j in s.calls && j != k ==> s'.calls[j] == s.calls[j];
    if Busy(s.calls[k], id) {
      assert forall j :: j in s.calls && j != k ==> !Busy(s.calls[j], id);
      assert c'.pc.Failed? ==> Recorded(s'.calls[k], id) == 0;
      assert NoneBusy(s', id) ==> !Busy(s'.calls[k], id);
    } else if IsClaim(s.store, id) {
      if Busy(c', id) {
        assert Busy(s'.calls[k], id);
        forall j | j in s.calls
          ensures !Busy(s.calls[j], id)
        {
          assert j != k ==> s'.calls[j] == s.calls[j];
        }
        assert NoneBusy(s, id);
      } else if NoneBusy(s', id) {
        assert NoneBusy(s, id);
      }
    }
  }

  lemma NextKeepsCounted(s: Sys, step: Step, id: AtomId)
    requires Inv(s) && Counted(s, id) && Calm(s, id) && Calm(Next(s, step), id)
    ensures Counted(Next(s, step), id)
  {
    if step.Run? {
      if Enabled(s, step) {
        assert CallOk(s, s.calls[step.call]);
        RunKeepsCounted(s, step.call, step.choice, id);
      }
    } else {
      OtherStepKeepsCounted(s, step, id);
    }
  }

  lemma ForeignAtomsDoNotCount(s: Store, id: AtomId, atom: Atom, claim: AtomId)
    requires (id !in s || !InfraAtom(s[id], claim)) && !InfraAtom(atom, claim)
    ensures InfraCount(s[id := atom], claim) == InfraCount(s, claim)
  {
    assert InfraRejections(s[id := atom], claim) == InfraRejections(s, claim);
  }

  // Nothing that the claim's count depends on has changed.
  lemma UntouchedStaysCounted(s: Sys, s': Sys, id: AtomId)
    requires Counted(s, id)
    requires IsClaim(s'.store, id) <==> IsClaim(s.store, id)
    requires IsClaim(s.store, id) ==> s'.store[id] == s.store[id]
    requires InfraCount(s'.store, id) == InfraCount(s.store, id)
    requires id in s'.activating ==> id in s.activating
    requires forall k :: k in s.calls ==> k in s'.calls && s'.calls[k] == s.calls[k]
    requires forall k :: k in s'.calls && k !in s.calls ==> !Busy(s'.calls[k], id)
    ensures Counted(s', id)
  {
    assert NoneBusy(s', id) ==> NoneBusy(s, id);
  }

  lemma OtherAtomWritten(s: Sys, s': Sys, a: AtomId, atom: Atom, id: AtomId)
    requires Counted(s, id) && s' == s.(store := s.store[a := atom], minted := s'.minted,
                                        activating := s'.activating, reaped := s'.reaped)
    requires a in s.store ==> !InfraAtom(s.store[a], id)
    requires !InfraAtom(atom, id) && (a == id ==> a !in s.store && !atom.WorkClaim?)
    requires id in s'.activating ==> id in s.activating
    ensures Counted(s', id)
  {
    ForeignAtomsDoNotCount(s.store, a, atom, id);
    UntouchedStaysCounted(s, s', id);
  }

  lemma MintKeepsCounted(s: Sys, step: Step, id: AtomId)
    requires Counted(s, id) && step.Mint? && Enabled(s, step)
    ensures Counted(Next(s, step), id)
  {
    var s' := Next(s, step);
    if step.id == id {
      ForeignAtomsDoNotCount(s.store, id, s'.store[id], id);
    } else {
      OtherAtomWritten(s, s', step.id, s'.store[step.id], id);
    }
  }

  lemma ActivateKeepsCounted(s: Sys, step: Step, id: AtomId)
    requires ClaimsOk(s) && Counted(s, id) && step.Activate? && Enabled(s, step)
    ensures Counted(Next(s, step), id)
  {
    var s' := Next(s, step);
    assert IsClaim(s.store, step.claim);
    if step.claim == id {
      ForeignAtomsDoNotCount(s.store, id, s'.store[id], id);
    } else {
      OtherAtomWritten(s, s', step.claim, s'.store[step.claim], id);
    }
  }

  lemma OtherStepKeepsCounted(s: Sys, step: Step, id: AtomId)
    requires Inv(s) && !step.Run? && Counted(s, id) && Calm(Next(s, step), id)
    ensures Counted(Next(s, step), id)
  {
    if Enabled(s, step) {
      hide Counted;
      hide Inv;
      match step
      case Mint(a, token, principal, brief, tier, parent) => MintKeepsCounted(s, step, id);
      case Activate(a) =>
        assert ClaimsOk(s) by { ClaimsAreOk(s); }
        ActivateKeepsCounted(s, step, id);
      case Reap(a, move) => OtherAtomWritten(s, Next(s, step), a, Next(s, step).store[a], id);
      case PutForeign(a) => OtherAtomWritten(s, Next(s, step), a, Foreign, id);
      case Begin(k, input) =>
        assert !Busy(Started(input), id);
        UntouchedStaysCounted(s, Next(s, step), id);
    }
  }

  lemma ClaimsAreOk(s: Sys)
    requires Inv(s)
    ensures ClaimsOk(s)
  {
  }

  lemma {:induction false} CalmRunsCount(s: Sys, steps: seq<Step>, id: AtomId)
    requires Inv(s) && Counted(s, id) && CalmRun(s, steps, id)
    ensures Counted(ExecFrom(s, steps), id)
    decreases |steps|
  {
    if steps != [] {
      NextKeepsCounted(s, steps[0], id);
      NextKeepsInv(s, steps[0]);
      CalmRunsCount(Next(s, steps[0]), steps[1..], id);
    }
  }

  // If no two calls ever overlap on a claim past its gates, none faults with a failure uncounted and
  // the reaper leaves it alone, the claim's count is exact whenever no call is busy with it, until it
  // completes; calls on other claims, refused calls and foreign writes may interleave anywhere.
  lemma CountIsExactWithoutOverlap(steps: seq<Step>, id: AtomId)
    requires CalmRun(Initial, steps, id) && IsClaim(Exec(steps).store, id) && NoneBusy(Exec(steps), id)
    ensures
      var s := Exec(steps);
      s.store[id].meta.state.Complete? || s.store[id].meta.failures == InfraCount(s.store, id)
  {
    InvHolds([]);
    assert Exec([]) == Initial;
    assert InfraRejections(Initial.store, id) == {};
    CalmRunsCount(Initial, steps, id);
  }
}
