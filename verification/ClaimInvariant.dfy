// The invariant of ClaimRuns holds in every reachable state, and what follows from it.

module ClaimInvariant {
  import opened Prelude
  import opened ClaimProtocol
  import opened ClaimRuns

  // ---- One call advancing ----

  predicate CanRun(s: Sys, k: nat) { k in s.calls && Running(s.calls[k]) && CallOk(s, s.calls[k]) }

  lemma RunGrows(s: Sys, k: nat, x: Choice)
    requires CanRun(s, k) && ClaimsOk(s)
    ensures Grows(s, Next(s, Run(k, x)))
  {
    PutsAreAudits(s.calls[k], s.store, x);
    if Advance(s.calls[k], s.store, x).1.Update? {
      UpdatesKeepTarget(s.calls[k], s.store, x);
      assert IsClaim(s.store, s.calls[k].input.claim);
    }
    hide Advance;
    hide MetaOk;
    hide PcOk;
    hide AuditFor;
  }

  lemma UpdatesKeepTarget(c: Call, s: Store, x: Choice)
    requires PcOk(c) && Running(c) && Advance(c, s, x).1.Update?
    ensures Advance(c, s, x).1.target == c.input.claim && c.snap.Some?
  {
  }

  // A record the call writes keeps its terms and its count below the failures on record.
  lemma UpdateIsOk(s: Sys, k: nat, x: Choice)
    requires CanRun(s, k) && ClaimsOk(s)
    requires Advance(s.calls[k], s.store, x).1.Update?
    ensures MetaOk(s, s.calls[k].input.claim, Advance(s.calls[k], s.store, x).1.meta)
    ensures Advance(s.calls[k], s.store, x).1.target == s.calls[k].input.claim
  {
  }

  lemma AdvanceKeepsPc(c: Call, s: Store, x: Choice)
    requires PcOk(c) && Running(c)
    ensures PcOk(Advance(c, s, x).0)
  {
  }

  lemma StepsThatRead(c: Call, s: Store, x: Choice)
    requires PcOk(c) && Running(c)
    ensures
      var c' := Advance(c, s, x).0;
      && c'.input == c.input
      && (c'.snap != c.snap ==>
            && IsClaim(s, c.input.claim)
            && c'.snap == Some(s[c.input.claim].meta)
            && GatePassed(c.input, s[c.input.claim].meta))
      && (c'.pc.WriteLatest? ==> IsClaim(s, c.input.claim) && c'.pc.latest == s[c.input.claim].meta)
  {
  }

  lemma RunKeepsRecords(s: Sys, k: nat, x: Choice)
    requires CanRun(s, k) && ClaimsOk(s)
    ensures
      var c := Advance(s.calls[k], s.store, x).0;
      && (c.snap.Some? ==> MetaOk(s, c.input.claim, c.snap.value) && GatePassed(c.input, c.snap.value))
      && (c.pc.WriteLatest? ==> MetaOk(s, c.input.claim, c.pc.latest))
  {
    StepsThatRead(s.calls[k], s.store, x);
  }

  // The atom a call has written, or writes in this step, is the one it should write.
  lemma AuditStaysRight(c: Call, s: Store, x: Choice, a: Atom)
    requires PcOk(c) && Running(c) && c.audit.Some? && AuditFor(c, a)
    ensures Advance(c, s, x).0.audit == c.audit && AuditFor(Advance(c, s, x).0, a)
  {
  }

  lemma NewAuditIsRight(c: Call, s: Store, x: Choice)
    requires PcOk(c) && Running(c) && c.audit.None?
    ensures
      var (c', e) := Advance(c, s, x);
      c'.audit.Some? ==> e.Put? && e.id == c'.audit.value && AuditFor(c', e.atom)
  {
  }

  lemma RunKeepsAudit(s: Sys, k: nat, x: Choice)
    requires CanRun(s, k) && ClaimsOk(s)
    ensures
      var (c, e) := Advance(s.calls[k], s.store, x);
      var store := Apply(s.store, e);
      c.audit.Some? ==> c.audit.value in store && AuditFor(c, store[c.audit.value])
  {
    var c := s.calls[k];
    RunGrows(s, k, x);
    if c.audit.Some? {
      AuditStaysRight(c, s.store, x, s.store[c.audit.value]);
    } else {
      NewAuditIsRight(c, s.store, x);
    }
  }

  // The verdict is judged a failure before its rejection goes on record, and the
  // snapshot was taken earlier still.
  lemma StepsThatRecord(c: Call, s: Store, x: Choice)
    requires PcOk(c) && Running(c)
    ensures
      var (c', e) := Advance(c, s, x);
      c'.audit.Some? && c'.verdict.Some? && Judge(c'.verdict.value).Infra? ==>
        && c'.snap.Some?
        && c'.snap == c.snap
        && c'.input == c.input
        && ((c.audit == c'.audit && c.verdict == c'.verdict)
            || (e.Put? && e.id !in s && InfraAtom(e.atom, c.input.claim)))
  {
  }

  lemma RunKeepsCount(s: Sys, k: nat, x: Choice)
    requires CanRun(s, k) && ClaimsOk(s)
    ensures
      var (c, e) := Advance(s.calls[k], s.store, x);
      var store := Apply(s.store, e);
      c.audit.Some? && c.verdict.Some? && Judge(c.verdict.value).Infra? ==>
        c.snap.Some? && c.snap.value.failures + 1 <= InfraCount(store, c.input.claim)
  {
    var c := s.calls[k];
    var (c', e) := Advance(c, s.store, x);
    StepsThatRecord(c, s.store, x);
    RunGrows(s, k, x);
    CountNeverDrops(s.store, Apply(s.store, e), c.input.claim);
    if c'.audit.Some? && c'.verdict.Some? && Judge(c'.verdict.value).Infra? && !(c.audit == c'.audit && c.verdict == c'.verdict) {
      RecordingCountsOne(s.store, e.id, e.atom, c.input.claim);
    }
  }

  lemma RunKeepsStallNote(s: Sys, k: nat, x: Choice)
    requires CanRun(s, k) && ClaimsOk(s)
    ensures
      var (c, e) := Advance(s.calls[k], s.store, x);
      var store := Apply(s.store, e);
      c.stallNote.Some? ==>
        && c.snap.Some?
        && c.stallNote.value in store
        && store[c.stallNote.value] ==
           StallNote(c.input.claim, c.input.caller, c.snap.value.recoveryAttempts, c.snap.value.failures + 1)
  {
  }

  lemma RunKeepsCall(s: Sys, k: nat, x: Choice)
    requires CanRun(s, k) && ClaimsOk(s)
    ensures CallOk(Next(s, Run(k, x)), Next(s, Run(k, x)).calls[k])
  {
    var c := Advance(s.calls[k], s.store, x).0;
    var s' := Next(s, Run(k, x));
    RunGrows(s, k, x);
    AdvanceKeepsPc(s.calls[k], s.store, x);
    RunKeepsRecords(s, k, x);
    if c.snap.Some? { MetaStaysOk(s, s', c.input.claim, c.snap.value); }
    if c.pc.WriteLatest? { MetaStaysOk(s, s', c.input.claim, c.pc.latest); }
    RunKeepsAudit(s, k, x);
    RunKeepsCount(s, k, x);
    RunKeepsStallNote(s, k, x);
  }

  lemma RunKeepsCalls(s: Sys, k: nat, x: Choice)
    requires CanRun(s, k) && CallsOk(s) && ClaimsOk(s)
    ensures CallsOk(Next(s, Run(k, x)))
  {
    var s' := Next(s, Run(k, x));
    RunGrows(s, k, x);
    forall j | j in s'.calls
      ensures CallOk(s', s'.calls[j])
    {
      if j == k { RunKeepsCall(s, k, x); } else { CallStaysOk(s, s', s.calls[j]); }
    }
  }

  lemma RunKeepsClaims(s: Sys, k: nat, x: Choice)
    requires CanRun(s, k) && ClaimsOk(s)
    ensures ClaimsOk(Next(s, Run(k, x)))
  {
    var s' := Next(s, Run(k, x));
    var e := Advance(s.calls[k], s.store, x).1;
    RunGrows(s, k, x);
    if e.Update? { UpdateIsOk(s, k, x); }
    forall id | IsClaim(s'.store, id)
      ensures MetaOk(s', id, s'.store[id].meta)
    {
      MetaStaysOk(s, s', id, s'.store[id].meta);
    }
  }

  // Once a call has its audit atom, its later steps leave its history alone.
  lemma HistoryIsFinal(c: Call, s: Store, x: Choice)
    requires PcOk(c) && Running(c)
    ensures
      var c' := Advance(c, s, x).0;
      && c'.input == c.input
      && (c.audit.Some? ==> c'.snap == c.snap && c'.cap == c.cap && c'.verdict == c.verdict && c'.audit == c.audit)
      && (c.pc.PutStalled? ==> c'.pc.Failed? || c'.stallNote.Some?)
  {
  }

  // What an update that completes or stalls a claim says about the call writing it.
  lemma UpdateHasCause(s: Sys, k: nat, x: Choice)
    requires CanRun(s, k)
    requires Advance(s.calls[k], s.store, x).1.Update?
    ensures
      var (c, e) := Advance(s.calls[k], s.store, x);
      && c.snap.Some?
      && (e.meta.state.Complete? ==>
            && c.audit.Some? && c.verdict.Some? && c.verdict.value.Confirmed?
            && c.audit.value in s.store
            && s.store[c.audit.value] == Accepted(c.input.claim, c.input.caller, c.verdict.value.observed))
      && (e.meta.state.Stalled? ==>
            && c.pc.PutStalled?
            && c.cap.Some? && c.cap.value <= e.meta.failures as real
            && c.verdict.Some? && Judge(c.verdict.value).Infra?
            && c.audit.Some? && c.audit.value in s.store && InfraAtom(s.store[c.audit.value], c.input.claim))
  {
    HistoryIsFinal(s.calls[k], s.store, x);
    OnlySettlingCloses(s.calls[k], s.store, x);
    hide Advance;
  }

  // Only the closing update completes or stalls a claim, over the audit atom already written.
  lemma OnlySettlingCloses(c: Call, s: Store, x: Choice)
    requires PcOk(c) && Running(c) && Advance(c, s, x).1.Update?
    ensures
      var (c', e) := Advance(c, s, x);
      && c.audit == c'.audit && c.verdict == c'.verdict && c.snap.Some? && c'.snap == c.snap && c'.cap == c.cap
      && (e.meta.state.Complete? ==> c.audit.Some? && c.verdict.Some? && c.verdict.value.Confirmed?)
      && (e.meta.state.Stalled? ==>
            && c'.pc.PutStalled? && c.audit.Some? && c.verdict.Some? && Judge(c.verdict.value).Infra?
            && c.cap.Some? && c.cap.value <= e.meta.failures as real)
  {
  }

  predicate SameHistory(c: Call, c': Call) {
    c'.input == c.input && c'.snap == c.snap && c'.cap == c.cap && c'.verdict == c.verdict && c'.audit == c.audit
  }

  lemma AcceptanceStays(s: Sys, s': Sys, j: nat, id: AtomId)
    requires AcceptedBy(s, j, id) && Extends(s.store, s'.store)
    requires j in s'.calls && SameHistory(s.calls[j], s'.calls[j])
    ensures AcceptedBy(s', j, id)
  {
  }

  lemma CompletingCallIsAccepted(s: Sys, k: nat, x: Choice)
    requires CanRun(s, k) && ClaimsOk(s)
    requires
      var e := Advance(s.calls[k], s.store, x).1;
      e.Update? && e.meta.state.Complete?
    ensures AcceptedBy(Next(s, Run(k, x)), k, s.calls[k].input.claim)
  {
    UpdateHasCause(s, k, x);
    HistoryIsFinal(s.calls[k], s.store, x);
    RunKeepsCall(s, k, x);
  }

  lemma RunKeepsAcceptance(s: Sys, k: nat, x: Choice, j: nat, id: AtomId)
    requires CanRun(s, k) && ClaimsOk(s) && AcceptedBy(s, j, id)
    ensures AcceptedBy(Next(s, Run(k, x)), j, id)
  {
    RunGrows(s, k, x);
    HistoryIsFinal(s.calls[k], s.store, x);
    AcceptanceStays(s, Next(s, Run(k, x)), j, id);
  }

  // A claim that is complete after the step was completed by it or was complete before.
  lemma RunCompletes(s: Sys, k: nat, x: Choice, id: AtomId)
    requires CanRun(s, k) && ClaimsOk(s)
    requires var s' := Next(s, Run(k, x)); IsClaim(s'.store, id) && s'.store[id].meta.state.Complete?
    ensures
      var e := Advance(s.calls[k], s.store, x).1;
      if e.Update? && e.target == id then e.meta.state.Complete? && s.calls[k].input.claim == id
      else IsClaim(s.store, id) && s.store[id].meta.state.Complete?
  {
    var e := Advance(s.calls[k], s.store, x).1;
    if e.Update? { UpdateIsOk(s, k, x); }
    PutsAreAudits(s.calls[k], s.store, x);
    hide Advance;
    hide MetaOk;
    hide CallOk;
  }

  lemma PutsAreAudits(c: Call, s: Store, x: Choice)
    requires PcOk(c) && Running(c)
    ensures var e := Advance(c, s, x).1; e.Put? ==> e.id !in s && !e.atom.WorkClaim?
  {
  }

  lemma RunKeepsCompletions(s: Sys, k: nat, x: Choice)
    requires CanRun(s, k) && ClaimsOk(s) && CompletionsOk(s)
    ensures CompletionsOk(Next(s, Run(k, x)))
  {
    var s' := Next(s, Run(k, x));
    var e := Advance(s.calls[k], s.store, x).1;
    hide Advance;
    hide Next;
    hide CallOk;
    hide ClaimsOk;
    hide AcceptedBy;
    forall id | IsClaim(s'.store, id) && s'.store[id].meta.state.Complete?
      ensures exists j :: AcceptedBy(s', j, id)
    {
      RunCompletes(s, k, x, id);
      if e.Update? && e.target == id {
        CompletingCallIsAccepted(s, k, x);
      } else {
        var j :| AcceptedBy(s, j, id);
        RunKeepsAcceptance(s, k, x, j, id);
      }
    }
  }

  lemma RunKeepsStall(s: Sys, k: nat, x: Choice, j: nat, id: AtomId, failures: nat)
    requires CanRun(s, k) && StalledBy(s, j, id, failures)
    ensures StalledBy(Next(s, Run(k, x)), j, id, failures)
  {
    HistoryIsFinal(s.calls[k], s.store, x);
    if j == k {
      assert s.calls[k].pc.PutStalled?;
      assert s.calls[k].audit.Some?;
    }
    hide Advance;
  }

  lemma StallingCallHasCause(s: Sys, k: nat, x: Choice)
    requires CanRun(s, k) && ClaimsOk(s)
    requires
      var e := Advance(s.calls[k], s.store, x).1;
      e.Update? && e.meta.state.Stalled?
    ensures StalledBy(Next(s, Run(k, x)), k, s.calls[k].input.claim, Advance(s.calls[k], s.store, x).1.meta.failures)
  {
    UpdateHasCause(s, k, x);
    HistoryIsFinal(s.calls[k], s.store, x);
    hide Advance;
  }

  // A claim that is stalled after the step was stalled by it or was stalled before, with the same count.
  lemma RunStalls(s: Sys, k: nat, x: Choice, id: AtomId)
    requires CanRun(s, k) && ClaimsOk(s)
    requires var s' := Next(s, Run(k, x)); IsClaim(s'.store, id) && s'.store[id].meta.state.Stalled?
    ensures
      var e, s' := Advance(s.calls[k], s.store, x).1, Next(s, Run(k, x));
      if e.Update? && e.target == id then
        e.meta.state.Stalled? && s.calls[k].input.claim == id && s'.store[id].meta == e.meta
      else IsClaim(s.store, id) && s'.store[id] == s.store[id]
  {
    var e := Advance(s.calls[k], s.store, x).1;
    if e.Update? { UpdateIsOk(s, k, x); }
    PutsAreAudits(s.calls[k], s.store, x);
    hide Advance;
    hide MetaOk;
    hide CallOk;
  }

  lemma RunKeepsStalls(s: Sys, k: nat, x: Choice)
    requires CanRun(s, k) && ClaimsOk(s) && StallsOk(s)
    ensures StallsOk(Next(s, Run(k, x)))
  {
    var s' := Next(s, Run(k, x));
    var e := Advance(s.calls[k], s.store, x).1;
    assert s'.reaped == s.reaped;
    hide Advance;
    hide Next;
    hide CallOk;
    hide ClaimsOk;
    hide StalledBy;
    forall id | IsClaim(s'.store, id) && s'.store[id].meta.state.Stalled? && id !in s'.reaped
      ensures exists j :: StalledBy(s', j, id, s'.store[id].meta.failures)
    {
      RunStalls(s, k, x, id);
      if e.Update? && e.target == id {
        StallingCallHasCause(s, k, x);
      } else {
        var j :| StalledBy(s, j, id, s.store[id].meta.failures);
        RunKeepsStall(s, k, x, j, id, s.store[id].meta.failures);
      }
    }
  }

  lemma StepsThatAudit(c: Call, s: Store, x: Choice)
    requires PcOk(c) && Running(c)
    ensures
      var (c', e) := Advance(c, s, x);
      && (e.Put? && IsAudit(e.atom) ==> e.id !in s && c.audit.None? && c'.audit == Some(e.id))
      && (c'.audit != c.audit ==> e.Put? && c'.audit == Some(e.id) && e.id !in s)
      && (e.Update? ==> e.target in s)
      && (e.Put? ==> e.id !in s)
  {
  }

  lemma RunKeepsAudits(s: Sys, k: nat, x: Choice)
    requires CanRun(s, k) && CallsOk(s) && ClaimsOk(s) && AuditsOk(s)
    ensures AuditsOk(Next(s, Run(k, x)))
  {
    var s' := Next(s, Run(k, x));
    var (c, e) := Advance(s.calls[k], s.store, x);
    StepsThatAudit(s.calls[k], s.store, x);
    forall id | id in s'.store && IsAudit(s'.store[id])
      ensures exists j :: WrittenBy(s', j, id)
    {
      if id in s.store && IsAudit(s.store[id]) {
        var j :| WrittenBy(s, j, id);
        HistoryIsFinal(s.calls[k], s.store, x);
        assert WrittenBy(s', j, id);
      } else {
        assert WrittenBy(s', k, id);
      }
    }
    forall id, i, j | WrittenBy(s', i, id) && WrittenBy(s', j, id)
      ensures i == j
    {
      assert i != k ==> WrittenBy(s, i, id) && CallOk(s, s.calls[i]);
      assert j != k ==> WrittenBy(s, j, id) && CallOk(s, s.calls[j]);
      assert c.audit == s.calls[k].audit && s.calls[k].audit == Some(id) ==> WrittenBy(s, k, id);
    }
  }

  // ---- The other steps ----

  lemma OtherStepGrows(s: Sys, step: Step)
    requires Inv(s) && !step.Run?
    ensures Grows(s, Next(s, step))
  {
  }

  lemma OtherStepKeepsCalls(s: Sys, step: Step)
    requires Inv(s) && !step.Run?
    ensures CallsOk(Next(s, step))
  {
    var s' := Next(s, step);
    OtherStepGrows(s, step);
    forall j | j in s'.calls
      ensures CallOk(s', s'.calls[j])
    {
      if j in s.calls { CallStaysOk(s, s', s.calls[j]); }
    }
  }

  lemma ReaperMoveIsSafe(m: ClaimMeta, minted: ClaimMeta, reaped: bool, move: ReaperMove)
    requires KeepsTerms(m, minted, reaped)
    ensures
      var m' := Reaped(m, move);
      && KeepsTerms(m', minted, true)
      && (m'.failures == 0 || m'.failures == m.failures)
      && (m'.state.Complete? ==> m.state.Complete?)
  {
  }

  // Dispatch writes a claim with no failures and the reaper never adds one.
  lemma OtherStepWritesOk(s: Sys, step: Step, id: AtomId)
    requires ClaimsOk(s) && !step.Run? && IsClaim(Next(s, step).store, id)
    ensures
      var s' := Next(s, step);
      var m := s'.store[id].meta;
      && id in s'.minted
      && KeepsTerms(m, s'.minted[id], id in s'.reaped)
      && (m.failures == 0 || (IsClaim(s.store, id) && m.failures == s.store[id].meta.failures))
      && (m.state.Complete? ==> IsClaim(s.store, id) && s.store[id].meta.state.Complete?)
      && (m.state.Stalled? && id !in s'.reaped ==> IsClaim(s.store, id) && m == s.store[id].meta)
  {
    var s' := Next(s, step);
    if IsClaim(s.store, id) && s'.store[id] == s.store[id] {
      assert MetaOk(s, id, s.store[id].meta);
    } else if step.Reap? {
      assert MetaOk(s, id, s.store[id].meta);
      ReaperMoveIsSafe(s.store[id].meta, s.minted[id], id in s.reaped, step.move);
    } else {
      assert step.Mint? || step.Activate?;
    }
  }

  lemma OtherStepKeepsClaims(s: Sys, step: Step)
    requires Inv(s) && !step.Run?
    ensures ClaimsOk(Next(s, step))
  {
    var s' := Next(s, step);
    OtherStepGrows(s, step);
    forall id | IsClaim(s'.store, id)
      ensures MetaOk(s', id, s'.store[id].meta)
    {
      OtherStepWritesOk(s, step, id);
      CountNeverDrops(s.store, s'.store, id);
    }
    OtherStepMints(s, step);
  }

  lemma OtherStepMints(s: Sys, step: Step)
    requires Inv(s) && !step.Run?
    ensures
      var s' := Next(s, step);
      forall id :: id in s'.minted ==>
        IsClaim(s'.store, id) && s'.minted[id].failures == 0 && s'.minted[id].state.Pending?
  {
  }

  lemma OtherStepKeepsCallsSame(s: Sys, step: Step)
    requires !step.Run?
    ensures forall j :: j in s.calls ==> j in Next(s, step).calls && Next(s, step).calls[j] == s.calls[j]
  {
  }

  lemma OtherStepKeepsCompletions(s: Sys, step: Step)
    requires Inv(s) && !step.Run?
    ensures CompletionsOk(Next(s, step))
  {
    var s' := Next(s, step);
    OtherStepGrows(s, step);
    OtherStepKeepsCallsSame(s, step);
    hide Next;
    hide ClaimsOk;
    hide CallsOk;
    forall id | IsClaim(s'.store, id) && s'.store[id].meta.state.Complete?
      ensures exists j :: AcceptedBy(s', j, id)
    {
      OtherStepWritesOk(s, step, id);
      var j :| AcceptedBy(s, j, id);
      AcceptanceStays(s, s', j, id);
    }
  }

  lemma OtherStepKeepsStalls(s: Sys, step: Step)
    requires Inv(s) && !step.Run?
    ensures StallsOk(Next(s, step))
  {
    var s' := Next(s, step);
    OtherStepGrows(s, step);
    OtherStepKeepsCallsSame(s, step);
    hide Next;
    hide ClaimsOk;
    hide CallsOk;
    forall id | IsClaim(s'.store, id) && s'.store[id].meta.state.Stalled? && id !in s'.reaped
      ensures exists j :: StalledBy(s', j, id, s'.store[id].meta.failures)
    {
      OtherStepWritesOk(s, step, id);
      var j :| StalledBy(s, j, id, s.store[id].meta.failures);
      assert StalledBy(s', j, id, s'.store[id].meta.failures);
    }
  }

  lemma OtherStepKeepsAudits(s: Sys, step: Step)
    requires Inv(s) && !step.Run?
    ensures AuditsOk(Next(s, step))
  {
    var s' := Next(s, step);
    forall id | id in s'.store && IsAudit(s'.store[id])
      ensures exists j :: WrittenBy(s', j, id)
    {
      assert id in s.store && IsAudit(s.store[id]);
      var j :| WrittenBy(s, j, id);
      assert WrittenBy(s', j, id);
    }
    forall id, i, j | WrittenBy(s', i, id) && WrittenBy(s', j, id)
      ensures i == j
    {
      assert WrittenBy(s, i, id) && WrittenBy(s, j, id);
    }
  }

  // Every step keeps the invariant.
  lemma NextKeepsInv(s: Sys, step: Step)
    requires Inv(s)
    ensures Inv(Next(s, step))
  {
    if step.Run? {
      if Enabled(s, step) {
        assert CallOk(s, s.calls[step.call]);
        RunKeepsCalls(s, step.call, step.choice);
        RunKeepsClaims(s, step.call, step.choice);
        RunKeepsCompletions(s, step.call, step.choice);
        RunKeepsStalls(s, step.call, step.choice);
        RunKeepsAudits(s, step.call, step.choice);
      }
    } else {
      OtherStepKeepsCalls(s, step);
      OtherStepKeepsClaims(s, step);
      OtherStepKeepsCompletions(s, step);
      OtherStepKeepsStalls(s, step);
      OtherStepKeepsAudits(s, step);
    }
  }

  lemma {:induction false} RunsKeepInv(s: Sys, steps: seq<Step>)
    requires Inv(s)
    ensures Inv(ExecFrom(s, steps))
    decreases |steps|
  {
    if steps != [] {
      NextKeepsInv(s, steps[0]);
      RunsKeepInv(Next(s, steps[0]), steps[1..]);
    }
  }

  lemma InvHolds(steps: seq<Step>)
    ensures Inv(Exec(steps))
  {
    RunsKeepInv(Initial, steps);
  }
}
