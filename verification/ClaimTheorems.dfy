// What every run of the claim protocol guarantees, and exactly when completion is final.

module ClaimTheorems {
  import opened Prelude
  import opened ClaimProtocol
  import opened ClaimRuns
  import opened ClaimInvariant

  // A complete claim was earned: some call passed every gate, had the terminal state
  // confirmed, and left its acceptance on record.
  lemma CompletionIsEarned(steps: seq<Step>, id: AtomId)
    requires IsClaim(Exec(steps).store, id)
    ensures Exec(steps).store[id].meta.state.Complete? ==> exists k :: AcceptedBy(Exec(steps), k, id)
  {
    InvHolds(steps);
  }

  lemma RunsGrow(s: Sys, steps: seq<Step>)
    requires Inv(s)
    ensures Grows(s, ExecFrom(s, steps))
    decreases |steps|
  {
    if steps != [] {
      if steps[0].Run? {
        if Enabled(s, steps[0]) {
          assert CallOk(s, s.calls[steps[0].call]);
          RunGrows(s, steps[0].call, steps[0].choice);
        }
      } else {
        OtherStepGrows(s, steps[0]);
      }
      NextKeepsInv(s, steps[0]);
      RunsGrow(Next(s, steps[0]), steps[1..]);
    }
  }

  // Whatever happens between two moments of a run, a claim keeps its principal and its
  // brief; only the reaper moves the deadline.
  lemma TermsNeverChange(steps: seq<Step>, more: seq<Step>, id: AtomId)
    requires IsClaim(Exec(steps).store, id)
    ensures
      var later := ExecFrom(Exec(steps), more);
      && IsClaim(later.store, id)
      && KeepsTerms(later.store[id].meta, Exec(steps).store[id].meta, id in later.reaped)
  {
    var s := Exec(steps);
    InvHolds(steps);
    RunsKeepInv(s, more);
    RunsGrow(s, more);
    assert MetaOk(s, id, s.store[id].meta);
    var later := ExecFrom(s, more);
    assert MetaOk(later, id, later.store[id].meta);
  }

  // The failure count never exceeds the failures on record, and a claim the reaper has
  // not moved stalls only when the cap some call had in force was reached by failures
  // that are all on record.
  lemma StallsAreEarned(steps: seq<Step>, id: AtomId)
    requires IsClaim(Exec(steps).store, id)
    ensures
      var s := Exec(steps);
      var m := s.store[id].meta;
      && m.failures <= InfraCount(s.store, id)
      && (m.state.Stalled? && id !in s.reaped ==>
            exists k :: k in s.calls && s.calls[k].input.claim == id && s.calls[k].cap.Some?
                        && s.calls[k].cap.value <= m.failures as real <= InfraCount(s.store, id) as real)
  {
    var s := Exec(steps);
    InvHolds(steps);
    assert MetaOk(s, id, s.store[id].meta);
    if s.store[id].meta.state.Stalled? && id !in s.reaped {
      var k :| StalledBy(s, k, id, s.store[id].meta.failures);
      assert k in s.calls && s.calls[k].input.claim == id;
    }
  }

  // ---- Conservation between returns and audit atoms ----

  predicate AllReturned(s: Sys) { forall k :: k in s.calls ==> s.calls[k].pc.Returned? }

  function AcceptingCalls(s: Sys, id: AtomId): set<nat> {
    set k | k in s.calls && s.calls[k].input.claim == id && s.calls[k].pc == Returned(Acceptance)
  }

  function AcceptanceAtoms(s: Sys, id: AtomId): set<AtomId> {
    set a | a in s.store && s.store[a].Accepted? && s.store[a].claim == id
  }

  function RejectingCalls(s: Sys, id: AtomId, r: Reason): set<nat> {
    set k | k in s.calls && s.calls[k].input.claim == id
            && s.calls[k].pc.Returned? && s.calls[k].pc.result.Rejection? && s.calls[k].pc.result.reason == r
  }

  function RejectionAtoms(s: Sys, id: AtomId, r: Reason): set<AtomId> {
    set a | a in s.store && s.store[a].Rejected? && s.store[a].claim == id && s.store[a].reason == r
  }

  // A returned call and its audit atom say the same thing.
  lemma ReturnMatchesAudit(s: Sys, k: nat)
    requires CallsOk(s) && k in s.calls && s.calls[k].pc.Returned?
    ensures
      var c := s.calls[k];
      && (c.audit.None? <==> c.pc.result == Rejection(ClaimNotFound, None))
      && (c.audit.Some? ==>
            && c.audit.value in s.store
            && IsAudit(s.store[c.audit.value])
            && s.store[c.audit.value].claim == c.input.claim
            && s.store[c.audit.value].caller == c.input.caller
            && (s.store[c.audit.value].Accepted? <==> c.pc.result.Acceptance?)
            && (s.store[c.audit.value].Rejected? ==>
                  c.pc.result == Rejection(s.store[c.audit.value].reason, s.store[c.audit.value].seen)))
  {
    assert CallOk(s, s.calls[k]);
  }

  function AuditMap(s: Sys, ks: set<nat>): map<nat, AtomId>
    requires forall k :: k in ks ==> k in s.calls && s.calls[k].audit.Some?
  {
    map k | k in ks :: s.calls[k].audit.value
  }

  // With one audit atom per call and none unclaimed, the calls and the atoms pair off.
  lemma CallsAndAtomsPairOff(s: Sys, ks: set<nat>, atoms: set<AtomId>)
    requires AuditsOk(s)
    requires forall k :: k in ks ==> k in s.calls && s.calls[k].audit.Some? && s.calls[k].audit.value in atoms
    requires forall a :: a in atoms ==> a in s.store && IsAudit(s.store[a])
    requires forall k :: k in s.calls && s.calls[k].audit.Some? && s.calls[k].audit.value in atoms ==> k in ks
    ensures |ks| == |atoms|
  {
    var f := AuditMap(s, ks);
    forall k, k' | k in ks && k' in ks && f[k] == f[k']
      ensures k == k'
    {
      assert WrittenBy(s, k, f[k]) && WrittenBy(s, k', f[k]);
    }
    forall a | a in atoms
      ensures exists k :: k in ks && f[k] == a
    {
      var k :| WrittenBy(s, k, a);
      assert k in ks && f[k] == a;
    }
    MatchedSetsHaveSameSize(ks, atoms, f);
  }

  predicate ReturnedWithMatchingAudit(s: Sys, k: nat)
    requires k in s.calls
  {
    var c := s.calls[k];
    && c.pc.Returned?
    && (c.audit.None? <==> c.pc.result == Rejection(ClaimNotFound, None))
    && (c.audit.Some? ==>
          && c.audit.value in s.store
          && IsAudit(s.store[c.audit.value])
          && s.store[c.audit.value].claim == c.input.claim
          && (s.store[c.audit.value].Accepted? <==> c.pc.result.Acceptance?)
          && (s.store[c.audit.value].Rejected? ==>
                c.pc.result == Rejection(s.store[c.audit.value].reason, s.store[c.audit.value].seen)
                && !s.store[c.audit.value].reason.ClaimNotFound?))
  }

  ghost predicate AllMatch(s: Sys) { forall k :: k in s.calls ==> ReturnedWithMatchingAudit(s, k) }

  lemma ReturnsMatchAudits(s: Sys)
    requires CallsOk(s) && AllReturned(s)
    ensures AllMatch(s)
  {
    forall k | k in s.calls
      ensures ReturnedWithMatchingAudit(s, k)
    {
      ReturnMatchesAudit(s, k);
    }
  }

  lemma AcceptancesPairOff(s: Sys, id: AtomId)
    requires AuditsOk(s) && AllMatch(s)
    ensures |AcceptingCalls(s, id)| == |AcceptanceAtoms(s, id)|
  {
    CallsAndAtomsPairOff(s, AcceptingCalls(s, id), AcceptanceAtoms(s, id));
  }

  lemma RejectsExactlyWithAtom(s: Sys, id: AtomId, r: Reason, k: nat)
    requires AllMatch(s) && k in s.calls && !r.ClaimNotFound?
    ensures k in RejectingCalls(s, id, r)
            <==> s.calls[k].audit.Some? && s.calls[k].audit.value in RejectionAtoms(s, id, r)
  {
    assert ReturnedWithMatchingAudit(s, k);
    hide AllMatch;
  }

  lemma RejectionsPairOff(s: Sys, id: AtomId, r: Reason)
    requires AuditsOk(s) && AllMatch(s) && !r.ClaimNotFound?
    ensures |RejectingCalls(s, id, r)| == |RejectionAtoms(s, id, r)|
  {
    hide AuditsOk;
    forall k | k in s.calls
      ensures k in RejectingCalls(s, id, r)
              <==> s.calls[k].audit.Some? && s.calls[k].audit.value in RejectionAtoms(s, id, r)
    {
      RejectsExactlyWithAtom(s, id, r, k);
    }
    hide AllMatch;
    CallsAndAtomsPairOff(s, RejectingCalls(s, id, r), RejectionAtoms(s, id, r));
  }

  lemma NotFoundLeavesNoAtom(s: Sys, a: AtomId)
    requires AuditsOk(s) && AllMatch(s)
    requires a in s.store && s.store[a].Rejected?
    ensures !s.store[a].reason.ClaimNotFound?
  {
    var k :| WrittenBy(s, k, a);
    assert ReturnedWithMatchingAudit(s, k);
  }

  // Once every call has returned, each claim has as many acceptance atoms as accepting
  // returns, as many rejection atoms with each reason as returns with that reason, and
  // no atom for claim-not-found.
  lemma AuditTrailIsExact(steps: seq<Step>, id: AtomId, r: Reason)
    requires AllReturned(Exec(steps))
    ensures |AcceptingCalls(Exec(steps), id)| == |AcceptanceAtoms(Exec(steps), id)|
    ensures r.ClaimNotFound? ==> RejectionAtoms(Exec(steps), id, r) == {}
    ensures !r.ClaimNotFound? ==> |RejectingCalls(Exec(steps), id, r)| == |RejectionAtoms(Exec(steps), id, r)|
  {
    var s := Exec(steps);
    InvHolds(steps);
    ReturnsMatchAudits(s);
    AcceptancesPairOff(s, id);
    if r.ClaimNotFound? {
      forall a | a in s.store && s.store[a].Rejected?
        ensures !s.store[a].reason.ClaimNotFound?
      {
        NotFoundLeavesNoAtom(s, a);
      }
    } else {
      RejectionsPairOff(s, id, r);
    }
  }

  // Atom a is the audit atom of call k: it was written by k and says what k returned.
  predicate Answers(s: Sys, k: nat, a: AtomId)
    requires k in s.calls && a in s.store
  {
    var c, atom := s.calls[k], s.store[a];
    && c.audit == Some(a) && c.pc.Returned?
    && IsAudit(atom) && atom.claim == c.input.claim && atom.caller == c.input.caller
    && (if atom.Accepted? then c.pc.result.Acceptance? else c.pc.result == Rejection(atom.reason, atom.seen))
  }

  // Once every call has returned, calls and audit atoms are in one-to-one correspondence: each call
  // but those that found no claim has its own atom, with its claim, caller, reason and observed
  // state, and each audit atom is that of exactly one call.
  lemma ReturnsAndAuditsPairUp(steps: seq<Step>)
    requires AllReturned(Exec(steps))
    ensures
      var s := Exec(steps);
      && (forall k :: k in s.calls && s.calls[k].pc.result != Rejection(ClaimNotFound, None) ==>
            s.calls[k].audit.Some? && s.calls[k].audit.value in s.store && Answers(s, k, s.calls[k].audit.value))
      && (forall k :: k in s.calls && s.calls[k].pc.result == Rejection(ClaimNotFound, None) ==> s.calls[k].audit.None?)
      && (forall a :: a in s.store && IsAudit(s.store[a]) ==> exists k :: k in s.calls && Answers(s, k, a))
      && (forall a, j, k :: a in s.store && j in s.calls && k in s.calls && Answers(s, j, a) && Answers(s, k, a) ==> j == k)
  {
    var s := Exec(steps);
    InvHolds(steps);
    forall k | k in s.calls
      ensures s.calls[k].audit.None? <==> s.calls[k].pc.result == Rejection(ClaimNotFound, None)
      ensures s.calls[k].audit.Some? ==> s.calls[k].audit.value in s.store && Answers(s, k, s.calls[k].audit.value)
    {
      ReturnMatchesAudit(s, k);
    }
    forall a | a in s.store && IsAudit(s.store[a])
      ensures exists k :: k in s.calls && Answers(s, k, a)
    {
      var k :| WrittenBy(s, k, a);
      assert Answers(s, k, a);
    }
    forall a, j, k | a in s.store && j in s.calls && k in s.calls && Answers(s, j, a) && Answers(s, k, a)
      ensures j == k
    {
      assert WrittenBy(s, j, a) && WrittenBy(s, k, a);
    }
  }

  lemma StallsLeaveANote(steps: seq<Step>, id: AtomId)
    requires AllReturned(Exec(steps))
    requires IsClaim(Exec(steps).store, id) && Exec(steps).store[id].meta.state.Stalled?
    requires id !in Exec(steps).reaped
    ensures
      var s := Exec(steps);
      exists note, k :: note in s.store && k in s.calls && s.store[note].StallNote? && s.store[note].claim == id
        && s.calls[k].stallNote == Some(note) && s.calls[k].cap.Some?
        && s.calls[k].cap.value <= s.store[id].meta.failures as real
  {
    var s := Exec(steps);
    InvHolds(steps);
    var k :| StalledBy(s, k, id, s.store[id].meta.failures);
    assert CallOk(s, s.calls[k]);
    hide Inv;
    hide PcOk;
    hide MetaOk;
    hide AuditFor;
    assert s.calls[k].stallNote.value in s.store;
  }

  // ---- Exactly when completion is final ----

  // The call read the claim while it was still open and its next write will reopen it.
  predicate Armed(c: Call, id: AtomId) {
    && c.input.claim == id
    && (|| (c.pc.ReadLatest? && c.pc.goal.Flip?)
        || (c.pc.WriteLatest? && c.pc.goal.Flip?)
        || c.pc.ResolvePolicies?
        || c.pc.Verifying?
        || (!c.pc.PutStalled? && Settling(c) && c.verdict.Some? && !Judge(c.verdict.value).Accept?))
  }

  predicate IsComplete(s: Sys, id: AtomId) { IsClaim(s.store, id) && s.store[id].meta.state.Complete? }

  ghost predicate Final(s: Sys, id: AtomId) {
    && IsComplete(s, id)
    && id !in s.activating
    && (forall k :: k in s.calls ==> !Armed(s.calls[k], id))
  }

  lemma UnarmedCallKeepsCompletion(c: Call, s: Store, id: AtomId, x: Choice)
    requires PcOk(c) && Running(c) && !Armed(c, id)
    requires IsClaim(s, id) && s[id].meta.state.Complete?
    ensures
      var (c', e) := Advance(c, s, x);
      && !Armed(c', id)
      && IsClaim(Apply(s, e), id)
      && Apply(s, e)[id].meta.state.Complete?
  {
    StepsThatAudit(c, s, x);
  }

  lemma RunKeepsFinal(s: Sys, k: nat, x: Choice, id: AtomId)
    requires CanRun(s, k) && Final(s, id)
    ensures Final(Next(s, Run(k, x)), id)
  {
    UnarmedCallKeepsCompletion(s.calls[k], s.store, id, x);
  }

  lemma FinalStaysFinal(s: Sys, step: Step, id: AtomId)
    requires CallsOk(s) && Final(s, id)
    ensures Final(Next(s, step), id)
  {
    if step.Run? && Enabled(s, step) {
      assert CallOk(s, s.calls[step.call]);
      RunKeepsFinal(s, step.call, step.choice, id);
    }
  }

  lemma {:induction false} FinalIsForever(s: Sys, steps: seq<Step>, id: AtomId)
    requires Inv(s) && Final(s, id)
    ensures Final(ExecFrom(s, steps), id)
    decreases |steps|
  {
    if steps != [] {
      FinalStaysFinal(s, steps[0], id);
      NextKeepsInv(s, steps[0]);
      FinalIsForever(Next(s, steps[0]), steps[1..], id);
    }
  }

  predicate UnusedAt(used: set<AtomId>, id: AtomId, t: int) {
    RejectedId(id, t, 0) !in used && AcceptedId(id, t) !in used
  }

  // A finite store leaves the audit ids of some instant unused.
  lemma {:induction false} UnusedTime(used: set<AtomId>, id: AtomId, from: int) returns (t: int)
    ensures t >= from && UnusedAt(used, id, t)
    decreases used
  {
    if UnusedAt(used, id, from) {
      t := from;
    } else {
      t := UnusedTime(used - {RejectedId(id, from, 0), AcceptedId(id, from)}, id, from + 1);
    }
  }

  // The world lets the step happen at `now`; a verifier that is asked answers v.
  function Answering(v: Verdict, now: int): Choice { Choice(false, false, now, 0, 3.0, v) }

  function StepsToReopen(c: Call): nat {
    match c.pc
    case ResolvePolicies => 5
    case Verifying => 4
    case PutRejection(_, _, _) => 3
    case ReadLatest(_) => 2
    case _ => 1
  }

  lemma ArmedCallAdvances(c: Call, s: Store, id: AtomId, now: int)
    requires PcOk(c) && Armed(c, id) && IsClaim(s, id)
    requires UnusedAt(s.Keys, id, now)
    ensures Running(c)
    ensures
      var (c', e) := Advance(c, s, Answering(Refuted(""), now));
      if c.pc.WriteLatest? then e.Update? && e.target == id && !e.meta.state.Complete?
      else Armed(c', id) && StepsToReopen(c') < StepsToReopen(c) && IsClaim(Apply(s, e), id)
  {
  }

  lemma ArmedCallSteps(s: Sys, k: nat, id: AtomId, now: int)
    requires k in s.calls && PcOk(s.calls[k]) && Armed(s.calls[k], id) && IsClaim(s.store, id)
    requires UnusedAt(s.store.Keys, id, now)
    ensures
      var s' := Next(s, Run(k, Answering(Refuted(""), now)));
      if s.calls[k].pc.WriteLatest? then !IsComplete(s', id)
      else k in s'.calls && Armed(s'.calls[k], id) && IsClaim(s'.store, id)
           && StepsToReopen(s'.calls[k]) < StepsToReopen(s.calls[k])
  {
    ArmedCallAdvances(s.calls[k], s.store, id, now);
    assert Formed(s.calls[k]);
    hide PcOk;
    hide Formed;
    hide Advance;
    hide Armed;
  }

  lemma ArmedStep(s: Sys, k: nat, id: AtomId) returns (step: Step)
    requires Inv(s) && k in s.calls && Armed(s.calls[k], id) && IsClaim(s.store, id)
    ensures
      var s' := Next(s, step);
      if s.calls[k].pc.WriteLatest? then !IsComplete(s', id)
      else k in s'.calls && Armed(s'.calls[k], id) && IsClaim(s'.store, id)
           && StepsToReopen(s'.calls[k]) < StepsToReopen(s.calls[k])
  {
    assert CallOk(s, s.calls[k]);
    hide Inv;
    hide Next;
    hide Armed;
    hide StepsToReopen;
    var now := UnusedTime(s.store.Keys, id, 0);
    step := Run(k, Answering(Refuted(""), now));
    ArmedCallSteps(s, k, id, now);
  }

  // Left alone, an armed call takes the claim out of `complete`.
  lemma {:induction false} ArmedCallCanReopen(s: Sys, k: nat, id: AtomId) returns (steps: seq<Step>)
    requires Inv(s) && k in s.calls && Armed(s.calls[k], id) && IsClaim(s.store, id)
    ensures !IsComplete(ExecFrom(s, steps), id)
    decreases StepsToReopen(s.calls[k])
  {
    hide Inv;
    hide Next;
    hide Armed;
    var step := ArmedStep(s, k, id);
    var s' := Next(s, step);
    if s.calls[k].pc.WriteLatest? {
      steps := [step];
      assert ExecFrom(s', []) == s';
    } else {
      NextKeepsInv(s, step);
      var rest := ArmedCallCanReopen(s', k, id);
      steps := [step] + rest;
      assert steps[1..] == rest;
    }
  }

  lemma OpenDispatchCanReopen(s: Sys, id: AtomId)
    requires ClaimsOk(s) && IsComplete(s, id) && id in s.activating
    ensures !IsComplete(ExecFrom(s, [Activate(id)]), id)
  {
    assert MetaOk(s, id, s.store[id].meta);
    assert ExecFrom(s, [Activate(id)]) == ExecFrom(Next(s, Activate(id)), []);
  }

  // Completion survives every continuation exactly when no call that passed the gates
  // earlier is still on its way to a reopening write and no dispatch has yet to activate.
  lemma CompletionIsFinalExactlyWhen(steps: seq<Step>, id: AtomId)
    requires IsComplete(Exec(steps), id)
    ensures (forall more :: IsComplete(ExecFrom(Exec(steps), more), id)) <==> Final(Exec(steps), id)
  {
    InvHolds(steps);
    FinalOrReopened(Exec(steps), id);
  }

  lemma FinalOrReopened(s: Sys, id: AtomId)
    requires Inv(s) && IsComplete(s, id)
    ensures (forall more :: IsComplete(ExecFrom(s, more), id)) <==> Final(s, id)
  {
    if Final(s, id) {
      forall more
        ensures IsComplete(ExecFrom(s, more), id)
      {
        FinalIsForever(s, more, id);
      }
    } else if id in s.activating {
      OpenDispatchCanReopen(s, id);
    } else {
      var k :| k in s.calls && Armed(s.calls[k], id);
      var more := ArmedCallCanReopen(s, k, id);
    }
  }
}
