// What a call answers, and what its closing write says, when anything may run in between.

module ClaimAnswers {
  import opened Prelude
  import opened ClaimProtocol
  import opened ClaimRuns
  import opened ClaimInvariant
  import opened ClaimTheorems
  import opened ClaimAlone

  // What a call in a reachable state can rely on.
  lemma ReachableCall(steps: seq<Step>, k: nat)
    requires k in Exec(steps).calls
    ensures PcOk(Exec(steps).calls[k]) && Formed(Exec(steps).calls[k])
    ensures PastGates(Exec(steps).calls[k]) ==> IsClaim(Exec(steps).store, Exec(steps).calls[k].input.claim)
  {
    var s := Exec(steps);
    InvHolds(steps);
    assert CallOk(s, s.calls[k]);
    hide ExecFrom;
    hide AuditFor;
    hide Exec;
  }

  // ---- Refusals ----

  // The call is being refused for r or has been: it has no snapshot, no verdict and no acceptance.
  predicate Refusing(c: Call, r: Reason) {
    && c.snap.None? && c.verdict.None?
    && (|| c.pc == PutRejection(r, None, None)
        || (r.AlreadyTerminal? && c.pc.Telegraph?)
        || c.pc == Returned(Rejection(r, None))
        || c.pc.Failed?)
  }

  predicate AtGate(r: Reason) { !r.GroundTruthMismatch? && !IsInfra(r) }

  lemma RefusingStays(c: Call, s: Store, x: Choice, r: Reason)
    requires PcOk(c) && Running(c) && Refusing(c, r) && AtGate(r)
    ensures Refusing(Advance(c, s, x).0, r)
  {
  }

  lemma StepKeepsRefusing(s: Sys, step: Step, k: nat, r: Reason)
    requires CallsOk(s) && k in s.calls && Refusing(s.calls[k], r) && AtGate(r)
    ensures k in Next(s, step).calls && Refusing(Next(s, step).calls[k], r)
  {
    if step.Run? && step.call == k && Enabled(s, step) {
      assert CallOk(s, s.calls[k]);
      RefusingStays(s.calls[k], s.store, step.choice, r);
      hide Advance;
      hide CallOk;
      hide Refusing;
    }
  }

  lemma {:induction false} RefusedForGood(s: Sys, steps: seq<Step>, k: nat, r: Reason)
    requires Inv(s) && k in s.calls && Refusing(s.calls[k], r) && AtGate(r)
    ensures k in ExecFrom(s, steps).calls && Refusing(ExecFrom(s, steps).calls[k], r)
    decreases |steps|
  {
    hide CallsOk;
    hide ClaimsOk;
    hide Refusing;
    hide Next;
    if steps != [] {
      StepKeepsRefusing(s, steps[0], k, r);
      NextKeepsInv(s, steps[0]);
      RefusedForGood(Next(s, steps[0]), steps[1..], k, r);
    }
  }

  // Refused, and if it has returned then with its rejection on record.
  predicate RefusedOnRecord(s: Sys, k: nat, r: Reason) {
    && k in s.calls && Refusing(s.calls[k], r)
    && (s.calls[k].pc.Returned? && !r.ClaimNotFound? ==>
          && s.calls[k].audit.Some? && s.calls[k].audit.value in s.store
          && s.store[s.calls[k].audit.value]
             == Rejected(s.calls[k].input.claim, s.calls[k].input.caller, r, None, None))
  }

  lemma RefusedOnRecordLater(s: Sys, steps: seq<Step>, k: nat, r: Reason)
    requires Inv(s) && k in s.calls && Refusing(s.calls[k], r) && AtGate(r)
    ensures RefusedOnRecord(ExecFrom(s, steps), k, r)
  {
    var later := ExecFrom(s, steps);
    RefusedForGood(s, steps, k, r);
    RunsKeepInv(s, steps);
    assert CallOk(later, later.calls[k]);
    hide Inv;
    hide MetaOk;
    hide ExecFrom;
  }

  // Before the gates a call has read nothing.
  predicate Unread(c: Call) { c.pc.Entry? || c.pc.Lookup? ==> c.snap.None? && c.verdict.None? }

  ghost predicate AllUnread(s: Sys) { forall k :: k in s.calls ==> Unread(s.calls[k]) }

  lemma StepKeepsUnread(s: Sys, step: Step)
    requires AllUnread(s)
    ensures AllUnread(Next(s, step))
  {
  }

  lemma {:induction false} RunsKeepUnread(s: Sys, steps: seq<Step>)
    requires AllUnread(s)
    ensures AllUnread(ExecFrom(s, steps))
    decreases |steps|
  {
    if steps != [] {
      StepKeepsUnread(s, steps[0]);
      RunsKeepUnread(Next(s, steps[0]), steps[1..]);
    }
  }

  // A step of a call at the gates that finds r wrong, from a reachable state.
  lemma CallIsRefused(c: Call, s: Store, x: Choice, r: Reason)
    requires Unread(c) && Formed(c) && !x.fault
    requires (c.pc.Entry? && x.stop && r.StopSentinel?) || (c.pc.Lookup? && Gate(c.input, s) == Some(r))
    ensures Refusing(Advance(c, s, x).0, r) && AtGate(r)
  {
  }

  lemma RefusalBegins(steps: seq<Step>, k: nat, x: Choice, r: Reason)
    requires
      var s := Exec(steps);
      && k in s.calls && !x.fault
      && (|| (s.calls[k].pc.Entry? && x.stop && r.StopSentinel?)
          || (s.calls[k].pc.Lookup? && Gate(s.calls[k].input, s.store) == Some(r)))
    ensures
      var s' := Next(Exec(steps), Run(k, x));
      Inv(s') && k in s'.calls && Refusing(s'.calls[k], r) && AtGate(r)
  {
    InvHolds(steps);
    RunsKeepUnread(Initial, steps);
    var s := Exec(steps);
    NextKeepsInv(s, Run(k, x));
    assert Unread(s.calls[k]);
    ReachableCall(steps, k);
    CallIsRefused(s.calls[k], s.store, x, r);
    hide Inv;
    hide AllUnread;
    hide ExecFrom;
    hide Advance;
    hide Refusing;
    hide PcOk;
  }

  // In every interleaving: a call whose first step sees STOP is refused for it, whatever follows. It
  // never reads a snapshot, never asks the verifier, and is never accepted.
  lemma StopRefusesTheCall(steps: seq<Step>, k: nat, x: Choice, more: seq<Step>)
    requires k in Exec(steps).calls && Exec(steps).calls[k].pc.Entry? && x.stop && !x.fault
    ensures
      var later := ExecFrom(Next(Exec(steps), Run(k, x)), more);
      && RefusedOnRecord(later, k, StopSentinel)
      && later.calls[k].snap.None? && later.calls[k].verdict.None? && later.calls[k].pc != Returned(Acceptance)
  {
    RefusalBegins(steps, k, x, StopSentinel);
    hide Inv;
    hide Next;
    hide ExecFrom;
    hide Exec;
    RefusedOnRecordLater(Next(Exec(steps), Run(k, x)), more, k, StopSentinel);
  }

  // In every interleaving: a call that reads the claim goes on with the record it read when all gates
  // match, and is otherwise refused for good with the first that does not, in the store it read.
  lemma GateDecidesTheCall(steps: seq<Step>, k: nat, x: Choice, more: seq<Step>)
    requires k in Exec(steps).calls && Exec(steps).calls[k].pc.Lookup? && !x.fault
    ensures
      var s := Exec(steps);
      var input, s' := s.calls[k].input, Next(s, Run(k, x));
      match Gate(input, s.store)
      case Some(r) => RefusedOnRecord(ExecFrom(s', more), k, r)
      case None => k in s'.calls && s'.calls[k].pc == ReadLatest(Flip) && s'.calls[k].snap == Some(s.store[input.claim].meta)
  {
    var s := Exec(steps);
    match Gate(s.calls[k].input, s.store)
    case Some(r) =>
      RefusalBegins(steps, k, x, r);
      hide Inv;
      hide Next;
      hide ExecFrom;
      hide Exec;
      RefusedOnRecordLater(Next(Exec(steps), Run(k, x)), more, k, r);
    case None =>
      ReachableCall(steps, k);
      hide PcOk;
      hide ExecFrom;
  }

  // ---- The answer ----

  lemma CallAnswers(c: Call)
    requires PcOk(c) && c.pc.Returned? && c.verdict.Some?
    ensures c.audit.Some? && c.pc.result == AnswerTo(c.verdict.value)
  {
  }

  lemma AuditIsAtom(c: Call, a: Atom)
    requires c.verdict.Some? && AuditFor(c, a)
    ensures a == AuditAtom(c.verdict.value, c.input)
  {
  }

  // In every reachable state: a call that asked the verifier answers what the verdict comes to, with
  // the atom that says so on record.
  lemma VerdictDecidesTheAnswer(steps: seq<Step>, k: nat)
    requires var s := Exec(steps); k in s.calls && s.calls[k].pc.Returned? && s.calls[k].verdict.Some?
    ensures
      var s := Exec(steps);
      var c := s.calls[k];
      && c.pc.result == AnswerTo(c.verdict.value)
      && c.audit.Some? && c.audit.value in s.store
      && s.store[c.audit.value] == AuditAtom(c.verdict.value, c.input)
  {
    var s := Exec(steps);
    InvHolds(steps);
    assert CallOk(s, s.calls[k]);
    hide Inv;
    hide MetaOk;
    hide ExecFrom;
    hide Exec;
    assert PcOk(s.calls[k]);
    hide PcOk;
    CallAnswers(s.calls[k]);
    AuditIsAtom(s.calls[k], s.store[s.calls[k].audit.value]);
    hide AuditFor;
  }

  // ---- The closing write ----

  lemma CallCloses(c: Call, s: Store, x: Choice)
    requires PcOk(c) && c.pc.WriteLatest? && c.pc.goal.Settle? && IsClaim(s, c.input.claim) && !x.fault
    ensures c.verdict.Some? && c.snap.Some? && c.cap.Some?
    ensures
      var (c', e) := Advance(c, s, x);
      var v := c.verdict.value;
      var m := ClosedRecord(c.pc.latest, v, c.snap.value.failures, c.cap.value, x.now);
      && e == Update(c.input.claim, m) && (!v.Confirmed? ==> m.lastRejectedAt == Some(x.now))
      && c'.pc == if m.state.Stalled? && IsFailure(v) then PutStalled else Returned(AnswerTo(v))
  {
  }

  // In every reachable state: the closing write merges over the record the call re-read. An acceptance
  // completes it and clears the count; a mismatch leaves it attesting; a failure counts one more than
  // the gate-time snapshot and stalls it at the cap. After the last two the time is the write's.
  lemma ClosingWriteSays(steps: seq<Step>, k: nat, x: Choice)
    requires
      var s := Exec(steps);
      k in s.calls && s.calls[k].pc.WriteLatest? && s.calls[k].pc.goal.Settle? && !x.fault
    ensures
      var s := Exec(steps);
      var c, s' := s.calls[k], Next(s, Run(k, x));
      && c.verdict.Some? && c.snap.Some? && c.cap.Some? && k in s'.calls && IsClaim(s'.store, c.input.claim)
      && var m, v := s'.store[c.input.claim].meta, c.verdict.value;
         && m == ClosedRecord(c.pc.latest, v, c.snap.value.failures, c.cap.value, x.now)
         && (!v.Confirmed? ==> m.lastRejectedAt == Some(x.now))
         && s'.calls[k].pc == if m.state.Stalled? && IsFailure(v) then PutStalled else Returned(AnswerTo(v))
  {
    var s := Exec(steps);
    ReachableCall(steps, k);
    CallCloses(s.calls[k], s.store, x);
    hide Advance;
    hide ClosedRecord;
    hide AnswerTo;
    hide PcOk;
    hide ExecFrom;
  }

  // ---- Failing ----

  lemma CallThrows(c: Call, s: Store, x: Choice)
    requires PcOk(c) && Running(c) && (PastGates(c) ==> IsClaim(s, c.input.claim))
    ensures
      var (c', e) := Advance(c, s, x);
      var id := c.input.claim;
      && (c'.pc.Failed? <==>
            || x.fault
            || (c.pc.PutRejection? && RejectedId(id, x.now, x.suffix) in s)
            || (c.pc.PutAccepted? && AcceptedId(id, x.now) in s)
            || (c.pc.PutStalled? && StalledId(id, x.now) in s)
            || (c.pc.ResolvePolicies? && x.cap <= 0.0))
      && (c'.pc.Failed? ==> e.Quiet?)
  {
  }

  // In every reachable state: a step makes its call throw exactly when what it awaits throws, the atom
  // it puts has an id already taken, or the cap it is given is not positive. A throw changes no atom.
  lemma StepThrowsExactlyWhen(steps: seq<Step>, k: nat, x: Choice)
    requires k in Exec(steps).calls && Running(Exec(steps).calls[k])
    ensures
      var s := Exec(steps);
      var c, s' := s.calls[k], Next(s, Run(k, x));
      var id := c.input.claim;
      && k in s'.calls
      && (s'.calls[k].pc.Failed? <==>
            || x.fault
            || (c.pc.PutRejection? && RejectedId(id, x.now, x.suffix) in s.store)
            || (c.pc.PutAccepted? && AcceptedId(id, x.now) in s.store)
            || (c.pc.PutStalled? && StalledId(id, x.now) in s.store)
            || (c.pc.ResolvePolicies? && x.cap <= 0.0))
      && (s'.calls[k].pc.Failed? ==> s'.store == s.store)
  {
    var s := Exec(steps);
    ReachableCall(steps, k);
    CallThrows(s.calls[k], s.store, x);
    hide Advance;
    hide PcOk;
    hide ExecFrom;
  }

  // ---- Dispatch ----

  // In every interleaving: dispatch puts the claim on record as pending, and its second update writes
  // that record again as executing, over whatever became of the claim in between.
  lemma DispatchWritesTwice(steps: seq<Step>, id: AtomId, token: string, principal: string, brief: Brief, tier: string,
                            parent: Option<AtomId>, more: seq<Step>)
    requires id !in Exec(steps).store
    ensures
      var s := Exec(steps);
      var s' := Next(s, Mint(id, token, principal, brief, tier, parent));
      var pending := ClaimMeta(id, token, principal, brief, Pending, tier, 0, 0, parent, [], None, None);
      var later := ExecFrom(s', more);
      && s'.store == s.store[id := WorkClaim(pending)] && s'.calls == s.calls && id in s'.activating
      && (id in later.activating ==>
            var last := Next(later, Activate(id));
            && last.store == later.store[id := WorkClaim(pending.(state := Executing))]
            && last.calls == later.calls && id !in last.activating)
  {
    var s := Exec(steps);
    var s' := Next(s, Mint(id, token, principal, brief, tier, parent));
    InvHolds(steps);
    NextKeepsInv(s, Mint(id, token, principal, brief, tier, parent));
    RunsGrow(s', more);
    assert id in s'.minted && id in s'.store;
    hide Inv;
    hide ExecFrom;
    hide Exec;
  }

  // ---- The reaper ----

  // A reaper move that lands changes no record but its claim's: it stalls an open or pending claim,
  // recovers or abandons a stalled one, or adds a session. A recovery starts the claim over under a new
  // token, tier and deadline, with one more attempt, no failures and no rejection; its sessions,
  // its terms and the rest of its brief stay.
  lemma ReaperMoveSays(s: Sys, id: AtomId, move: ReaperMove)
    requires IsClaim(s.store, id)
    ensures
      var m, s' := s.store[id].meta, Next(s, Reap(id, move));
      && s'.calls == s.calls && s'.store.Keys == s.store.Keys && s' == s.(store := s'.store, reaped := s.reaped + {id})
      && (forall other :: other in s.store && other != id ==> s'.store[other] == s.store[other])
      && IsClaim(s'.store, id)
      && var m' := s'.store[id].meta;
         match move
         case FlipToStalled => m' == if m.state in {Pending, Executing, Attesting} then m.(state := Stalled) else m
         case Abandon => m' == if m.state == Stalled then m.(state := Abandoned) else m
         case AppendSession(session) => m' == m.(sessions := m.sessions + [session])
         case Recover(token, tier, deadline) =>
           if m.state != Stalled then m' == m
           else
             var b := m.brief;
             m' == ClaimMeta(m.claimId, token, m.principal,
                             Brief(b.prompt, b.promptBlobRef, b.kind, b.identifier, b.terminalStates, deadline),
                             Executing, tier, m.recoveryAttempts + 1, 0, m.parent, m.sessions, None,
                             m.latestSessionFinalizedAt)
  {
  }
}
