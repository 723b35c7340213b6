// Any number of `markClaimComplete` calls, dispatches and reaper moves interleaved at
// every await, and what holds in every state such a run can reach.

module ClaimRuns {
  import opened Prelude
  import opened ClaimProtocol

  // The reaper guards each of its updates with the revision it read, so a move that
  // lands is a single read-modify-write.
  datatype ReaperMove =
    | FlipToStalled
    | Recover(token: string, tier: string, deadline: int)
    | Abandon
    | AppendSession(session: AtomId)

  function Reaped(m: ClaimMeta, move: ReaperMove): ClaimMeta {
    match move
    case FlipToStalled =>
      if m.state.Pending? || m.state.Executing? || m.state.Attesting? then m.(state := Stalled) else m
    case Recover(token, tier, deadline) =>
      if m.state.Stalled? then
        m.(state := Executing, token := token, recoveryAttempts := m.recoveryAttempts + 1, budgetTier := tier,
           failures := 0, lastRejectedAt := None, brief := m.brief.(deadline := deadline))
      else m
    case Abandon => if m.state.Stalled? then m.(state := Abandoned) else m
    case AppendSession(session) => m.(sessions := m.sessions + [session])
  }

  datatype Step =
    | Mint(id: AtomId, token: string, principal: string, brief: Brief, tier: string, parent: Option<AtomId>)
    | Activate(claim: AtomId)
    | Begin(k: nat, input: Input)
    | Run(call: nat, choice: Choice)
    | Reap(reaped: AtomId, move: ReaperMove)
    | PutForeign(foreign: AtomId)

  // `minted` keeps each claim as dispatch first wrote it, `activating` the dispatches
  // that have not yet written their second update, `reaped` the claims the reaper moved.
  datatype Sys = Sys(
    store: Store,
    calls: map<nat, Call>,
    minted: map<AtomId, ClaimMeta>,
    activating: set<AtomId>,
    reaped: set<AtomId>)

  function FreshMeta(id: AtomId, token: string, principal: string, brief: Brief, tier: string,
                     parent: Option<AtomId>): ClaimMeta
  {
    ClaimMeta(id, token, principal, brief, Pending, tier, 0, 0, parent, [], None, None)
  }

  predicate Enabled(s: Sys, step: Step) {
    match step
    case Mint(id, _, _, _, _, _) => id !in s.store
    case Activate(id) => id in s.activating && id in s.minted && id in s.store
    case Begin(k, _) => k !in s.calls
    case Run(k, _) => k in s.calls && Running(s.calls[k]) && Formed(s.calls[k])
    case Reap(id, _) => IsClaim(s.store, id)
    case PutForeign(id) => id !in s.store
  }

  // A step that is not enabled changes nothing, so every sequence of steps is a run.
  function Next(s: Sys, step: Step): Sys {
    if !Enabled(s, step) then s
    else
      match step
      case Mint(id, token, principal, brief, tier, parent) =>
        var m := FreshMeta(id, token, principal, brief, tier, parent);
        s.(store := s.store[id := WorkClaim(m)], minted := s.minted[id := m], activating := s.activating + {id})
      case Activate(id) =>
        s.(store := s.store[id := WorkClaim(s.minted[id].(state := Executing))], activating := s.activating - {id})
      case Begin(k, input) => s.(calls := s.calls[k := Started(input)])
      case Run(k, x) =>
        var (c, e) := Advance(s.calls[k], s.store, x);
        s.(store := Apply(s.store, e), calls := s.calls[k := c])
      case Reap(id, move) =>
        s.(store := s.store[id := WorkClaim(Reaped(s.store[id].meta, move))], reaped := s.reaped + {id})
      case PutForeign(id) => s.(store := s.store[id := Foreign])
  }

  const Initial := Sys(map[], map[], map[], {}, {})

  function ExecFrom(s: Sys, steps: seq<Step>): Sys
    decreases |steps|
  {
    if steps == [] then s else ExecFrom(Next(s, steps[0]), steps[1..])
  }

  function Exec(steps: seq<Step>): Sys { ExecFrom(Initial, steps) }

  // ---- Counting the failures on record ----

  predicate InfraAtom(a: Atom, claim: AtomId) { a.Rejected? && a.claim == claim && IsInfra(a.reason) }

  function InfraRejections(s: Store, claim: AtomId): set<AtomId> {
    set id | id in s && InfraAtom(s[id], claim)
  }

  function InfraCount(s: Store, claim: AtomId): nat { |InfraRejections(s, claim)| }

  // Stores only grow, claims stay claims and every other atom is final.
  ghost predicate Extends(s: Store, s': Store) {
    forall id :: id in s ==> id in s' && (if s[id].WorkClaim? then s'[id].WorkClaim? else s'[id] == s[id])
  }

  lemma CountNeverDrops(s: Store, s': Store, claim: AtomId)
    requires Extends(s, s')
    ensures InfraCount(s, claim) <= InfraCount(s', claim)
  {
    SubsetIsNoLarger(InfraRejections(s, claim), InfraRejections(s', claim));
  }

  lemma RecordingCountsOne(s: Store, id: AtomId, a: Atom, claim: AtomId)
    requires id !in s && InfraAtom(a, claim)
    ensures InfraCount(s[id := a], claim) == InfraCount(s, claim) + 1
    ensures forall other :: other != claim ==> InfraCount(s[id := a], other) == InfraCount(s, other)
  {
    assert InfraRejections(s[id := a], claim) == InfraRejections(s, claim) + {id};
    forall other | other != claim
      ensures InfraCount(s[id := a], other) == InfraCount(s, other)
    {
      assert InfraRejections(s[id := a], other) == InfraRejections(s, other);
    }
  }

  // ---- What each record and each call satisfies ----

  // The parts of a claim fixed at dispatch. The reaper may extend the deadline.
  predicate KeepsTerms(m: ClaimMeta, minted: ClaimMeta, reaped: bool) {
    && m.claimId == minted.claimId
    && m.principal == minted.principal
    && m.parent == minted.parent
    && (if reaped then m.brief.(deadline := minted.brief.deadline) == minted.brief else m.brief == minted.brief)
  }

  predicate MetaOk(s: Sys, id: AtomId, m: ClaimMeta) {
    && id in s.minted
    && KeepsTerms(m, s.minted[id], id in s.reaped)
    && m.failures <= InfraCount(s.store, id)
  }

  predicate GateReason(r: Reason) {
    !r.ClaimNotFound? && !r.GroundTruthMismatch? && !IsInfra(r)
  }

  // The audit atom a call with this verdict writes, or that a gate writes.
  predicate AuditFor(c: Call, a: Atom) {
    if c.verdict.Some? then
      (match Judge(c.verdict.value)
       case Accept(o) => a == Accepted(c.input.claim, c.input.caller, o)
       case Mismatch(o) => a == Rejected(c.input.claim, c.input.caller, GroundTruthMismatch, Some(o), None)
       case Infra(r, e) => a == Rejected(c.input.claim, c.input.caller, r, None, e))
    else
      && a.Rejected?
      && GateReason(a.reason)
      && a == Rejected(c.input.claim, c.input.caller, a.reason, None, None)
      && (c.pc.Telegraph? ==> a.reason.AlreadyTerminal?)
      && (c.pc.Returned? ==> c.pc.result == Rejection(a.reason, None))
  }

  predicate BeforeAudit(c: Call) {
    || c.pc.Entry?
    || c.pc.Lookup?
    || c.pc.PutRejection?
    || c.pc.PutAccepted?
    || (c.pc.ReadLatest? && c.pc.goal.Flip?)
    || (c.pc.WriteLatest? && c.pc.goal.Flip?)
    || c.pc.ResolvePolicies?
    || c.pc.Verifying?
  }

  predicate AfterAudit(c: Call) {
    || c.pc.Telegraph?
    || (c.pc.ReadLatest? && c.pc.goal.Settle?)
    || (c.pc.WriteLatest? && c.pc.goal.Settle?)
    || c.pc.PutStalled?
  }

  // How the program counter, the verdict and the pending answer fit together.
  predicate PcOk(c: Call) {
    && Formed(c)
    && (c.verdict.Some? ==> c.snap.Some? && c.cap.Some? && (Settling(c) || c.pc.Returned? || c.pc.Failed?))
    && (c.pc.PutAccepted? ==> c.pc == PcAfterVerdict(Judge(c.verdict.value)))
    && (c.pc.PutRejection? ==>
          if c.verdict.Some? then c.pc == PcAfterVerdict(Judge(c.verdict.value))
          else GateReason(c.pc.reason) && c.pc == PutRejection(c.pc.reason, None, None))
    && (c.pc.Returned? ==>
          if c.verdict.Some? then c.audit.Some? && c.pc.result == ResultOf(Judge(c.verdict.value))
          else c.pc.result.Rejection? && (c.audit.Some? || c.pc.result == Rejection(ClaimNotFound, None)))
    && (BeforeAudit(c) ==> c.audit.None?)
    && (AfterAudit(c) ==> c.audit.Some?)
    && (c.stallNote.Some? ==> c.pc.Returned? && c.verdict.Some? && Judge(c.verdict.value).Infra?)
  }

  predicate CallOk(s: Sys, c: Call) {
    && PcOk(c)
    && (c.snap.Some? ==> MetaOk(s, c.input.claim, c.snap.value) && GatePassed(c.input, c.snap.value))
    && (c.pc.WriteLatest? ==> MetaOk(s, c.input.claim, c.pc.latest))
    && (c.audit.Some? ==> c.audit.value in s.store && AuditFor(c, s.store[c.audit.value]))
    && (c.audit.Some? && c.verdict.Some? && Judge(c.verdict.value).Infra? ==>
          c.snap.value.failures + 1 <= InfraCount(s.store, c.input.claim))
    && (c.stallNote.Some? ==>
          && c.stallNote.value in s.store
          && s.store[c.stallNote.value] ==
             StallNote(c.input.claim, c.input.caller, c.snap.value.recoveryAttempts, c.snap.value.failures + 1))
  }

  // ---- The invariant ----

  // Call k passed every gate of the claim, its verifier confirmed the terminal state,
  // and the acceptance it wrote is on record.
  predicate AcceptedBy(s: Sys, k: nat, id: AtomId) {
    && k in s.calls
    && s.calls[k].input.claim == id
    && s.calls[k].snap.Some?
    && GatePassed(s.calls[k].input, s.calls[k].snap.value)
    && s.calls[k].verdict.Some?
    && s.calls[k].verdict.value.Confirmed?
    && s.calls[k].audit.Some?
    && s.calls[k].audit.value in s.store
    && s.store[s.calls[k].audit.value] == Accepted(id, s.calls[k].input.caller, s.calls[k].verdict.value.observed)
  }

  // Call k saw an infrastructure failure that reached the cap in force for it.
  predicate StalledBy(s: Sys, k: nat, id: AtomId, failures: nat) {
    && k in s.calls
    && s.calls[k].input.claim == id
    && s.calls[k].cap.Some?
    && s.calls[k].cap.value <= failures as real
    && s.calls[k].verdict.Some?
    && Judge(s.calls[k].verdict.value).Infra?
    && (s.calls[k].pc.PutStalled? || s.calls[k].pc.Failed? || s.calls[k].stallNote.Some?)
  }

  predicate IsAudit(a: Atom) { a.Accepted? || a.Rejected? }

  predicate WrittenBy(s: Sys, k: nat, id: AtomId) { k in s.calls && s.calls[k].audit == Some(id) }

  ghost predicate CallsOk(s: Sys) { forall k :: k in s.calls ==> CallOk(s, s.calls[k]) }

  ghost predicate ClaimsOk(s: Sys) {
    && (forall id :: id in s.minted ==> IsClaim(s.store, id))
    && (forall id :: IsClaim(s.store, id) ==> MetaOk(s, id, s.store[id].meta))
    && (forall id :: id in s.minted ==> s.minted[id].failures == 0 && s.minted[id].state.Pending?)
  }

  ghost predicate CompletionsOk(s: Sys) {
    forall id :: IsClaim(s.store, id) && s.store[id].meta.state.Complete? ==> exists k :: AcceptedBy(s, k, id)
  }

  ghost predicate StallsOk(s: Sys) {
    forall id :: IsClaim(s.store, id) && s.store[id].meta.state.Stalled? && id !in s.reaped ==>
      exists k :: StalledBy(s, k, id, s.store[id].meta.failures)
  }

  ghost predicate AuditsOk(s: Sys) {
    && (forall id :: id in s.store && IsAudit(s.store[id]) ==> exists k :: WrittenBy(s, k, id))
    && (forall id, k, k' :: WrittenBy(s, k, id) && WrittenBy(s, k', id) ==> k == k')
  }

  ghost predicate Inv(s: Sys) {
    CallsOk(s) && ClaimsOk(s) && CompletionsOk(s) && StallsOk(s) && AuditsOk(s)
  }

  // ---- A step changes nothing that others rely on ----

  ghost predicate Grows(s: Sys, s': Sys) {
    && Extends(s.store, s'.store)
    && (forall id :: id in s.minted ==> id in s'.minted && s'.minted[id] == s.minted[id])
    && s.reaped <= s'.reaped
  }

  lemma MetaStaysOk(s: Sys, s': Sys, id: AtomId, m: ClaimMeta)
    requires MetaOk(s, id, m) && Grows(s, s')
    ensures MetaOk(s', id, m)
  {
    CountNeverDrops(s.store, s'.store, id);
  }

  lemma CallStaysOk(s: Sys, s': Sys, c: Call)
    requires CallOk(s, c) && Grows(s, s')
    ensures CallOk(s', c)
  {
    CountNeverDrops(s.store, s'.store, c.input.claim);
    if c.snap.Some? { MetaStaysOk(s, s', c.input.claim, c.snap.value); }
    if c.pc.WriteLatest? { MetaStaysOk(s, s', c.input.claim, c.pc.latest); }
  }
}
