// The work-claim protocol of src/substrate/claim-contract.ts as atomic steps:
// one step per point where the source awaits the atom store, the policy reader,
// the notifier or the verifier.

module ClaimProtocol {
  import opened Prelude

  // Atom ids are structured where the source builds them from parts.
  datatype AtomId =
    | Named(name: string)
    | AcceptedId(claim: AtomId, at: int)
    | RejectedId(claim: AtomId, at: int, suffix: nat)
    | StalledId(claim: AtomId, at: int)

  datatype ClaimState = Pending | Executing | Attesting | Complete | Stalled | Abandoned

  datatype Brief = Brief(
    prompt: string,
    promptBlobRef: Option<string>,
    kind: string,
    identifier: string,
    terminalStates: seq<string>,
    deadline: int)

  datatype ClaimMeta = ClaimMeta(
    claimId: AtomId,
    token: string,
    principal: string,
    brief: Brief,
    state: ClaimState,
    budgetTier: string,
    recoveryAttempts: nat,
    failures: nat,
    parent: Option<AtomId>,
    sessions: seq<AtomId>,
    lastRejectedAt: Option<int>,
    latestSessionFinalizedAt: Option<int>)

  datatype Reason =
    | StopSentinel
    | ClaimNotFound
    | AlreadyTerminal
    | TokenMismatch
    | PrincipalMismatch
    | IdentifierMismatch
    | KindMismatch
    | GroundTruthMismatch
    | VerifierError
    | VerifierTimeout

  predicate IsInfra(r: Reason) { r.VerifierError? || r.VerifierTimeout? }

  datatype Atom =
    | WorkClaim(meta: ClaimMeta)
    | Accepted(claim: AtomId, caller: string, observed: string)
    | Rejected(claim: AtomId, caller: string, reason: Reason, seen: Option<string>, error: Option<string>)
    | StallNote(claim: AtomId, caller: string, attemptsAtStall: nat, failuresAtStall: nat)
    | Foreign

  type Store = map<AtomId, Atom>

  predicate IsClaim(s: Store, id: AtomId) { id in s && s[id].WorkClaim? }

  // What the race between the verifier and its timeout can produce. A handler may
  // throw a value; throwing null leaves the source's error marker unset.
  datatype Verdict =
    | Confirmed(observed: string)
    | Refuted(observed: string)
    | Threw(error: Option<string>)
    | TimedOut

  datatype Judgement =
    | Accept(observed: string)
    | Mismatch(observed: string)
    | Infra(reason: Reason, error: Option<string>)

  function Judge(v: Verdict): Judgement {
    match v
    case Confirmed(o) => Accept(o)
    case Refuted(o) => Mismatch(o)
    case Threw(Some(e)) => Infra(VerifierError, Some(e))
    case Threw(None) => Mismatch("VERIFIER_ERROR")
    case TimedOut => Infra(VerifierTimeout, None)
  }

  datatype Result = Acceptance | Rejection(reason: Reason, observed: Option<string>)

  datatype Input = Input(claim: AtomId, token: string, caller: string, kind: string, identifier: string)

  // Gate 8 and the closing update both re-read the record and write it back.
  datatype Goal = Flip | Settle

  datatype Pc =
    | Entry
    | Lookup
    | PutRejection(reason: Reason, observed: Option<string>, error: Option<string>)
    | Telegraph
    | ReadLatest(goal: Goal)
    | WriteLatest(goal: Goal, latest: ClaimMeta)
    | ResolvePolicies
    | Verifying
    | PutAccepted(accepted: string)
    | PutStalled
    | Returned(result: Result)
    | Failed

  // One call in flight: its arguments, program counter and local variables. The last
  // three record which atoms the call has written.
  datatype Call = Call(
    input: Input,
    pc: Pc,
    snap: Option<ClaimMeta>,
    cap: Option<real>,
    verdict: Option<Verdict>,
    audit: Option<AtomId>,
    stallNote: Option<AtomId>)

  function Started(input: Input): Call { Call(input, Entry, None, None, None, None, None) }

  predicate Running(c: Call) { !c.pc.Returned? && !c.pc.Failed? }

  // What the world contributes to one step. `fault` makes the awaited operation throw.
  datatype Choice = Choice(fault: bool, stop: bool, now: int, suffix: nat, cap: real, verdict: Verdict)

  datatype Effect = Quiet | Put(id: AtomId, atom: Atom) | Update(target: AtomId, meta: ClaimMeta)

  function Apply(s: Store, e: Effect): Store {
    match e
    case Quiet => s
    case Put(id, atom) => s[id := atom]
    case Update(id, meta) => s[id := WorkClaim(meta)]
  }

  // Gates 2 to 7, decided together once the atom has been read.
  function Gate(input: Input, s: Store): (r: Option<Reason>)
    ensures r.None? ==> IsClaim(s, input.claim)
  {
    if !IsClaim(s, input.claim) then Some(ClaimNotFound)
    else
      var m := s[input.claim].meta;
      if !m.state.Executing? && !m.state.Attesting? then Some(AlreadyTerminal)
      else if input.token != m.token then Some(TokenMismatch)
      else if input.caller != m.principal then Some(PrincipalMismatch)
      else if input.identifier != m.brief.identifier then Some(IdentifierMismatch)
      else if input.kind != m.brief.kind then Some(KindMismatch)
      else None
  }

  predicate GatePassed(input: Input, m: ClaimMeta) {
    && (m.state.Executing? || m.state.Attesting?)
    && input.token == m.token
    && input.caller == m.principal
    && input.identifier == m.brief.identifier
    && input.kind == m.brief.kind
  }

  // The gates let a call through exactly when all of them match, and name the first that does not.
  lemma GateIsExact(input: Input, s: Store)
    ensures Gate(input, s).None? <==> IsClaim(s, input.claim) && GatePassed(input, s[input.claim].meta)
    ensures Gate(input, s) == Some(ClaimNotFound) <==> !IsClaim(s, input.claim)
    ensures Gate(input, s) == Some(AlreadyTerminal)
            <==> IsClaim(s, input.claim) && s[input.claim].meta.state !in {Executing, Attesting}
    ensures Gate(input, s) == Some(TokenMismatch)
            <==> && IsClaim(s, input.claim) && s[input.claim].meta.state in {Executing, Attesting}
                 && input.token != s[input.claim].meta.token
    ensures Gate(input, s) == Some(PrincipalMismatch)
            <==> && IsClaim(s, input.claim) && s[input.claim].meta.state in {Executing, Attesting}
                 && input.token == s[input.claim].meta.token && input.caller != s[input.claim].meta.principal
    ensures Gate(input, s) == Some(IdentifierMismatch)
            <==> && IsClaim(s, input.claim) && s[input.claim].meta.state in {Executing, Attesting}
                 && input.token == s[input.claim].meta.token && input.caller == s[input.claim].meta.principal
                 && input.identifier != s[input.claim].meta.brief.identifier
    ensures Gate(input, s) == Some(KindMismatch)
            <==> && IsClaim(s, input.claim) && input.kind != s[input.claim].meta.brief.kind
                 && GatePassed(input.(kind := s[input.claim].meta.brief.kind), s[input.claim].meta)
  {
  }

  function StateAfterInfra(nextCount: nat, cap: real): ClaimState {
    if nextCount as real >= cap then Stalled else Attesting
  }

  // The record the closing update writes over `latest`. The failure count comes from
  // the gate-time snapshot, everything else from the latest record.
  function SettledMeta(latest: ClaimMeta, snap: ClaimMeta, cap: real, j: Judgement, now: int): ClaimMeta {
    match j
    case Accept(_) => latest.(state := Complete, failures := 0)
    case Mismatch(_) => latest.(state := Attesting, lastRejectedAt := Some(now))
    case Infra(_, _) =>
      latest.(state := StateAfterInfra(snap.failures + 1, cap),
              failures := snap.failures + 1,
              lastRejectedAt := Some(now))
  }

  function ResultOf(j: Judgement): Result {
    match j
    case Accept(_) => Acceptance
    case Mismatch(o) => Rejection(GroundTruthMismatch, Some(o))
    case Infra(r, _) => Rejection(r, None)
  }

  function PcAfterVerdict(j: Judgement): Pc {
    match j
    case Accept(o) => PutAccepted(o)
    case Mismatch(o) => PutRejection(GroundTruthMismatch, Some(o), None)
    case Infra(r, e) => PutRejection(r, None, e)
  }

  function PcAfterSettling(c: Call, j: Judgement): Pc
    requires c.snap.Some? && c.cap.Some?
  {
    if j.Infra? && StateAfterInfra(c.snap.value.failures + 1, c.cap.value).Stalled? then PutStalled
    else Returned(ResultOf(j))
  }

  predicate PastGates(c: Call) {
    || c.pc.ReadLatest?
    || c.pc.WriteLatest?
    || c.pc.ResolvePolicies?
    || c.pc.Verifying?
    || Settling(c)
  }

  // The locals a program counter relies on are set.
  predicate Formed(c: Call) {
    && (PastGates(c) ==> c.snap.Some?)
    && (Settling(c) ==> c.cap.Some? && c.verdict.Some?)
    && (c.pc.PutStalled? ==> Judge(c.verdict.value).Infra?)
    && (c.pc.Verifying? ==> c.cap.Some?)
  }

  // The verifier has answered and the call is recording the answer.
  predicate Settling(c: Call) {
    || c.pc.PutAccepted?
    || (c.pc.PutRejection? && (c.pc.reason.GroundTruthMismatch? || IsInfra(c.pc.reason)))
    || (c.pc.ReadLatest? && c.pc.goal.Settle?)
    || (c.pc.WriteLatest? && c.pc.goal.Settle?)
    || c.pc.PutStalled?
  }

  function PutAudit(c: Call, s: Store, id: AtomId, atom: Atom, next: Pc): (Call, Effect) {
    if id in s then (c.(pc := Failed), Quiet)
    else (c.(pc := next, audit := Some(id)), Put(id, atom))
  }

  function PcAfterRejection(r: Reason): Pc {
    if r.AlreadyTerminal? then Telegraph
    else if r.GroundTruthMismatch? || IsInfra(r) then ReadLatest(Settle)
    else Returned(Rejection(r, None))
  }

  // One step of `markClaimComplete`.
  function Advance(c: Call, s: Store, x: Choice): (r: (Call, Effect))
    requires Running(c) && Formed(c)
  {
    if x.fault then (c.(pc := Failed), Quiet)
    else
      var id := c.input.claim;
      match c.pc
      case Entry =>
        (c.(pc := if x.stop then PutRejection(StopSentinel, None, None) else Lookup), Quiet)
      case Lookup =>
        (match Gate(c.input, s)
         case Some(ClaimNotFound) => (c.(pc := Returned(Rejection(ClaimNotFound, None))), Quiet)
         case Some(r) => (c.(pc := PutRejection(r, None, None)), Quiet)
         case None => (c.(pc := ReadLatest(Flip), snap := Some(s[id].meta)), Quiet))
      case PutRejection(r, observed, error) =>
        PutAudit(c, s, RejectedId(id, x.now, x.suffix),
                 Rejected(id, c.input.caller, r, observed, error), PcAfterRejection(r))
      case Telegraph => (c.(pc := Returned(Rejection(AlreadyTerminal, None))), Quiet)
      case ReadLatest(goal) =>
        if IsClaim(s, id) then (c.(pc := WriteLatest(goal, s[id].meta)), Quiet)
        else (c.(pc := Failed), Quiet)
      case WriteLatest(Flip, latest) =>
        if id in s then (c.(pc := ResolvePolicies), Update(id, latest.(state := Attesting)))
        else (c.(pc := Failed), Quiet)
      case ResolvePolicies =>
        if x.cap <= 0.0 then (c.(pc := Failed), Quiet)
        else (c.(pc := Verifying, cap := Some(x.cap)), Quiet)
      case Verifying => (c.(pc := PcAfterVerdict(Judge(x.verdict)), verdict := Some(x.verdict)), Quiet)
      case PutAccepted(o) =>
        PutAudit(c, s, AcceptedId(id, x.now), Accepted(id, c.input.caller, o), ReadLatest(Settle))
      case WriteLatest(Settle, latest) =>
        if id in s then
          var j := Judge(c.verdict.value);
          (c.(pc := PcAfterSettling(c, j)),
           Update(id, SettledMeta(latest, c.snap.value, c.cap.value, j, x.now)))
        else (c.(pc := Failed), Quiet)
      case PutStalled =>
        var note := StalledId(id, x.now);
        if note in s then (c.(pc := Failed), Quiet)
        else (c.(pc := Returned(ResultOf(Judge(c.verdict.value))), stallNote := Some(note)),
              Put(note, StallNote(id, c.input.caller, c.snap.value.recoveryAttempts, c.snap.value.failures + 1)))
  }

  lemma AdvanceStaysFormed(c: Call, s: Store, x: Choice)
    requires Running(c) && Formed(c)
    ensures Formed(Advance(c, s, x).0)
  {
  }
}
