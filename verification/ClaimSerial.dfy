// `dispatchSubAgent` and `markClaimComplete` as the imperative code they are, run
// without overlap, and what whole serial histories guarantee.

module ClaimSerial {
  import opened Prelude
  import opened ClaimProtocol
  import opened ClaimRuns
  import opened ClaimAlone

  // The prompt handed to the agent loop carries what an attestation must echo.
  datatype Preamble = Preamble(
    claim: AtomId, token: string, caller: string, kind: string, identifier: string,
    terminalStates: seq<string>, deadline: int, prompt: string)

  // An adapter run, with the store as it stood when the adapter was entered.
  datatype AdapterRun = AdapterRun(preamble: Preamble, storeAtEntry: Store)

  datatype BlobPort = NoBlobStore | Stores(ref: string) | BlobFault

  datatype DispatchInput = DispatchInput(
    brief: Brief, caller: string, tier: Option<string>, parent: Option<AtomId>)

  // What dispatch learns from its surroundings.
  datatype DispatchEnv = DispatchEnv(
    stop: bool, principals: set<string>, kinds: set<string>, now: int, tiers: set<string>,
    blob: BlobPort, claimId: AtomId, token: string, putFault: bool, updateFault: bool)

  datatype DispatchError =
    | StopActive | UnknownCaller | UnknownTerminalKind | DeadlineAlreadyPast | UnknownBudgetTier
    | BlobError | StoreError

  datatype DispatchOutcome = Dispatched(claim: AtomId, token: string) | Refused(error: DispatchError)

  const PROMPT_SPILL_THRESHOLD := 16384

  predicate FailsEarlyGate(input: DispatchInput, env: DispatchEnv) {
    || env.stop
    || input.caller !in env.principals
    || input.brief.kind !in env.kinds
    || input.brief.deadline <= env.now
    || TierOf(input) !in env.tiers
  }

  // Gate 6: a long prompt without a reference is spilled when a blob store is at hand.
  predicate Spills(brief: Brief, blob: BlobPort) {
    brief.promptBlobRef.None? && !blob.NoBlobStore? && |brief.prompt| > PROMPT_SPILL_THRESHOLD
  }

  function TierOf(input: DispatchInput): string { if input.tier.Some? then input.tier.value else "default" }

  // The store after a dispatch, whatever became of it.
  function AfterDispatch(s: Store, input: DispatchInput, env: DispatchEnv): Store {
    if FailsEarlyGate(input, env) || (Spills(input.brief, env.blob) && env.blob.BlobFault?)
       || env.putFault || env.claimId in s
    then s
    else
      var brief := if Spills(input.brief, env.blob) then input.brief.(promptBlobRef := Some(env.blob.ref)) else input.brief;
      var m := FreshMeta(env.claimId, env.token, input.caller, brief, TierOf(input), input.parent);
      s[env.claimId := WorkClaim(if env.updateFault then m else m.(state := Executing))]
  }

  // ---- What dispatch promises, of its input ----

  function Tier(tier: Option<string>): string { if tier == None then "default" else tier.value }

  predicate Passes(input: DispatchInput, env: DispatchEnv) {
    && !env.stop && input.caller in env.principals && input.brief.kind in env.kinds
    && input.brief.deadline > env.now && Tier(input.tier) in env.tiers
  }

  // A prompt without a reference that is longer than 16384 characters.
  predicate IsLong(brief: Brief) { brief.promptBlobRef == None && |brief.prompt| > 16384 }

  // The pending record: the terms as given, the reference of a spilled prompt, and nothing counted yet.
  function NewRecord(input: DispatchInput, env: DispatchEnv): ClaimMeta {
    var b := input.brief;
    var ref := if IsLong(b) && env.blob.Stores? then Some(env.blob.ref) else b.promptBlobRef;
    ClaimMeta(env.claimId, env.token, input.caller,
              Brief(b.prompt, ref, b.kind, b.identifier, b.terminalStates, b.deadline),
              Pending, Tier(input.tier), 0, 0, input.parent, [], None, None)
  }

  // Echoes every field of the preamble the gates compare.
  function Echo(p: Preamble): Input { Input(p.claim, p.token, p.caller, p.kind, p.identifier) }

  // The claim still carries the secret and the terms that its preamble handed out.
  predicate Honours(s: Store, p: Preamble) {
    && IsClaim(s, p.claim)
    && s[p.claim].meta.token == p.token
    && s[p.claim].meta.principal == p.caller
    && s[p.claim].meta.brief.kind == p.kind
    && s[p.claim].meta.brief.identifier == p.identifier
  }

  class ClaimHost {
    var store: Store
    var adapterRuns: seq<AdapterRun>

    constructor ()
      ensures store == map[] && adapterRuns == []
    {
      store, adapterRuns := map[], [];
    }

    method PutAtom(id: AtomId, atom: Atom, fault: bool) returns (ok: bool)
      modifies this`store
      ensures ok == (!fault && id !in old(store))
      ensures store == if ok then old(store)[id := atom] else old(store)
    {
      ok := !fault && id !in store;
      if ok { store := store[id := atom]; }
    }

    method UpdateClaim(id: AtomId, meta: ClaimMeta, fault: bool) returns (ok: bool)
      modifies this`store
      ensures ok == (!fault && id in old(store))
      ensures store == if ok then old(store)[id := WorkClaim(meta)] else old(store)
    {
      ok := !fault && id in store;
      if ok { store := store[id := WorkClaim(meta)]; }
    }

    method WriteRejectionAtom(input: Input, reason: Reason, seen: Option<string>, error: Option<string>, x: Choice)
        returns (ok: bool)
      modifies this`store
      ensures
        var id := RejectedId(input.claim, x.now, x.suffix);
        && ok == (!x.fault && id !in old(store))
        && store == if ok then old(store)[id := Rejected(input.claim, input.caller, reason, seen, error)] else old(store)
    {
      ok := PutAtom(RejectedId(input.claim, x.now, x.suffix),
                    Rejected(input.claim, input.caller, reason, seen, error), x.fault);
    }

    method ReadLatestClaimMeta(id: AtomId, fault: bool) returns (latest: Option<ClaimMeta>)
      ensures latest == if !fault && IsClaim(store, id) then Some(store[id].meta) else None
    {
      latest := None;
      if !fault && id in store && store[id].WorkClaim? { latest := Some(store[id].meta); }
    }

    // A gate other than the verifier refused: record it and report it.
    method RefuseAtGate(input: Input, reason: Reason, env: nat -> Choice, i: nat, ghost c: Call) returns (end: Pc)
      requires c.input == input && c.pc == PutRejection(reason, None, None)
      requires Formed(c) && GateReason(reason)
      modifies this`store
      ensures end == Alone(c, old(store), env, i).0.pc
      ensures store == Alone(c, old(store), env, i).1
    {
      ghost var before := store;
      var ok := WriteRejectionAtom(input, reason, None, None, env(i));
      ghost var (c1, e) := Advance(c, before, env(i));
      assert store == Apply(before, e);
      assert Alone(c, before, env, i) == Alone(c1, store, env, i + 1);
      if !ok { return Failed; }
      if reason.AlreadyTerminal? {
        // The misbehaviour event goes to the notifier, which may fail.
        TelegraphEnds(c1, store, env, i + 1);
        if env(i + 1).fault { return Failed; }
      }
      end := Returned(Rejection(reason, None));
    }

    // Verifier error or timeout: record it, count it, and stall the claim at the cap.
    method FinalizeVerifierInfraFailure(input: Input, meta: ClaimMeta, reason: Reason, error: Option<string>,
                                        cap: real, env: nat -> Choice, ghost c: Call) returns (end: Pc)
      requires c.input == input && c.snap == Some(meta) && c.cap == Some(cap) && Formed(c)
      requires c.verdict.Some? && Judge(c.verdict.value) == Infra(reason, error)
      requires c.pc == PutRejection(reason, None, error) && IsInfra(reason)
      modifies this`store
      ensures end == Alone(c, old(store), env, 6).0.pc
      ensures store == Alone(c, old(store), env, 6).1
    {
      ghost var s0 := store;
      ghost var (c1, e1) := Advance(c, s0, env(6));
      assert Alone(c, s0, env, 6) == Alone(c1, Apply(s0, e1), env, 7);
      var nextCount := meta.failures + 1;
      var ok := WriteRejectionAtom(input, reason, None, error, env(6));
      assert store == Apply(s0, e1);
      if !ok { return Failed; }
      var nextState := if nextCount as real >= cap then Stalled else Attesting;
      end := CountFailure(input, meta, nextCount, nextState, reason, env, c1);
    }

    method CountFailure(input: Input, meta: ClaimMeta, nextCount: nat, nextState: ClaimState, reason: Reason,
                        env: nat -> Choice, ghost c: Call) returns (end: Pc)
      requires c.input == input && c.snap == Some(meta) && c.cap.Some? && Formed(c)
      requires c.verdict.Some? && Judge(c.verdict.value).Infra? && Judge(c.verdict.value).reason == reason
      requires c.pc == ReadLatest(Settle)
      requires nextCount == meta.failures + 1 && nextState == StateAfterInfra(nextCount, c.cap.value)
      modifies this`store
      ensures end == Alone(c, old(store), env, 7).0.pc
      ensures store == Alone(c, old(store), env, 7).1
    {
      ghost var s0 := store;
      ghost var c1 := Advance(c, s0, env(7)).0;
      assert Alone(c, s0, env, 7) == Alone(c1, s0, env, 8);
      var latest := ReadLatestClaimMeta(input.claim, env(7).fault);
      if latest.None? { return Failed; }
      ghost var (c2, e2) := Advance(c1, s0, env(8));
      assert Alone(c1, s0, env, 8) == Alone(c2, Apply(s0, e2), env, 9);
      var ok := UpdateClaim(input.claim,
                            latest.value.(state := nextState, failures := nextCount, lastRejectedAt := Some(env(8).now)),
                            env(8).fault);
      assert store == Apply(s0, e2);
      if !ok { return Failed; }
      if nextState == Stalled {
        ok := WriteStalledAtom(input, meta, nextCount, reason, env, c2);
        if !ok { return Failed; }
      }
      end := Returned(Rejection(reason, None));
    }

    // The claim has reached the cap: leave a note for whoever looks after stalled claims.
    method WriteStalledAtom(input: Input, meta: ClaimMeta, nextCount: nat, reason: Reason, env: nat -> Choice, ghost c: Call)
        returns (ok: bool)
      requires c.input == input && c.snap == Some(meta) && Formed(c) && c.pc == PutStalled
      requires nextCount == meta.failures + 1 && ResultOf(Judge(c.verdict.value)) == Rejection(reason, None)
      modifies this`store
      ensures (if ok then Returned(Rejection(reason, None)) else Failed) == Alone(c, old(store), env, 9).0.pc
      ensures store == Alone(c, old(store), env, 9).1
    {
      ghost var (c1, e) := Advance(c, store, env(9));
      assert Alone(c, store, env, 9) == Alone(c1, Apply(store, e), env, 10);
      ok := PutAtom(StalledId(input.claim, env(9).now),
                    StallNote(input.claim, input.caller, meta.recoveryAttempts, nextCount), env(9).fault);
    }

    // The verifier confirmed: record the acceptance, then complete the claim.
    method AcceptClaim(input: Input, observed: string, env: nat -> Choice, ghost c: Call) returns (end: Pc)
      requires c.input == input && c.snap.Some? && c.cap.Some? && Formed(c)
      requires c.verdict == Some(Confirmed(observed)) && c.pc == PutAccepted(observed)
      modifies this`store
      ensures end == Alone(c, old(store), env, 6).0.pc
      ensures store == Alone(c, old(store), env, 6).1
    {
      ghost var s0 := store;
      ghost var (c1, e1) := Advance(c, s0, env(6));
      assert Alone(c, s0, env, 6) == Alone(c1, Apply(s0, e1), env, 7);
      var ok := PutAtom(AcceptedId(input.claim, env(6).now), Accepted(input.claim, input.caller, observed), env(6).fault);
      assert store == Apply(s0, e1);
      if !ok { return Failed; }
      ghost var s1 := store;
      ghost var c2 := Advance(c1, s1, env(7)).0;
      assert Alone(c1, s1, env, 7) == Alone(c2, s1, env, 8);
      var latest := ReadLatestClaimMeta(input.claim, env(7).fault);
      if latest.None? { return Failed; }
      ghost var (c3, e3) := Advance(c2, s1, env(8));
      assert Alone(c2, s1, env, 8) == Alone(c3, Apply(s1, e3), env, 9);
      ok := UpdateClaim(input.claim, latest.value.(state := Complete, failures := 0), env(8).fault);
      assert store == Apply(s1, e3);
      if !ok { return Failed; }
      end := Returned(Acceptance);
    }

    // The verifier saw a different state: record it and leave the claim attesting.
    method RejectMismatch(input: Input, observed: string, env: nat -> Choice, ghost c: Call) returns (end: Pc)
      requires c.input == input && c.snap.Some? && c.cap.Some? && Formed(c)
      requires c.verdict.Some? && Judge(c.verdict.value) == Mismatch(observed)
      requires c.pc == PutRejection(GroundTruthMismatch, Some(observed), None)
      modifies this`store
      ensures end == Alone(c, old(store), env, 6).0.pc
      ensures store == Alone(c, old(store), env, 6).1
    {
      ghost var s0 := store;
      ghost var (c1, e1) := Advance(c, s0, env(6));
      assert Alone(c, s0, env, 6) == Alone(c1, Apply(s0, e1), env, 7);
      var ok := WriteRejectionAtom(input, GroundTruthMismatch, Some(observed), None, env(6));
      assert store == Apply(s0, e1);
      if !ok { return Failed; }
      ghost var s1 := store;
      ghost var c2 := Advance(c1, s1, env(7)).0;
      assert Alone(c1, s1, env, 7) == Alone(c2, s1, env, 8);
      var latest := ReadLatestClaimMeta(input.claim, env(7).fault);
      if latest.None? { return Failed; }
      ghost var (c3, e3) := Advance(c2, s1, env(8));
      assert Alone(c2, s1, env, 8) == Alone(c3, Apply(s1, e3), env, 9);
      ok := UpdateClaim(input.claim, latest.value.(state := Attesting, lastRejectedAt := Some(env(8).now)), env(8).fault);
      assert store == Apply(s1, e3);
      if !ok { return Failed; }
      end := Returned(Rejection(GroundTruthMismatch, Some(observed)));
    }

    // Gate 9: ask the verifier, and close the call according to its answer.
    method Attest(input: Input, meta: ClaimMeta, env: nat -> Choice, ghost c: Call) returns (end: Pc)
      requires c.input == input && c.snap == Some(meta) && Formed(c) && c.pc == ResolvePolicies
      modifies this`store
      ensures end == Alone(c, old(store), env, 4).0.pc
      ensures store == Alone(c, old(store), env, 4).1
    {
      ghost var c1 := Advance(c, store, env(4)).0;
      assert Alone(c, store, env, 4) == Alone(c1, store, env, 5);
      if env(4).fault || env(4).cap <= 0.0 { return Failed; }
      var failureCap := env(4).cap;
      ghost var c2 := Advance(c1, store, env(5)).0;
      assert Alone(c1, store, env, 5) == Alone(c2, store, env, 6);
      if env(5).fault { return Failed; }
      match env(5).verdict {
        case Confirmed(observed) => end := AcceptClaim(input, observed, env, c2);
        case Refuted(observed) => end := RejectMismatch(input, observed, env, c2);
        case Threw(None) => end := RejectMismatch(input, "VERIFIER_ERROR", env, c2);
        case Threw(Some(message)) =>
          end := FinalizeVerifierInfraFailure(input, meta, VerifierError, Some(message), failureCap, env, c2);
        case TimedOut =>
          end := FinalizeVerifierInfraFailure(input, meta, VerifierTimeout, None, failureCap, env, c2);
      }
    }

    // Gates 4 to 8 over the record read at gate 2.
    method PassGates(input: Input, meta: ClaimMeta, env: nat -> Choice, ghost c: Call) returns (end: Pc)
      requires IsClaim(store, input.claim) && store[input.claim].meta == meta
      requires meta.state.Executing? || meta.state.Attesting?
      requires c == Started(input).(pc := Lookup) && !env(1).fault
      modifies this`store
      ensures end == Alone(c, old(store), env, 1).0.pc
      ensures store == Alone(c, old(store), env, 1).1
    {
      ghost var s0 := store;
      ghost var c1 := Advance(c, s0, env(1)).0;
      assert Alone(c, s0, env, 1) == Alone(c1, s0, env, 2);
      if input.token != meta.token {
        end := RefuseAtGate(input, TokenMismatch, env, 2, c1);
        return;
      }
      if input.caller != meta.principal {
        end := RefuseAtGate(input, PrincipalMismatch, env, 2, c1);
        return;
      }
      if input.identifier != meta.brief.identifier {
        end := RefuseAtGate(input, IdentifierMismatch, env, 2, c1);
        return;
      }
      if input.kind != meta.brief.kind {
        end := RefuseAtGate(input, KindMismatch, env, 2, c1);
        return;
      }
      var gate8Meta := ReadLatestClaimMeta(input.claim, env(2).fault);
      ghost var c2 := Advance(c1, s0, env(2)).0;
      assert Alone(c1, s0, env, 2) == Alone(c2, s0, env, 3);
      if gate8Meta.None? { return Failed; }
      ghost var (c3, e3) := Advance(c2, s0, env(3));
      assert Alone(c2, s0, env, 3) == Alone(c3, Apply(s0, e3), env, 4);
      var ok := UpdateClaim(input.claim, gate8Meta.value.(state := Attesting), env(3).fault);
      assert store == Apply(s0, e3);
      if !ok { return Failed; }
      end := Attest(input, meta, env, c3);
    }

    // `markClaimComplete` does what its steps do when nothing runs in between, and ends as `Ends` says;
    // while STOP is on, that is one rejection on record and the claim as it was.
    method MarkClaimComplete(input: Input, env: nat -> Choice) returns (end: Pc)
      modifies this`store
      ensures end == Alone(Started(input), old(store), env, 0).0.pc
      ensures store == Alone(Started(input), old(store), env, 0).1
      ensures Ends(old(store), input, env, end, store)
      ensures
        var id := RejectedId(input.claim, env(1).now, env(1).suffix);
        env(0).stop && !env(0).fault && !env(1).fault && id !in old(store) ==>
          && end == Returned(Rejection(StopSentinel, None))
          && store == old(store)[id := Rejected(input.claim, input.caller, StopSentinel, None, None)]
    {
      ghost var s0 := store;
      ghost var c0 := Started(input);
      AloneEnds(input, s0, env);
      ghost var c1 := Advance(c0, s0, env(0)).0;
      assert Alone(c0, s0, env, 0) == Alone(c1, s0, env, 1);
      if env(0).fault { return Failed; }
      if env(0).stop {
        end := RefuseAtGate(input, StopSentinel, env, 1, c1);
        return;
      }
      ghost var c2 := Advance(c1, s0, env(1)).0;
      assert Alone(c1, s0, env, 1) == Alone(c2, s0, env, 2);
      if env(1).fault { return Failed; }
      if input.claim !in store || !store[input.claim].WorkClaim? {
        return Returned(Rejection(ClaimNotFound, None));
      }
      var meta := store[input.claim].meta;
      if meta.state != Executing && meta.state != Attesting {
        end := RefuseAtGate(input, AlreadyTerminal, env, 2, c2);
        return;
      }
      end := PassGates(input, meta, env, c1);
    }

    // `dispatchSubAgent`: each error exactly when its gate is the first that fails, and then no trace;
    // otherwise the pending claim is on record before the adapter's one run starts, and executing
    // afterwards. The run is handed the terms and the prompt, the record keeps them.
    method DispatchSubAgent(input: DispatchInput, env: DispatchEnv) returns (out: DispatchOutcome)
      modifies this
      ensures out == Refused(StopActive) <==> env.stop
      ensures out == Refused(UnknownCaller) <==> !env.stop && input.caller !in env.principals
      ensures out == Refused(UnknownTerminalKind)
              <==> !env.stop && input.caller in env.principals && input.brief.kind !in env.kinds
      ensures out == Refused(DeadlineAlreadyPast)
              <==> && !env.stop && input.caller in env.principals && input.brief.kind in env.kinds
                   && input.brief.deadline <= env.now
      ensures out == Refused(UnknownBudgetTier)
              <==> && !env.stop && input.caller in env.principals && input.brief.kind in env.kinds
                   && input.brief.deadline > env.now && Tier(input.tier) !in env.tiers
      ensures out == Refused(BlobError) <==> Passes(input, env) && IsLong(input.brief) && env.blob.BlobFault?
      ensures out == Refused(StoreError)
              <==> && Passes(input, env) && !(IsLong(input.brief) && env.blob.BlobFault?)
                   && (env.putFault || env.claimId in old(store) || env.updateFault)
      ensures out.Dispatched? ==> out == Dispatched(env.claimId, env.token)
      ensures
        var entered := Passes(input, env) && !(IsLong(input.brief) && env.blob.BlobFault?)
                       && !env.putFault && env.claimId !in old(store);
        if !entered then store == old(store) && adapterRuns == old(adapterRuns)
        else
          var pending := NewRecord(input, env);
          && adapterRuns == old(adapterRuns) + [AdapterRun(
               Preamble(env.claimId, env.token, input.caller, input.brief.kind, input.brief.identifier,
                        input.brief.terminalStates, input.brief.deadline, input.brief.prompt),
               old(store)[env.claimId := WorkClaim(pending)])]
          && store == old(store)[env.claimId :=
                        WorkClaim(if env.updateFault then pending else pending.(state := Executing))]
      ensures store == AfterDispatch(old(store), input, env)
      ensures out.Dispatched? ==>
        && |adapterRuns| == |old(adapterRuns)| + 1
        && var run := adapterRuns[|old(adapterRuns)|];
           IsClaim(store, env.claimId) && GatePassed(Echo(run.preamble), store[env.claimId].meta)
           && Honours(store, run.preamble)
    {
      if env.stop { return Refused(StopActive); }
      if input.caller !in env.principals { return Refused(UnknownCaller); }
      if input.brief.kind !in env.kinds { return Refused(UnknownTerminalKind); }
      if input.brief.deadline <= env.now { return Refused(DeadlineAlreadyPast); }
      var tier := TierOf(input);
      if tier !in env.tiers { return Refused(UnknownBudgetTier); }

      var promptBlobRef := input.brief.promptBlobRef;
      if promptBlobRef == None && env.blob != NoBlobStore && |input.brief.prompt| > PROMPT_SPILL_THRESHOLD {
        if env.blob == BlobFault { return Refused(BlobError); }
        promptBlobRef := Some(env.blob.ref);
      }
      var brief := input.brief.(promptBlobRef := promptBlobRef);
      var meta := FreshMeta(env.claimId, env.token, input.caller, brief, tier, input.parent);
      var ok := PutAtom(env.claimId, WorkClaim(meta), env.putFault);
      if !ok { return Refused(StoreError); }

      var preamble := Preamble(env.claimId, env.token, input.caller, brief.kind, brief.identifier,
                               brief.terminalStates, brief.deadline, brief.prompt);
      adapterRuns := adapterRuns + [AdapterRun(preamble, store)];
      ok := UpdateClaim(env.claimId, meta.(state := Executing), env.updateFault);
      if !ok { return Refused(StoreError); }
      out := Dispatched(env.claimId, env.token);
    }
  }
}
