// What the reaper's recovery writes to a record, and exactly when that stays.

module ClaimTokens {
  import opened Prelude
  import opened ClaimProtocol
  import opened ClaimRuns
  import opened ClaimInvariant
  import opened ClaimTheorems
  import opened ClaimOverlap

  // What a recovery leaves behind: a token other than t, or at least so many recovery attempts.
  datatype Mark = TokenIsNot(token: string) | AttemptsAtLeast(attempts: nat)

  predicate Holds(mark: Mark, m: ClaimMeta) {
    match mark
    case TokenIsNot(t) => m.token != t
    case AttemptsAtLeast(n) => m.recoveryAttempts >= n
  }

  // A step that does not give claim id the token anew. Nothing is asked for the attempts.
  predicate Allowed(step: Step, id: AtomId, mark: Mark) {
    mark.TokenIsNot? ==> !(step.Reap? && step.reaped == id && step.move.Recover? && step.move.token == mark.token)
  }

  predicate Allows(steps: seq<Step>, id: AtomId, mark: Mark) {
    forall i :: 0 <= i < |steps| ==> Allowed(steps[i], id, mark)
  }

  // The call's next write to claim id is a record without the mark.
  predicate WritesUnmarked(c: Call, id: AtomId, mark: Mark) {
    c.input.claim == id && c.pc.WriteLatest? && !Holds(mark, c.pc.latest)
  }

  // The record has the mark, and so has every copy of it that is about to be written back.
  ghost predicate Settled(s: Sys, id: AtomId, mark: Mark) {
    && IsClaim(s.store, id)
    && Holds(mark, s.store[id].meta)
    && (forall k :: k in s.calls ==> !WritesUnmarked(s.calls[k], id, mark))
    && (id in s.activating && id in s.minted ==> Holds(mark, s.minted[id]))
  }

  // ---- A settled mark stays ----

  lemma AdvanceKeepsMark(c: Call, s: Store, x: Choice, id: AtomId, mark: Mark)
    requires PcOk(c) && Running(c) && IsClaim(s, id)
    requires Holds(mark, s[id].meta) && !WritesUnmarked(c, id, mark)
    ensures
      var (c', e) := Advance(c, s, x);
      && !WritesUnmarked(c', id, mark)
      && IsClaim(Apply(s, e), id)
      && Holds(mark, Apply(s, e)[id].meta)
  {
    StepsThatAudit(c, s, x);
  }

  lemma StepKeepsMark(s: Sys, step: Step, id: AtomId, mark: Mark)
    requires CallsOk(s) && Settled(s, id, mark) && Allowed(step, id, mark)
    ensures Settled(Next(s, step), id, mark)
  {
    if step.Run? && Enabled(s, step) {
      assert CallOk(s, s.calls[step.call]);
      AdvanceKeepsMark(s.calls[step.call], s.store, step.choice, id, mark);
      hide Advance;
      hide CallOk;
    }
  }

  lemma {:induction false} SettledStays(s: Sys, steps: seq<Step>, id: AtomId, mark: Mark)
    requires Inv(s) && Settled(s, id, mark) && Allows(steps, id, mark)
    ensures Settled(ExecFrom(s, steps), id, mark)
    decreases |steps|
  {
    hide CallsOk;
    hide ClaimsOk;
    hide Settled;
    hide Next;
    if steps != [] {
      StepKeepsMark(s, steps[0], id, mark);
      NextKeepsInv(s, steps[0]);
      SettledStays(Next(s, steps[0]), steps[1..], id, mark);
    }
  }

  // ---- An unsettled one can be lost ----

  predicate HasMark(s: Sys, id: AtomId, mark: Mark) { IsClaim(s.store, id) && Holds(mark, s.store[id].meta) }

  lemma StaleWriteLosesMark(s: Sys, k: nat, x: Choice, id: AtomId, mark: Mark)
    requires k in s.calls && Formed(s.calls[k]) && WritesUnmarked(s.calls[k], id, mark) && !x.fault
    requires IsClaim(s.store, id)
    ensures !HasMark(Next(s, Run(k, x)), id, mark)
  {
  }

  lemma OpenDispatchLosesMark(s: Sys, id: AtomId, mark: Mark)
    requires id in s.activating && id in s.minted && id in s.store && !Holds(mark, s.minted[id])
    ensures !HasMark(Next(s, Activate(id)), id, mark)
  {
  }

  lemma UnsettledCanBeLost(s: Sys, id: AtomId, mark: Mark) returns (steps: seq<Step>)
    requires Inv(s) && IsClaim(s.store, id) && !Settled(s, id, mark)
    ensures Allows(steps, id, mark) && !HasMark(ExecFrom(s, steps), id, mark)
  {
    if !Holds(mark, s.store[id].meta) {
      steps := [];
    } else if k: nat :| k in s.calls && WritesUnmarked(s.calls[k], id, mark) {
      var x := Answering(TimedOut, 0);
      assert CallOk(s, s.calls[k]);
      StaleWriteLosesMark(s, k, x, id, mark);
      hide *;
      steps := [Run(k, x)];
      OneStepThen(s, Run(k, x), []);
      assert [Run(k, x)] + [] == steps;
    } else {
      steps := [Activate(id)];
      OpenDispatchLosesMark(s, id, mark);
      OneStepThen(s, Activate(id), []);
      assert [Activate(id)] + [] == steps;
    }
  }

  // Whatever follows, the record keeps the mark, exactly when every copy of the record that is about
  // to be written back has it too.
  lemma MarkStaysExactlyWhen(s: Sys, id: AtomId, mark: Mark)
    requires Inv(s) && IsClaim(s.store, id)
    ensures (forall more :: Allows(more, id, mark) ==> HasMark(ExecFrom(s, more), id, mark)) <==> Settled(s, id, mark)
  {
    if Settled(s, id, mark) {
      forall more | Allows(more, id, mark)
        ensures HasMark(ExecFrom(s, more), id, mark)
      {
        SettledStays(s, more, id, mark);
      }
    } else {
      var more := UnsettledCanBeLost(s, id, mark);
    }
  }

  // ---- Recovery attempts ----

  // Both merges are said to preserve the reaper's bump of the recovery attempts. They do, in every
  // continuation, exactly when no call on the claim is about to write back a record with fewer, and no
  // dispatch that would start the claim over is still open.
  lemma AttemptsNeverFallExactlyWhen(steps: seq<Step>, id: AtomId)
    requires IsClaim(Exec(steps).store, id)
    ensures
      var s := Exec(steps);
      var attempts := s.store[id].meta.recoveryAttempts;
      (forall more ::
         var later := ExecFrom(s, more);
         IsClaim(later.store, id) && later.store[id].meta.recoveryAttempts >= attempts)
      <==>
      && (forall k :: k in s.calls && s.calls[k].input.claim == id && s.calls[k].pc.WriteLatest? ==>
            s.calls[k].pc.latest.recoveryAttempts >= attempts)
      && (id in s.activating && id in s.minted ==> s.minted[id].recoveryAttempts >= attempts)
  {
    var s, mark := Exec(steps), AttemptsAtLeast(Exec(steps).store[id].meta.recoveryAttempts);
    InvHolds(steps);
    MarkStaysExactlyWhen(s, id, mark);
    assert Settled(s, id, mark) <==>
      && (forall k :: k in s.calls ==> !WritesUnmarked(s.calls[k], id, mark))
      && (id in s.activating && id in s.minted ==> Holds(mark, s.minted[id]));
    forall more
      ensures HasMark(ExecFrom(s, more), id, mark)
              <==> var later := ExecFrom(s, more);
                   IsClaim(later.store, id) && later.store[id].meta.recoveryAttempts >= mark.attempts
    {
    }
    hide Inv;
    hide ExecFrom;
  }

  // ---- Tokens ----

  // A call on claim id that holds token t has passed the gates.
  predicate Entered(c: Call, id: AtomId, t: string) { c.input.claim == id && c.input.token == t && c.snap.Some? }

  // Every call on claim id that holds token t and has passed the gates had done so in s.
  predicate NobodyEnters(s: Sys, later: Sys, id: AtomId, t: string) {
    forall k :: k in later.calls && Entered(later.calls[k], id, t) ==> k in s.calls && s.calls[k].snap.Some?
  }

  lemma StepAdmitsNobody(s: Sys, step: Step, id: AtomId, t: string)
    requires CallsOk(s) && HasMark(s, id, TokenIsNot(t))
    ensures NobodyEnters(s, Next(s, step), id, t)
  {
    if step.Run? && Enabled(s, step) {
      assert CallOk(s, s.calls[step.call]);
      StepsThatRead(s.calls[step.call], s.store, step.choice);
      hide Advance;
      hide CallOk;
    }
  }

  lemma {:induction false} SettledAdmitsNobody(s: Sys, steps: seq<Step>, id: AtomId, t: string)
    requires Inv(s) && Settled(s, id, TokenIsNot(t)) && Allows(steps, id, TokenIsNot(t))
    ensures NobodyEnters(s, ExecFrom(s, steps), id, t)
    decreases |steps|
  {
    if steps != [] {
      var s', later := Next(s, steps[0]), ExecFrom(s, steps);
      StepAdmitsNobody(s, steps[0], id, t);
      StepKeepsMark(s, steps[0], id, TokenIsNot(t));
      NextKeepsInv(s, steps[0]);
      hide Next;
      hide CallsOk;
      hide ClaimsOk;
      hide Settled;
      SettledAdmitsNobody(s', steps[1..], id, t);
      forall k | k in later.calls && Entered(later.calls[k], id, t)
        ensures k in s.calls && s.calls[k].snap.Some?
      {
        InputStays(s', steps[1..], k);
      }
    }
  }

  // Once the record no longer carries token t, and unless the reaper draws t again, t never comes back
  // and no call holding it passes the gates any more, in every continuation, exactly when no call on
  // the claim is about to write back a record that carries t and no open dispatch does.
  lemma OldTokenIsGoneExactlyWhen(steps: seq<Step>, id: AtomId, t: string)
    requires IsClaim(Exec(steps).store, id) && Exec(steps).store[id].meta.token != t
    ensures
      var s := Exec(steps);
      (forall more :: Allows(more, id, TokenIsNot(t)) ==>
         var later := ExecFrom(s, more);
         HasMark(later, id, TokenIsNot(t)) && NobodyEnters(s, later, id, t))
      <==>
      && (forall k :: k in s.calls && s.calls[k].input.claim == id && s.calls[k].pc.WriteLatest? ==>
            s.calls[k].pc.latest.token != t)
      && (id in s.activating && id in s.minted ==> s.minted[id].token != t)
  {
    var s, mark := Exec(steps), TokenIsNot(t);
    InvHolds(steps);
    assert Settled(s, id, mark) <==>
      && (forall k :: k in s.calls ==> !WritesUnmarked(s.calls[k], id, mark))
      && (id in s.activating && id in s.minted ==> Holds(mark, s.minted[id]));
    MarkStaysExactlyWhen(s, id, mark);
    hide Inv;
    hide ExecFrom;
    if Settled(s, id, mark) {
      hide Settled;
      forall more | Allows(more, id, mark)
        ensures NobodyEnters(s, ExecFrom(s, more), id, t)
      {
        SettledAdmitsNobody(s, more, id, t);
      }
    }
  }

  // ---- A rotation undone ----

  // The shared claim with record m, moved by the reaper, and the two calls that passed its gates.
  function Rotated(m: ClaimMeta, first: Call): Sys {
    Sys(map[Named("c") := WorkClaim(m)], map[0 := first, 1 := Passed()], map[Named("c") := SharedMeta()], {},
        {Named("c")})
  }

  function BeforeRecovery(): ClaimMeta { SharedMeta().(state := Executing) }

  const STALL := Reap(Named("c"), FlipToStalled)

  const RECOVERY := Reap(Named("c"), Recover("u", "high", 10))

  function AfterRecovery(): ClaimMeta { Reaped(BeforeRecovery().(state := Stalled), RECOVERY.move) }

  function AboutToFlip(): Call { Passed().(pc := WriteLatest(Flip, BeforeRecovery())) }

  function Flipped(): Call { Passed().(pc := ResolvePolicies) }

  lemma ReadsThenRecovered(v: Verdict)
    ensures
      Next(Next(Next(Shared(map[0 := Passed(), 1 := Passed()]), Run(0, Answering(v, 0))), STALL), RECOVERY)
      == Rotated(AfterRecovery(), AboutToFlip())
  {
    var s := Next(Shared(map[0 := Passed(), 1 := Passed()]), Run(0, Answering(v, 0)));
    assert s == Shared(map[0 := AboutToFlip(), 1 := Passed()]);
    assert Next(s, STALL) == Rotated(BeforeRecovery().(state := Stalled), AboutToFlip());
  }

  lemma FlipPutsTheOldTokenBack(v: Verdict)
    ensures Next(Rotated(AfterRecovery(), AboutToFlip()), Run(0, Answering(v, 0)))
            == Rotated(BeforeRecovery().(state := Attesting), Flipped())
  {
  }

  lemma ThreeSteps(s: Sys, a: Step, b: Step, c: Step)
    ensures ExecFrom(s, [a, b, c]) == Next(Next(Next(s, a), b), c)
  {
    OneStepThen(s, a, [b, c]);
    assert [a] + [b, c] == [a, b, c];
    TwoSteps(Next(s, a), b, c);
  }

  lemma RecoveryHappens(v: Verdict) returns (steps: seq<Step>)
    ensures Exec(steps) == Rotated(AfterRecovery(), AboutToFlip())
  {
    var x := Answering(v, 0);
    var start := OverlapPrefix(v);
    ReadsThenRecovered(v);
    hide Next;
    hide ExecFrom;
    hide Exec;
    ThreeSteps(Exec(start), Run(0, x), STALL, RECOVERY);
    steps := start + [Run(0, x), STALL, RECOVERY];
    ExecutesOn(start, [Run(0, x), STALL, RECOVERY]);
  }

  // The state after the stale flip.
  function Undone(): Sys { Rotated(BeforeRecovery().(state := Attesting), Flipped()) }

  lemma LateCallEnters(v: Verdict)
    ensures
      var x := Answering(v, 0);
      var s := Next(Next(Next(Undone(), Begin(2, SharedInput())), Run(2, x)), Run(2, x));
      && IsClaim(s.store, Named("c")) && s.store[Named("c")].meta.token == "t"
      && 2 in s.calls && s.calls[2].pc == ReadLatest(Flip) && s.calls[2].input == SharedInput() && s.calls[2].snap.Some?
  {
  }

  lemma LateCallReaches(v: Verdict) returns (steps: seq<Step>)
    requires Inv(Undone())
    ensures Allows(steps, Named("c"), TokenIsNot("t"))
    ensures
      var s := ExecFrom(Undone(), steps);
      && Inv(s) && IsClaim(s.store, Named("c")) && s.store[Named("c")].meta.token == "t"
      && 2 in s.calls && s.calls[2].pc == ReadLatest(Flip) && s.calls[2].input == SharedInput() && s.calls[2].snap.Some?
  {
    var x := Answering(v, 0);
    steps := [Begin(2, SharedInput()), Run(2, x), Run(2, x)];
    assert Allows(steps, Named("c"), TokenIsNot("t"));
    LateCallEnters(v);
    hide *;
    ThreeSteps(Undone(), steps[0], steps[1], steps[2]);
    RunsKeepInv(Undone(), steps);
  }

  // A call just past the gates is accepted by its own steps, under whatever token the record carries.
  lemma CallIsAccepted(s: Sys, k: nat, id: AtomId) returns (steps: seq<Step>)
    requires Inv(s) && k in s.calls && s.calls[k].pc == ReadLatest(Flip) && s.calls[k].snap.Some?
    requires s.calls[k].input.claim == id && IsClaim(s.store, id)
    ensures OwnSteps(steps, k)
    ensures
      var s' := ExecFrom(s, steps);
      && IsComplete(s', id) && s'.store[id].meta.token == s.store[id].meta.token
      && k in s'.calls && s'.calls[k].input == s.calls[k].input && s'.calls[k].pc == Returned(Acceptance)
  {
    hide Inv;
    hide Next;
    hide ExecFrom;
    steps := StaleCallCanClose(s, k, id, s.calls[k].snap.value, Confirmed(""));
    InputStays(s, steps, k);
  }

  lemma LateCallIsAccepted() returns (more: seq<Step>)
    requires Inv(Undone())
    ensures Allows(more, Named("c"), TokenIsNot("t"))
    ensures
      var s := ExecFrom(Undone(), more);
      && IsComplete(s, Named("c")) && s.store[Named("c")].meta.token == "t"
      && 2 in s.calls && s.calls[2].input == SharedInput() && s.calls[2].pc == Returned(Acceptance)
  {
    hide Inv;
    hide ExecFrom;
    hide Undone;
    var enter := LateCallReaches(TimedOut);
    var s := ExecFrom(Undone(), enter);
    var last := CallIsAccepted(s, 2, Named("c"));
    more := enter + last;
    RunsCompose(Undone(), enter, last);
  }

  lemma RecoveredThenUndone()
    ensures
      var s := Rotated(AfterRecovery(), AboutToFlip());
      && IsClaim(s.store, Named("c")) && 2 !in s.calls
      && var m := s.store[Named("c")].meta; m.state.Executing? && m.token == "u" && m.recoveryAttempts == 1
    ensures
      && IsClaim(Undone().store, Named("c"))
      && var m := Undone().store[Named("c")].meta; m.state.Attesting? && m.token == "t" && m.recoveryAttempts == 0
    ensures Gate(SharedInput().(token := "u"), Undone().store) == Some(TokenMismatch)
  {
  }

  // A run in which the rotation itself is undone: after the recovery a flip that was read before it
  // puts the old token and no attempts back. The holder of the new token then meets a mismatch, and a
  // call that only begins now, with the old one, is accepted.
  lemma RotationIsUndone() returns (steps: seq<Step>, flip: Step, more: seq<Step>, id: AtomId)
    ensures
      var s := Exec(steps);
      && IsClaim(s.store, id) && 2 !in s.calls
      && s.store[id].meta.state.Executing? && s.store[id].meta.token == "u" && s.store[id].meta.recoveryAttempts == 1
    ensures
      var s := Next(Exec(steps), flip);
      && IsClaim(s.store, id)
      && s.store[id].meta.state.Attesting? && s.store[id].meta.token == "t" && s.store[id].meta.recoveryAttempts == 0
      && Gate(SharedInput().(token := "u"), s.store) == Some(TokenMismatch)
    ensures Allows([flip] + more, id, TokenIsNot("t"))
    ensures
      var s := ExecFrom(Next(Exec(steps), flip), more);
      && IsComplete(s, id) && s.store[id].meta.token == "t"
      && 2 in s.calls && s.calls[2].input == SharedInput() && s.calls[2].pc == Returned(Acceptance)
  {
    id, flip := Named("c"), Run(0, Answering(TimedOut, 0));
    steps := RecoveryHappens(TimedOut);
    FlipPutsTheOldTokenBack(TimedOut);
    RecoveredThenUndone();
    InvHolds(steps);
    NextKeepsInv(Exec(steps), flip);
    hide *;
    more := LateCallIsAccepted();
    assert Allows([flip] + more, id, TokenIsNot("t")) by { FlipIsAllowed(flip, more, id, TokenIsNot("t")); }
  }

  lemma FlipIsAllowed(step: Step, more: seq<Step>, id: AtomId, mark: Mark)
    requires step.Run? && Allows(more, id, mark)
    ensures Allows([step] + more, id, mark)
  {
  }
}
