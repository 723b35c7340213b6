// A call of `markClaimComplete` with nothing in between its steps, and where it ends: its answer, its
// audit atoms and its record, read off the input, the store and the world alone.

module ClaimAlone {
  import opened Prelude
  import opened ClaimProtocol

  function StepsLeft(c: Call): nat {
    match c.pc
    case Entry => 12
    case Lookup => 11
    case ReadLatest(Flip) => 10
    case WriteLatest(Flip, _) => 9
    case ResolvePolicies => 8
    case Verifying => 7
    case PutRejection(_, _, _) => 6
    case PutAccepted(_) => 6
    case ReadLatest(Settle) => 5
    case WriteLatest(Settle, _) => 4
    case PutStalled => 2
    case Telegraph => 2
    case Returned(_) => 0
    case Failed => 0
  }

  // The call runs to its end with nothing in between; env(i) is the world at step i.
  function Alone(c: Call, s: Store, env: nat -> Choice, i: nat): (r: (Call, Store))
    requires Formed(c)
    ensures !Running(r.0)
    decreases StepsLeft(c)
  {
    if !Running(c) then (c, s)
    else
      AdvanceStaysFormed(c, s, env(i));
      var (c', e) := Advance(c, s, env(i));
      Alone(c', Apply(s, e), env, i + 1)
  }

  // Telling the notifier is the last step of a call.
  lemma TelegraphEnds(c: Call, s: Store, env: nat -> Choice, i: nat)
    requires Formed(c) && c.pc == Telegraph
    ensures
      Alone(c, s, env, i)
      == (c.(pc := if env(i).fault then Failed else Returned(Rejection(AlreadyTerminal, None))), s)
  {
    AdvanceStaysFormed(c, s, env(i));
    var (c', e) := Advance(c, s, env(i));
    assert Alone(c, s, env, i) == Alone(c', s, env, i + 1);
  }

  // ---- What the verifier's answer comes to ----

  function AnswerTo(v: Verdict): Result {
    match v
    case Confirmed(_) => Acceptance
    case Refuted(observed) => Rejection(GroundTruthMismatch, Some(observed))
    case Threw(None) => Rejection(GroundTruthMismatch, Some("VERIFIER_ERROR"))
    case Threw(Some(_)) => Rejection(VerifierError, None)
    case TimedOut => Rejection(VerifierTimeout, None)
  }

  predicate IsFailure(v: Verdict) { v == TimedOut || (v.Threw? && v.error.Some?) }

  function AuditAtom(v: Verdict, input: Input): Atom {
    match v
    case Confirmed(observed) => Accepted(input.claim, input.caller, observed)
    case Refuted(observed) => Rejected(input.claim, input.caller, GroundTruthMismatch, Some(observed), None)
    case Threw(None) => Rejected(input.claim, input.caller, GroundTruthMismatch, Some("VERIFIER_ERROR"), None)
    case Threw(Some(e)) => Rejected(input.claim, input.caller, VerifierError, None, Some(e))
    case TimedOut => Rejected(input.claim, input.caller, VerifierTimeout, None, None)
  }

  function AuditId(v: Verdict, input: Input, x: Choice): AtomId {
    if v.Confirmed? then AcceptedId(input.claim, x.now) else RejectedId(input.claim, x.now, x.suffix)
  }

  // Record m, closed with that answer at `now` over a gate-time count of `failures`.
  function ClosedRecord(m: ClaimMeta, v: Verdict, failures: nat, cap: real, now: int): ClaimMeta {
    if v.Confirmed? then m.(state := Complete, failures := 0)
    else if IsFailure(v) then
      m.(state := if cap <= (failures + 1) as real then Stalled else Attesting,
         failures := failures + 1, lastRejectedAt := Some(now))
    else m.(state := Attesting, lastRejectedAt := Some(now))
  }

  // ---- Where the call ends ----

  // Refused for `reason`: one rejection on record at step i, or nothing at all.
  ghost predicate EndsRefused(s: Store, input: Input, reason: Reason, env: nat -> Choice, i: nat, end: Pc, s': Store) {
    var id := RejectedId(input.claim, env(i).now, env(i).suffix);
    if env(i).fault || id in s then end == Failed && s' == s
    else
      && s' == s[id := Rejected(input.claim, input.caller, reason, None, None)]
      && end == if reason.AlreadyTerminal? && env(i + 1).fault then Failed else Returned(Rejection(reason, None))
  }

  // The audit atom is on record in s: the record is closed, and a claim that stalls gets its note.
  ghost predicate EndsClosed(s: Store, input: Input, m: ClaimMeta, v: Verdict, cap: real, env: nat -> Choice,
                             end: Pc, s': Store)
    requires IsClaim(s, input.claim)
  {
    if env(7).fault || env(8).fault then end == Failed && s' == s
    else
      var closed := ClosedRecord(s[input.claim].meta, v, m.failures, cap, env(8).now);
      var s1, note := s[input.claim := WorkClaim(closed)], StalledId(input.claim, env(9).now);
      if !closed.state.Stalled? then end == Returned(AnswerTo(v)) && s' == s1
      else if env(9).fault || note in s1 then end == Failed && s' == s1
      else
        && end == Returned(AnswerTo(v))
        && s' == s1[note := StallNote(input.claim, input.caller, m.recoveryAttempts, m.failures + 1)]
  }

  // Past the gates with record m: the flip, the verifier, one audit atom, one closing write.
  ghost predicate EndsAttested(s: Store, input: Input, m: ClaimMeta, env: nat -> Choice, end: Pc, s': Store) {
    if env(2).fault || env(3).fault then end == Failed && s' == s
    else
      var s1, v := s[input.claim := WorkClaim(m.(state := Attesting))], env(5).verdict;
      var id := AuditId(v, input, env(6));
      if env(4).fault || env(4).cap <= 0.0 || env(5).fault || env(6).fault || id in s1 then end == Failed && s' == s1
      else EndsClosed(s1[id := AuditAtom(v, input)], input, m, v, env(4).cap, env, end, s')
  }

  ghost predicate Ends(s: Store, input: Input, env: nat -> Choice, end: Pc, s': Store) {
    if env(0).fault then end == Failed && s' == s
    else if env(0).stop then EndsRefused(s, input, StopSentinel, env, 1, end, s')
    else if env(1).fault then end == Failed && s' == s
    else
      match Gate(input, s)
      case Some(ClaimNotFound) => end == Returned(Rejection(ClaimNotFound, None)) && s' == s
      case Some(reason) => EndsRefused(s, input, reason, env, 2, end, s')
      case None => EndsAttested(s, input, s[input.claim].meta, env, end, s')
  }

  // ---- The steps end there ----

  lemma AloneSteps(c: Call, s: Store, env: nat -> Choice, i: nat)
    requires Running(c) && Formed(c)
    ensures
      var (c', e) := Advance(c, s, env(i));
      Formed(c') && Alone(c, s, env, i) == Alone(c', Apply(s, e), env, i + 1)
  {
    AdvanceStaysFormed(c, s, env(i));
  }

  lemma AloneRefuses(c: Call, s: Store, env: nat -> Choice, i: nat, reason: Reason)
    requires Formed(c) && c.pc == PutRejection(reason, None, None)
    requires !reason.GroundTruthMismatch? && !IsInfra(reason)
    ensures var (c', s') := Alone(c, s, env, i); EndsRefused(s, c.input, reason, env, i, c'.pc, s')
  {
    AloneSteps(c, s, env, i);
    var (c1, e) := Advance(c, s, env(i));
    if c1.pc.Telegraph? { TelegraphEnds(c1, Apply(s, e), env, i + 1); }
  }

  lemma AloneCloses(c: Call, s: Store, env: nat -> Choice, m: ClaimMeta, v: Verdict, cap: real)
    requires Formed(c) && c.pc == ReadLatest(Settle) && c.snap == Some(m) && c.verdict == Some(v) && c.cap == Some(cap)
    requires IsClaim(s, c.input.claim)
    ensures var (c', s') := Alone(c, s, env, 7); EndsClosed(s, c.input, m, v, cap, env, c'.pc, s')
  {
    AloneSteps(c, s, env, 7);
    var c1 := Advance(c, s, env(7)).0;
    if !env(7).fault { AloneWrites(c1, s, env, m, v, cap); }
  }

  lemma AloneWrites(c: Call, s: Store, env: nat -> Choice, m: ClaimMeta, v: Verdict, cap: real)
    requires Formed(c) && c.pc.WriteLatest? && c.pc.goal.Settle? && IsClaim(s, c.input.claim) && !env(7).fault
    requires c.pc.latest == s[c.input.claim].meta
    requires c.snap == Some(m) && c.verdict == Some(v) && c.cap == Some(cap)
    ensures var (c', s') := Alone(c, s, env, 8); EndsClosed(s, c.input, m, v, cap, env, c'.pc, s')
  {
    AloneSteps(c, s, env, 8);
    var (c1, e) := Advance(c, s, env(8));
    var s1 := Apply(s, e);
    if c1.pc.PutStalled? {
      AloneSteps(c1, s1, env, 9);
      AloneStops(Advance(c1, s1, env(9)).0, Apply(s1, Advance(c1, s1, env(9)).1), env, 10);
    } else {
      AloneStops(c1, s1, env, 9);
    }
    hide Alone;
    hide Formed;
  }

  lemma AloneStops(c: Call, s: Store, env: nat -> Choice, i: nat)
    requires Formed(c) && !Running(c)
    ensures Alone(c, s, env, i) == (c, s)
  {
  }

  lemma AloneAudits(c: Call, s: Store, env: nat -> Choice, m: ClaimMeta, v: Verdict, cap: real)
    requires Formed(c) && c.snap == Some(m) && c.verdict == Some(v) && c.cap == Some(cap)
    requires c.pc == PcAfterVerdict(Judge(v)) && IsClaim(s, c.input.claim)
    ensures
      var (c', s') := Alone(c, s, env, 6);
      var id := AuditId(v, c.input, env(6));
      if env(6).fault || id in s then c'.pc == Failed && s' == s
      else EndsClosed(s[id := AuditAtom(v, c.input)], c.input, m, v, cap, env, c'.pc, s')
  {
    AloneSteps(c, s, env, 6);
    var (c1, e) := Advance(c, s, env(6));
    if c1.pc.ReadLatest? { AloneCloses(c1, Apply(s, e), env, m, v, cap); }
    hide EndsClosed;
  }

  lemma AloneAsks(c: Call, s: Store, env: nat -> Choice, m: ClaimMeta)
    requires Formed(c) && c.snap == Some(m) && c.pc == ResolvePolicies && IsClaim(s, c.input.claim)
    ensures
      var (c', s') := Alone(c, s, env, 4);
      var v := env(5).verdict;
      var id := AuditId(v, c.input, env(6));
      if env(4).fault || env(4).cap <= 0.0 || env(5).fault || env(6).fault || id in s then c'.pc == Failed && s' == s
      else EndsClosed(s[id := AuditAtom(v, c.input)], c.input, m, v, env(4).cap, env, c'.pc, s')
  {
    hide EndsClosed;
    hide AuditAtom;
    hide AuditId;
    hide Judge;
    AloneSteps(c, s, env, 4);
    var c1 := Advance(c, s, env(4)).0;
    if !env(4).fault && env(4).cap > 0.0 {
      AloneSteps(c1, s, env, 5);
      var c2 := Advance(c1, s, env(5)).0;
      if !env(5).fault { AloneAudits(c2, s, env, m, env(5).verdict, env(4).cap); }
    }
  }

  lemma AloneAttests(c: Call, s: Store, env: nat -> Choice, m: ClaimMeta)
    requires Formed(c) && c.snap == Some(m) && c.pc == ReadLatest(Flip)
    requires IsClaim(s, c.input.claim) && s[c.input.claim].meta == m
    ensures var (c', s') := Alone(c, s, env, 2); EndsAttested(s, c.input, m, env, c'.pc, s')
  {
    hide EndsClosed;
    hide AuditAtom;
    hide AuditId;
    AloneSteps(c, s, env, 2);
    var c1 := Advance(c, s, env(2)).0;
    if !env(2).fault {
      AloneSteps(c1, s, env, 3);
      var (c2, e2) := Advance(c1, s, env(3));
      if !env(3).fault { AloneAsks(c2, Apply(s, e2), env, m); }
    }
  }

  // Undisturbed, a call ends where `Ends` says, whatever the world does to it.
  lemma AloneEnds(input: Input, s: Store, env: nat -> Choice)
    ensures var (c, s') := Alone(Started(input), s, env, 0); Ends(s, input, env, c.pc, s')
  {
    hide EndsAttested;
    hide EndsRefused;
    var c := Started(input);
    AloneSteps(c, s, env, 0);
    var c1 := Advance(c, s, env(0)).0;
    if !env(0).fault {
      if env(0).stop {
        AloneRefuses(c1, s, env, 1, StopSentinel);
      } else {
        AloneSteps(c1, s, env, 1);
        var c2 := Advance(c1, s, env(1)).0;
        if !env(1).fault { AfterTheGates(c1, c2, s, env); }
      }
    }
  }

  lemma AfterTheGates(c1: Call, c2: Call, s: Store, env: nat -> Choice)
    requires Formed(c1) && c1.pc == Lookup && !env(1).fault && c2 == Advance(c1, s, env(1)).0
    ensures
      Formed(c2) &&
      var (c', s') := Alone(c2, s, env, 2);
      match Gate(c1.input, s)
      case Some(ClaimNotFound) => c'.pc == Returned(Rejection(ClaimNotFound, None)) && s' == s
      case Some(reason) => EndsRefused(s, c1.input, reason, env, 2, c'.pc, s')
      case None => EndsAttested(s, c1.input, s[c1.input.claim].meta, env, c'.pc, s')
  {
    hide EndsAttested;
    hide EndsRefused;
    var gate := Gate(c1.input, s);
    if gate.None? {
      AloneAttests(c2, s, env, s[c1.input.claim].meta);
    } else if gate != Some(ClaimNotFound) {
      AloneRefuses(c2, s, env, 2, gate.value);
    }
  }
}
