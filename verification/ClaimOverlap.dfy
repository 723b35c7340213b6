// What overlapping calls and reaper moves can do to a claim, and exactly when.

module ClaimOverlap {
  import opened Prelude
  import opened ClaimProtocol
  import opened ClaimRuns
  import opened ClaimInvariant
  import opened ClaimTheorems

  lemma {:induction false} RunsCompose(s: Sys, first: seq<Step>, second: seq<Step>)
    ensures ExecFrom(s, first + second) == ExecFrom(ExecFrom(s, first), second)
    decreases |first|
  {
    if first == [] {
      assert first + second == second;
    } else {
      assert (first + second)[0] == first[0] && (first + second)[1..] == first[1..] + second;
      RunsCompose(Next(s, first[0]), first[1..], second);
    }
  }

  lemma TwoSteps(s: Sys, a: Step, b: Step)
    ensures ExecFrom(s, [a, b]) == Next(Next(s, a), b)
  {
    assert [a, b][1..] == [b];
    assert [b][1..] == [];
    assert ExecFrom(Next(s, a), [b]) == ExecFrom(Next(Next(s, a), b), []);
  }

  // ---- A stale call can still close the claim ----

  // The call holds snapshot m and, left alone with a verifier answering v, records v.
  predicate BoundFor(c: Call, id: AtomId, m: ClaimMeta, v: Verdict) {
    && c.input.claim == id
    && c.snap == Some(m)
    && (|| (c.pc.ReadLatest? && c.pc.goal.Flip?)
        || (c.pc.WriteLatest? && c.pc.goal.Flip?)
        || c.pc.ResolvePolicies?
        || c.pc.Verifying?
        || (!c.pc.PutStalled? && Settling(c) && c.verdict == Some(v)))
  }

  function StepsToClose(c: Call): nat {
    match c.pc
    case ReadLatest(Flip) => 7
    case WriteLatest(Flip, _) => 6
    case ResolvePolicies => 5
    case Verifying => 4
    case PutRejection(_, _, _) => 3
    case PutAccepted(_) => 3
    case ReadLatest(Settle) => 2
    case _ => 1
  }

  // The record a call will write over: the one it has read, or the one it has yet to read.
  function Base(c: Call, current: ClaimMeta): ClaimMeta { if c.pc.WriteLatest? then c.pc.latest else current }

  predicate SameBase(a: ClaimMeta, b: ClaimMeta) { a.token == b.token && a.failures == b.failures }

  // What closing with verdict v writes: a completion; the snapshot's count plus one; or, for a
  // mismatch, the count of the record it wrote over. The token is that record's too.
  predicate Closes(m: ClaimMeta, v: Verdict, base: ClaimMeta, written: ClaimMeta) {
    && written.token == base.token
    && (Judge(v).Accept? ==> written.state.Complete?)
    && (Judge(v).Infra? ==> written.failures == m.failures + 1)
    && (Judge(v).Mismatch? ==> written.state.Attesting? && written.failures == base.failures)
  }

  predicate ClosedWith(c: Call, v: Verdict) {
    c.verdict == Some(v) && (!Judge(v).Infra? ==> c.pc == Returned(ResultOf(Judge(v))))
  }

  predicate LastWrite(c: Call) { c.pc.WriteLatest? && c.pc.goal.Settle? }

  lemma BoundCallAdvances(c: Call, s: Store, id: AtomId, m: ClaimMeta, v: Verdict, now: int)
    requires PcOk(c) && BoundFor(c, id, m, v) && IsClaim(s, id) && UnusedAt(s.Keys, id, now)
    ensures Running(c)
    ensures
      var (c', e) := Advance(c, s, Answering(v, now));
      if LastWrite(c) then
        e.Update? && e.target == id && Closes(m, v, Base(c, s[id].meta), e.meta) && ClosedWith(c', v)
      else
        BoundFor(c', id, m, v) && IsClaim(Apply(s, e), id) && StepsToClose(c') < StepsToClose(c)
  {
  }

  lemma BoundCallKeepsBase(c: Call, s: Store, id: AtomId, m: ClaimMeta, v: Verdict, now: int)
    requires PcOk(c) && BoundFor(c, id, m, v) && IsClaim(s, id) && UnusedAt(s.Keys, id, now) && !LastWrite(c)
    ensures Running(c)
    ensures
      var (c', e) := Advance(c, s, Answering(v, now));
      IsClaim(Apply(s, e), id) && SameBase(Base(c, s[id].meta), Base(c', Apply(s, e)[id].meta))
  {
  }

  // A step that gives the call its audit atom puts it on record.
  lemma BoundCallRecords(c: Call, s: Store, id: AtomId, m: ClaimMeta, v: Verdict, now: int)
    requires PcOk(c) && BoundFor(c, id, m, v) && IsClaim(s, id) && UnusedAt(s.Keys, id, now)
    ensures
      var (c', e) := Advance(c, s, Answering(v, now));
      && (c'.audit != c.audit ==> e.Put?)
      && (e.Put? ==> e.id !in s && (Judge(v).Infra? ==> InfraAtom(e.atom, id)))
  {
  }

  lemma BoundStepCounts(s: Sys, k: nat, id: AtomId, m: ClaimMeta, v: Verdict, now: int)
    requires CanRun(s, k) && ClaimsOk(s) && BoundFor(s.calls[k], id, m, v) && IsClaim(s.store, id)
    requires UnusedAt(s.store.Keys, id, now)
    ensures
      var s' := Next(s, Run(k, Answering(v, now)));
      && k in s'.calls && IsClaim(s'.store, id)
      && InfraCount(s'.store, id) >=
         InfraCount(s.store, id) + (if Judge(v).Infra? && s'.calls[k].audit != s.calls[k].audit then 1 else 0)
  {
    var x := Answering(v, now);
    var e := Advance(s.calls[k], s.store, x).1;
    assert Formed(s.calls[k]);
    hide Advance;
    hide MetaOk;
    hide AuditFor;
    hide PcOk;
    hide Formed;
    hide BoundFor;
    BoundCallRecords(s.calls[k], s.store, id, m, v, now);
    RunGrows(s, k, x);
    hide CallOk;
    hide ClaimsOk;
    hide InfraCount;
    CountNeverDrops(s.store, Apply(s.store, e), id);
    if e.Put? && Judge(v).Infra? { RecordingCountsOne(s.store, e.id, e.atom, id); }
  }

  // One step on the way: either the closing write, or a step closer to it.
  lemma BoundStep(s: Sys, k: nat, id: AtomId, m: ClaimMeta, v: Verdict) returns (step: Step)
    requires CallsOk(s) && ClaimsOk(s) && k in s.calls && BoundFor(s.calls[k], id, m, v) && IsClaim(s.store, id)
    ensures step.Run? && step.call == k
    ensures
      var s' := Next(s, step);
      && k in s'.calls
      && IsClaim(s'.store, id)
      && (forall j :: j in s.calls && j != k ==> j in s'.calls && s'.calls[j] == s.calls[j])
      && InfraCount(s'.store, id) >=
         InfraCount(s.store, id) + (if Judge(v).Infra? && s'.calls[k].audit != s.calls[k].audit then 1 else 0)
      && (if LastWrite(s.calls[k]) then
            && Closes(m, v, Base(s.calls[k], s.store[id].meta), s'.store[id].meta)
            && ClosedWith(s'.calls[k], v) && s.calls[k].audit.Some?
          else
            && BoundFor(s'.calls[k], id, m, v) && StepsToClose(s'.calls[k]) < StepsToClose(s.calls[k])
            && SameBase(Base(s.calls[k], s.store[id].meta), Base(s'.calls[k], s'.store[id].meta)))
  {
    var now := UnusedTime(s.store.Keys, id, 0);
    var x := Answering(v, now);
    step := Run(k, x);
    assert CallOk(s, s.calls[k]);
    BoundCallAdvances(s.calls[k], s.store, id, m, v, now);
    if !LastWrite(s.calls[k]) { BoundCallKeepsBase(s.calls[k], s.store, id, m, v, now); }
    BoundStepCounts(s, k, id, m, v, now);
    hide Advance;
    hide CallOk;
    hide MetaOk;
    hide InfraCount;
    hide Closes;
    hide BoundFor;
    hide SameBase;
    hide Base;
  }

  predicate OwnSteps(steps: seq<Step>, k: nat) {
    forall i :: 0 <= i < |steps| ==> steps[i].Run? && steps[i].call == k
  }

  // Call k has closed the claim with verdict v over what it had read in s, and only k has moved.
  ghost predicate ClosedBy(s: Sys, s': Sys, k: nat, id: AtomId, m: ClaimMeta, v: Verdict)
    requires k in s.calls && IsClaim(s.store, id)
  {
    && IsClaim(s'.store, id)
    && Closes(m, v, Base(s.calls[k], s.store[id].meta), s'.store[id].meta)
    && k in s'.calls && ClosedWith(s'.calls[k], v)
    && InfraCount(s'.store, id) >=
       InfraCount(s.store, id) + (if Judge(v).Infra? && s.calls[k].audit.None? then 1 else 0)
    && (forall j :: j in s.calls && j != k ==> j in s'.calls && s'.calls[j] == s.calls[j])
  }

  ghost predicate StepCloser(s: Sys, s': Sys, k: nat, id: AtomId, m: ClaimMeta, v: Verdict)
    requires k in s.calls && IsClaim(s.store, id)
  {
    && k in s'.calls && IsClaim(s'.store, id)
    && BoundFor(s'.calls[k], id, m, v) && StepsToClose(s'.calls[k]) < StepsToClose(s.calls[k])
    && SameBase(Base(s.calls[k], s.store[id].meta), Base(s'.calls[k], s'.store[id].meta))
    && InfraCount(s'.store, id) >=
       InfraCount(s.store, id) + (if Judge(v).Infra? && s'.calls[k].audit != s.calls[k].audit then 1 else 0)
    && (forall j :: j in s.calls && j != k ==> j in s'.calls && s'.calls[j] == s.calls[j])
  }

  lemma CloserOrClosed(s: Sys, k: nat, id: AtomId, m: ClaimMeta, v: Verdict) returns (step: Step)
    requires Inv(s) && k in s.calls && BoundFor(s.calls[k], id, m, v) && IsClaim(s.store, id)
    ensures step.Run? && step.call == k && Inv(Next(s, step))
    ensures if LastWrite(s.calls[k]) then ClosedBy(s, Next(s, step), k, id, m, v)
            else StepCloser(s, Next(s, step), k, id, m, v)
  {
    hide CallsOk;
    hide ClaimsOk;
    hide Next;
    hide Closes;
    hide BoundFor;
    hide SameBase;
    hide Base;
    hide InfraCount;
    step := BoundStep(s, k, id, m, v);
    NextKeepsInv(s, step);
    hide Inv;
  }

  lemma ClosedFromCloser(s: Sys, s1: Sys, s2: Sys, k: nat, id: AtomId, m: ClaimMeta, v: Verdict)
    requires k in s.calls && IsClaim(s.store, id)
    requires StepCloser(s, s1, k, id, m, v) && ClosedBy(s1, s2, k, id, m, v)
    ensures ClosedBy(s, s2, k, id, m, v)
  {
    ClosesFromSameBase(m, v, Base(s.calls[k], s.store[id].meta), Base(s1.calls[k], s1.store[id].meta),
                       s2.store[id].meta);
    hide Closes;
    hide Base;
    hide BoundFor;
  }

  // A call with a snapshot can still record any verdict over it by its own steps, whatever others
  // wrote since.
  lemma {:induction false} StaleCallCanClose(s: Sys, k: nat, id: AtomId, m: ClaimMeta, v: Verdict)
      returns (steps: seq<Step>)
    requires Inv(s) && k in s.calls && BoundFor(s.calls[k], id, m, v) && IsClaim(s.store, id)
    ensures OwnSteps(steps, k) && Inv(ExecFrom(s, steps)) && ClosedBy(s, ExecFrom(s, steps), k, id, m, v)
    decreases StepsToClose(s.calls[k])
  {
    hide Inv;
    hide BoundFor;
    hide ClosedBy;
    hide Next;
    hide ExecFrom;
    var step := CloserOrClosed(s, k, id, m, v);
    if LastWrite(s.calls[k]) {
      steps := [step];
      OneStepThen(s, step, []);
      assert [step] + [] == steps;
    } else {
      var s1 := Next(s, step);
      var rest := StaleCallCanClose(s1, k, id, m, v);
      steps := [step] + rest;
      OneStepThen(s, step, rest);
      ClosedFromCloser(s, s1, ExecFrom(s1, rest), k, id, m, v);
    }
  }

  lemma OneStepThen(s: Sys, step: Step, rest: seq<Step>)
    ensures ExecFrom(s, [step] + rest) == ExecFrom(Next(s, step), rest)
    ensures rest == [] ==> ExecFrom(s, [step] + rest) == Next(s, step)
  {
    assert ([step] + rest)[1..] == rest;
  }

  lemma ClosesFromSameBase(m: ClaimMeta, v: Verdict, base: ClaimMeta, base': ClaimMeta, written: ClaimMeta)
    requires SameBase(base, base') && Closes(m, v, base', written)
    ensures Closes(m, v, base, written)
  {
  }

  // ---- What overlap costs ----

  // Two calls that share a snapshot count one failure between them.
  lemma SharedSnapshotLosesAFailure(s: Sys, id: AtomId, m: ClaimMeta) returns (steps: seq<Step>)
    requires Inv(s) && IsClaim(s.store, id) && 0 in s.calls && 1 in s.calls
    requires BoundFor(s.calls[0], id, m, TimedOut) && s.calls[0].audit.None?
    requires BoundFor(s.calls[1], id, m, TimedOut) && s.calls[1].audit.None?
    ensures
      var s' := ExecFrom(s, steps);
      && IsClaim(s'.store, id)
      && s'.store[id].meta.failures == m.failures + 1
      && InfraCount(s'.store, id) >= InfraCount(s.store, id) + 2
  {
    hide Inv;
    hide ExecFrom;
    hide BoundFor;
    var first := StaleCallCanClose(s, 0, id, m, TimedOut);
    var s1 := ExecFrom(s, first);
    assert 1 in s1.calls && s1.calls[1] == s.calls[1];
    var second := StaleCallCanClose(s1, 1, id, m, TimedOut);
    steps := first + second;
    assert ExecFrom(s, steps) == ExecFrom(s1, second) by { RunsCompose(s, first, second); }
  }

  // The failure count is not exact when calls overlap: two timeouts on record, one counted.
  lemma OverlapLosesAFailure() returns (steps: seq<Step>, id: AtomId)
    ensures IsClaim(Exec(steps).store, id)
    ensures Exec(steps).store[id].meta.failures == 1 && InfraCount(Exec(steps).store, id) >= 2
  {
    id := Named("c");
    var start := OverlapPrefix(TimedOut);
    InvHolds(start);
    var more := SharedSnapshotLosesAFailure(Exec(start), id, Exec(start).calls[0].snap.value);
    steps := start + more;
    RunsCompose(Initial, start, more);
  }

  // Completion is not absorbing when calls overlap.
  lemma OverlapReopensACompleteClaim() returns (steps: seq<Step>, more: seq<Step>, id: AtomId)
    ensures IsComplete(Exec(steps), id) && !IsComplete(ExecFrom(Exec(steps), more), id)
  {
    id := Named("c");
    var start := OverlapPrefix(Confirmed("MERGED"));
    var s := Exec(start);
    InvHolds(start);
    hide Inv;
    hide ExecFrom;
    hide Exec;
    var first := StaleCallCanClose(s, 0, id, s.calls[0].snap.value, Confirmed("MERGED"));
    var s1 := ExecFrom(s, first);
    assert Exec(start + first) == s1 by { ExecutesOn(start, first); }
    steps := start + first;
    more := ArmedCallCanReopen(s1, 1, id);
  }

  lemma ExecutesOn(first: seq<Step>, second: seq<Step>)
    ensures Exec(first + second) == ExecFrom(Exec(first), second)
  {
    RunsCompose(Initial, first, second);
  }

  // Two calls have passed the gates of a freshly dispatched claim.
  lemma OverlapPrefix(v: Verdict) returns (steps: seq<Step>)
    ensures
      var s := Exec(steps);
      && IsClaim(s.store, Named("c"))
      && s.store[Named("c")].meta.state.Executing? && s.store[Named("c")].meta.failures == 0
      && 0 in s.calls && 1 in s.calls
      && s == Shared(map[0 := Passed(), 1 := Passed()])
      && s.calls[0].input.token == "t"
      && s.calls[0].pc == ReadLatest(Flip)
      && s.calls[0].snap.Some?
      && s.calls[0].snap.value.failures == 0
      && BoundFor(s.calls[0], Named("c"), s.calls[0].snap.value, v)
      && BoundFor(s.calls[1], Named("c"), s.calls[0].snap.value, v)
      && s.calls[0].audit.None? && s.calls[1].audit.None?
      && Armed(s.calls[1], Named("c"))
  {
    var id, input, x := Named("c"), SharedInput(), Answering(v, 0);
    var a, b := [MINT, Activate(id)], [Begin(0, input), Begin(1, input)];
    var c, d := [Run(0, x), Run(0, x)], [Run(1, x), Run(1, x)];
    var start := Started(input);
    CallsBegin();
    FirstCallReads(v);
    SecondCallReads(v);
    hide Next;
    hide ExecFrom;
    TwoSteps(Initial, a[0], a[1]);
    TwoSteps(Shared(map[]), b[0], b[1]);
    TwoSteps(Shared(map[0 := start, 1 := start]), c[0], c[1]);
    TwoSteps(Shared(map[0 := Passed(), 1 := start]), d[0], d[1]);
    RunsCompose(Shared(map[0 := start, 1 := start]), c, d);
    RunsCompose(Shared(map[]), b, c + d);
    RunsCompose(Initial, a, b + (c + d));
    steps := a + (b + (c + d));
  }

  const MINT := Mint(Named("c"), "t", "p", Brief("", None, "pr", "7", ["MERGED"], 9), "default", None)

  function SharedInput(): Input { Input(Named("c"), "t", "p", "pr", "7") }

  function SharedMeta(): ClaimMeta { FreshMeta(Named("c"), "t", "p", Brief("", None, "pr", "7", ["MERGED"], 9), "default", None) }

  // The claim has been dispatched and is executing.
  function Shared(calls: map<nat, Call>): Sys {
    Sys(map[Named("c") := WorkClaim(SharedMeta().(state := Executing))], calls, map[Named("c") := SharedMeta()], {}, {})
  }

  // A call that has passed the gates.
  function Passed(): Call {
    Started(SharedInput()).(pc := ReadLatest(Flip), snap := Some(SharedMeta().(state := Executing)))
  }

  lemma CallsBegin()
    ensures Next(Next(Initial, MINT), Activate(Named("c"))) == Shared(map[])
    ensures
      var start := Started(SharedInput());
      Next(Next(Shared(map[]), Begin(0, SharedInput())), Begin(1, SharedInput())) == Shared(map[0 := start, 1 := start])
  {
  }

  lemma FirstCallReads(v: Verdict)
    ensures
      var start, x := Started(SharedInput()), Answering(v, 0);
      Next(Next(Shared(map[0 := start, 1 := start]), Run(0, x)), Run(0, x)) == Shared(map[0 := Passed(), 1 := start])
  {
  }

  lemma SecondCallReads(v: Verdict)
    ensures
      var start, x := Started(SharedInput()), Answering(v, 0);
      Next(Next(Shared(map[0 := Passed(), 1 := start]), Run(1, x)), Run(1, x)) == Shared(map[0 := Passed(), 1 := Passed()])
  {
  }

  // ---- Exactly when a write leaves the count exact ----

  ghost predicate ExactCount(s: Store, id: AtomId)
    requires IsClaim(s, id)
  {
    s[id].meta.state.Complete? || s[id].meta.failures == InfraCount(s, id)
  }

  // The failures on record other than the call's own.
  function OtherFailures(s: Store, c: Call): set<AtomId>
    requires c.audit.Some?
  {
    InfraRejections(s, c.input.claim) - {c.audit.value}
  }

  // The count that the write relies on was read when every failure it should hold was on record.
  predicate CountWasCurrent(c: Call, s: Store)
    requires c.pc.WriteLatest? && (c.pc.goal.Settle? ==> c.verdict.Some? && c.snap.Some? && c.audit.Some?)
  {
    if c.pc.goal.Flip? then c.pc.latest.failures == InfraCount(s, c.input.claim)
    else match Judge(c.verdict.value)
      case Accept(_) => true
      case Mismatch(_) => c.pc.latest.failures == InfraCount(s, c.input.claim)
      case Infra(_, _) => c.snap.value.failures == |OtherFailures(s, c)|
  }

  lemma OwnFailureIsOnRecord(s: Sys, k: nat)
    requires CanRun(s, k) && LastWrite(s.calls[k]) && Judge(s.calls[k].verdict.value).Infra?
    ensures s.calls[k].audit.Some?
    ensures |OtherFailures(s.store, s.calls[k])| == InfraCount(s.store, s.calls[k].input.claim) - 1
  {
    var c := s.calls[k];
    assert c.audit.value in InfraRejections(s.store, c.input.claim);
  }

  // In every reachable state, a write to a claim leaves its count exact exactly when the count it
  // relies on was current: for a failure, when the gate-time snapshot held every other failure on
  // record; for a flip or a mismatch, when the record it merges over held them all.
  lemma WriteIsExactExactlyWhen(steps: seq<Step>, k: nat, x: Choice)
    requires var s := Exec(steps); k in s.calls && s.calls[k].pc.WriteLatest? && !x.fault
    ensures
      var s := Exec(steps);
      var c, s' := s.calls[k], Next(s, Run(k, x));
      && (c.pc.goal.Settle? ==> c.verdict.Some? && c.snap.Some? && c.audit.Some?)
      && IsClaim(s'.store, c.input.claim)
      && (ExactCount(s'.store, c.input.claim) <==> CountWasCurrent(c, s.store))
  {
    var s := Exec(steps);
    InvHolds(steps);
    assert CallOk(s, s.calls[k]);
    assert IsClaim(s.store, s.calls[k].input.claim);
    if s.calls[k].pc.goal.Settle? && Judge(s.calls[k].verdict.value).Infra? { OwnFailureIsOnRecord(s, k); }
    WriteKeepsFailures(s, k, x);
  }

  lemma WriteKeepsFailures(s: Sys, k: nat, x: Choice)
    requires CanRun(s, k) && s.calls[k].pc.WriteLatest? && !x.fault && IsClaim(s.store, s.calls[k].input.claim)
    ensures
      var c, s' := s.calls[k], Next(s, Run(k, x));
      && IsClaim(s'.store, c.input.claim)
      && InfraCount(s'.store, c.input.claim) == InfraCount(s.store, c.input.claim)
      && s'.store[c.input.claim].meta
         == if c.pc.goal.Flip? then c.pc.latest.(state := Attesting)
            else SettledMeta(c.pc.latest, c.snap.value, c.cap.value, Judge(c.verdict.value), x.now)
  {
    var c, s' := s.calls[k], Next(s, Run(k, x));
    assert InfraRejections(s'.store, c.input.claim) == InfraRejections(s.store, c.input.claim);
  }

  lemma FailureThenFlip(s: Sys, id: AtomId, m: ClaimMeta, x: Choice) returns (mid: seq<Step>)
    requires Inv(s) && 0 in s.calls && 1 in s.calls && IsClaim(s.store, id) && !x.fault
    requires s.calls[0].pc == ReadLatest(Flip) && s.calls[0].input.claim == id
    requires BoundFor(s.calls[1], id, m, TimedOut) && s.calls[1].audit.None?
    ensures
      var s' := Next(ExecFrom(Next(s, Run(0, x)), mid), Run(0, x));
      && IsClaim(s'.store, id) && s'.store[id].meta == s.store[id].meta.(state := Attesting)
      && InfraCount(s'.store, id) >= 1
  {
    hide Inv;
    hide BoundFor;
    hide Next;
    hide ExecFrom;
    hide ClosedBy;
    hide Formed;
    ReadBeforeTheFlip(s, id, x);
    var s1 := Next(s, Run(0, x));
    mid := StaleCallCanClose(s1, 1, id, m, TimedOut);
    OtherCallsStay(s1, ExecFrom(s1, mid), id, m);
    FlipWrites(ExecFrom(s1, mid), 0, id, s.store[id].meta, x);
  }

  lemma ReadBeforeTheFlip(s: Sys, id: AtomId, x: Choice)
    requires Inv(s) && 0 in s.calls && 1 in s.calls && IsClaim(s.store, id) && !x.fault
    requires s.calls[0].pc == ReadLatest(Flip) && s.calls[0].input.claim == id
    ensures
      var s1 := Next(s, Run(0, x));
      && Inv(s1) && s1.store == s.store && 0 in s1.calls && 1 in s1.calls && s1.calls[1] == s.calls[1]
      && s1.calls[0].pc == WriteLatest(Flip, s.store[id].meta) && s1.calls[0].input.claim == id && Formed(s1.calls[0])
  {
    assert Formed(s.calls[0]) by { assert CallOk(s, s.calls[0]); }
    hide Inv;
    hide Next;
    hide Formed;
    ReadsForTheFlip(s, 0, id, x);
    NextKeepsInv(s, Run(0, x));
  }

  lemma OtherCallsStay(s: Sys, s': Sys, id: AtomId, m: ClaimMeta)
    requires 0 in s.calls && 1 in s.calls && IsClaim(s.store, id) && s.calls[1].audit.None?
    requires ClosedBy(s, s', 1, id, m, TimedOut)
    ensures 0 in s'.calls && s'.calls[0] == s.calls[0] && IsClaim(s'.store, id) && InfraCount(s'.store, id) >= 1
  {
  }

  // A flip to attesting that was read before another call's failure was counted erases the count.
  lemma StaleFlipErasesAFailure() returns (steps: seq<Step>, id: AtomId)
    ensures IsClaim(Exec(steps).store, id)
    ensures Exec(steps).store[id].meta.failures == 0 && InfraCount(Exec(steps).store, id) >= 1
  {
    id := Named("c");
    var x := Answering(TimedOut, 0);
    var start := OverlapPrefix(TimedOut);
    InvHolds(start);
    assert Exec(start).calls[0].input.claim == id;
    hide Inv;
    hide Next;
    hide ExecFrom;
    hide Exec;
    hide BoundFor;
    var mid := FailureThenFlip(Exec(start), id, Exec(start).calls[0].snap.value, x);
    steps := start + ([Run(0, x)] + (mid + [Run(0, x)]));
    ThreeLegs(start, Run(0, x), mid, Run(0, x));
  }

  lemma ReadsForTheFlip(s: Sys, k: nat, id: AtomId, x: Choice)
    requires k in s.calls && Formed(s.calls[k]) && s.calls[k].pc == ReadLatest(Flip) && !x.fault
    requires s.calls[k].input.claim == id && IsClaim(s.store, id)
    ensures
      var s' := Next(s, Run(k, x));
      && s'.store == s.store && k in s'.calls
      && s'.calls[k] == s.calls[k].(pc := WriteLatest(Flip, s.store[id].meta)) && Formed(s'.calls[k])
      && (forall j :: j in s.calls && j != k ==> j in s'.calls && s'.calls[j] == s.calls[j])
  {
  }

  lemma ThreeLegs(start: seq<Step>, a: Step, mid: seq<Step>, b: Step)
    ensures Exec(start + ([a] + (mid + [b]))) == Next(ExecFrom(Next(Exec(start), a), mid), b)
  {
    ExecutesOn(start, [a] + (mid + [b]));
    assert ([a] + (mid + [b]))[1..] == mid + [b];
    RunsCompose(Next(Exec(start), a), mid, [b]);
    var s := ExecFrom(Next(Exec(start), a), mid);
    assert ExecFrom(s, [b]) == ExecFrom(Next(s, b), []);
  }

  lemma FlipWrites(s: Sys, k: nat, id: AtomId, latest: ClaimMeta, x: Choice)
    requires k in s.calls && Formed(s.calls[k]) && s.calls[k].pc == WriteLatest(Flip, latest) && !x.fault
    requires s.calls[k].input.claim == id && IsClaim(s.store, id)
    ensures
      var s' := Next(s, Run(k, x));
      && IsClaim(s'.store, id) && s'.store[id].meta == latest.(state := Attesting)
      && InfraCount(s'.store, id) == InfraCount(s.store, id)
  {
    var s' := Next(s, Run(k, x));
    assert InfraRejections(s'.store, id) == InfraRejections(s.store, id);
  }

  // ---- A verifier that throws null ----

  // Over every run: a call whose verifier threw answers verifier-error exactly when the thrown value
  // was not null; a thrown null is a ground-truth mismatch, on record as that and not as a failure.
  lemma ThrownNullIsAMismatch(steps: seq<Step>, k: nat, error: Option<string>)
    requires var s := Exec(steps); k in s.calls && s.calls[k].pc.Returned? && s.calls[k].verdict == Some(Threw(error))
    ensures
      var s := Exec(steps);
      var c := s.calls[k];
      && (c.pc.result == Rejection(VerifierError, None) <==> error.Some?)
      && (c.pc.result == Rejection(GroundTruthMismatch, Some("VERIFIER_ERROR")) <==> error.None?)
      && c.audit.Some? && c.audit.value in s.store
      && (InfraAtom(s.store[c.audit.value], c.input.claim) <==> error.Some?)
  {
    InvHolds(steps);
    assert CallOk(Exec(steps), Exec(steps).calls[k]);
  }

  // Its closing write leaves the count as it was read.
  lemma ThrownNullIsNotCounted(steps: seq<Step>, k: nat, x: Choice)
    requires var s := Exec(steps); k in s.calls && LastWrite(s.calls[k]) && !x.fault
    requires Exec(steps).calls[k].verdict == Some(Threw(None))
    ensures
      var s := Exec(steps);
      var c, s' := s.calls[k], Next(s, Run(k, x));
      && IsClaim(s'.store, c.input.claim)
      && s'.store[c.input.claim].meta.failures == c.pc.latest.failures
      && InfraCount(s'.store, c.input.claim) == InfraCount(s.store, c.input.claim)
  {
    var s := Exec(steps);
    InvHolds(steps);
    assert CallOk(s, s.calls[k]);
    WriteKeepsFailures(s, k, x);
  }

  // A run in which a verifier throws null and the claim counts nothing.
  lemma ThrownNullHappens() returns (steps: seq<Step>, id: AtomId)
    ensures
      var s := Exec(steps);
      && 0 in s.calls && s.calls[0].verdict == Some(Threw(None))
      && s.calls[0].pc == Returned(Rejection(GroundTruthMismatch, Some("VERIFIER_ERROR")))
      && IsClaim(s.store, id) && s.store[id].meta.state.Attesting? && s.store[id].meta.failures == 0
  {
    id := Named("c");
    var start := OverlapPrefix(Threw(None));
    InvHolds(start);
    hide Inv;
    var s := Exec(start);
    var more := StaleCallCanClose(s, 0, id, s.calls[0].snap.value, Threw(None));
    steps := start + more;
    ExecutesOn(start, more);
  }

  // ---- A token the reaper has rotated ----

  // The call has passed the gates, and its verifier has not answered or has confirmed.
  predicate CanStillAccept(c: Call) {
    PastGates(c) && !c.pc.PutStalled? && (c.verdict.None? || c.verdict.value.Confirmed?)
  }

  // The call can no longer be accepted by its own steps: its verifier has answered otherwise, or the
  // gates are ahead of it and the claim's token is not its own.
  predicate Doomed(c: Call, s: Store) {
    && c.pc != Returned(Acceptance)
    && (Running(c) ==>
          && !CanStillAccept(c)
          && (PastGates(c) || (IsClaim(s, c.input.claim) && c.input.token != s[c.input.claim].meta.token)))
  }

  lemma DoomedStaysDoomed(c: Call, s: Store, x: Choice)
    requires PcOk(c) && Running(c) && Doomed(c, s)
    ensures var (c', e) := Advance(c, s, x); Doomed(c', Apply(s, e))
  {
  }

  lemma DoomedStep(s: Sys, k: nat, step: Step)
    requires Inv(s) && k in s.calls && Doomed(s.calls[k], s.store) && step.Run? && step.call == k
    ensures k in Next(s, step).calls && Doomed(Next(s, step).calls[k], Next(s, step).store)
  {
    assert CallOk(s, s.calls[k]);
    hide Inv;
    hide Doomed;
    hide MetaOk;
    if Running(s.calls[k]) {
      DoomedStaysDoomed(s.calls[k], s.store, step.choice);
      hide Advance;
      hide CallOk;
    }
  }

  lemma {:induction false} DoomedIsNeverAccepted(s: Sys, k: nat, steps: seq<Step>)
    requires Inv(s) && k in s.calls && Doomed(s.calls[k], s.store) && OwnSteps(steps, k)
    ensures k in ExecFrom(s, steps).calls && ExecFrom(s, steps).calls[k].pc != Returned(Acceptance)
    decreases |steps|
  {
    hide Inv;
    hide Next;
    if steps != [] {
      hide Doomed;
      DoomedStep(s, k, steps[0]);
      NextKeepsInv(s, steps[0]);
      DoomedIsNeverAccepted(Next(s, steps[0]), k, steps[1..]);
    }
  }

  // A running call that holds a token other than its claim's is still accepted, by its own steps,
  // exactly when it had passed the gates and its verifier may yet confirm: neither the flip to
  // attesting nor the closing update looks at the token again. ClaimTokens says what others can add.
  lemma OldTokenIsAcceptedExactlyWhen(s: Sys, k: nat)
    requires Inv(s) && k in s.calls && Running(s.calls[k])
    requires IsClaim(s.store, s.calls[k].input.claim)
    requires s.calls[k].input.token != s.store[s.calls[k].input.claim].meta.token
    ensures (exists steps :: OwnSteps(steps, k) && k in ExecFrom(s, steps).calls
                             && ExecFrom(s, steps).calls[k].pc == Returned(Acceptance))
            <==> CanStillAccept(s.calls[k])
  {
    var c := s.calls[k];
    assert CallOk(s, c);
    if CanStillAccept(c) {
      var v := if c.verdict.Some? then c.verdict.value else Confirmed("");
      assert BoundFor(c, c.input.claim, c.snap.value, v);
      var steps := StaleCallCanClose(s, k, c.input.claim, c.snap.value, v);
    } else {
      forall steps | OwnSteps(steps, k)
        ensures k in ExecFrom(s, steps).calls && ExecFrom(s, steps).calls[k].pc != Returned(Acceptance)
      {
        DoomedIsNeverAccepted(s, k, steps);
      }
    }
  }

  // A run in which a recovered claim is completed by a call that holds the token from before.
  lemma OldTokenCompletes() returns (steps: seq<Step>, id: AtomId)
    ensures
      var s := Exec(steps);
      && IsComplete(s, id) && 0 in s.calls && s.calls[0].input.claim == id
      && s.calls[0].pc == Returned(Acceptance) && s.calls[0].input.token != s.store[id].meta.token
  {
    id := Named("c");
    var v := Confirmed("MERGED");
    var start := OverlapPrefix(v);
    var s0 := Exec(start);
    var a, b := Reap(id, FlipToStalled), Reap(id, Recover("u", "high", 10));
    var s2 := Next(Next(s0, a), b);
    assert s2.calls == s0.calls && IsClaim(s2.store, id) && s2.store[id].meta.token == "u";
    InvHolds(start + [a, b]);
    ExecutesOn(start, [a, b]);
    TwoSteps(s0, a, b);
    hide Inv;
    var more := StaleCallCanClose(s2, 0, id, s0.calls[0].snap.value, v);
    steps := start + [a, b] + more;
    ExecutesOn(start + [a, b], more);
    InputStays(s2, more, 0);
  }

  lemma {:induction false} InputStays(s: Sys, steps: seq<Step>, k: nat)
    requires k in s.calls
    ensures k in ExecFrom(s, steps).calls && ExecFrom(s, steps).calls[k].input == s.calls[k].input
    decreases |steps|
  {
    if steps != [] { InputStays(Next(s, steps[0]), steps[1..], k); }
  }
}
