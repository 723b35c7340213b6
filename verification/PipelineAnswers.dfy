// What calls to abandon or resume a pipeline write, when anything may run in between.

module PipelineAnswers {
  import opened Prelude
  import opened PipelineConsole

  // ---- Runs, cut at a step ----

  lemma {:induction false} CutAtStep(s: Sys, steps: seq<Step>, i: nat)
    requires i < |steps|
    ensures ExecFrom(s, steps[..i + 1]) == Next(ExecFrom(s, steps[..i]), steps[i])
    ensures ExecFrom(s, steps) == ExecFrom(ExecFrom(s, steps[..i + 1]), steps[i + 1..])
    decreases i
  {
    if i == 0 {
      assert steps[..1] == [steps[0]] && steps[..1][1..] == [] && steps[..0] == [];
      assert ExecFrom(s, steps[..1]) == ExecFrom(Next(s, steps[0]), []);
    } else {
      var s1, rest := Next(s, steps[0]), steps[1..];
      CutAtStep(s1, rest, i - 1);
      assert steps[..i + 1][1..] == rest[..i] && steps[..i][1..] == rest[..i - 1];
      assert rest[i - 1] == steps[i] && rest[i..] == steps[i + 1..];
    }
  }

  // ---- What one step writes ----

  // The snapshot about to be written back was open to the request when it was read.
  predicate SnapshotOpen(c: Call) {
    c.pc.WritePipeline? ==>
      if c.req.kind.Abandon? then c.pc.snap.state !in {Abandoned, Completed, FailedState} else c.pc.snap.state == HilPaused
  }

  ghost predicate AllOpen(s: Sys) { forall k :: k in s.calls ==> SnapshotOpen(s.calls[k]) }

  lemma StepKeepsOpen(s: Sys, step: Step)
    requires AllOpen(s)
    ensures AllOpen(Next(s, step))
  {
  }

  lemma {:induction false} RunsKeepOpen(s: Sys, steps: seq<Step>)
    requires AllOpen(s)
    ensures AllOpen(ExecFrom(s, steps))
    decreases |steps|
  {
    if steps != [] {
      StepKeepsOpen(s, steps[0]);
      RunsKeepOpen(Next(s, steps[0]), steps[1..]);
    }
  }

  // The file that a request leaves behind, over what it read.
  function Written(req: Request, p: Pipeline): Pipeline {
    match req.kind
    case Abandon => Pipeline(Abandoned, Some(req.atomId), p.lastResumeAtomId)
    case Resume => Pipeline(Running, p.abandonAtomId, Some(req.atomId))
  }

  // In every reachable state: a step of a call touches a pipeline file only when it makes the call
  // return. It then writes what the call had read, not terminal for an abandon and paused for a resume,
  // as abandoned or running, with the request's own atom recorded.
  lemma OnlySuccessWritesTheFile(steps: seq<Step>, k: nat, x: Choice)
    requires k in Exec(steps).calls && InFlight(Exec(steps).calls[k])
    ensures
      var s := Exec(steps);
      var c, s' := s.calls[k], Next(s, Run(k, x));
      && k in s'.calls && s'.calls[k].req == c.req
      && (s'.calls[k].pc.Returned? <==> c.pc.WritePipeline? && !x.fault)
      && (!s'.calls[k].pc.Returned? ==> s'.disk.pipelines == s.disk.pipelines)
      && (s'.calls[k].pc.Returned? ==>
            && SnapshotOpen(c)
            && s'.disk == Disk(s.disk.atoms, s.disk.pipelines[c.req.pipeline := Written(c.req, c.pc.snap)]))
  {
    RunsKeepOpen(Initial, steps);
    assert SnapshotOpen(Exec(steps).calls[k]);
    hide ExecFrom;
  }

  // ---- Calls that throw ----

  lemma {:induction false} FinishedStays(s: Sys, steps: seq<Step>, k: nat)
    requires k in s.calls && !InFlight(s.calls[k])
    ensures k in ExecFrom(s, steps).calls && ExecFrom(s, steps).calls[k] == s.calls[k]
    decreases |steps|
  {
    if steps != [] { FinishedStays(Next(s, steps[0]), steps[1..], k); }
  }

  // In every run: no step of a call that ends up throwing has touched a pipeline file.
  lemma ThrowingCallWritesNoFile(steps: seq<Step>, k: nat, i: nat)
    requires k in Exec(steps).calls && Exec(steps).calls[k].pc.Threw?
    requires i < |steps| && steps[i].Run? && steps[i].call == k
    ensures Exec(steps[..i + 1]).disk.pipelines == Exec(steps[..i]).disk.pipelines
  {
    CutAtStep(Initial, steps, i);
    var s, s' := Exec(steps[..i]), Exec(steps[..i + 1]);
    if k in s.calls && InFlight(s.calls[k]) {
      OnlySuccessWritesTheFile(steps[..i], k, steps[i].choice);
      if s'.calls[k].pc.Returned? { FinishedStays(s', steps[i + 1..], k); }
    }
  }

  // In every interleaving: a call that is not authorised throws for good. It writes no atom and no
  // pipeline file, then or later.
  lemma RefusedCallWritesNothing(steps: seq<Step>, k: nat, x: Choice, more: seq<Step>, y: Choice)
    requires k in Exec(steps).calls && Exec(steps).calls[k].pc.Validate? && (x.fault || !x.authorised)
    ensures
      var s := Exec(steps);
      var s' := Next(s, Run(k, x));
      var later := ExecFrom(s', more);
      && s'.disk == s.disk
      && k in later.calls && later.calls[k].pc == Threw(Refused) && !LeftBehind(later, k)
      && Next(later, Run(k, y)) == later
  {
    var s := Exec(steps);
    var s' := Next(s, Run(k, x));
    FinishedStays(s', more, k);
    IntegrityHolds(steps);
    NextKeepsOwned(s, Run(k, x));
    NextKeepsIntegrity(s, Run(k, x));
    RunsKeepIntegrity(s', more);
    hide ExecFrom;
  }
}
