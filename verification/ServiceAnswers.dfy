// What callers of `ensureServiceRunning` are told, over every run.

module ServiceAnswers {
  import opened Prelude
  import opened ServiceLock

  lemma LastStep(steps: seq<Step>)
    requires steps != []
    ensures Exec(steps) == Next(Exec(steps[..|steps| - 1]), steps[|steps| - 1])
  {
    var first, last := steps[..|steps| - 1], steps[|steps| - 1];
    assert first + [last] == steps;
    RunsCompose(Initial, first, [last]);
    var s := Exec(first);
    assert ExecFrom(s, [last]) == ExecFrom(Next(s, last), []);
  }

  // ---- What a caller has seen and done ----

  // Step i is one of caller k, taken in the state Exec(steps[..i]).
  predicate StepOf(steps: seq<Step>, k: nat, i: int) {
    0 <= i < |steps| && steps[i].Run? && steps[i].caller == k && k in Exec(steps[..i]).callers
  }

  // The caller has read p from the pid file.
  ghost predicate Read(steps: seq<Step>, k: nat, p: int) {
    exists i :: StepOf(steps, k, i) && Exec(steps[..i]).files.pidFile == Some(p)
  }

  // Having read p from the pid file, the caller found it alive.
  ghost predicate FoundLive(steps: seq<Step>, k: nat, p: int) {
    exists i :: StepOf(steps, k, i) && Read(steps[..i], k, p) && p in Exec(steps[..i]).files.alive
  }

  // Having read p from the pid file, the caller found it dead.
  ghost predicate FoundDead(steps: seq<Step>, k: nat, p: int) {
    exists i :: StepOf(steps, k, i) && Read(steps[..i], k, p) && p !in Exec(steps[..i]).files.alive
  }

  // The caller has started a process that the system numbered p.
  ghost predicate Spawned(steps: seq<Step>, k: nat, p: int) {
    exists i :: StepOf(steps, k, i) && SpawnAt(steps, k, p, i)
  }

  predicate SpawnAt(steps: seq<Step>, k: nat, p: int, i: int)
    requires StepOf(steps, k, i)
  {
    var s := Exec(steps[..i]);
    && s.callers[k].pc.Spawn? && p !in s.files.alive
    && p in Next(s, steps[i]).files.alive && Next(s, steps[i]).files.spawns == s.files.spawns + 1
  }

  // The caller has put p, which it started, on record.
  ghost predicate RecordedOwn(steps: seq<Step>, k: nat, p: int) {
    exists i :: StepOf(steps, k, i) && Spawned(steps[..i], k, p) && Next(Exec(steps[..i]), steps[i]).files.pidFile == Some(p)
  }

  // ---- A longer run has seen no less ----

  lemma StepsOfLonger(steps: seq<Step>, n: nat, k: nat, i: int)
    requires n <= |steps| && StepOf(steps[..n], k, i)
    ensures StepOf(steps, k, i) && steps[..n][..i] == steps[..i]
  {
    assert steps[..n][..i] == steps[..i];
  }

  lemma HistoryGrows(steps: seq<Step>, n: nat, k: nat, p: int)
    requires n <= |steps|
    ensures Read(steps[..n], k, p) ==> Read(steps, k, p)
    ensures FoundLive(steps[..n], k, p) ==> FoundLive(steps, k, p)
    ensures FoundDead(steps[..n], k, p) ==> FoundDead(steps, k, p)
    ensures Spawned(steps[..n], k, p) ==> Spawned(steps, k, p)
    ensures RecordedOwn(steps[..n], k, p) ==> RecordedOwn(steps, k, p)
  {
    forall i | StepOf(steps[..n], k, i)
      ensures StepOf(steps, k, i) && steps[..n][..i] == steps[..i]
    {
      StepsOfLonger(steps, n, k, i);
    }
  }

  // ---- What each caller stands for ----

  ghost predicate AnswerEarned(steps: seq<Step>, k: nat, existing: Option<int>, r: Result) {
    match r
    case AlreadyRunning(p) => FoundLive(steps, k, p)
    case StartedNew(p) => existing == None && RecordedOwn(steps, k, p)
    case Reclaimed(p, previous) => existing == Some(previous) && FoundDead(steps, k, previous) && RecordedOwn(steps, k, p)
    case Failure => true
  }

  ghost predicate Earned(steps: seq<Step>, k: nat, c: Caller) {
    && (c.existing.Some? ==> Read(steps, k, c.existing.value))
    && (c.existing.Some? && !c.pc.CheckAlive? && !c.pc.Done? ==> FoundDead(steps, k, c.existing.value))
    && match c.pc
       case PollAlive(seen, _) => Read(steps, k, seen)
       case WritePid(p) => Spawned(steps, k, p)
       case Release(r) => !r.AlreadyRunning? && AnswerEarned(steps, k, c.existing, r)
       case Done(r) => AnswerEarned(steps, k, c.existing, r)
       case _ => true
  }

  lemma EarnedGrows(steps: seq<Step>, n: nat, k: nat, c: Caller)
    requires n <= |steps| && Earned(steps[..n], k, c)
    ensures Earned(steps, k, c)
  {
    hide Read;
    hide FoundLive;
    hide FoundDead;
    hide Spawned;
    hide RecordedOwn;
    forall p: int
      ensures Read(steps[..n], k, p) ==> Read(steps, k, p)
      ensures FoundLive(steps[..n], k, p) ==> FoundLive(steps, k, p)
      ensures FoundDead(steps[..n], k, p) ==> FoundDead(steps, k, p)
      ensures Spawned(steps[..n], k, p) ==> Spawned(steps, k, p)
      ensures RecordedOwn(steps[..n], k, p) ==> RecordedOwn(steps, k, p)
    {
      HistoryGrows(steps, n, k, p);
    }
  }

  // What caller k learns or does with its step at the end of the run.
  lemma LastStepShows(steps: seq<Step>, k: nat, x: Choice, p: int)
    requires steps != [] && steps[|steps| - 1] == Run(k, x) && k in Exec(steps[..|steps| - 1]).callers
    ensures
      var n := |steps| - 1;
      var s := Exec(steps[..n]);
      && (s.files.pidFile == Some(p) ==> Read(steps, k, p))
      && (Read(steps[..n], k, p) && p in s.files.alive ==> FoundLive(steps, k, p))
      && (Read(steps[..n], k, p) && p !in s.files.alive ==> FoundDead(steps, k, p))
      && (SpawnAt(steps, k, p, n) ==> Spawned(steps, k, p))
      && (Spawned(steps[..n], k, p) && Next(s, steps[n]).files.pidFile == Some(p) ==> RecordedOwn(steps, k, p))
  {
    assert StepOf(steps, k, |steps| - 1);
    hide Exec;
    hide Next;
  }

  lemma StepEarns(steps: seq<Step>, k: nat, x: Choice)
    requires steps != [] && steps[|steps| - 1] == Run(k, x)
    requires
      var s := Exec(steps[..|steps| - 1]);
      k in s.callers && !s.callers[k].pc.Done? && Earned(steps[..|steps| - 1], k, s.callers[k])
    ensures var s := Exec(steps[..|steps| - 1]); Earned(steps, k, Advance(k, s.callers[k], s.files, x).0)
  {
    var n := |steps| - 1;
    var s := Exec(steps[..n]);
    var c := s.callers[k];
    hide Read;
    hide FoundLive;
    hide FoundDead;
    hide Spawned;
    hide RecordedOwn;
    hide Exec;
    EarnedGrows(steps, n, k, c);
    if c.existing.Some? { LastStepShows(steps, k, x, c.existing.value); }
    if s.files.pidFile.Some? { LastStepShows(steps, k, x, s.files.pidFile.value); }
    match c.pc {
      case PollAlive(seen, _) => LastStepShows(steps, k, x, seen);
      case Spawn => LastStepShows(steps, k, x, x.pid);
      case WritePid(p) => LastStepShows(steps, k, x, p);
      case _ =>
    }
  }

  lemma {:induction false} EveryCallerEarned(steps: seq<Step>, k: nat)
    requires k in Exec(steps).callers
    ensures Earned(steps, k, Exec(steps).callers[k])
    decreases |steps|
  {
    if steps != [] {
      var n := |steps| - 1;
      var s := Exec(steps[..n]);
      LastStep(steps);
      if k in s.callers {
        EveryCallerEarned(steps[..n], k);
        EarnedGrows(steps, n, k, s.callers[k]);
        if steps[n].Run? && steps[n].caller == k && !s.callers[k].pc.Done? { StepEarns(steps, k, steps[n].choice); }
      }
      hide Read;
      hide FoundLive;
      hide FoundDead;
      hide Spawned;
      hide RecordedOwn;
      hide Exec;
      hide Advance;
    }
  }

  // Over all runs: a pid is reported as running only to a caller that read it from the pid file and
  // then found it alive.
  lemma ReportedPidWasLive(steps: seq<Step>, k: nat, p: int)
    requires k in Exec(steps).callers && Exec(steps).callers[k].pc == Done(AlreadyRunning(p))
    ensures exists i, j :: && 0 <= i < j < |steps| && StepOf(steps, k, i) && StepOf(steps, k, j)
                           && Exec(steps[..i]).files.pidFile == Some(p) && p in Exec(steps[..j]).files.alive
  {
    EveryCallerEarned(steps, k);
    var j :| StepOf(steps, k, j) && Read(steps[..j], k, p) && p in Exec(steps[..j]).files.alive;
    var i :| StepOf(steps[..j], k, i) && Exec(steps[..j][..i]).files.pidFile == Some(p);
    StepsOfLonger(steps, j, k, i);
    hide Exec;
  }

  // Over all runs: a pid is reported as started or reclaimed only by a caller that started it itself
  // and put it on record; as reclaimed exactly when that caller had read another pid and found it dead.
  lemma StarterReports(steps: seq<Step>, k: nat)
    requires k in Exec(steps).callers && Exec(steps).callers[k].pc.Done?
    ensures
      var r := Exec(steps).callers[k].pc.result;
      && (r.StartedNew? ==> Spawned(steps, k, r.pid) && RecordedOwn(steps, k, r.pid))
      && (r.Reclaimed? ==>
            && Spawned(steps, k, r.pid) && RecordedOwn(steps, k, r.pid)
            && Read(steps, k, r.previous) && FoundDead(steps, k, r.previous))
      && (r.StartedNew? || r.Reclaimed? ==>
            (r.Reclaimed? <==> Exec(steps).callers[k].existing.Some?))
  {
    EveryCallerEarned(steps, k);
    var r := Exec(steps).callers[k].pc.result;
    if r.StartedNew? || r.Reclaimed? {
      var i :| StepOf(steps, k, i) && Spawned(steps[..i], k, r.pid)
               && Next(Exec(steps[..i]), steps[i]).files.pidFile == Some(r.pid);
      HistoryGrows(steps, i, k, r.pid);
    }
    hide Exec;
    hide Spawned;
    hide RecordedOwn;
  }
}
