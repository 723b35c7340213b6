// `ensureServiceRunning` of src/lifecycle/ensure-service-running.ts as the steps of any
// number of concurrent callers over one pid file and one lock file.

module ServiceLock {
  import opened Prelude

  datatype Result = AlreadyRunning(pid: int) | StartedNew(pid: int) | Reclaimed(pid: int, previous: int) | Failure

  datatype Pc =
    | ReadPid
    | CheckAlive
    | TakeLock
    | Poll(left: nat)
    | PollAlive(seen: int, left: nat)
    | Spawn
    | WritePid(child: int)
    | KillOrphan(orphan: int)
    | Release(result: Result)
    | Done(result: Result)

  datatype Caller = Caller(pc: Pc, existing: Option<int>)

  const START := Caller(ReadPid, None)

  // `leaked` records that a lock holder crashed or failed to remove the lock file.
  datatype Files = Files(pidFile: Option<int>, lock: Option<nat>, alive: set<int>, spawns: nat, leaked: bool)

  // `fault` makes the operation fail; `exists` says the failure to take the lock carries
  // the code of an existing file. `pid` is the pid the operating system hands out.
  datatype Choice = Choice(fault: bool, eexist: bool, pid: int)

  const POLLS := 10

  function ResultOf(existing: Option<int>, pid: int): Result {
    if existing.Some? then Reclaimed(pid, existing.value) else StartedNew(pid)
  }

  function Advance(k: nat, c: Caller, f: Files, x: Choice): (Caller, Files)
    requires !c.pc.Done?
  {
    match c.pc
    case ReadPid =>
      var found := if x.fault then None else f.pidFile;
      (Caller(if found.Some? then CheckAlive else TakeLock, found), f)
    case CheckAlive =>
      if c.existing.Some? && c.existing.value in f.alive
      then (c.(pc := Done(AlreadyRunning(c.existing.value))), f)
      else (c.(pc := TakeLock), f)
    case TakeLock =>
      if x.fault then (c.(pc := if x.eexist then Poll(POLLS) else Done(Failure)), f)
      else if f.lock.Some? then (c.(pc := Poll(POLLS)), f)
      else (c.(pc := Spawn), f.(lock := Some(k)))
    case Poll(left) =>
      if left == 0 then (c.(pc := Done(Failure)), f)
      else if !x.fault && f.pidFile.Some? then (c.(pc := PollAlive(f.pidFile.value, left - 1)), f)
      else (c.(pc := Poll(left - 1)), f)
    case PollAlive(seen, left) =>
      (c.(pc := if seen in f.alive then Done(AlreadyRunning(seen)) else Poll(left)), f)
    case Spawn =>
      if x.fault || x.pid in f.alive then (c.(pc := Release(Failure)), f)
      else (c.(pc := WritePid(x.pid)), f.(alive := f.alive + {x.pid}, spawns := f.spawns + 1))
    case WritePid(pid) =>
      if x.fault then (c.(pc := KillOrphan(pid)), f)
      else (c.(pc := Release(ResultOf(c.existing, pid))), f.(pidFile := Some(pid)))
    case KillOrphan(pid) => (c.(pc := Release(Failure)), if x.fault then f else f.(alive := f.alive - {pid}))
    case Release(result) => (c.(pc := Done(result)), if x.fault then f.(leaked := true) else f.(lock := None))
  }

  datatype Sys = Sys(files: Files, callers: map<nat, Caller>)

  // Processes die on their own, stopService removes the pid file, callers may crash.
  datatype Step =
    | Begin(k: nat)
    | Run(caller: nat, choice: Choice)
    | Die(pid: int)
    | Forget
    | Crash(crashed: nat)

  predicate Critical(c: Caller) { c.pc.Spawn? || c.pc.WritePid? || c.pc.KillOrphan? || c.pc.Release? }

  function Next(s: Sys, step: Step): Sys {
    match step
    case Begin(k) => if k in s.callers then s else s.(callers := s.callers[k := START])
    case Run(k, x) =>
      if k in s.callers && !s.callers[k].pc.Done? then
        var (c, f) := Advance(k, s.callers[k], s.files, x);
        Sys(f, s.callers[k := c])
      else s
    case Die(pid) => s.(files := s.files.(alive := s.files.alive - {pid}))
    case Forget => s.(files := s.files.(pidFile := None))
    case Crash(k) =>
      if k in s.callers then
        // A crashed caller takes no further step; its number is not used again.
        Sys(if Critical(s.callers[k]) then s.files.(leaked := true) else s.files,
            s.callers[k := s.callers[k].(pc := Done(Failure))])
      else s
  }

  function ExecFrom(s: Sys, steps: seq<Step>): Sys
    decreases |steps|
  {
    if steps == [] then s else ExecFrom(Next(s, steps[0]), steps[1..])
  }

  const Initial := Sys(Files(None, None, {}, 0, false), map[])

  function Exec(steps: seq<Step>): Sys { ExecFrom(Initial, steps) }

  // ---- Mutual exclusion ----

  // Whoever is between taking and releasing the lock is the one the lock file belongs to;
  // without a leak, a lock file always belongs to somebody there.
  ghost predicate Locked(s: Sys) {
    && (forall k :: k in s.callers && Critical(s.callers[k]) ==> s.files.lock == Some(k))
    && (s.files.lock.Some? && !s.files.leaked ==>
          s.files.lock.value in s.callers && Critical(s.callers[s.files.lock.value]))
  }

  lemma NextKeepsLocked(s: Sys, step: Step)
    requires Locked(s)
    ensures Locked(Next(s, step))
  {
  }

  lemma {:induction false} RunsKeepLocked(s: Sys, steps: seq<Step>)
    requires Locked(s)
    ensures Locked(ExecFrom(s, steps))
    decreases |steps|
  {
    if steps != [] {
      NextKeepsLocked(s, steps[0]);
      RunsKeepLocked(Next(s, steps[0]), steps[1..]);
    }
  }

  // At most one caller is ever between acquire and release, and without a crash or a
  // failed remove the lock file exists exactly while some caller is.
  lemma LockIsExclusive(steps: seq<Step>, i: nat, j: nat)
    ensures
      var s := Exec(steps);
      && (i in s.callers && j in s.callers && Critical(s.callers[i]) && Critical(s.callers[j]) ==> i == j)
      && (!s.files.leaked ==>
            (s.files.lock.Some? <==> exists k :: k in s.callers && Critical(s.callers[k])))
  {
    RunsKeepLocked(Initial, steps);
    var s := Exec(steps);
    if s.files.lock.Some? && !s.files.leaked {
      assert s.files.lock.value in s.callers && Critical(s.callers[s.files.lock.value]);
    }
  }

  // Every exit path releases: when nobody is in flight and nothing leaked, there is no lock.
  lemma AllExitsRelease(steps: seq<Step>)
    requires !Exec(steps).files.leaked
    requires forall k :: k in Exec(steps).callers ==> Exec(steps).callers[k].pc.Done?
    ensures Exec(steps).files.lock.None?
  {
    RunsKeepLocked(Initial, steps);
  }

  // Only the lock holder spawns a child or records a pid.
  lemma OnlyHolderStarts(steps: seq<Step>, step: Step)
    ensures
      var s := Exec(steps);
      var s' := Next(s, step);
      s'.files.spawns != s.files.spawns || (s'.files.pidFile.Some? && s'.files.pidFile != s.files.pidFile) ==>
        step.Run? && s.files.lock == Some(step.caller) && Critical(s.callers[step.caller])
  {
    RunsKeepLocked(Initial, steps);
  }

  // ---- When a second start is ruled out ----

  // p is on record and alive.
  predicate Recorded(s: Sys, p: int) { s.files.pidFile == Some(p) && p in s.files.alive }

  predicate ReadsTruly(s: Sys, step: Step) {
    step.Run? && step.caller in s.callers && s.callers[step.caller].pc.ReadPid? ==> !step.choice.fault
  }

  // Throughout the run p stays alive and on record, and reads of the pid file succeed.
  predicate Undisturbed(s: Sys, steps: seq<Step>, p: int)
    decreases |steps|
  {
    && Recorded(s, p)
    && (steps == [] || (ReadsTruly(s, steps[0]) && Undisturbed(Next(s, steps[0]), steps[1..], p)))
  }

  // The caller looked at the pid file before p was there, and is on its way to a spawn.
  predicate Committed(c: Caller, p: int) {
    c.pc.TakeLock? || c.pc.Spawn? || (c.pc.CheckAlive? && c.existing != Some(p))
  }

  ghost predicate NobodyCommitted(s: Sys, p: int) { forall k :: k in s.callers ==> !Committed(s.callers[k], p) }

  // Not on the way to a spawn and not past one.
  predicate Harmless(s: Sys, k: nat, p: int) {
    k in s.callers ==> !Committed(s.callers[k], p) && !Critical(s.callers[k])
  }

  lemma {:induction false} HarmlessStaysHarmless(s: Sys, steps: seq<Step>, p: int, k: nat)
    requires Undisturbed(s, steps, p) && Harmless(s, k, p)
    ensures Harmless(ExecFrom(s, steps), k, p)
    decreases |steps|
  {
    if steps != [] {
      assert Harmless(Next(s, steps[0]), k, p);
      HarmlessStaysHarmless(Next(s, steps[0]), steps[1..], p, k);
    }
  }

  // A caller whose first look at the pid file comes after p was recorded never enters the
  // critical section, so never spawns, while p stays alive and recorded.
  lemma LateCallerNeverStarts(steps: seq<Step>, more: seq<Step>, p: int, k: nat)
    requires Undisturbed(Exec(steps), more, p)
    requires k in Exec(steps).callers ==> Exec(steps).callers[k] == START
    ensures
      var later := ExecFrom(Exec(steps), more);
      k in later.callers ==> !Critical(later.callers[k])
  {
    HarmlessStaysHarmless(Exec(steps), more, p, k);
  }

  lemma {:induction false} NobodyCommittedNobodySpawns(s: Sys, steps: seq<Step>, p: int)
    requires NobodyCommitted(s, p) && Undisturbed(s, steps, p)
    ensures ExecFrom(s, steps).files.spawns == s.files.spawns
    decreases |steps|
  {
    if steps != [] {
      var s1 := Next(s, steps[0]);
      assert s1.files.spawns == s.files.spawns;
      forall k | k in s1.callers
        ensures !Committed(s1.callers[k], p)
      {
        if k in s.callers { assert !Committed(s.callers[k], p); }
      }
      NobodyCommittedNobodySpawns(s1, steps[1..], p);
    }
  }

  lemma {:induction false} UnusedPid(used: set<int>, from: int) returns (pid: int)
    ensures pid >= from && pid !in used
    decreases used
  {
    if from in used { pid := UnusedPid(used - {from}, from + 1); } else { pid := from; }
  }

  function WayToSpawn(c: Caller, alive: set<int>): nat {
    match c.pc
    case CheckAlive => if c.existing.Some? && c.existing.value in alive then 3 else 2
    case TakeLock => 1
    case _ => 0
  }

  function WayToRelease(s: Sys): nat {
    if s.files.lock.None? || s.files.lock.value !in s.callers then 0
    else
      match s.callers[s.files.lock.value].pc
      case WritePid(_) => 3
      case KillOrphan(_) => 2
      case Release(_) => 1
      case _ => 0
  }

  // The next step towards a second spawn: let the lock holder spawn or give up, then let
  // the committed caller check, take the lock and spawn.
  function TowardsSpawn(s: Sys, k: nat, pid: int): Step
    requires k in s.callers
  {
    if s.files.lock.Some? then
      var h := s.files.lock.value;
      var spawning := h in s.callers && s.callers[h].pc.Spawn?;
      var releasing := h in s.callers && s.callers[h].pc.Release?;
      Run(h, Choice(!spawning && !releasing, false, pid))
    else if WayToSpawn(s.callers[k], s.files.alive) == 3 then Die(s.callers[k].existing.value)
    else Run(k, Choice(false, false, pid))
  }

  lemma TowardsSpawnAdvances(s: Sys, k: nat, p: int, pid: int)
    requires Locked(s) && !s.files.leaked && Recorded(s, p)
    requires k in s.callers && Committed(s.callers[k], p) && pid !in s.files.alive
    ensures
      var step := TowardsSpawn(s, k, pid);
      var s' := Next(s, step);
      && ReadsTruly(s, step)
      && Recorded(s', p)
      && (s'.files.spawns == s.files.spawns + 1
          || (&& s'.files.spawns == s.files.spawns
              && !s'.files.leaked
              && k in s'.callers && Committed(s'.callers[k], p)
              && (WayToSpawn(s'.callers[k], s'.files.alive) < WayToSpawn(s.callers[k], s.files.alive)
                  || (WayToSpawn(s'.callers[k], s'.files.alive) == WayToSpawn(s.callers[k], s.files.alive)
                      && WayToRelease(s') < WayToRelease(s)))))
  {
  }

  // A committed caller can still start a second service beside p.
  lemma {:induction false} CommittedCanSpawn(s: Sys, k: nat, p: int) returns (steps: seq<Step>)
    requires Locked(s) && !s.files.leaked && Recorded(s, p)
    requires k in s.callers && Committed(s.callers[k], p)
    ensures Undisturbed(s, steps, p) && ExecFrom(s, steps).files.spawns == s.files.spawns + 1
    decreases WayToSpawn(s.callers[k], s.files.alive), WayToRelease(s)
  {
    var pid := UnusedPid(s.files.alive, 1);
    var step := TowardsSpawn(s, k, pid);
    var s' := Next(s, step);
    TowardsSpawnAdvances(s, k, p, pid);
    if s'.files.spawns == s.files.spawns + 1 {
      steps := [step];
      assert ExecFrom(s, steps) == ExecFrom(s', []);
      assert Undisturbed(s', [], p);
    } else {
      NextKeepsLocked(s, step);
      var rest := CommittedCanSpawn(s', k, p);
      steps := [step] + rest;
      assert steps[1..] == rest;
    }
  }

  // With p recorded and alive and no lock leaked, nothing is started beside p in any
  // undisturbed continuation exactly when no caller is committed.
  lemma NoDoubleStartExactlyWhen(steps: seq<Step>, p: int)
    requires Recorded(Exec(steps), p) && !Exec(steps).files.leaked
    ensures
      (forall more :: Undisturbed(Exec(steps), more, p) ==>
          ExecFrom(Exec(steps), more).files.spawns == Exec(steps).files.spawns)
      <==> NobodyCommitted(Exec(steps), p)
  {
    var s := Exec(steps);
    RunsKeepLocked(Initial, steps);
    if NobodyCommitted(s, p) {
      forall more | Undisturbed(s, more, p)
        ensures ExecFrom(s, more).files.spawns == s.files.spawns
      {
        NobodyCommittedNobodySpawns(s, more, p);
      }
    } else {
      var k :| k in s.callers && Committed(s.callers[k], p);
      var more := CommittedCanSpawn(s, k, p);
    }
  }

  lemma {:induction false} RunsCompose(s: Sys, first: seq<Step>, second: seq<Step>)
    ensures ExecFrom(s, first + second) == ExecFrom(ExecFrom(s, first), second)
    decreases |first|
  {
    if first == [] {
      assert first + second == second;
    } else {
      assert (first + second)[0] == first[0] && (first + second)[1..] == first[1..] + second;
      RunsCompose(Next(s, first[0]), first[1..], second);
    }
  }

  lemma FourSteps(s: Sys, steps: seq<Step>)
    requires |steps| == 4
    ensures ExecFrom(s, steps) == Next(Next(Next(Next(s, steps[0]), steps[1]), steps[2]), steps[3])
  {
    var a := Next(s, steps[0]);
    assert ExecFrom(a, steps[1..]) == ExecFrom(Next(a, steps[1]), steps[2..]) by { assert steps[1..][1..] == steps[2..]; }
    var b := Next(a, steps[1]);
    assert ExecFrom(b, steps[2..]) == ExecFrom(Next(b, steps[2]), steps[3..]) by { assert steps[2..][1..] == steps[3..]; }
    var c := Next(b, steps[2]);
    assert ExecFrom(c, steps[3..]) == ExecFrom(Next(c, steps[3]), []) by { assert steps[3..][1..] == []; }
  }

  const LOOKED := Caller(TakeLock, None)

  const GO := Choice(false, false, 1)

  lemma BothLook()
    ensures Exec([Begin(0), Begin(1), Run(0, GO), Run(1, GO)]) == Sys(Initial.files, map[0 := LOOKED, 1 := LOOKED])
  {
    FourSteps(Initial, [Begin(0), Begin(1), Run(0, GO), Run(1, GO)]);
  }

  lemma OneStarts()
    ensures
      var s := ExecFrom(Sys(Initial.files, map[0 := LOOKED, 1 := LOOKED]), [Run(0, GO), Run(0, GO), Run(0, GO), Run(0, GO)]);
      && s.files == Files(Some(1), None, {1}, 1, false)
      && 1 in s.callers && s.callers[1] == LOOKED
  {
    var s := Sys(Initial.files, map[0 := LOOKED, 1 := LOOKED]);
    FourSteps(s, [Run(0, GO), Run(0, GO), Run(0, GO), Run(0, GO)]);
    hide ExecFrom;
  }

  lemma OtherStarts(s: Sys)
    requires s.files == Files(Some(1), None, {1}, 1, false) && 1 in s.callers && s.callers[1] == LOOKED
    ensures
      var go := Run(1, Choice(false, false, 2));
      var s' := Next(Next(s, go), go);
      s'.files.spawns == 2 && s'.files.alive == {1, 2} && Undisturbed(s, [go, go], 1) && ExecFrom(s, [go, go]) == s'
  {
    var go := Run(1, Choice(false, false, 2));
    assert [go, go][1..] == [go] && [go][1..] == [];
    assert ExecFrom(Next(s, go), [go]) == ExecFrom(Next(Next(s, go), go), []);
    assert Undisturbed(Next(Next(s, go), go), [], 1);
    assert Undisturbed(Next(s, go), [go], 1);
  }

  // The lock alone does not make one caller win: two callers that both saw no pid file
  // start a service each, one after the other, and both children are alive.
  lemma TwoServicesCanRun() returns (steps: seq<Step>, more: seq<Step>)
    ensures !Exec(steps).files.leaked && Recorded(Exec(steps), 1) && Exec(steps).files.spawns == 1
    ensures Undisturbed(Exec(steps), more, 1)
    ensures ExecFrom(Exec(steps), more).files.spawns == 2 && ExecFrom(Exec(steps), more).files.alive == {1, 2}
  {
    var first := [Begin(0), Begin(1), Run(0, GO), Run(1, GO)];
    var second := [Run(0, GO), Run(0, GO), Run(0, GO), Run(0, GO)];
    BothLook();
    OneStarts();
    hide ExecFrom;
    hide Next;
    RunsCompose(Initial, first, second);
    steps := first + second;
    more := [Run(1, Choice(false, false, 2)), Run(1, Choice(false, false, 2))];
    OtherStarts(Exec(steps));
  }

  // ---- A lock nobody will release ----

  // The lock file is there and no caller is between acquire and release.
  ghost predicate Orphaned(s: Sys) {
    s.files.lock.Some? && forall k :: k in s.callers ==> !Critical(s.callers[k])
  }

  lemma {:induction false} OrphanedLockStays(s: Sys, steps: seq<Step>)
    requires Orphaned(s)
    ensures
      var s' := ExecFrom(s, steps);
      Orphaned(s') && s'.files.lock == s.files.lock && s'.files.spawns == s.files.spawns
    decreases |steps|
  {
    if steps != [] { OrphanedLockStays(Next(s, steps[0]), steps[1..]); }
  }

  lemma UnusedCaller(used: set<nat>, from: nat) returns (k: nat)
    ensures k >= from && k !in used
    decreases used
  {
    if from in used { k := UnusedCaller(used - {from}, from + 1); } else { k := from; }
  }

  lemma FreshCallerStarts(s: Sys, k: nat, pid: int)
    requires s.files.lock.None? && k !in s.callers && pid !in s.files.alive
    ensures
      var go := Choice(false, false, pid);
      Next(Next(Next(Next(s, Begin(k)), Run(k, Choice(true, false, pid))), Run(k, go)), Run(k, go)).files.spawns
      == s.files.spawns + 1
  {
  }

  lemma {:induction false} SomebodyCanStart(s: Sys) returns (steps: seq<Step>)
    requires Locked(s) && !Orphaned(s)
    ensures ExecFrom(s, steps).files.spawns == s.files.spawns + 1
    decreases WayToRelease(s)
  {
    var pid := UnusedPid(s.files.alive, 1);
    if s.files.lock.None? {
      var k := UnusedCaller(s.callers.Keys, 0);
      var go := Choice(false, false, pid);
      steps := [Begin(k), Run(k, Choice(true, false, pid)), Run(k, go), Run(k, go)];
      FreshCallerStarts(s, k, pid);
      hide Next;
      FourSteps(s, steps);
    } else {
      var k :| k in s.callers && Critical(s.callers[k]);
      var step := Run(k, Choice(false, false, pid));
      var s' := Next(s, step);
      NextKeepsLocked(s, step);
      HolderMovesOn(s, k, pid);
      hide Next;
      if s.callers[k].pc.Spawn? {
        steps := [step];
        assert ExecFrom(s, steps) == ExecFrom(s', []);
      } else {
        var rest := SomebodyCanStart(s');
        steps := [step] + rest;
        assert steps[1..] == rest;
      }
    }
  }

  lemma HolderMovesOn(s: Sys, k: nat, pid: int)
    requires Locked(s) && k in s.callers && Critical(s.callers[k]) && pid !in s.files.alive
    ensures
      var s' := Next(s, Run(k, Choice(false, false, pid)));
      if s.callers[k].pc.Spawn? then s'.files.spawns == s.files.spawns + 1
      else !Orphaned(s') && s'.files.spawns == s.files.spawns && WayToRelease(s') < WayToRelease(s)
  {
    var s' := Next(s, Run(k, Choice(false, false, pid)));
    assert s.files.lock == Some(k);
    if !s.callers[k].pc.Release? && !s.callers[k].pc.Spawn? { assert k in s'.callers && Critical(s'.callers[k]); }
  }

  // A holder that crashes leaves the lock file behind.
  lemma CrashOrphansTheLock() returns (steps: seq<Step>)
    ensures Orphaned(Exec(steps)) && Exec(steps).files.leaked && Exec(steps).files.spawns == 0
  {
    var first, last := [Begin(0), Run(0, GO), Run(0, GO), Crash(0)], Files(None, Some(0), {}, 0, true);
    steps := first;
    FourSteps(Initial, first);
    var s := Next(Next(Next(Initial, Begin(0)), Run(0, GO)), Run(0, GO));
    assert s.callers == map[0 := Caller(Spawn, None)];
  }

  // No service is ever started again exactly when the lock file has been left behind: by a holder
  // that crashed, or that could not remove it.
  lemma NoStartEverAgainExactlyWhen(steps: seq<Step>)
    ensures (forall more :: ExecFrom(Exec(steps), more).files.spawns == Exec(steps).files.spawns)
            <==> Orphaned(Exec(steps))
  {
    RunsKeepLocked(Initial, steps);
    var s := Exec(steps);
    if Orphaned(s) {
      forall more
        ensures ExecFrom(s, more).files.spawns == s.files.spawns
      {
        OrphanedLockStays(s, more);
      }
    } else {
      var more := SomebodyCanStart(s);
    }
  }

  // ---- The function as code ----

  function StepsLeft(c: Caller): nat {
    match c.pc
    case ReadPid => 100
    case CheckAlive => 99
    case TakeLock => 98
    case PollAlive(_, left) => 2 * left + 12
    case Poll(left) => 2 * left + 11
    case Spawn => 5
    case WritePid(_) => 4
    case KillOrphan(_) => 3
    case Release(_) => 2
    case Done(_) => 0
  }

  // A poll never has more looks left than it started with.
  predicate Bounded(c: Caller) {
    (c.pc.Poll? ==> c.pc.left <= POLLS) && (c.pc.PollAlive? ==> c.pc.left < POLLS)
  }

  // The caller runs to its end with nothing in between; env(i) is the world at step i.
  function Alone(k: nat, c: Caller, f: Files, env: nat -> Choice, i: nat): (Caller, Files)
    requires Bounded(c)
    decreases StepsLeft(c)
  {
    if c.pc.Done? then (c, f)
    else
      var (c', f') := Advance(k, c, f, env(i));
      Alone(k, c', f', env, i + 1)
  }

  function RunSteps(k: nat, env: nat -> Choice, i: nat, n: nat): seq<Step>
    decreases n
  {
    if n == 0 then [] else [Run(k, env(i))] + RunSteps(k, env, i + 1, n - 1)
  }

  lemma AdvanceTakesAStep(k: nat, c: Caller, f: Files, x: Choice)
    requires Bounded(c) && !c.pc.Done?
    ensures Bounded(Advance(k, c, f, x).0) && StepsLeft(Advance(k, c, f, x).0) < StepsLeft(c)
  {
  }

  // A call that runs alone is an interleaved run in which only that caller steps.
  lemma {:induction false} AloneIsARun(s: Sys, k: nat, env: nat -> Choice, i: nat, n: nat)
    requires k in s.callers && Bounded(s.callers[k]) && n >= StepsLeft(s.callers[k])
    ensures
      var (c, f) := Alone(k, s.callers[k], s.files, env, i);
      ExecFrom(s, RunSteps(k, env, i, n)) == Sys(f, s.callers[k := c])
    decreases n
  {
    var c := s.callers[k];
    if !c.pc.Done? { AdvanceTakesAStep(k, c, s.files, env(i)); }
    hide Advance;
    if n == 0 {
      assert s.callers[k := c] == s.callers;
    } else {
      var steps, s' := RunSteps(k, env, i, n), Next(s, Run(k, env(i)));
      assert steps[1..] == RunSteps(k, env, i + 1, n - 1);
      AloneIsARun(s', k, env, i + 1, n - 1);
      var (c1, f1) := Alone(k, s'.callers[k], s'.files, env, i + 1);
      assert s'.callers[k := c1] == s.callers[k := c1];
    }
  }

  // ---- What the function promises, of the files and the world ----

  // The pid file can be read at first and names a live process.
  predicate FoundAlive(f: Files, env: nat -> Choice) {
    !env(0).fault && f.pidFile.Some? && f.pidFile.value in f.alive
  }

  predicate Reads(env: nat -> Choice, j: nat) { !env(j).fault }

  // With the lock taken: the live recorded pid if one of ten looks can read it, else a failure.
  ghost predicate Waits(f: Files, env: nat -> Choice, i: nat, r: Result, f': Files) {
    && f' == f
    && r == if f.pidFile.Some? && f.pidFile.value in f.alive && exists j :: i <= j < i + 10 && Reads(env, j)
            then AlreadyRunning(f.pidFile.value) else Failure
  }

  // The lock file is gone, or left behind if it could not be removed.
  predicate Released(f: Files, fault: bool, f': Files) {
    f' == if fault then f.(leaked := true) else f.(lock := None)
  }

  // With the lock held from step i on: a child that is alive and on record, or a failure that leaves no
  // pid and, if the kill worked, no child.
  predicate Starts(f: Files, previous: Option<int>, env: nat -> Choice, i: nat, r: Result, f': Files) {
    var pid := env(i).pid;
    if env(i).fault || pid in f.alive then r == Failure && Released(f, env(i + 1).fault, f')
    else
      var running := f.(alive := f.alive + {pid}, spawns := f.spawns + 1);
      if env(i + 1).fault then
        && r == Failure
        && Released(if env(i + 2).fault then running else running.(alive := f.alive), env(i + 3).fault, f')
      else
        && r == (match previous case None => StartedNew(pid) case Some(dead) => Reclaimed(pid, dead))
        && Released(running.(pidFile := Some(pid)), env(i + 2).fault, f')
  }

  lemma AloneSteps(k: nat, c: Caller, f: Files, env: nat -> Choice, i: nat)
    requires Bounded(c) && !c.pc.Done?
    ensures
      var (c', f') := Advance(k, c, f, env(i));
      Bounded(c') && Alone(k, c, f, env, i) == Alone(k, c', f', env, i + 1)
  {
    AdvanceTakesAStep(k, c, f, env(i));
  }

  lemma AloneReleases(k: nat, c: Caller, f: Files, env: nat -> Choice, i: nat)
    requires c.pc.Release?
    ensures
      var (c', f') := Alone(k, c, f, env, i);
      c'.pc == Done(c.pc.result) && Released(f, env(i).fault, f')
  {
    AloneSteps(k, c, f, env, i);
  }

  lemma AloneStarts(k: nat, existing: Option<int>, f: Files, env: nat -> Choice, i: nat)
    ensures
      var (c, f') := Alone(k, Caller(Spawn, existing), f, env, i);
      c.pc.Done? && Starts(f, existing, env, i, c.pc.result, f')
  {
    hide Released;
    var c := Caller(Spawn, existing);
    AloneSteps(k, c, f, env, i);
    var (c1, f1) := Advance(k, c, f, env(i));
    if c1.pc.Release? {
      AloneReleases(k, c1, f1, env, i + 1);
    } else {
      AloneSteps(k, c1, f1, env, i + 1);
      var (c2, f2) := Advance(k, c1, f1, env(i + 1));
      if c2.pc.Release? {
        AloneReleases(k, c2, f2, env, i + 2);
      } else {
        AloneSteps(k, c2, f2, env, i + 2);
        var (c3, f3) := Advance(k, c2, f2, env(i + 2));
        assert f.alive + {env(i).pid} - {env(i).pid} == f.alive;
        AloneReleases(k, c3, f3, env, i + 3);
      }
    }
  }

  class ServiceHost {
    var files: Files

    // Somebody holds the lock: wait for a live pid to be recorded.
    method WaitForWinner(k: nat, existing: Option<int>, env: nat -> Choice, i: nat) returns (r: Result)
      modifies this
      ensures
        var (c, f) := Alone(k, Caller(Poll(POLLS), existing), old(files), env, i);
        c.pc == Done(r) && f == files == old(files)
      ensures Waits(old(files), env, i, r, files)
    {
      ghost var whole := Alone(k, Caller(Poll(POLLS), existing), files, env, i);
      var at := i;
      for n := 0 to POLLS
        invariant files == old(files) && at >= i
        invariant Alone(k, Caller(Poll(POLLS - n), existing), files, env, at) == whole
        invariant files.pidFile.Some? && files.pidFile.value in files.alive ==>
                    at == i + n && forall j :: i <= j < at ==> !Reads(env, j)
      {
        ghost var c := Caller(Poll(POLLS - n), existing);
        ghost var (c1, _) := Advance(k, c, files, env(at));
        assert Alone(k, c, files, env, at) == Alone(k, c1, files, env, at + 1);
        if !env(at).fault && files.pidFile.Some? {
          var pid := files.pidFile.value;
          ghost var (c2, _) := Advance(k, c1, files, env(at + 1));
          assert Alone(k, c1, files, env, at + 1) == Alone(k, c2, files, env, at + 2);
          if pid in files.alive {
            assert i <= at < i + 10 && Reads(env, at);
            return AlreadyRunning(pid);
          }
          at := at + 1;
        }
        at := at + 1;
      }
      ghost var last := Caller(Poll(0), existing);
      assert Alone(k, last, files, env, at) == Alone(k, last.(pc := Done(Failure)), files, env, at + 1);
      r := Failure;
    }

    // With the lock held: spawn, record the pid or kill the orphan, and release the lock.
    method StartUnderLock(k: nat, existing: Option<int>, env: nat -> Choice, i: nat) returns (r: Result)
      modifies this
      ensures
        var (c, f) := Alone(k, Caller(Spawn, existing), old(files), env, i);
        c.pc == Done(r) && f == files
      ensures Starts(old(files), existing, env, i, r, files)
    {
      AloneStarts(k, existing, files, env, i);
      hide Starts;
      ghost var c := Caller(Spawn, existing);
      ghost var (c1, f1) := Advance(k, c, files, env(i));
      assert Alone(k, c, files, env, i) == Alone(k, c1, f1, env, i + 1);
      r := Failure;
      var at := i + 1;
      if !env(i).fault && env(i).pid !in files.alive {
        var pid := env(i).pid;
        files := files.(alive := files.alive + {pid}, spawns := files.spawns + 1);
        ghost var (c2, f2) := Advance(k, c1, files, env(at));
        assert Alone(k, c1, files, env, at) == Alone(k, c2, f2, env, at + 1);
        if !env(at).fault {
          files := files.(pidFile := Some(pid));
          r := ResultOf(existing, pid);
        } else {
          at := at + 1;
          ghost var (c3, f3) := Advance(k, c2, files, env(at));
          assert Alone(k, c2, files, env, at) == Alone(k, c3, f3, env, at + 1);
          if !env(at).fault { files := files.(alive := files.alive - {pid}); }
        }
        at := at + 1;
      }
      assert Alone(k, c, old(files), env, i) == Alone(k, Caller(Release(r), existing), files, env, at);
      ghost var (c4, f4) := Advance(k, Caller(Release(r), existing), files, env(at));
      assert Alone(k, Caller(Release(r), existing), files, env, at) == Alone(k, c4, f4, env, at + 1);
      files := if env(at).fault then files.(leaked := true) else files.(lock := None);
    }

    method EnsureServiceRunning(k: nat, env: nat -> Choice) returns (r: Result)
      modifies this
      ensures
        var (c, f) := Alone(k, START, old(files), env, 0);
        c.pc == Done(r) && f == files
      ensures FoundAlive(old(files), env) ==> r == AlreadyRunning(old(files).pidFile.value) && files == old(files)
      ensures
        var f := old(files);
        var found := if env(0).fault then None else f.pidFile;
        var i := if found == None then 1 else 2;
        !FoundAlive(f, env) ==>
          if env(i).fault && !env(i).eexist then r == Failure && files == f
          else if env(i).fault || f.lock != None then Waits(f, env, i + 1, r, files)
          else Starts(f.(lock := Some(k)), found, env, i + 1, r, files)
    {
      ghost var (c1, _) := Advance(k, START, files, env(0));
      assert Alone(k, START, files, env, 0) == Alone(k, c1, files, env, 1);
      var existing := if env(0).fault then None else files.pidFile;
      var at := 1;
      if existing.Some? {
        ghost var (c2, _) := Advance(k, c1, files, env(1));
        assert Alone(k, c1, files, env, 1) == Alone(k, c2, files, env, 2);
        if existing.value in files.alive { return AlreadyRunning(existing.value); }
        at := 2;
      }
      ghost var c := Caller(TakeLock, existing);
      ghost var (c3, f3) := Advance(k, c, files, env(at));
      assert Alone(k, c, files, env, at) == Alone(k, c3, f3, env, at + 1);
      if env(at).fault && !env(at).eexist { return Failure; }
      if env(at).fault || files.lock.Some? {
        r := WaitForWinner(k, existing, env, at + 1);
      } else {
        files := files.(lock := Some(k));
        r := StartUnderLock(k, existing, env, at + 1);
      }
    }
  }
}
