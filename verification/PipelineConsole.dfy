// `handleAbandonPipeline` and `handleResumePipeline` of apps/console/server/index.ts as
// atomic file operations, interleaved with each other and with other writers.

module PipelineConsole {
  import opened Prelude

  datatype PipelineState = HilPaused | Running | Abandoned | Completed | FailedState | OtherState

  predicate Terminal(st: PipelineState) { st.Abandoned? || st.Completed? || st.FailedState? }

  // The pipeline file: its state and the two audit-atom ids its metadata can record.
  datatype Pipeline = Pipeline(state: PipelineState, abandonAtomId: Option<string>, lastResumeAtomId: Option<string>)

  function Refs(p: Pipeline): set<string> {
    (if p.abandonAtomId.Some? then {p.abandonAtomId.value} else {})
    + (if p.lastResumeAtomId.Some? then {p.lastResumeAtomId.value} else {})
  }

  datatype Kind = Abandon | Resume

  datatype Request = Request(kind: Kind, pipeline: string, atomId: string)

  // Why a call threw.
  datatype Cause = Refused | AtomExists | Conflict | ReadFailed | WriteFailed

  datatype Pc =
    | Validate
    | WriteAtom
    | Reread
    | WritePipeline(snap: Pipeline)
    | Unlink(cause: Cause)
    | Returned
    | Threw(cause: Cause)

  datatype Call = Call(req: Request, pc: Pc, unlinkFailed: bool)

  function Started(req: Request): Call { Call(req, Validate, false) }

  predicate InFlight(c: Call) { !c.pc.Returned? && !c.pc.Threw? }

  // `authorised` is the validator's verdict over the in-memory index.
  datatype Choice = Choice(fault: bool, authorised: bool)

  // atoms maps each audit file on disk to the call that wrote it.
  datatype Disk = Disk(atoms: map<string, nat>, pipelines: map<string, Pipeline>)

  function Flipped(p: Pipeline, req: Request): Pipeline {
    if req.kind.Abandon? then p.(state := Abandoned, abandonAtomId := Some(req.atomId))
    else p.(state := Running, lastResumeAtomId := Some(req.atomId))
  }

  predicate MovedAway(p: Pipeline, kind: Kind) {
    if kind.Abandon? then Terminal(p.state) else !p.state.HilPaused?
  }

  // Abandon rolls back on every failure after the atom was written, resume only on conflict.
  function AfterFailure(req: Request, cause: Cause): Pc {
    if req.kind.Abandon? || cause.Conflict? then Unlink(cause) else Threw(cause)
  }

  function Advance(k: nat, c: Call, d: Disk, x: Choice): (Call, Disk)
    requires InFlight(c)
  {
    var id := c.req.atomId;
    match c.pc
    case Validate => (c.(pc := if x.fault || !x.authorised then Threw(Refused) else WriteAtom), d)
    case WriteAtom =>
      // Exclusive create.
      if x.fault || id in d.atoms then (c.(pc := Threw(AtomExists)), d)
      else (c.(pc := Reread), d.(atoms := d.atoms[id := k]))
    case Reread =>
      if x.fault || c.req.pipeline !in d.pipelines then (c.(pc := AfterFailure(c.req, ReadFailed)), d)
      else
        var p := d.pipelines[c.req.pipeline];
        (c.(pc := if MovedAway(p, c.req.kind) then AfterFailure(c.req, Conflict) else WritePipeline(p)), d)
    case WritePipeline(snap) =>
      if x.fault then (c.(pc := AfterFailure(c.req, WriteFailed)), d)
      else (c.(pc := Returned), d.(pipelines := d.pipelines[c.req.pipeline := Flipped(snap, c.req)]))
    case Unlink(cause) =>
      if x.fault || id !in d.atoms then (c.(pc := Threw(cause), unlinkFailed := true), d)
      else (c.(pc := Threw(cause)), d.(atoms := d.atoms - {id}))
  }

  // Other writers read a pipeline file and later write it back with another state.
  datatype Sys = Sys(disk: Disk, calls: map<nat, Call>, others: map<nat, (string, Pipeline)>)

  datatype Step =
    | Begin(k: nat, req: Request)
    | Run(call: nat, choice: Choice)
    | Create(pipeline: string, state: PipelineState)
    | OtherRead(writer: nat, read: string)
    | OtherWrite(other: nat, written: PipelineState)

  function Next(s: Sys, step: Step): Sys {
    match step
    case Begin(k, req) => if k in s.calls then s else s.(calls := s.calls[k := Started(req)])
    case Run(k, x) =>
      if k in s.calls && InFlight(s.calls[k]) then
        var (c, d) := Advance(k, s.calls[k], s.disk, x);
        s.(disk := d, calls := s.calls[k := c])
      else s
    case Create(p, st) =>
      if p in s.disk.pipelines then s
      else s.(disk := s.disk.(pipelines := s.disk.pipelines[p := Pipeline(st, None, None)]))
    case OtherRead(w, p) =>
      if p in s.disk.pipelines then s.(others := s.others[w := (p, s.disk.pipelines[p])]) else s
    case OtherWrite(w, st) =>
      if w in s.others then
        s.(disk := s.disk.(pipelines := s.disk.pipelines[s.others[w].0 := s.others[w].1.(state := st)]))
      else s
  }

  const Initial := Sys(Disk(map[], map[]), map[], map[])

  function ExecFrom(s: Sys, steps: seq<Step>): Sys
    decreases |steps|
  {
    if steps == [] then s else ExecFrom(Next(s, steps[0]), steps[1..])
  }

  function Exec(steps: seq<Step>): Sys { ExecFrom(Initial, steps) }

  // ---- Reference integrity ----

  // The call wrote its atom and may still roll it back.
  predicate Provisional(c: Call) { c.pc.Reread? || c.pc.WritePipeline? || c.pc.Unlink? }

  // The call's atom is on disk.
  predicate AtomOnDisk(c: Call) {
    || Provisional(c)
    || c.pc.Returned?
    || (c.pc.Threw? && !c.pc.cause.Refused? && !c.pc.cause.AtomExists?
        && (c.unlinkFailed || AfterFailure(c.req, c.pc.cause).Threw?))
  }

  predicate LeftBehind(s: Sys, k: nat) {
    k in s.calls && s.calls[k].req.atomId in s.disk.atoms && s.disk.atoms[s.calls[k].req.atomId] == k
  }

  predicate CallFormed(c: Call) {
    && (c.pc.Unlink? ==> c.pc == AfterFailure(c.req, c.pc.cause) && !c.pc.cause.Refused? && !c.pc.cause.AtomExists?)
    && (c.unlinkFailed ==> c.pc.Threw? && !c.pc.cause.Refused? && !c.pc.cause.AtomExists?)
  }

  ghost predicate Owned(s: Sys) {
    && (forall k :: k in s.calls ==> CallFormed(s.calls[k]) && (AtomOnDisk(s.calls[k]) <==> LeftBehind(s, k)))
    && (forall id :: id in s.disk.atoms ==> s.disk.atoms[id] in s.calls && s.calls[s.disk.atoms[id]].req.atomId == id)
  }

  // Everything p refers to is on disk, and nothing it refers to can still be rolled back.
  ghost predicate Sound(s: Sys, p: Pipeline) {
    forall id :: id in Refs(p) ==>
      id in s.disk.atoms && s.disk.atoms[id] in s.calls && !Provisional(s.calls[s.disk.atoms[id]])
  }

  ghost predicate Integrity(s: Sys) {
    && (forall p :: p in s.disk.pipelines ==> Sound(s, s.disk.pipelines[p]))
    && (forall k :: k in s.calls && s.calls[k].pc.WritePipeline? ==> Sound(s, s.calls[k].pc.snap))
    && (forall w :: w in s.others ==> Sound(s, s.others[w].1))
  }

  lemma RunnerStaysFormed(k: nat, c: Call, d: Disk, x: Choice)
    requires CallFormed(c) && InFlight(c)
    ensures CallFormed(Advance(k, c, d, x).0)
  {
  }

  // The step puts the runner's own atom on disk or takes it off as its counter says.
  lemma RunnerOwnsItsAtom(s: Sys, k: nat, x: Choice)
    requires Owned(s) && k in s.calls && InFlight(s.calls[k])
    ensures var s' := Next(s, Run(k, x)); AtomOnDisk(s'.calls[k]) <==> LeftBehind(s', k)
  {
    assert CallFormed(s.calls[k]) && (AtomOnDisk(s.calls[k]) <==> LeftBehind(s, k));
  }

  // No other call's atom is written or unlinked.
  lemma OthersKeepTheirAtoms(s: Sys, k: nat, x: Choice, j: nat)
    requires Owned(s) && j in s.calls && j != k
    ensures var s' := Next(s, Run(k, x)); s'.calls[j] == s.calls[j] && (LeftBehind(s', j) <==> LeftBehind(s, j))
  {
    if k in s.calls { assert CallFormed(s.calls[k]) && (AtomOnDisk(s.calls[k]) <==> LeftBehind(s, k)); }
  }

  lemma RunKeepsCallOwned(s: Sys, k: nat, x: Choice, j: nat)
    requires Owned(s) && j in s.calls
    ensures
      var s' := Next(s, Run(k, x));
      j in s'.calls && CallFormed(s'.calls[j]) && (AtomOnDisk(s'.calls[j]) <==> LeftBehind(s', j))
  {
    hide Advance;
    if j != k {
      OthersKeepTheirAtoms(s, k, x, j);
    } else if InFlight(s.calls[k]) {
      RunnerStaysFormed(k, s.calls[k], s.disk, x);
      RunnerOwnsItsAtom(s, k, x);
    }
  }

  lemma RunKeepsAtomOwned(s: Sys, k: nat, x: Choice, id: string)
    requires Owned(s)
    ensures
      var s' := Next(s, Run(k, x));
      id in s'.disk.atoms ==> s'.disk.atoms[id] in s'.calls && s'.calls[s'.disk.atoms[id]].req.atomId == id
  {
  }

  lemma RunKeepsOwned(s: Sys, k: nat, x: Choice)
    requires Owned(s)
    ensures Owned(Next(s, Run(k, x)))
  {
    var s' := Next(s, Run(k, x));
    hide Advance;
    forall j | j in s'.calls
      ensures CallFormed(s'.calls[j]) && (AtomOnDisk(s'.calls[j]) <==> LeftBehind(s', j))
    {
      RunKeepsCallOwned(s, k, x, j);
    }
    forall id | id in s'.disk.atoms
      ensures s'.disk.atoms[id] in s'.calls && s'.calls[s'.disk.atoms[id]].req.atomId == id
    {
      RunKeepsAtomOwned(s, k, x, id);
    }
  }

  lemma NextKeepsOwned(s: Sys, step: Step)
    requires Owned(s)
    ensures Owned(Next(s, step))
  {
    if step.Run? { RunKeepsOwned(s, step.call, step.choice); }
  }

  // A step removes no atom that a sound file refers to, and a call that is past rolling
  // back stays so.
  lemma SoundStays(s: Sys, step: Step, p: Pipeline)
    requires Owned(s) && Sound(s, p)
    ensures Sound(Next(s, step), p)
  {
  }

  lemma RunWritesSound(s: Sys, k: nat, x: Choice)
    requires Owned(s) && Integrity(s) && k in s.calls && InFlight(s.calls[k])
    ensures
      var s' := Next(s, Run(k, x));
      && (s'.calls[k].pc.WritePipeline? ==> Sound(s', s'.calls[k].pc.snap))
      && (forall p :: p in s'.disk.pipelines ==> Sound(s', s'.disk.pipelines[p]))
  {
    var s' := Next(s, Run(k, x));
    var c := s.calls[k];
    forall p | p in s'.disk.pipelines
      ensures Sound(s', s'.disk.pipelines[p])
    {
      if p in s.disk.pipelines && s'.disk.pipelines[p] == s.disk.pipelines[p] {
        SoundStays(s, Run(k, x), s.disk.pipelines[p]);
      } else {
        SoundStays(s, Run(k, x), c.pc.snap);
        assert Refs(Flipped(c.pc.snap, c.req)) <= Refs(c.pc.snap) + {c.req.atomId};
        assert LeftBehind(s, k);
      }
    }
    if s'.calls[k].pc.WritePipeline? {
      SoundStays(s, Run(k, x), s.disk.pipelines[c.req.pipeline]);
    }
  }

  lemma NextKeepsIntegrity(s: Sys, step: Step)
    requires Owned(s) && Integrity(s)
    ensures Integrity(Next(s, step))
  {
    var s' := Next(s, step);
    forall p: Pipeline | Sound(s, p)
      ensures Sound(s', p)
    {
      SoundStays(s, step, p);
    }
    if step.Run? {
      if step.call in s.calls && InFlight(s.calls[step.call]) { RunWritesSound(s, step.call, step.choice); }
    } else if step.OtherWrite? {
      if step.other in s.others {
        assert Refs(s.others[step.other].1.(state := step.written)) == Refs(s.others[step.other].1);
      }
    }
  }

  lemma {:induction false} RunsKeepIntegrity(s: Sys, steps: seq<Step>)
    requires Owned(s) && Integrity(s)
    ensures Owned(ExecFrom(s, steps)) && Integrity(ExecFrom(s, steps))
    decreases |steps|
  {
    if steps != [] {
      NextKeepsOwned(s, steps[0]);
      NextKeepsIntegrity(s, steps[0]);
      RunsKeepIntegrity(Next(s, steps[0]), steps[1..]);
    }
  }

  lemma IntegrityHolds(steps: seq<Step>)
    ensures Owned(Exec(steps)) && Integrity(Exec(steps))
  {
    RunsKeepIntegrity(Initial, steps);
  }

  // Any abandon or resume atom id recorded on a pipeline file, or carried by a snapshot
  // that some call or other writer has yet to write back, names an atom file on disk.
  lemma RecordedAtomsAreOnDisk(steps: seq<Step>, id: string)
    ensures
      var s := Exec(steps);
      && ((exists p :: p in s.disk.pipelines && id in Refs(s.disk.pipelines[p])) ==> id in s.disk.atoms)
      && ((exists k :: k in s.calls && s.calls[k].pc.WritePipeline? && id in Refs(s.calls[k].pc.snap)) ==> id in s.disk.atoms)
      && ((exists w :: w in s.others && id in Refs(s.others[w].1)) ==> id in s.disk.atoms)
  {
    IntegrityHolds(steps);
  }

  // A call that throws leaves its atom behind exactly when the rollback failed, or when it
  // was a resume whose re-read or final write failed: resume rolls back only on conflict.
  lemma ThrowLeavesAtomExactlyWhen(steps: seq<Step>, k: nat)
    requires k in Exec(steps).calls && Exec(steps).calls[k].pc.Threw?
    ensures
      var s := Exec(steps);
      var c := s.calls[k];
      LeftBehind(s, k) <==>
        && c.pc.cause in {Conflict, ReadFailed, WriteFailed}
        && (c.unlinkFailed || (c.req.kind.Resume? && !c.pc.cause.Conflict?))
  {
    IntegrityHolds(steps);
  }

  // An abandon that throws leaves nothing behind unless the unlink itself failed.
  lemma ThrownAbandonIsRolledBack(steps: seq<Step>, k: nat)
    requires k in Exec(steps).calls && Exec(steps).calls[k].pc.Threw?
    requires Exec(steps).calls[k].req.kind.Abandon? && !Exec(steps).calls[k].unlinkFailed
    ensures !LeftBehind(Exec(steps), k)
  {
    ThrowLeavesAtomExactlyWhen(steps, k);
  }

  // A call that succeeds has its atom on disk for good.
  lemma ReturnedAtomIsKept(steps: seq<Step>, k: nat)
    requires k in Exec(steps).calls && Exec(steps).calls[k].pc.Returned?
    ensures LeftBehind(Exec(steps), k)
  {
    IntegrityHolds(steps);
  }

  // ---- Exactly when a terminal state is final ----

  predicate ConsoleStep(step: Step) { step.Begin? || step.Run? }

  predicate IsTerminal(s: Sys, p: string) { p in s.disk.pipelines && Terminal(s.disk.pipelines[p].state) }

  // A resume of p read `hil-paused` before p became terminal and has yet to write.
  predicate StaleResume(c: Call, p: string) { c.req.kind.Resume? && c.req.pipeline == p && c.pc.WritePipeline? }

  ghost predicate Final(s: Sys, p: string) {
    IsTerminal(s, p) && forall k :: k in s.calls ==> !StaleResume(s.calls[k], p)
  }

  lemma ConsoleStepKeepsFinal(s: Sys, step: Step, p: string)
    requires Final(s, p) && ConsoleStep(step)
    ensures Final(Next(s, step), p)
  {
  }

  lemma {:induction false} FinalIsForever(s: Sys, steps: seq<Step>, p: string)
    requires Final(s, p) && forall step :: step in steps ==> ConsoleStep(step)
    ensures Final(ExecFrom(s, steps), p)
    decreases |steps|
  {
    if steps != [] {
      ConsoleStepKeepsFinal(s, steps[0], p);
      FinalIsForever(Next(s, steps[0]), steps[1..], p);
    }
  }

  // While only console calls write, a terminal pipeline stays terminal in every
  // continuation exactly when no resume that read it earlier is about to write.
  lemma TerminalIsFinalExactlyWhen(s: Sys, p: string)
    requires IsTerminal(s, p)
    ensures
      (forall steps :: (forall step :: step in steps ==> ConsoleStep(step)) ==> IsTerminal(ExecFrom(s, steps), p))
      <==> Final(s, p)
  {
    if Final(s, p) {
      forall steps: seq<Step> | forall step :: step in steps ==> ConsoleStep(step)
        ensures IsTerminal(ExecFrom(s, steps), p)
      {
        FinalIsForever(s, steps, p);
      }
    } else {
      var k :| k in s.calls && StaleResume(s.calls[k], p);
      var steps := [Run(k, Choice(false, true))];
      assert ExecFrom(s, steps) == ExecFrom(Next(s, steps[0]), []);
      assert !IsTerminal(ExecFrom(s, steps), p);
    }
  }

  const GO := Choice(false, true)

  // A resume has read the paused pipeline and is about to write it back.
  function ResumeAboutToWrite(): Sys {
    var paused := Pipeline(HilPaused, None, None);
    Sys(Disk(map["r" := 0], map["p" := paused]), map[0 := Call(Request(Resume, "p", "r"), WritePipeline(paused), false)], map[])
  }

  lemma ResumeGetsThere() returns (steps: seq<Step>)
    ensures Exec(steps) == ResumeAboutToWrite()
  {
    steps := [Create("p", HilPaused), Begin(0, Request(Resume, "p", "r")), Run(0, GO), Run(0, GO), Run(0, GO)];
    Unrolled(Initial, steps);
  }

  lemma AbandonSucceedsMeanwhile() returns (steps: seq<Step>)
    ensures
      var s := ExecFrom(ResumeAboutToWrite(), steps);
      && IsTerminal(s, "p")
      && s.calls.Keys == {0, 1}
      && s.calls[0] == ResumeAboutToWrite().calls[0]
      && s.calls[1].pc.Returned?
  {
    var req, s := Request(Abandon, "p", "a"), ResumeAboutToWrite();
    steps := [Begin(1, req), Run(1, GO), Run(1, GO), Run(1, GO), Run(1, GO)];
    AbandonBegins();
    AbandonWrites();
    hide Next;
    Unrolled(s, steps);
  }

  // The abandon has written its atom and read the pipeline, beside the waiting resume.
  function AbandonAboutToWrite(): Sys {
    var s, paused := ResumeAboutToWrite(), Pipeline(HilPaused, None, None);
    s.(disk := s.disk.(atoms := s.disk.atoms["a" := 1]),
       calls := s.calls[1 := Call(Request(Abandon, "p", "a"), WritePipeline(paused), false)])
  }

  lemma AbandonBegins()
    ensures
      var s := Next(Next(ResumeAboutToWrite(), Begin(1, Request(Abandon, "p", "a"))), Run(1, GO));
      Next(Next(s, Run(1, GO)), Run(1, GO)) == AbandonAboutToWrite()
  {
    var s0, req := ResumeAboutToWrite(), Request(Abandon, "p", "a");
    var s1 := Next(s0, Begin(1, req));
    assert s1 == s0.(calls := s0.calls[1 := Started(req)]);
    var s2 := Next(s1, Run(1, GO));
    assert s2 == s0.(calls := s0.calls[1 := Call(req, WriteAtom, false)]);
  }

  lemma AbandonWrites()
    ensures
      var s := Next(AbandonAboutToWrite(), Run(1, GO));
      && IsTerminal(s, "p") && s.calls.Keys == {0, 1}
      && s.calls[0] == ResumeAboutToWrite().calls[0] && s.calls[1].pc.Returned?
  {
  }

  // A resume whose own final write fails throws and leaves its audit atom on disk.
  lemma ResumeLeavesItsAtom() returns (steps: seq<Step>)
    ensures
      var s := Exec(steps);
      && 0 in s.calls && s.calls[0].req.kind.Resume? && s.calls[0].pc == Threw(WriteFailed)
      && !s.calls[0].unlinkFailed && LeftBehind(s, 0)
  {
    var first := ResumeGetsThere();
    var last := Run(0, Choice(true, true));
    steps := first + [last];
    RunsCompose(Initial, first, [last]);
    var s := ResumeAboutToWrite();
    assert ExecFrom(s, [last]) == ExecFrom(Next(s, last), []);
  }

  // The guard against lost races has a gap: an abandon can succeed and be undone.
  lemma ResumeCanUndoAbandon() returns (steps: seq<Step>, last: Step)
    ensures Exec(steps).calls.Keys == {0, 1} && Exec(steps).calls[1].pc.Returned?
    ensures IsTerminal(Exec(steps), "p") && !IsTerminal(Next(Exec(steps), last), "p")
  {
    var first := ResumeGetsThere();
    var second := AbandonSucceedsMeanwhile();
    RunsCompose(Initial, first, second);
    steps, last := first + second, Run(0, GO);
  }

  lemma Unrolled(s: Sys, steps: seq<Step>)
    requires |steps| == 5
    ensures ExecFrom(s, steps) == Next(Next(Next(Next(Next(s, steps[0]), steps[1]), steps[2]), steps[3]), steps[4])
  {
    assert ExecFrom(s, steps) == ExecFrom(Next(s, steps[0]), steps[1..]);
    var a := Next(s, steps[0]);
    assert ExecFrom(a, steps[1..]) == ExecFrom(Next(a, steps[1]), steps[2..]) by { assert steps[1..][1..] == steps[2..]; }
    var b := Next(a, steps[1]);
    assert ExecFrom(b, steps[2..]) == ExecFrom(Next(b, steps[2]), steps[3..]) by { assert steps[2..][1..] == steps[3..]; }
    var c := Next(b, steps[2]);
    assert ExecFrom(c, steps[3..]) == ExecFrom(Next(c, steps[3]), steps[4..]) by { assert steps[3..][1..] == steps[4..]; }
    var d := Next(c, steps[3]);
    assert ExecFrom(d, steps[4..]) == ExecFrom(Next(d, steps[4]), []) by { assert steps[4..][1..] == []; }
  }

  lemma {:induction false} RunsCompose(s: Sys, first: seq<Step>, second: seq<Step>)
    ensures ExecFrom(s, first + second) == ExecFrom(ExecFrom(s, first), second)
    decreases |first|
  {
    if first == [] {
      assert first + second == second;
    } else {
      assert (first + second)[0] == first[0] && (first + second)[1..] == first[1..] + second;
      RunsCompose(Next(s, first[0]), first[1..], second);
    }
  }

  // ---- The handlers as code ----

  function StepsLeft(c: Call): nat {
    match c.pc
    case Validate => 5
    case WriteAtom => 4
    case Reread => 3
    case WritePipeline(_) => 2
    case Unlink(_) => 1
    case _ => 0
  }

  // The call runs to its end with nothing in between; env(i) is the world at step i.
  function Alone(k: nat, c: Call, d: Disk, env: nat -> Choice, i: nat): (Call, Disk)
    decreases StepsLeft(c)
  {
    if !InFlight(c) then (c, d)
    else
      var (c', d') := Advance(k, c, d, env(i));
      Alone(k, c', d', env, i + 1)
  }

  function RunSteps(k: nat, env: nat -> Choice, i: nat, n: nat): seq<Step>
    decreases n
  {
    if n == 0 then [] else [Run(k, env(i))] + RunSteps(k, env, i + 1, n - 1)
  }

  lemma AdvanceTakesAStep(k: nat, c: Call, d: Disk, x: Choice)
    requires InFlight(c)
    ensures StepsLeft(Advance(k, c, d, x).0) < StepsLeft(c)
  {
  }

  // A call that runs alone is an interleaved run in which only that call steps.
  lemma {:induction false} AloneIsARun(s: Sys, k: nat, env: nat -> Choice, i: nat, n: nat)
    requires k in s.calls && n >= StepsLeft(s.calls[k])
    ensures
      var (c, d) := Alone(k, s.calls[k], s.disk, env, i);
      ExecFrom(s, RunSteps(k, env, i, n)) == s.(disk := d, calls := s.calls[k := c])
    decreases n
  {
    var c := s.calls[k];
    if InFlight(c) { AdvanceTakesAStep(k, c, s.disk, env(i)); }
    hide Advance;
    if n == 0 {
      assert s.calls[k := c] == s.calls;
    } else {
      var steps, s' := RunSteps(k, env, i, n), Next(s, Run(k, env(i)));
      assert steps[1..] == RunSteps(k, env, i + 1, n - 1);
      AloneIsARun(s', k, env, i + 1, n - 1);
      var (c1, d1) := Alone(k, s'.calls[k], s'.disk, env, i + 1);
      assert s'.calls[k := c1] == s.calls[k := c1];
    }
  }

  // ---- What the handlers promise, of the request, the disk and the world ----

  // The request was authorised and its atom is newly on disk.
  predicate AtomWritten(req: Request, d: Disk, env: nat -> Choice) {
    !env(0).fault && env(0).authorised && !env(1).fault && req.atomId !in d.atoms
  }

  predicate Readable(req: Request, d: Disk, env: nat -> Choice) { !env(2).fault && req.pipeline in d.pipelines }

  // The call threw and rolled its atom back at step i, as far as the unlink worked.
  predicate RolledBack(req: Request, k: nat, d: Disk, env: nat -> Choice, i: nat, end: Call, d': Disk) {
    && end.unlinkFailed == env(i).fault
    && d' == if env(i).fault then Disk(d.atoms[req.atomId := k], d.pipelines) else d
  }

  class Console {
    var disk: Disk

    // Creates the audit file unless it is already there.
    method WriteExclusive(k: nat, id: string, fault: bool) returns (ok: bool)
      modifies this
      ensures ok == (!fault && id !in old(disk).atoms)
      ensures disk == if ok then old(disk).(atoms := old(disk).atoms[id := k]) else old(disk)
    {
      ok := !fault && id !in disk.atoms;
      if ok { disk := disk.(atoms := disk.atoms[id := k]); }
    }

    method UnlinkAtom(id: string, fault: bool) returns (ok: bool)
      modifies this
      ensures ok == (!fault && id in old(disk).atoms)
      ensures disk == if ok then old(disk).(atoms := old(disk).atoms - {id}) else old(disk)
    {
      ok := !fault && id in disk.atoms;
      if ok { disk := disk.(atoms := disk.atoms - {id}); }
    }

    method HandleAbandonPipeline(k: nat, req: Request, env: nat -> Choice) returns (end: Call)
      requires req.kind.Abandon?
      modifies this
      ensures (end, disk) == Alone(k, Started(req), old(disk), env, 0)
      ensures end.req == req && !InFlight(end)
      ensures end.pc == Threw(Refused) <==> env(0).fault || !env(0).authorised
      ensures end.pc == Threw(AtomExists)
              <==> !env(0).fault && env(0).authorised && (env(1).fault || req.atomId in old(disk).atoms)
      ensures end.pc == Threw(ReadFailed) <==> AtomWritten(req, old(disk), env) && !Readable(req, old(disk), env)
      ensures end.pc == Threw(Conflict)
              <==> && AtomWritten(req, old(disk), env) && Readable(req, old(disk), env)
                   && old(disk).pipelines[req.pipeline].state in {Abandoned, Completed, FailedState}
      ensures end.pc == Threw(WriteFailed)
              <==> && AtomWritten(req, old(disk), env) && Readable(req, old(disk), env)
                   && old(disk).pipelines[req.pipeline].state !in {Abandoned, Completed, FailedState} && env(3).fault
      ensures end.pc == Threw(Refused) || end.pc == Threw(AtomExists) ==> disk == old(disk) && !end.unlinkFailed
      ensures end.pc == Threw(ReadFailed) || end.pc == Threw(Conflict) ==> RolledBack(req, k, old(disk), env, 3, end, disk)
      ensures end.pc == Threw(WriteFailed) ==> RolledBack(req, k, old(disk), env, 4, end, disk)
      ensures end.pc.Returned? ==>
        && AtomWritten(req, old(disk), env) && Readable(req, old(disk), env) && !end.unlinkFailed
        && var p := old(disk).pipelines[req.pipeline];
           && p.state !in {Abandoned, Completed, FailedState}
           && disk == Disk(old(disk).atoms[req.atomId := k],
                           old(disk).pipelines[req.pipeline := Pipeline(Abandoned, Some(req.atomId), p.lastResumeAtomId)])
    {
      end := Started(req);
      ghost var d := disk;
      ghost var (c1, _) := Advance(k, end, d, env(0));
      assert Alone(k, end, d, env, 0) == Alone(k, c1, d, env, 1);
      if env(0).fault || !env(0).authorised { return end.(pc := Threw(Refused)); }
      ghost var (c2, d2) := Advance(k, c1, d, env(1));
      assert Alone(k, c1, d, env, 1) == Alone(k, c2, d2, env, 2);
      var ok := WriteExclusive(k, req.atomId, env(1).fault);
      if !ok { return end.(pc := Threw(AtomExists)); }
      assert disk == d2;
      var done := false;
      end, done := FlipToAbandoned(k, req, env, c2);
      if done { return; }
      var i := if end.pc.cause.WriteFailed? then 4 else 3;
      ghost var (c3, d3) := Advance(k, end, disk, env(i));
      assert Alone(k, end, disk, env, i) == Alone(k, c3, d3, env, i + 1);
      ok := UnlinkAtom(req.atomId, env(i).fault);
      end := end.(pc := Threw(end.pc.cause), unlinkFailed := !ok);
      assert d.atoms[req.atomId := k] - {req.atomId} == d.atoms;
    }

    // The part the source wraps in try: what is left to do is the rollback.
    method FlipToAbandoned(k: nat, req: Request, env: nat -> Choice, ghost c: Call) returns (end: Call, done: bool)
      requires c == Started(req).(pc := Reread) && req.kind.Abandon?
      modifies this
      ensures end.req == req && !end.unlinkFailed
      ensures if done then end.pc.Returned?
              else end.pc in {Unlink(ReadFailed), Unlink(Conflict), Unlink(WriteFailed)} && disk == old(disk)
      ensures done ==>
        && Readable(req, old(disk), env) && !env(3).fault
        && var p := old(disk).pipelines[req.pipeline];
           && p.state !in {Abandoned, Completed, FailedState}
           && disk == Disk(old(disk).atoms,
                           old(disk).pipelines[req.pipeline := Pipeline(Abandoned, Some(req.atomId), p.lastResumeAtomId)])
      ensures end.pc == Unlink(ReadFailed) <==> !Readable(req, old(disk), env)
      ensures end.pc == Unlink(Conflict)
              <==> && Readable(req, old(disk), env)
                   && old(disk).pipelines[req.pipeline].state in {Abandoned, Completed, FailedState}
      ensures end.pc == Unlink(WriteFailed)
              <==> && Readable(req, old(disk), env) && env(3).fault
                   && old(disk).pipelines[req.pipeline].state !in {Abandoned, Completed, FailedState}
      ensures
        var i := if done || end.pc.cause.WriteFailed? then 4 else 3;
        Alone(k, c, old(disk), env, 2) == Alone(k, end, disk, env, i)
    {
      end, done := Started(req), false;
      ghost var (c1, _) := Advance(k, c, disk, env(2));
      assert Alone(k, c, disk, env, 2) == Alone(k, c1, disk, env, 3);
      if env(2).fault || req.pipeline !in disk.pipelines { return end.(pc := Unlink(ReadFailed)), false; }
      var p := disk.pipelines[req.pipeline];
      if Terminal(p.state) { return end.(pc := Unlink(Conflict)), false; }
      ghost var (c2, d2) := Advance(k, c1, disk, env(3));
      assert Alone(k, c1, disk, env, 3) == Alone(k, c2, d2, env, 4);
      if env(3).fault { return end.(pc := Unlink(WriteFailed)), false; }
      disk := disk.(pipelines :=
        disk.pipelines[req.pipeline := p.(state := Abandoned, abandonAtomId := Some(req.atomId))]);
      end, done := end.(pc := Returned), true;
    }

    method HandleResumePipeline(k: nat, req: Request, env: nat -> Choice) returns (end: Call)
      requires req.kind.Resume?
      modifies this
      ensures (end, disk) == Alone(k, Started(req), old(disk), env, 0)
      ensures end.req == req && !InFlight(end)
      ensures end.pc == Threw(Refused) <==> env(0).fault || !env(0).authorised
      ensures end.pc == Threw(AtomExists)
              <==> !env(0).fault && env(0).authorised && (env(1).fault || req.atomId in old(disk).atoms)
      ensures end.pc == Threw(ReadFailed) <==> AtomWritten(req, old(disk), env) && !Readable(req, old(disk), env)
      ensures end.pc == Threw(Conflict)
              <==> && AtomWritten(req, old(disk), env) && Readable(req, old(disk), env)
                   && old(disk).pipelines[req.pipeline].state != HilPaused
      ensures end.pc == Threw(WriteFailed)
              <==> && AtomWritten(req, old(disk), env) && Readable(req, old(disk), env)
                   && old(disk).pipelines[req.pipeline].state == HilPaused && env(3).fault
      ensures end.pc == Threw(Refused) || end.pc == Threw(AtomExists) ==> disk == old(disk) && !end.unlinkFailed
      ensures end.pc == Threw(Conflict) ==> RolledBack(req, k, old(disk), env, 3, end, disk)
      ensures end.pc == Threw(ReadFailed) || end.pc == Threw(WriteFailed) ==>
                disk == Disk(old(disk).atoms[req.atomId := k], old(disk).pipelines) && !end.unlinkFailed
      ensures end.pc.Returned? ==>
        && AtomWritten(req, old(disk), env) && Readable(req, old(disk), env) && !end.unlinkFailed
        && var p := old(disk).pipelines[req.pipeline];
           && p.state == HilPaused
           && disk == Disk(old(disk).atoms[req.atomId := k],
                           old(disk).pipelines[req.pipeline := Pipeline(Running, p.abandonAtomId, Some(req.atomId))])
    {
      end := Started(req);
      ghost var d := disk;
      ghost var (c1, _) := Advance(k, end, d, env(0));
      assert Alone(k, end, d, env, 0) == Alone(k, c1, d, env, 1);
      if env(0).fault || !env(0).authorised { return end.(pc := Threw(Refused)); }
      ghost var (c2, d2) := Advance(k, c1, d, env(1));
      assert Alone(k, c1, d, env, 1) == Alone(k, c2, d2, env, 2);
      var ok := WriteExclusive(k, req.atomId, env(1).fault);
      if !ok { return end.(pc := Threw(AtomExists)); }
      ghost var (c3, _) := Advance(k, c2, d2, env(2));
      assert Alone(k, c2, d2, env, 2) == Alone(k, c3, d2, env, 3);
      if env(2).fault || req.pipeline !in disk.pipelines { return end.(pc := Threw(ReadFailed)); }
      var p := disk.pipelines[req.pipeline];
      ghost var (c4, d4) := Advance(k, c3, d2, env(3));
      assert Alone(k, c3, d2, env, 3) == Alone(k, c4, d4, env, 4);
      if p.state != HilPaused {
        ok := UnlinkAtom(req.atomId, env(3).fault);
        assert d.atoms[req.atomId := k] - {req.atomId} == d.atoms;
        return end.(pc := Threw(Conflict), unlinkFailed := !ok);
      }
      if env(3).fault { return end.(pc := Threw(WriteFailed)); }
      disk := disk.(pipelines := disk.pipelines[req.pipeline := p.(state := Running, lastResumeAtomId := Some(req.atomId))]);
      end := end.(pc := Returned);
    }
  }
}
