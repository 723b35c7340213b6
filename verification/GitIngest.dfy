// `GitLogSource.ingest` of src/sources/git-log.ts: capped, deduplicating writes of commits as atoms.

module GitIngest {
  import opened Prelude
  import opened Text
  import opened GitLog

  // ---- Atoms ----

  function Smaller(a: nat, b: nat): nat { if a <= b then a else b }

  function Prefix(s: string, n: nat): string { if |s| <= n then s else s[..n] }

  // Commits whose hashes agree on sixteen characters share an id.
  function IdOf(c: Commit): string { "git-log-" + Prefix(c.sha, 16) }

  // The non-empty paragraphs, separated by blank lines.
  function Paragraphs(parts: seq<string>): string {
    if parts == [] then ""
    else
      var later := Paragraphs(parts[1..]);
      if parts[0] == "" then later else if later == "" then parts[0] else parts[0] + "\n\n" + later
  }

  function RawBody(c: Commit): string {
    Paragraphs([Prefix(c.sha, 12) + " by " + c.author + " on " + Prefix(c.date, 10), c.subject, Trim(c.body)])
  }

  function Content(c: Commit, maxChars: nat): string {
    if |RawBody(c)| > maxChars then RawBody(c)[..maxChars] + "...[truncated]" else RawBody(c)
  }

  lemma ParagraphsOfThree(a: string, b: string, c: string)
    requires a != ""
    ensures
      var all := Paragraphs([a, b, c]);
      a <= all && |c| <= |all| && all[|all| - |c|..] == c && exists i :: OccursAt(all, b, i)
  {
    assert [a, b, c][1..] == [b, c] && [b, c][1..] == [c] && [c][1..] == [];
    assert Paragraphs([c]) == c;
    var later := Paragraphs([b, c]);
    assert |c| <= |later| && later[|later| - |c|..] == c && later[..|b|] == b;
    var all, at := Paragraphs([a, b, c]), if later == "" then 0 else |a| + 2;
    assert all == if later == "" then a else a + "\n\n" + later;
    assert all[at..at + |b|] == later[..|b|];
    assert OccursAt(all, b, at);
  }

  // The message as a reader sees it: hash, author and day, then the subject, then the body, each behind
  // a blank line unless it is empty.
  function Message(c: Commit): string {
    var head := c.sha[..Smaller(12, |c.sha|)] + " by " + c.author + " on " + c.date[..Smaller(10, |c.date|)];
    head + (if c.subject == "" then "" else "\n\n" + c.subject)
         + (if Trim(c.body) == "" then "" else "\n\n" + Trim(c.body))
  }

  lemma MessageParagraphs(a: string, b: string, c: string)
    requires a != ""
    ensures Paragraphs([a, b, c]) == a + (if b == "" then "" else "\n\n" + b) + (if c == "" then "" else "\n\n" + c)
  {
    assert [a, b, c][1..] == [b, c] && [b, c][1..] == [c] && [c][1..] == [];
    assert Paragraphs([c]) == c;
    if b == "" {
      assert a + "" == a;
      assert a + "\n\n" + c == a + ("\n\n" + c);
    } else if c == "" {
      assert a + "\n\n" + b == a + ("\n\n" + b) + "";
    } else {
      assert a + "\n\n" + (b + "\n\n" + c) == a + ("\n\n" + b) + ("\n\n" + c);
    }
  }

  lemma RawBodyIsTheMessage(c: Commit)
    ensures RawBody(c) == Message(c)
  {
    hide Trim;
    hide Paragraphs;
    MessageParagraphs(Prefix(c.sha, 12) + " by " + c.author + " on " + Prefix(c.date, 10), c.subject, Trim(c.body));
  }

  // An atom shows the abbreviated hash first and the whole message, unless it is truncated at the
  // limit and marked.
  lemma ContentHoldsTheMessage(c: Commit, maxChars: nat)
    ensures
      var content, body := Content(c, maxChars), Trim(c.body);
      if |RawBody(c)| <= maxChars then
        && Prefix(c.sha, 12) <= content
        && |body| <= |content| && content[|content| - |body|..] == body
        && exists i :: OccursAt(content, c.subject, i)
      else
        |content| == maxChars + 14 && content[..maxChars] <= RawBody(c)
    ensures Content(c, maxChars)
            == if |Message(c)| > maxChars then Message(c)[..maxChars] + "...[truncated]" else Message(c)
  {
    RawBodyIsTheMessage(c);
    hide Trim;
    hide Paragraphs;
    hide OccursAt;
    var head := Prefix(c.sha, 12) + " by " + c.author + " on " + Prefix(c.date, 10);
    assert Prefix(c.sha, 12) <= head;
    ParagraphsOfThree(head, c.subject, Trim(c.body));
  }

  datatype Atom = Atom(content: string, sha: string, shortSha: string, author: string, email: string,
                       commitDate: string, subject: string)

  type Store = map<string, Atom>

  function AtomOf(c: Commit, maxChars: nat): Atom {
    Atom(Content(c, maxChars), c.sha, Prefix(c.sha, 12), c.author, c.email, c.date, c.subject)
  }

  // ---- One call ----

  datatype Config = Config(maxAtoms: nat, dryRun: bool, maxChars: nat)

  // How the store answers a put: it keeps the atom, reports a conflict, or fails otherwise.
  datatype Fate = Kept | Conflict | Failed

  datatype Report = Report(written: nat, skipped: nat, errors: seq<string>, sample: seq<string>, scanned: nat)

  const EMPTY := Report(0, 0, [], [], 0)

  datatype Progress = Progress(atoms: Store, report: Report)

  function Sampled(sample: seq<string>, id: string): seq<string> { if |sample| < 5 then sample + [id] else sample }

  function Handle(p: Progress, c: Commit, cfg: Config, fate: Fate): Progress {
    var id, r := IdOf(c), p.report;
    if id in p.atoms then p.(report := r.(skipped := r.skipped + 1))
    else if cfg.dryRun then p.(report := r.(written := r.written + 1, sample := Sampled(r.sample, id)))
    else match fate
      case Kept =>
        Progress(p.atoms[id := AtomOf(c, cfg.maxChars)],
                 r.(written := r.written + 1, sample := Sampled(r.sample, id)))
      case Conflict => p.(report := r.(skipped := r.skipped + 1))
      case Failed => p.(report := r.(errors := r.errors + [id]))
  }

  function Scanned(p: Progress): Progress { p.(report := p.report.(scanned := p.report.scanned + 1)) }

  // The commits in order, until one is met with the cap reached.
  function Walk(p: Progress, commits: seq<Commit>, cfg: Config, fate: nat -> Fate, i: nat): Progress
    decreases |commits|
  {
    if commits == [] then p
    else if p.report.written >= cfg.maxAtoms then Scanned(p)
    else Walk(Handle(Scanned(p), commits[0], cfg, fate(i)), commits[1..], cfg, fate, i + 1)
  }

  class GitLogSource {
    var atoms: Store
    const maxChars: nat

    constructor (maxChars: nat)
      ensures atoms == map[] && this.maxChars == maxChars
    {
      atoms := map[];
      this.maxChars := maxChars;
    }

    // `log` is None when git could not be read.
    method Ingest(log: Option<seq<Commit>>, maxAtoms: nat, dryRun: bool, fate: nat -> Fate) returns (report: Report)
      modifies this
      ensures log.None? ==> atoms == old(atoms) && report == EMPTY.(errors := ["git log failed"])
      ensures log.Some? ==>
                Progress(atoms, report)
                == Walk(Progress(old(atoms), EMPTY), log.value, Config(maxAtoms, dryRun, maxChars), fate, 0)
    {
      hide IdOf;
      hide AtomOf;
      if log.None? { return EMPTY.(errors := ["git log failed"]); }
      var commits := log.value;
      var written, skipped, scanned := 0, 0, 0;
      var errors, sample := [], [];
      ghost var cfg := Config(maxAtoms, dryRun, maxChars);
      ghost var end := Walk(Progress(atoms, EMPTY), commits, cfg, fate, 0);
      var i := 0;
      while i < |commits|
        invariant i <= |commits|
        invariant Walk(Progress(atoms, Report(written, skipped, errors, sample, scanned)), commits[i..], cfg, fate, i)
                  == end
      {
        var c := commits[i];
        assert commits[i..][0] == c && commits[i..][1..] == commits[i + 1..];
        scanned := scanned + 1;
        if written >= maxAtoms { return Report(written, skipped, errors, sample, scanned); }
        var id := IdOf(c);
        if id in atoms {
          skipped := skipped + 1;
        } else if dryRun {
          if |sample| < 5 { sample := sample + [id]; }
          written := written + 1;
        } else {
          match fate(i)
          case Kept =>
            atoms := atoms[id := AtomOf(c, maxChars)];
            written := written + 1;
            if |sample| < 5 { sample := sample + [id]; }
          case Conflict => skipped := skipped + 1;
          case Failed => errors := errors + [id];
        }
        i := i + 1;
      }
      report := Report(written, skipped, errors, sample, scanned);
    }
  }

  // ---- What a report says ----

  // Every commit scanned is written, skipped or failed, but for one on which the cap stopped the call.
  ghost predicate AddsUp(r: Report, stopped: bool) {
    r.scanned == r.written + r.skipped + |r.errors| + (if stopped then 1 else 0)
  }

  ghost predicate Grows(before: Store, p: Progress, cfg: Config) {
    && (forall id :: id in before ==> id in p.atoms && p.atoms[id] == before[id])
    && |p.atoms| == |before| + (if cfg.dryRun then 0 else p.report.written)
  }

  lemma HandleIsHonest(before: Store, p: Progress, c: Commit, cfg: Config, fate: Fate)
    requires Grows(before, p, cfg) && p.report.written < cfg.maxAtoms
    requires AddsUp(p.report, false) && |p.report.sample| == Smaller(5, p.report.written)
    ensures
      var p' := Handle(Scanned(p), c, cfg, fate);
      Grows(before, p', cfg) && AddsUp(p'.report, false) && |p'.report.sample| == Smaller(5, p'.report.written)
      && p'.report.written <= cfg.maxAtoms
  {
    var p' := Handle(Scanned(p), c, cfg, fate);
    if p'.atoms != p.atoms { assert p'.atoms.Keys == p.atoms.Keys + {IdOf(c)}; }
  }

  lemma {:induction false} WalkIsHonest(
    before: Store, p: Progress, commits: seq<Commit>, cfg: Config, fate: nat -> Fate, i: nat)
    requires Grows(before, p, cfg) && p.report.written <= cfg.maxAtoms
    requires AddsUp(p.report, false) && |p.report.sample| == Smaller(5, p.report.written)
    ensures
      var p' := Walk(p, commits, cfg, fate, i);
      var stopped := p'.report.scanned > p'.report.written + p'.report.skipped + |p'.report.errors|;
      && Grows(before, p', cfg) && AddsUp(p'.report, stopped) && p'.report.written <= cfg.maxAtoms
      && |p'.report.sample| == Smaller(5, p'.report.written)
      && (stopped ==> p'.report.written == cfg.maxAtoms)
      && (!stopped ==> p'.report.scanned == p.report.scanned + |commits|)
    decreases |commits|
  {
    if commits != [] && p.report.written < cfg.maxAtoms {
      var p1 := Handle(Scanned(p), commits[0], cfg, fate(i));
      HandleIsHonest(before, p, commits[0], cfg, fate(i));
      WalkIsHonest(before, p1, commits[1..], cfg, fate, i + 1);
    }
  }

  // However the store answers: the atoms already there are untouched, the store grows by what the
  // report says was written (by nothing in a dry run), never beyond the cap, and the counts add up.
  lemma ReportIsHonest(before: Store, commits: seq<Commit>, cfg: Config, fate: nat -> Fate)
    ensures
      var p := Walk(Progress(before, EMPTY), commits, cfg, fate, 0);
      var r := p.report;
      var stopped := r.scanned > r.written + r.skipped + |r.errors|;
      && (forall id :: id in before ==> id in p.atoms && p.atoms[id] == before[id])
      && |p.atoms| == |before| + (if cfg.dryRun then 0 else r.written)
      && r.written <= cfg.maxAtoms && |r.sample| == Smaller(5, r.written)
      && AddsUp(r, stopped)
      && (stopped ==> r.written == cfg.maxAtoms) && (!stopped ==> r.scanned == |commits|)
  {
    WalkIsHonest(before, Progress(before, EMPTY), commits, cfg, fate, 0);
  }

  // ---- New commits ----

  function Ids(commits: seq<Commit>): set<string> { set k | 0 <= k < |commits| :: IdOf(commits[k]) }

  // The commits whose id is neither known nor that of an earlier one.
  function News(known: set<string>, commits: seq<Commit>): seq<Commit>
    decreases |commits|
  {
    if commits == [] then []
    else if IdOf(commits[0]) in known then News(known, commits[1..])
    else [commits[0]] + News(known + {IdOf(commits[0])}, commits[1..])
  }

  lemma IdsOfCons(c: Commit, commits: seq<Commit>)
    ensures Ids([c] + commits) == {IdOf(c)} + Ids(commits)
  {
    var all := [c] + commits;
    forall id | id in Ids(commits) ensures id in Ids(all) {
      var k :| 0 <= k < |commits| && id == IdOf(commits[k]);
      assert all[k + 1] == commits[k];
    }
    assert all[0] == c;
  }

  // Read from the other end: the last commit is new when its id is nowhere before it.
  lemma {:induction false} NewsLast(known: set<string>, commits: seq<Commit>, c: Commit)
    ensures News(known, commits + [c])
            == News(known, commits) + (if IdOf(c) in known + Ids(commits) then [] else [c])
    decreases |commits|
  {
    var all := commits + [c];
    if commits == [] {
      assert all[1..] == [];
    } else {
      var rest, id := commits[1..], IdOf(commits[0]);
      assert all[1..] == rest + [c] && [commits[0]] + rest == commits;
      IdsOfCons(commits[0], rest);
      var known' := if id in known then known else known + {id};
      NewsLast(known', rest, c);
      assert known' + Ids(rest) == known + Ids(commits);
    }
  }

  ghost predicate DistinctIds(commits: seq<Commit>) {
    forall j, k :: 0 <= j < k < |commits| ==> IdOf(commits[j]) != IdOf(commits[k])
  }

  lemma {:induction false} NewsAreNew(known: set<string>, commits: seq<Commit>)
    ensures Ids(News(known, commits)) == Ids(commits) - known
    ensures DistinctIds(News(known, commits))
    decreases |commits|
  {
    if commits != [] {
      var rest, id := commits[1..], IdOf(commits[0]);
      assert [commits[0]] + rest == commits;
      IdsOfCons(commits[0], rest);
      var known' := if id in known then known else known + {id};
      NewsAreNew(known', rest);
      var later := News(known', rest);
      if id !in known {
        IdsOfCons(commits[0], later);
        forall k | 0 <= k < |later| ensures IdOf(later[k]) != id { assert IdOf(later[k]) in Ids(later); }
      }
    }
  }

  // ---- What a call stores ----

  function AddAll(atoms: Store, commits: seq<Commit>, maxChars: nat): Store
    decreases |commits|
  {
    if commits == [] then atoms
    else AddAll(atoms[IdOf(commits[0]) := AtomOf(commits[0], maxChars)], commits[1..], maxChars)
  }

  lemma {:induction false} AddAllKeys(atoms: Store, commits: seq<Commit>, maxChars: nat)
    ensures AddAll(atoms, commits, maxChars).Keys == atoms.Keys + Ids(commits)
    decreases |commits|
  {
    if commits != [] {
      AddAllKeys(atoms[IdOf(commits[0]) := AtomOf(commits[0], maxChars)], commits[1..], maxChars);
      IdsOfCons(commits[0], commits[1..]);
      assert [commits[0]] + commits[1..] == commits;
    }
  }

  lemma {:induction false} AddAllTwice(atoms: Store, first: seq<Commit>, second: seq<Commit>, maxChars: nat)
    ensures AddAll(AddAll(atoms, first, maxChars), second, maxChars) == AddAll(atoms, first + second, maxChars)
    decreases |first|
  {
    if first == [] {
      assert first + second == second;
    } else {
      assert (first + second)[1..] == first[1..] + second;
      AddAllTwice(atoms[IdOf(first[0]) := AtomOf(first[0], maxChars)], first[1..], second, maxChars);
    }
  }

  // The atom says what the commit says.
  predicate Tells(a: Atom, c: Commit, maxChars: nat) {
    && a.content == Content(c, maxChars)
    && a.sha == c.sha && a.shortSha == c.sha[..Smaller(12, |c.sha|)]
    && a.author == c.author && a.email == c.email && a.commitDate == c.date && a.subject == c.subject
  }

  lemma StoredTells(c: Commit, maxChars: nat)
    ensures IdOf(c) == "git-log-" + c.sha[..Smaller(16, |c.sha|)] && Tells(AtomOf(c, maxChars), c, maxChars)
  {
  }

  // Each added commit is found under its id with its own content, hash, author, address, date and
  // subject, the rest as before.
  lemma {:induction false} AddAllContents(atoms: Store, commits: seq<Commit>, maxChars: nat)
    requires DistinctIds(commits)
    ensures
      var after := AddAll(atoms, commits, maxChars);
      && (forall k :: 0 <= k < |commits| ==> IdOf(commits[k]) in after && after[IdOf(commits[k])] == AtomOf(commits[k], maxChars))
      && (forall k :: 0 <= k < |commits| ==>
            IdOf(commits[k]) == "git-log-" + commits[k].sha[..Smaller(16, |commits[k].sha|)]
            && Tells(after[IdOf(commits[k])], commits[k], maxChars))
      && (forall id :: id in atoms && id !in Ids(commits) ==> id in after && after[id] == atoms[id])
    decreases |commits|
  {
    if commits != [] {
      hide IdOf;
      hide AtomOf;
      hide Tells;
      var c, rest := commits[0], commits[1..];
      var more := atoms[IdOf(c) := AtomOf(c, maxChars)];
      AddAllContents(more, rest, maxChars);
      IdsOfCons(c, rest);
      StoredTells(c, maxChars);
      assert [c] + rest == commits;
      assert IdOf(c) !in Ids(rest);
    }
  }

  // The commits whose put the store keeps, if it gets that far: those whose id is not known by then.
  function Landed(known: set<string>, commits: seq<Commit>, fate: nat -> Fate, i: nat): seq<Commit>
    decreases |commits|
  {
    if commits == [] then []
    else if IdOf(commits[0]) in known || fate(i) != Kept then Landed(known, commits[1..], fate, i + 1)
    else [commits[0]] + Landed(known + {IdOf(commits[0])}, commits[1..], fate, i + 1)
  }

  // However the store answers, one call adds the first commits that land, under the cap, and counts them.
  lemma {:induction false} CallAddsFirstLanded(
    p: Progress, commits: seq<Commit>, cfg: Config, fate: nat -> Fate, i: nat)
    requires !cfg.dryRun && p.report.written <= cfg.maxAtoms
    ensures
      var landed := Landed(p.atoms.Keys, commits, fate, i);
      var n := Smaller(cfg.maxAtoms - p.report.written, |landed|);
      var p' := Walk(p, commits, cfg, fate, i);
      p'.atoms == AddAll(p.atoms, landed[..n], cfg.maxChars) && p'.report.written == p.report.written + n
    decreases |commits|
  {
    hide IdOf;
    hide AtomOf;
    if commits != [] && p.report.written < cfg.maxAtoms {
      var c := commits[0];
      var p1 := Handle(Scanned(p), c, cfg, fate(i));
      CallAddsFirstLanded(p1, commits[1..], cfg, fate, i + 1);
      if IdOf(c) !in p.atoms && fate(i) == Kept {
        var later := Landed(p1.atoms.Keys, commits[1..], fate, i + 1);
        assert p1.atoms.Keys == p.atoms.Keys + {IdOf(c)};
        var n := Smaller(cfg.maxAtoms - p1.report.written, |later|);
        assert ([c] + later)[..n + 1] == [c] + later[..n];
        assert ([c] + later[..n])[1..] == later[..n];
      }
    }
  }

  // The ids of the commits whose put failed, among those that were tried.
  function FailedIds(known: set<string>, commits: seq<Commit>, fate: nat -> Fate, i: nat): seq<string>
    decreases |commits|
  {
    if commits == [] then []
    else
      var id := IdOf(commits[0]);
      if id in known then FailedIds(known, commits[1..], fate, i + 1)
      else match fate(i)
        case Kept => FailedIds(known + {id}, commits[1..], fate, i + 1)
        case Conflict => FailedIds(known, commits[1..], fate, i + 1)
        case Failed => [id] + FailedIds(known, commits[1..], fate, i + 1)
  }

  ghost predicate AllKept(fate: nat -> Fate) { forall i :: fate(i) == Kept }

  lemma {:induction false} NewsLand(known: set<string>, commits: seq<Commit>, fate: nat -> Fate, i: nat)
    requires AllKept(fate)
    ensures Landed(known, commits, fate, i) == News(known, commits)
    decreases |commits|
  {
    hide IdOf;
    if commits != [] {
      NewsLand(if IdOf(commits[0]) in known then known else known + {IdOf(commits[0])}, commits[1..], fate, i + 1);
    }
  }

  // When the store keeps every put, one call adds the first new commits that fit under the cap.
  lemma CallAddsFirstNews(p: Progress, commits: seq<Commit>, cfg: Config, fate: nat -> Fate, i: nat)
    requires AllKept(fate) && !cfg.dryRun && p.report.written <= cfg.maxAtoms
    ensures
      var news := News(p.atoms.Keys, commits);
      var n := Smaller(cfg.maxAtoms - p.report.written, |news|);
      var p' := Walk(p, commits, cfg, fate, i);
      p'.atoms == AddAll(p.atoms, news[..n], cfg.maxChars) && p'.report.written == p.report.written + n
  {
    hide *;
    CallAddsFirstLanded(p, commits, cfg, fate, i);
    NewsLand(p.atoms.Keys, commits, fate, i);
  }

  // Once the first j new commits are known, the others are what is new.
  lemma {:induction false} NewsShrink(known: set<string>, commits: seq<Commit>, j: nat)
    requires j <= |News(known, commits)|
    ensures News(known + Ids(News(known, commits)[..j]), commits) == News(known, commits)[j..]
    decreases |commits|
  {
    hide IdOf;
    if commits != [] {
      var c, rest, news := commits[0], commits[1..], News(known, commits);
      if j == 0 {
        assert known + Ids(news[..0]) == known;
      } else if IdOf(c) in known {
        NewsShrink(known, rest, j);
      } else {
        var known' := known + {IdOf(c)};
        var later := News(known', rest);
        NewsShrink(known', rest, j - 1);
        assert news[..j] == [c] + later[..j - 1];
        IdsOfCons(c, later[..j - 1]);
        assert known + Ids(news[..j]) == known' + Ids(later[..j - 1]);
      }
    }
  }

  // ---- Repeated calls on a store that keeps every put ----

  function Call(atoms: Store, commits: seq<Commit>, cfg: Config): Progress {
    Walk(Progress(atoms, EMPTY), commits, cfg, _ => Kept, 0)
  }

  function Repeated(atoms: Store, commits: seq<Commit>, cfg: Config, calls: nat): Store {
    if calls == 0 then atoms else Call(Repeated(atoms, commits, cfg, calls - 1), commits, cfg).atoms
  }

  // From the first `sofar` new commits, one call goes on to the next ones.
  lemma CallGoesOn(atoms: Store, commits: seq<Commit>, cfg: Config, sofar: nat)
    requires !cfg.dryRun && sofar <= |News(atoms.Keys, commits)|
    ensures
      var news := News(atoms.Keys, commits);
      var n := Smaller(cfg.maxAtoms, |news| - sofar);
      var p := Call(AddAll(atoms, news[..sofar], cfg.maxChars), commits, cfg);
      p.atoms == AddAll(atoms, news[..sofar + n], cfg.maxChars) && p.report.written == n
  {
    hide Walk;
    hide AddAll;
    hide News;
    hide IdOf;
    var news := News(atoms.Keys, commits);
    var n := Smaller(cfg.maxAtoms, |news| - sofar);
    AddAllKeys(atoms, news[..sofar], cfg.maxChars);
    NewsShrink(atoms.Keys, commits, sofar);
    CallAddsFirstNews(Progress(AddAll(atoms, news[..sofar], cfg.maxChars), EMPTY), commits, cfg, _ => Kept, 0);
    AddAllTwice(atoms, news[..sofar], news[sofar..][..n], cfg.maxChars);
    assert news[..sofar] + news[sofar..][..n] == news[..sofar + n];
  }

  // After any number of calls on the same log, the store holds what it held and exactly the first
  // calls * cap of its new commits; the next call writes as many of the others as the cap allows,
  // none once they are all there.
  lemma {:induction false} IngestConverges(atoms: Store, commits: seq<Commit>, cfg: Config, calls: nat)
    requires !cfg.dryRun
    ensures
      var news := News(atoms.Keys, commits);
      var done := Smaller(calls * cfg.maxAtoms, |news|);
      var after := Repeated(atoms, commits, cfg, calls);
      && after == AddAll(atoms, news[..done], cfg.maxChars)
      && after.Keys == atoms.Keys + Ids(news[..done])
      && Call(after, commits, cfg).report.written == Smaller(cfg.maxAtoms, |news| - done)
    decreases calls
  {
    hide Call;
    hide News;
    hide AddAll;
    var news := News(atoms.Keys, commits);
    var done := Smaller(calls * cfg.maxAtoms, |news|);
    if calls == 0 {
      assert news[..done] == [] && AddAll(atoms, [], cfg.maxChars) == atoms by { AddNone(atoms, cfg.maxChars); }
    } else {
      IngestConverges(atoms, commits, cfg, calls - 1);
      assert calls * cfg.maxAtoms == (calls - 1) * cfg.maxAtoms + cfg.maxAtoms;
      CallGoesOn(atoms, commits, cfg, Smaller((calls - 1) * cfg.maxAtoms, |news|));
    }
    AddAllKeys(atoms, news[..done], cfg.maxChars);
    CallGoesOn(atoms, commits, cfg, done);
  }

  // Calls enough for every new commit leave each id of the log stored and nothing to write.
  lemma IngestCompletes(atoms: Store, commits: seq<Commit>, cfg: Config, calls: nat)
    requires !cfg.dryRun && calls * cfg.maxAtoms >= |News(atoms.Keys, commits)|
    ensures
      var after := Repeated(atoms, commits, cfg, calls);
      after.Keys == atoms.Keys + Ids(commits) && Call(after, commits, cfg).report.written == 0
  {
    hide Call;
    hide News;
    var news := News(atoms.Keys, commits);
    IngestConverges(atoms, commits, cfg, calls);
    NewsAreNew(atoms.Keys, commits);
    assert news[..|news|] == news;
  }

  lemma AddNone(atoms: Store, maxChars: nat)
    ensures AddAll(atoms, [], maxChars) == atoms
  {
  }

  // ---- The ids a report names ----

  function IdList(commits: seq<Commit>): seq<string>
    decreases |commits|
  {
    if commits == [] then [] else [IdOf(commits[0])] + IdList(commits[1..])
  }

  function FirstFive(ids: seq<string>): seq<string> { if |ids| <= 5 then ids else ids[..5] }

  lemma SampleGrows(sample: seq<string>, id: string, ids: seq<string>)
    requires |sample| <= 5
    ensures FirstFive(Sampled(sample, id) + ids) == FirstFive(sample + ([id] + ids))
    ensures |Sampled(sample, id)| <= 5
  {
    assert sample + [id] + ids == sample + ([id] + ids);
    if |sample| == 5 { assert FirstFive(sample + ids) == sample == FirstFive(sample + ([id] + ids)); }
  }

  lemma {:induction false} WalkSamples(p: Progress, commits: seq<Commit>, cfg: Config, fate: nat -> Fate, i: nat)
    requires !cfg.dryRun && p.report.written <= cfg.maxAtoms && |p.report.sample| <= 5
    ensures
      var landed := Landed(p.atoms.Keys, commits, fate, i);
      var n := Smaller(cfg.maxAtoms - p.report.written, |landed|);
      Walk(p, commits, cfg, fate, i).report.sample == FirstFive(p.report.sample + IdList(landed[..n]))
    decreases |commits|
  {
    hide IdOf;
    hide AtomOf;
    hide FirstFive;
    hide Sampled;
    NothingToSample(p.report.sample);
    if commits != [] && p.report.written < cfg.maxAtoms {
      var c := commits[0];
      var p1 := Handle(Scanned(p), c, cfg, fate(i));
      SampleGrows(p.report.sample, IdOf(c), []);
      WalkSamples(p1, commits[1..], cfg, fate, i + 1);
      if IdOf(c) !in p.atoms && fate(i) == Kept {
        var later := Landed(p1.atoms.Keys, commits[1..], fate, i + 1);
        assert p1.atoms.Keys == p.atoms.Keys + {IdOf(c)};
        var n := Smaller(cfg.maxAtoms - p1.report.written, |later|);
        assert ([c] + later)[..n + 1] == [c] + later[..n];
        assert ([c] + later[..n])[1..] == later[..n];
        SampleGrows(p.report.sample, IdOf(c), IdList(later[..n]));
      }
    }
  }

  lemma NothingToSample(sample: seq<string>)
    requires |sample| <= 5
    ensures FirstFive(sample + IdList([])) == sample && FirstFive(sample) == sample
  {
    assert sample + [] == sample;
  }

  lemma {:induction false} WalkNamesFailures(p: Progress, commits: seq<Commit>, cfg: Config, fate: nat -> Fate, i: nat)
    requires !cfg.dryRun
    ensures
      var r, r' := p.report, Walk(p, commits, cfg, fate, i).report;
      var m := r'.written + r'.skipped + |r'.errors| - r.written - r.skipped - |r.errors|;
      0 <= m <= |commits| && r'.errors == r.errors + FailedIds(p.atoms.Keys, commits[..m], fate, i)
    decreases |commits|
  {
    hide IdOf;
    hide AtomOf;
    assert p.report.errors + [] == p.report.errors && commits[..0] == [];
    if commits != [] && p.report.written < cfg.maxAtoms {
      var c := commits[0];
      var p1 := Handle(Scanned(p), c, cfg, fate(i));
      WalkNamesFailures(p1, commits[1..], cfg, fate, i + 1);
      var r1, r' := p1.report, Walk(p, commits, cfg, fate, i).report;
      var m := r'.written + r'.skipped + |r'.errors| - r1.written - r1.skipped - |r1.errors|;
      assert commits[..m + 1][0] == c && commits[..m + 1][1..] == commits[1..][..m];
      if IdOf(c) !in p.atoms && fate(i) == Kept { assert p1.atoms.Keys == p.atoms.Keys + {IdOf(c)}; }
    }
  }

  // However the store answers: the sample is the first five ids written, in order, and the errors name
  // exactly the commits whose put failed, in order, up to where the call stopped.
  lemma ReportNamesIds(atoms: Store, commits: seq<Commit>, cfg: Config, fate: nat -> Fate)
    requires !cfg.dryRun
    ensures
      var r := Walk(Progress(atoms, EMPTY), commits, cfg, fate, 0).report;
      var landed, handled := Landed(atoms.Keys, commits, fate, 0), r.written + r.skipped + |r.errors|;
      && r.written <= |landed| && r.sample == FirstFive(IdList(landed[..r.written]))
      && handled <= |commits| && r.errors == FailedIds(atoms.Keys, commits[..handled], fate, 0)
  {
    var p := Progress(atoms, EMPTY);
    CallAddsFirstLanded(p, commits, cfg, fate, 0);
    WalkSamples(p, commits, cfg, fate, 0);
    WalkNamesFailures(p, commits, cfg, fate, 0);
    hide Walk;
    hide Landed;
    hide FailedIds;
    hide IdList;
    assert forall ids: seq<string> :: [] + ids == ids;
  }

  // ---- Dry runs ----

  // The commits whose id is not stored, repetitions included.
  function Absent(known: set<string>, commits: seq<Commit>): seq<Commit> {
    if commits == [] then []
    else (if IdOf(commits[0]) in known then [] else [commits[0]]) + Absent(known, commits[1..])
  }

  lemma {:induction false} DryRunCounts(p: Progress, commits: seq<Commit>, cfg: Config, fate: nat -> Fate, i: nat)
    requires cfg.dryRun && p.report.written <= cfg.maxAtoms
    ensures
      var p' := Walk(p, commits, cfg, fate, i);
      p'.atoms == p.atoms && p'.report.written
      == p.report.written + Smaller(cfg.maxAtoms - p.report.written, |Absent(p.atoms.Keys, commits)|)
    decreases |commits|
  {
    if commits != [] && p.report.written < cfg.maxAtoms {
      DryRunCounts(Handle(Scanned(p), commits[0], cfg, fate(i)), commits[1..], cfg, fate, i + 1);
    }
  }

  // The store keeps the put of every commit it does not hold yet.
  ghost predicate KeepsAbsent(known: set<string>, commits: seq<Commit>, fate: nat -> Fate, i: nat) {
    forall k :: 0 <= k < |commits| && IdOf(commits[k]) !in known ==> fate(i + k) == Kept
  }

  lemma KeepsAbsentTail(known: set<string>, commits: seq<Commit>, fate: nat -> Fate, i: nat)
    requires commits != []
    ensures KeepsAbsent(known, commits, fate, i)
            <==> (IdOf(commits[0]) in known || fate(i) == Kept) && KeepsAbsent(known, commits[1..], fate, i + 1)
  {
    hide IdOf;
    var rest := commits[1..];
    if KeepsAbsent(known, commits, fate, i) {
      assert fate(i) == fate(i + 0);
      forall k | 0 <= k < |rest| && IdOf(rest[k]) !in known
        ensures fate(i + 1 + k) == Kept
      {
        assert rest[k] == commits[k + 1] && fate(i + (k + 1)) == Kept;
      }
    }
    if (IdOf(commits[0]) in known || fate(i) == Kept) && KeepsAbsent(known, rest, fate, i + 1) {
      forall k | 0 <= k < |commits| && IdOf(commits[k]) !in known
        ensures fate(i + k) == Kept
      {
        if k > 0 { assert commits[k] == rest[k - 1] && fate(i + 1 + (k - 1)) == Kept; }
      }
    }
  }

  lemma {:induction false} LandedWithinAbsent(
    stored: set<string>, seen: set<string>, commits: seq<Commit>, fate: nat -> Fate, i: nat)
    ensures |Landed(stored + seen, commits, fate, i)| <= |Absent(stored, commits)|
    ensures |Landed(stored + seen, commits, fate, i)| == |Absent(stored, commits)|
            <==> && DistinctIds(Absent(stored, commits)) && Ids(Absent(stored, commits)) !! seen - stored
                 && KeepsAbsent(stored, commits, fate, i)
    decreases |commits|
  {
    hide IdOf;
    hide DistinctIds;
    hide KeepsAbsent;
    if commits == [] {
      NothingAbsent(stored, fate, i);
    } else {
      var c, rest := commits[0], commits[1..];
      var id, absent := IdOf(c), Absent(stored, rest);
      KeepsAbsentTail(stored, commits, fate, i);
      if id in stored {
        LandedWithinAbsent(stored, seen, rest, fate, i + 1);
        assert Absent(stored, commits) == absent;
      } else {
        assert Absent(stored, commits) == [c] + absent;
        IdsOfCons(c, absent);
        if id in seen || fate(i) != Kept {
          LandedWithinAbsent(stored, seen, rest, fate, i + 1);
        } else {
          LandedWithinAbsent(stored, seen + {id}, rest, fate, i + 1);
          assert stored + (seen + {id}) == stored + seen + {id};
          DistinctCons(c, absent);
        }
      }
    }
  }

  lemma NothingAbsent(stored: set<string>, fate: nat -> Fate, i: nat)
    ensures Absent(stored, []) == [] && DistinctIds([]) && Ids([]) == {} && KeepsAbsent(stored, [], fate, i)
  {
  }

  lemma DistinctCons(c: Commit, commits: seq<Commit>)
    ensures DistinctIds([c] + commits) <==> DistinctIds(commits) && IdOf(c) !in Ids(commits)
  {
    var all := [c] + commits;
    if DistinctIds(all) {
      forall j, k | 0 <= j < k < |commits| ensures IdOf(commits[j]) != IdOf(commits[k]) {
        assert all[j + 1] == commits[j] && all[k + 1] == commits[k];
      }
      forall k | 0 <= k < |commits| ensures IdOf(commits[k]) != IdOf(c) {
        assert all[k + 1] == commits[k] && all[0] == c;
      }
    }
  }

  // A dry run writes nothing and counts no less than the real call, however the store answers that. It
  // counts the same exactly when the commits that land reach the cap anyway, or else no two of the
  // commits not yet stored share an id and the store keeps them all.
  lemma DryRunPredictsExactlyWhen(atoms: Store, commits: seq<Commit>, cfg: Config, fate: nat -> Fate)
    requires !cfg.dryRun
    ensures
      var dry := Walk(Progress(atoms, EMPTY), commits, cfg.(dryRun := true), fate, 0);
      var actual := Walk(Progress(atoms, EMPTY), commits, cfg, fate, 0);
      && dry.atoms == atoms
      && dry.report.written >= actual.report.written
      && (dry.report.written == actual.report.written
          <==> || |Landed(atoms.Keys, commits, fate, 0)| >= cfg.maxAtoms
               || (DistinctIds(Absent(atoms.Keys, commits)) && KeepsAbsent(atoms.Keys, commits, fate, 0)))
  {
    CallAddsFirstLanded(Progress(atoms, EMPTY), commits, cfg, fate, 0);
    DryRunCounts(Progress(atoms, EMPTY), commits, cfg.(dryRun := true), fate, 0);
    LandedWithinAbsent(atoms.Keys, {}, commits, fate, 0);
    assert atoms.Keys + {} == atoms.Keys;
    hide Walk;
    hide Landed;
    hide Absent;
    hide AddAll;
  }

  // Two hashes that agree on sixteen characters: the dry run counts two atoms, the real call writes one.
  lemma DryRunCanOvercount() returns (commits: seq<Commit>)
    ensures |commits| == 2 && commits[0].sha != commits[1].sha
    ensures Call(map[], commits, Config(2, true, 8000)).report.written == 2
    ensures Call(map[], commits, Config(2, false, 8000)).report.written == 1
  {
    var a, b := "0123456789abcdef0", "0123456789abcdef1";
    var c, d := Commit(a, "", "", "", "", ""), Commit(b, "", "", "", "", "");
    commits := [c, d];
    assert Prefix(a, 16) == Prefix(b, 16);
    assert IdOf(c) == IdOf(d);
    hide IdOf;
    hide AtomOf;
    assert a[16] != b[16];
    assert commits[1..] == [d] && [d][1..] == [];
    CallAddsFirstNews(Progress(map[], EMPTY), commits, Config(2, false, 8000), _ => Kept, 0);
    DryRunCounts(Progress(map[], EMPTY), commits, Config(2, true, 8000), _ => Kept, 0);
    var none: Store := map[];
    assert none.Keys == {};
    assert News({}, commits) == [c] + News({} + {IdOf(c)}, [d]);
    assert News({} + {IdOf(c)}, [d]) == [];
    assert Absent({}, commits) == [c] + Absent({}, [d]);
    assert Absent({}, [d]) == [d] + Absent({}, []);
  }
}
