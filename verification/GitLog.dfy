// `parseGitLog` of src/sources/git-log.ts, against the printer that `PRETTY` makes of git.

module GitLog {
  import opened Prelude
  import opened Text

  const RS := "@@@LAG-RECORD@@@"
  const FS := "@@@LAG-FIELD@@@"

  datatype Commit = Commit(sha: string, author: string, email: string, date: string, subject: string, body: string)

  // ---- Splitting and trimming ----

  function Split(s: string, sep: string): (r: seq<string>)
    requires sep != ""
    ensures r != []
    decreases |s|
  {
    var at := IndexOf(s, sep, 0);
    if at == -1 then [s] else [s[..at]] + Split(s[at + |sep|..], sep)
  }

  // The white space and line terminators that `trim` removes.
  predicate IsSpace(c: char) {
    || '\t' <= c <= '\r' || c == ' ' || c == '\U{A0}' || c == '\U{1680}' || '\U{2000}' <= c <= '\U{200A}'
    || c == '\U{2028}' || c == '\U{2029}' || c == '\U{202F}' || c == '\U{205F}' || c == '\U{3000}' || c == '\U{FEFF}'
  }

  function TrimStart(s: string): string { if s != "" && IsSpace(s[0]) then TrimStart(s[1..]) else s }

  function TrimEnd(s: string): string { if s != "" && IsSpace(s[|s| - 1]) then TrimEnd(s[..|s| - 1]) else s }

  function Trim(s: string): string { TrimEnd(TrimStart(s)) }

  predicate AllSpace(s: string) { forall i :: 0 <= i < |s| ==> IsSpace(s[i]) }

  predicate Trimmed(s: string) { s == "" || (!IsSpace(s[0]) && !IsSpace(s[|s| - 1])) }

  lemma {:induction false} TrimStartDrops(gap: string, s: string)
    requires AllSpace(gap) && (s == "" || !IsSpace(s[0]))
    ensures TrimStart(gap + s) == s
  {
    if gap == "" {
      assert gap + s == s;
    } else {
      assert (gap + s)[1..] == gap[1..] + s;
      TrimStartDrops(gap[1..], s);
    }
  }

  lemma {:induction false} TrimEndDrops(s: string, gap: string)
    requires AllSpace(gap) && (s == "" || !IsSpace(s[|s| - 1]))
    ensures TrimEnd(s + gap) == s
    decreases |gap|
  {
    if gap == "" {
      assert s + gap == s;
    } else {
      assert (s + gap)[..|s + gap| - 1] == s + gap[..|gap| - 1];
      TrimEndDrops(s, gap[..|gap| - 1]);
    }
  }

  lemma TrimDropsGaps(before: string, s: string, after: string)
    requires AllSpace(before) && AllSpace(after) && Trimmed(s)
    ensures Trim(before + s + after) == s
  {
    if s == "" {
      assert before + s + after == (before + after) + "";
      TrimStartDrops(before + after, "");
    } else {
      assert before + s + after == before + (s + after);
      TrimStartDrops(before, s + after);
      TrimEndDrops(s, after);
    }
  }

  lemma {:induction false} TrimStartLeaves(s: string) returns (gap: string)
    ensures AllSpace(gap) && s == gap + TrimStart(s)
    ensures TrimStart(s) == "" || !IsSpace(TrimStart(s)[0])
  {
    if s != "" && IsSpace(s[0]) {
      var rest := TrimStartLeaves(s[1..]);
      gap := [s[0]] + rest;
      assert s == [s[0]] + s[1..];
    } else {
      gap := "";
    }
  }

  lemma {:induction false} TrimEndLeaves(s: string) returns (gap: string)
    ensures AllSpace(gap) && s == TrimEnd(s) + gap
    ensures TrimEnd(s) == "" || !IsSpace(TrimEnd(s)[|TrimEnd(s)| - 1])
    decreases |s|
  {
    if s != "" && IsSpace(s[|s| - 1]) {
      var rest := TrimEndLeaves(s[..|s| - 1]);
      gap := rest + [s[|s| - 1]];
      assert s == s[..|s| - 1] + [s[|s| - 1]];
    } else {
      gap := "";
    }
  }

  // What `trim` returns, and what it dropped.
  lemma TrimLeaves(s: string) returns (before: string, after: string)
    ensures AllSpace(before) && AllSpace(after) && Trimmed(Trim(s)) && s == before + Trim(s) + after
  {
    before := TrimStartLeaves(s);
    after := TrimEndLeaves(TrimStart(s));
  }

  // White space around a text makes no difference to `trim`.
  lemma TrimIgnoresGaps(before: string, s: string, after: string)
    requires AllSpace(before) && AllSpace(after)
    ensures Trim(before + s + after) == Trim(s)
  {
    var a, b := TrimLeaves(s);
    assert before + s + after == (before + a) + Trim(s) + (b + after);
    TrimDropsGaps(before + a, Trim(s), b + after);
  }

  // ---- The parser ----

  // Each part trimmed, the blank ones dropped.
  function NonBlank(parts: seq<string>): seq<string> {
    if parts == [] then []
    else (if Trim(parts[0]) == "" then [] else [Trim(parts[0])]) + NonBlank(parts[1..])
  }

  function ToCommit(parts: seq<string>): Commit
    requires |parts| >= 5
  {
    Commit(Trim(parts[0]), Trim(parts[1]), Trim(parts[2]), Trim(parts[3]), Trim(parts[4]),
           if |parts| > 5 then Trim(parts[5]) else "")
  }

  // Rows of fewer than five parts are skipped.
  function Commits(rows: seq<seq<string>>): seq<Commit> {
    if rows == [] then []
    else (if |rows[0]| < 5 then [] else [ToCommit(rows[0])]) + Commits(rows[1..])
  }

  function Rows(records: seq<string>): seq<seq<string>> {
    if records == [] then [] else [Split(records[0], FS)] + Rows(records[1..])
  }

  function Parse(raw: string): seq<Commit> { if raw == "" then [] else Commits(Rows(NonBlank(Split(raw, RS)))) }

  // The commits so far and those of the records from i on.
  ghost function Prospect(commits: seq<Commit>, records: seq<string>, i: nat): seq<Commit>
    requires i <= |records|
  {
    commits + Commits(Rows(records[i..]))
  }

  lemma ProspectMovesOn(before: seq<Commit>, records: seq<string>, i: nat)
    requires i < |records|
    ensures
      var parts := Split(records[i], FS);
      Prospect(before, records, i)
      == Prospect(if |parts| < 5 then before else before + [ToCommit(parts)], records, i + 1)
  {
    hide Split;
    hide ToCommit;
    var parts, later := Split(records[i], FS), Rows(records[i + 1..]);
    assert records[i..][1..] == records[i + 1..];
    assert Rows(records[i..]) == [parts] + later && ([parts] + later)[1..] == later;
    Regroup(before, if |parts| < 5 then [] else [ToCommit(parts)], Commits(later));
    assert before + [] == before;
  }

  method ParseGitLog(raw: string) returns (commits: seq<Commit>)
    ensures commits == Parse(raw)
  {
    if raw == "" { return []; }
    var records := NonBlank(Split(raw, RS));
    ProspectEnds([], records);
    hide *;
    commits := [];
    for i := 0 to |records|
      invariant Prospect(commits, records, i) == Parse(raw)
    {
      var parts := Split(records[i], FS);
      ProspectMovesOn(commits, records, i);
      if |parts| < 5 { continue; }
      commits := commits + [ToCommit(parts)];
    }
    ProspectEnds(commits, records);
  }

  lemma ProspectEnds(commits: seq<Commit>, records: seq<string>)
    ensures Prospect([], records, 0) == Commits(Rows(records)) && Prospect(commits, records, |records|) == commits
  {
    assert records[|records|..] == [] && records[0..] == records;
  }

  // ---- The printer ----

  function Join(fields: seq<string>): string {
    if fields == [] then "" else if |fields| == 1 then fields[0] else fields[0] + FS + Join(fields[1..])
  }

  // Each row's fields joined and ended by the record separator, with white space around the rows.
  // The fields are as git prints them: a body, for one, ends with a newline.
  function Print(rows: seq<seq<string>>, gaps: seq<string>): string
    requires |gaps| == |rows| + 1
  {
    if rows == [] then gaps[0] else gaps[0] + Join(rows[0]) + RS + Print(rows[1..], gaps[1..])
  }

  predicate CleanGaps(gaps: seq<string>) { forall k :: 0 <= k < |gaps| ==> AllSpace(gaps[k]) }
}
