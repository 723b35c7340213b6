// Parsing undoes printing exactly when the separators are found where they were printed.

module GitRoundTrip {
  import opened Prelude
  import opened Text
  import opened GitLog
  import opened GitSeparators

  // ---- What a record becomes ----

  function Emit(record: string): seq<Commit> {
    if Trim(record) == "" then []
    else
      var parts := Split(Trim(record), FS);
      if |parts| < 5 then [] else [ToCommit(parts)]
  }

  function EmitAll(records: seq<string>): seq<Commit> {
    if records == [] then [] else Emit(records[0]) + EmitAll(records[1..])
  }

  lemma {:induction false} ParserEmits(records: seq<string>)
    ensures Commits(Rows(NonBlank(records))) == EmitAll(records)
    decreases |records|
  {
    hide Split;
    hide Trim;
    hide ToCommit;
    if records != [] {
      ParserEmits(records[1..]);
      var later := NonBlank(records[1..]);
      if Trim(records[0]) != "" {
        assert NonBlank(records) == [Trim(records[0])] + later && ([Trim(records[0])] + later)[1..] == later;
        var parts := Split(Trim(records[0]), FS);
        assert Rows(NonBlank(records)) == [parts] + Rows(later) && ([parts] + Rows(later))[1..] == Rows(later);
      } else {
        assert NonBlank(records) == [] + later == later;
      }
    }
  }

  lemma ParseEmits(raw: string)
    ensures Parse(raw) == EmitAll(Split(raw, RS))
  {
    ParserEmits(Split(raw, RS));
    if raw == "" { NotFound("", RS, 0); }
  }

  // ---- Trimming a row ----

  // The row as it is left when the record that holds it has been trimmed.
  function Tidy(row: seq<string>): (r: seq<string>)
    requires |row| > 1
    ensures |r| == |row|
  {
    [TrimStart(row[0])] + row[1..|row| - 1] + [TrimEnd(row[|row| - 1])]
  }

  lemma {:induction false} JoinEndsInField(row: seq<string>) returns (before: string)
    requires |row| > 1
    ensures before != "" && !IsSpace(before[|before| - 1]) && Join(row) == before + row[|row| - 1]
    ensures forall last: string :: Join(row[..|row| - 1] + [last]) == before + last
    decreases |row|
  {
    var n := |row| - 1;
    if n == 1 {
      before := row[0] + FS;
      assert before[|before| - 1] == FS[14];
      assert row[1..] == [row[1]];
      forall last: string
        ensures Join(row[..1] + [last]) == before + last
      {
        assert (row[..1] + [last])[1..] == [last];
      }
    } else {
      var later := JoinEndsInField(row[1..]);
      before := row[0] + FS + later;
      assert before[|before| - 1] == later[|later| - 1];
      assert row[1..][n - 1] == row[n];
      assert row[0] + FS + (later + row[n]) == before + row[n];
      forall last: string
        ensures Join(row[..n] + [last]) == before + last
      {
        assert (row[..n] + [last])[1..] == row[1..][..n - 1] + [last];
        assert row[0] + FS + (later + last) == before + last;
      }
    }
  }

  lemma JoinStartsInField(row: seq<string>, first: string)
    requires |row| > 1
    ensures Join([first] + row[1..]) == first + (FS + Join(row[1..]))
  {
    assert ([first] + row[1..])[1..] == row[1..];
  }

  lemma TrimmedRecord(gap: string, row: seq<string>)
    requires AllSpace(gap) && |row| > 1
    ensures Trim(gap + Join(row)) == Join(Tidy(row)) != ""
  {
    hide *;
    var lead, s, trail := TidyLine(row);
    GapsMerge(gap, lead);
    TrimDropsGaps(gap + lead, s, trail);
    Regroup4(gap, lead, s, trail);
  }

  lemma GapsMerge(a: string, b: string)
    requires AllSpace(a) && AllSpace(b)
    ensures AllSpace(a + b)
  {
  }

  lemma Regroup4(a: string, b: string, c: string, d: string)
    ensures a + (b + c + d) == (a + b) + c + d
  {
  }

  lemma TidyLine(row: seq<string>) returns (lead: string, s: string, trail: string)
    requires |row| > 1
    ensures AllSpace(lead) && AllSpace(trail) && Trimmed(s) && s != ""
    ensures s == Join(Tidy(row)) && Join(row) == lead + s + trail
  {
    hide Join;
    hide TrimStart;
    hide TrimEnd;
    var n := |row| - 1;
    var first, last := TrimStart(row[0]), TrimEnd(row[n]);
    var started := [first] + row[1..];
    lead := TrimStartLeaves(row[0]);
    trail := TrimEndLeaves(row[n]);
    JoinStartsInField(row, row[0]);
    JoinStartsInField(row, first);
    assert [row[0]] + row[1..] == row;
    var before := JoinEndsInField(started);
    s := before + last;
    assert started[..n] + [last] == Tidy(row) && started[n] == row[n];
    var tail := FS + Join(row[1..]);
    assert lead + first + tail == lead + (first + tail);
    assert lead + (before + (last + trail)) == lead + s + trail;
    StartsSolid(first, row, before, row[n], s);
  }

  // The tidied line starts and ends with no white space.
  lemma StartsSolid(first: string, row: seq<string>, before: string, last: string, s: string)
    requires |row| > 1 && (first == "" || !IsSpace(first[0]))
    requires before != "" && !IsSpace(before[|before| - 1]) && s == before + TrimEnd(last)
    requires first + (FS + Join(row[1..])) == before + last
    ensures s != "" && Trimmed(s)
  {
    SeparatorsAreSeps();
    var trail := TrimEndLeaves(last);
    assert s[0] == before[0] == (first + (FS + Join(row[1..])))[0];
    assert s[0] == if first == "" then FS[0] else first[0];
  }

  lemma TidyKeepsFieldsApart(row: seq<string>)
    requires |row| > 1
    ensures FieldsApart(Tidy(row)) <==> FieldsApart(row)
  {
    SeparatorsAreSeps();
    var n, tidy := |row| - 1, Tidy(row);
    var lead := TrimStartLeaves(row[0]);
    var trail := TrimEndLeaves(row[n]);
    HasBehindSpace(lead, TrimStart(row[0]) + AT, FS);
    assert lead + (TrimStart(row[0]) + AT) == row[0] + AT;
    HasBeforeSpace(TrimEnd(row[n]), trail, FS);
    assert forall k :: 1 <= k < n ==> tidy[k] == row[k];
    assert tidy[0] == TrimStart(row[0]) && tidy[n] == TrimEnd(row[n]);
  }

  lemma TidyIsTheSameCommit(row: seq<string>)
    requires |row| >= 5
    ensures ToCommit(Tidy(row)) == ToCommit(row)
  {
    hide Trim;
    hide TrimStart;
    hide TrimEnd;
    var n, tidy := |row| - 1, Tidy(row);
    var lead := TrimStartLeaves(row[0]);
    var trail := TrimEndLeaves(row[n]);
    TrimIgnoresGaps(lead, TrimStart(row[0]), "");
    assert lead + TrimStart(row[0]) + "" == row[0];
    TrimIgnoresGaps("", TrimEnd(row[n]), trail);
    assert "" + TrimEnd(row[n]) + trail == row[n];
    assert forall k :: 1 <= k < n ==> tidy[k] == row[k];
  }

  // ---- Separable rows come back ----

  lemma FirstRecord(gap: string, row: seq<string>, rest: string)
    requires AllSpace(gap) && row != [] && RecordApart(row)
    ensures Split(gap + Join(row) + RS + rest, RS) == [gap + Join(row)] + Split(rest, RS)
  {
    var padded := [gap + row[0]] + row[1..];
    GapJoinsRow(gap, row);
    var line := Join(padded);
    var s := line + (RS + rest);
    assert gap + Join(row) + RS + rest == s;
    RecordEndsExactlyWhen(padded, rest);
    assert s[..|line|] == line && s[|line| + |RS|..] == rest;
  }

  lemma EmitsItsCommit(gap: string, row: seq<string>)
    requires AllSpace(gap) && |row| > 1 && FieldsApart(row)
    ensures Emit(gap + Join(row)) == if |row| < 5 then [] else [ToCommit(row)]
  {
    TrimmedRecord(gap, row);
    TidyKeepsFieldsApart(row);
    SplitUndoesJoin(Tidy(row));
    if |row| >= 5 { TidyIsTheSameCommit(row); }
  }

  lemma BlankEmitsNothing(gap: string)
    requires AllSpace(gap)
    ensures Split(gap, RS) == [gap] && Emit(gap) == []
  {
    SeparatorsAreSeps();
    forall i | 0 <= i
      ensures !OccursAt(gap, RS, i)
    {
      if i < |gap| { NotBeforeSpace(gap, RS, i, 0); }
    }
    NotFound(gap, RS, 0);
    TrimDropsGaps(gap, "", "");
    assert gap + "" + "" == gap;
  }

  lemma EmitAllOfCons(record: string, records: seq<string>)
    ensures EmitAll([record] + records) == Emit(record) + EmitAll(records)
  {
    assert ([record] + records)[1..] == records;
  }

  // Whatever rows are printed, with whatever white space in and around them, parsing returns those of
  // at least five fields.
  lemma {:induction false} PrintedRowsComeBack(rows: seq<seq<string>>, gaps: seq<string>)
    requires |gaps| == |rows| + 1 && CleanGaps(gaps)
    requires forall k :: 0 <= k < |rows| ==> |rows[k]| > 1 && Separable(rows[k])
    ensures EmitAll(Split(Print(rows, gaps), RS)) == Commits(rows)
    decreases |rows|
  {
    if rows == [] {
      BlankEmitsNothing(gaps[0]);
    } else {
      hide Emit;
      hide Join;
      hide Separable;
      var rest := Print(rows[1..], gaps[1..]);
      assert RecordApart(rows[0]) && FieldsApart(rows[0]) by { SeparableParts(rows[0]); }
      FirstRecord(gaps[0], rows[0], rest);
      EmitsItsCommit(gaps[0], rows[0]);
      PrintedRowsComeBack(rows[1..], gaps[1..]);
      EmitAllOfCons(gaps[0] + Join(rows[0]), Split(rest, RS));
    }
  }

  lemma SeparableParts(row: seq<string>)
    requires Separable(row)
    ensures RecordApart(row) && FieldsApart(row)
  {
  }

  // ---- Weights ----

  // Counts the characters of a text, each as often as w says.
  function Weight(s: string, w: char -> nat): nat { if s == "" then 0 else w(s[0]) + Weight(s[1..], w) }

  function WeightAll(parts: seq<string>, w: char -> nat): nat {
    if parts == [] then 0 else Weight(parts[0], w) + WeightAll(parts[1..], w)
  }

  // Letters that only the record separator holds.
  function Letters(c: char): nat { if c == 'R' || c == 'C' || c == 'O' then 1 else 0 }

  function Solid(c: char): nat { if IsSpace(c) then 0 else 1 }

  ghost predicate SpaceIsFree(w: char -> nat) { forall c :: IsSpace(c) ==> w(c) == 0 }

  lemma SeparatorsWeigh()
    ensures SpaceIsFree(Letters) && SpaceIsFree(Solid)
    ensures Weight(FS, Letters) == 0 && Weight(RS, Letters) == 4 && Weight(FS, Solid) == 15
  {
    SeparatorsAreSeps();
    hide Weight;
    AllSolid(FS);
    FieldSeparatorHasNoLetters();
    RecordSeparatorHasFourLetters();
  }

  lemma FieldSeparatorHasNoLetters()
    ensures Weight(FS, Letters) == 0
  {
    hide Weight;
    NoLetters(FS);
  }

  lemma WeightFromOn(s: string, k: nat, w: char -> nat)
    requires k < |s|
    ensures Weight(s[k..], w) == w(s[k]) + Weight(s[k + 1..], w)
  {
    assert s[k..][1..] == s[k + 1..];
  }

  lemma RecordSeparatorHasFourLetters()
    ensures Weight(RS, Letters) == 4
  {
    hide Weight;
    assert RS == RS[..7] + RS[7..];
    Cuts(RS[..7], RS[7..], Letters);
    NoLetters(RS[..7]);
    WeightFromOn(RS, 7, Letters);
    WeightFromOn(RS, 8, Letters);
    WeightFromOn(RS, 9, Letters);
    WeightFromOn(RS, 10, Letters);
    WeightFromOn(RS, 11, Letters);
    NoLetters(RS[12..]);
  }

  lemma {:induction false} AllSolid(s: string)
    requires forall i :: 0 <= i < |s| ==> !IsSpace(s[i])
    ensures Weight(s, Solid) == |s|
  {
    if s != "" { AllSolid(s[1..]); }
  }

  lemma {:induction false} NoLetters(s: string)
    requires forall i :: 0 <= i < |s| ==> Letters(s[i]) == 0
    ensures Weight(s, Letters) == 0
  {
    if s != "" { NoLetters(s[1..]); }
  }

  lemma {:induction false} Cuts(a: string, b: string, w: char -> nat)
    ensures Weight(a + b, w) == Weight(a, w) + Weight(b, w)
    decreases |a|
  {
    if a == "" {
      assert a + b == b;
    } else {
      assert (a + b)[1..] == a[1..] + b;
      Cuts(a[1..], b, w);
    }
  }

  lemma {:induction false} SpaceWeighsNothing(s: string, w: char -> nat)
    requires SpaceIsFree(w) && AllSpace(s)
    ensures Weight(s, w) == 0
  {
    if s != "" { SpaceWeighsNothing(s[1..], w); }
  }

  lemma TrimKeepsWeight(s: string, w: char -> nat)
    requires SpaceIsFree(w)
    ensures Weight(Trim(s), w) == Weight(s, w)
  {
    var a, b := TrimLeaves(s);
    Cuts(a + Trim(s), b, w);
    Cuts(a, Trim(s), w);
    SpaceWeighsNothing(a, w);
    SpaceWeighsNothing(b, w);
  }

  lemma FirstCut(s: string, sep: string) returns (head: string, rest: string)
    requires sep != "" && IndexOf(s, sep, 0) != -1
    ensures s == head + (sep + rest) && |rest| < |s| && Split(s, sep) == [head] + Split(rest, sep)
  {
    IndexOfIsFirst(s, sep, 0);
    var at := IndexOf(s, sep, 0);
    head, rest := s[..at], s[at + |sep|..];
  }

  // Splitting conserves weight, the separators' included.
  lemma {:induction false} SplitKeepsWeight(s: string, sep: string, w: char -> nat, u: nat)
    requires sep != "" && u == Weight(sep, w)
    ensures Weight(s, w) == WeightAll(Split(s, sep), w) + u * (|Split(s, sep)| - 1)
    decreases |s|
  {
    var at := IndexOf(s, sep, 0);
    if at == -1 {
      assert Split(s, sep) == [s];
      assert WeightAll([s], w) == Weight(s, w) + WeightAll([s][1..], w);
    } else {
      hide Weight;
      hide WeightAll;
      var head, rest := FirstCut(s, sep);
      hide IndexOf;
      hide Split;
      Cuts(head, sep + rest, w);
      Cuts(sep, rest, w);
      SplitKeepsWeight(rest, sep, w, u);
      var later := Split(rest, sep);
      WeightAllOfCons(head, later, w);
      OneMoreTime(u, |later|);
    }
  }

  lemma WeightAllOfCons(head: string, later: seq<string>, w: char -> nat)
    ensures WeightAll([head] + later, w) == Weight(head, w) + WeightAll(later, w)
  {
    assert ([head] + later)[1..] == later;
  }

  lemma OneMoreTime(u: nat, n: nat)
    ensures u * (n - 1) + u == u * n
  {
  }

  lemma NoPartsWeighNothing(w: char -> nat)
    ensures WeightAll([], w) == 0
  {
  }

  lemma JoinWeighsMore(fields: seq<string>, w: char -> nat)
    requires |fields| > 1
    ensures Weight(Join(fields), w) == Weight(fields[0], w) + Weight(FS, w) + Weight(Join(fields[1..]), w)
  {
    hide Weight;
    var rest := Join(fields[1..]);
    assert Join(fields) == fields[0] + (FS + rest);
    Cuts(fields[0], FS + rest, w);
    Cuts(FS, rest, w);
  }

  lemma {:induction false} JoinWeighs(fields: seq<string>, w: char -> nat, u: nat)
    requires fields != [] && u == Weight(FS, w)
    ensures Weight(Join(fields), w) == WeightAll(fields, w) + u * (|fields| - 1)
    decreases |fields|
  {
    hide Weight;
    hide WeightAll;
    if |fields| == 1 {
      assert fields == [fields[0]] + [];
      WeightAllOfCons(fields[0], [], w);
      assert WeightAll([], w) == 0 by { NoPartsWeighNothing(w); }
    } else {
      var rest := fields[1..];
      JoinWeighsMore(fields, w);
      JoinWeighs(rest, w, u);
      assert fields == [fields[0]] + rest;
      hide Join;
      WeightAllOfCons(fields[0], rest, w);
      OneMoreTime(u, |rest|);
    }
  }

  function CommitWeight(c: Commit, w: char -> nat): nat {
    Weight(c.sha, w) + Weight(c.author, w) + Weight(c.email, w) + Weight(c.date, w) + Weight(c.subject, w)
    + Weight(c.body, w)
  }

  lemma WeightFrom(parts: seq<string>, k: nat, w: char -> nat)
    requires k < |parts|
    ensures WeightAll(parts[k..], w) == Weight(parts[k], w) + WeightAll(parts[k + 1..], w)
  {
    assert parts[k..][0] == parts[k] && parts[k..][1..] == parts[k + 1..];
  }

  lemma WeightOfFive(parts: seq<string>, w: char -> nat)
    requires |parts| >= 5
    ensures
      WeightAll(parts, w)
      == Weight(parts[0], w) + Weight(parts[1], w) + Weight(parts[2], w) + Weight(parts[3], w)
         + Weight(parts[4], w) + WeightAll(parts[5..], w)
  {
    assert WeightAll(parts, w) == Weight(parts[0], w) + WeightAll(parts[1..], w);
    WeightFrom(parts, 1, w);
    WeightFrom(parts, 2, w);
    WeightFrom(parts, 3, w);
    WeightFrom(parts, 4, w);
  }

  // Parts weigh at least as much as their commit, and exactly that if they are five or six.
  lemma PartsWeigh(parts: seq<string>, w: char -> nat)
    requires |parts| >= 5 && SpaceIsFree(w)
    ensures CommitWeight(ToCommit(parts), w) <= WeightAll(parts, w)
    ensures |parts| <= 6 ==> CommitWeight(ToCommit(parts), w) == WeightAll(parts, w)
  {
    hide Trim;
    WeightOfFive(parts, w);
    TrimKeepsWeight(parts[0], w);
    TrimKeepsWeight(parts[1], w);
    TrimKeepsWeight(parts[2], w);
    TrimKeepsWeight(parts[3], w);
    TrimKeepsWeight(parts[4], w);
    if |parts| > 5 {
      TrimKeepsWeight(parts[5], w);
      assert parts[5..][0] == parts[5] && parts[5..][1..] == parts[6..];
    }
  }

  function TotalWeight(commits: seq<Commit>, w: char -> nat): nat {
    if commits == [] then 0 else CommitWeight(commits[0], w) + TotalWeight(commits[1..], w)
  }

  lemma {:induction false} TotalCuts(a: seq<Commit>, b: seq<Commit>, w: char -> nat)
    ensures TotalWeight(a + b, w) == TotalWeight(a, w) + TotalWeight(b, w)
    decreases |a|
  {
    if a == [] {
      assert a + b == b;
    } else {
      assert (a + b)[1..] == a[1..] + b;
      TotalCuts(a[1..], b, w);
    }
  }

  // A record weighs at least its commit and the field separators it needs.
  lemma RecordWeighs(record: string, w: char -> nat, u: nat)
    requires SpaceIsFree(w) && u == Weight(FS, w)
    ensures |Emit(record)| <= 1
    ensures Emit(record) != [] ==>
      var n := |Split(Trim(record), FS)|;
      && n >= 5 && Weight(record, w) >= CommitWeight(Emit(record)[0], w) + u * (n - 1)
      && (n <= 6 ==> Weight(record, w) == CommitWeight(Emit(record)[0], w) + u * (n - 1))
      && (n == 5 ==> Emit(record)[0].body == "")
  {
    TrimKeepsWeight(record, w);
    SplitKeepsWeight(Trim(record), FS, w, u);
    if Emit(record) != [] { PartsWeigh(Split(Trim(record), FS), w); }
  }

  lemma TotalOfCons(c: Commit, later: seq<Commit>, w: char -> nat)
    ensures TotalWeight([c] + later, w) == CommitWeight(c, w) + TotalWeight(later, w)
  {
    assert ([c] + later)[1..] == later;
  }

  lemma RecordOutweighsCommit(record: string)
    ensures |Emit(record)| <= 1
    ensures Emit(record) != [] ==> CommitWeight(Emit(record)[0], Letters) <= Weight(record, Letters)
  {
    hide Emit;
    hide Weight;
    hide CommitWeight;
    hide Split;
    hide Trim;
    SeparatorsWeigh();
    RecordWeighs(record, Letters, 0);
  }

  lemma OneEmittedWeighsNoMore(record: string)
    ensures TotalWeight(Emit(record), Letters) <= Weight(record, Letters)
  {
    hide Emit;
    hide Weight;
    hide CommitWeight;
    RecordOutweighsCommit(record);
    var e := Emit(record);
    if e != [] {
      assert e == [e[0]] + [];
      TotalOfCons(e[0], [], Letters);
    }
  }

  lemma {:induction false} EmittedWeighsNoMore(records: seq<string>)
    ensures TotalWeight(EmitAll(records), Letters) <= WeightAll(records, Letters)
    decreases |records|
  {
    if records != [] {
      EmittedWeighsNoMore(records[1..]);
      TotalCuts(Emit(records[0]), EmitAll(records[1..]), Letters);
      OneEmittedWeighsNoMore(records[0]);
    }
  }

  // ---- As many records as rows ----

  ghost predicate SixFields(rows: seq<seq<string>>) { forall k :: 0 <= k < |rows| ==> |rows[k]| == 6 }

  lemma RowWeighs(row: seq<string>, w: char -> nat, u: nat)
    requires |row| == 6 && SpaceIsFree(w) && u == Weight(FS, w)
    ensures Weight(Join(row), w) == CommitWeight(ToCommit(row), w) + u * 5
  {
    JoinWeighs(row, w, u);
    PartsWeigh(row, w);
  }

  lemma LineWeighs(gap: string, row: seq<string>, rest: string)
    requires AllSpace(gap) && |row| == 6
    ensures
      Weight(gap + Join(row) + RS + rest, Letters) == CommitWeight(ToCommit(row), Letters) + 4 + Weight(rest, Letters)
  {
    hide Weight;
    hide CommitWeight;
    hide ToCommit;
    SeparatorsWeigh();
    SpaceWeighsNothing(gap, Letters);
    RowWeighs(row, Letters, 0);
    Cuts(gap + Join(row) + RS, rest, Letters);
    Cuts(gap + Join(row), RS, Letters);
    Cuts(gap, Join(row), Letters);
  }

  lemma {:induction false} PrintWeighs(rows: seq<seq<string>>, gaps: seq<string>)
    requires |gaps| == |rows| + 1 && CleanGaps(gaps) && SixFields(rows)
    ensures Weight(Print(rows, gaps), Letters) == TotalWeight(Commits(rows), Letters) + 4 * |rows|
    decreases |rows|
  {
    hide Weight;
    hide Join;
    hide ToCommit;
    hide CommitWeight;
    if rows == [] {
      SeparatorsWeigh();
      SpaceWeighsNothing(gaps[0], Letters);
    } else {
      var rest := Print(rows[1..], gaps[1..]);
      PrintWeighs(rows[1..], gaps[1..]);
      LineWeighs(gaps[0], rows[0], rest);
      assert Commits(rows) == [ToCommit(rows[0])] + Commits(rows[1..]);
      hide Commits;
      TotalOfCons(ToCommit(rows[0]), Commits(rows[1..]), Letters);
    }
  }

  lemma FewRecords(rows: seq<seq<string>>, gaps: seq<string>)
    requires |gaps| == |rows| + 1 && CleanGaps(gaps) && SixFields(rows)
    requires EmitAll(Split(Print(rows, gaps), RS)) == Commits(rows)
    ensures |Split(Print(rows, gaps), RS)| <= |rows| + 1
  {
    SeparatorsWeigh();
    PrintWeighs(rows, gaps);
    SplitKeepsWeight(Print(rows, gaps), RS, Letters, 4);
    EmittedWeighsNoMore(Split(Print(rows, gaps), RS));
  }
}
