// The git-log round trip holds for a list of printed rows exactly when every row is separable.

module GitExactness {
  import opened Prelude
  import opened Text
  import opened GitLog
  import opened GitSeparators
  import opened GitRoundTrip

  // ---- How many records emit a commit ----

  lemma {:induction false} AtMostOneEach(records: seq<string>)
    requires records != [] && Emit(records[|records| - 1]) == []
    ensures |EmitAll(records)| <= |records| - 1
    decreases |records|
  {
    hide Emit;
    if |records| > 1 {
      assert |Emit(records[0])| <= 1 by { EmitsAtMostOne(records[0]); }
      assert records[1..][|records| - 2] == records[|records| - 1];
      AtMostOneEach(records[1..]);
    } else {
      assert records[1..] == [];
    }
  }

  lemma EmitsAtMostOne(record: string)
    ensures |Emit(record)| <= 1
  {
  }

  ghost predicate HasNo(s: string, c: char) { forall i :: 0 <= i < |s| ==> s[i] != c }

  // A record without the letter F holds no field separator.
  lemma NoFieldNoCommit(record: string)
    requires HasNo(record, 'F')
    ensures Emit(record) == []
  {
    var a, b := TrimLeaves(record);
    var t := Trim(record);
    forall i | 0 <= i
      ensures !OccursAt(t, FS, i)
    {
      if i + 7 < |t| {
        assert t[i + 7] == record[|a| + i + 7];
        Mismatch(t, FS, i, 7);
      }
    }
    NotFound(t, FS, 0);
    assert Split(t, FS) == [t];
  }

  // What is behind the last record separator: an end of the text that holds no separator.
  lemma {:induction false} LastRecord(s: string) returns (last: string)
    ensures last == Split(s, RS)[|Split(s, RS)| - 1] && !Has(last, RS)
    ensures |last| <= |s| && s[|s| - |last|..] == last
    decreases |s|
  {
    IndexOfIsFirst(s, RS, 0);
    var at := IndexOf(s, RS, 0);
    if at == -1 {
      last := s;
    } else {
      var rest := s[at + |RS|..];
      last := LastRecord(rest);
      assert s[|s| - |last|..] == rest[|rest| - |last|..];
    }
  }

  lemma LastRecordEmitsNothing(before: string, gap: string)
    requires AllSpace(gap)
    ensures var records := Split(before + RS + gap, RS); Emit(records[|records| - 1]) == []
  {
    SeparatorsAreSeps();
    var s, end := before + RS + gap, RS + gap;
    var last := LastRecord(s);
    hide Split;
    hide Emit;
    assert s == before + end;
    if |last| >= |end| { EndHolds(s, last, end); }
    NoFieldsAtTheEnd(s, last, gap);
    NoFieldNoCommit(last);
  }

  lemma EndHolds(s: string, last: string, end: string)
    requires |end| <= |last| <= |s| && s[|s| - |last|..] == last && s[|s| - |end|..] == end
    requires OccursAt(end, RS, 0)
    ensures Has(last, RS)
  {
    var d := |last| - |end|;
    assert last == last[..d] + end;
    OccursBehind(last[..d], end, RS, d);
    assert OccursAt(last, RS, d);
  }

  lemma NoFieldsAtTheEnd(s: string, last: string, gap: string)
    requires AllSpace(gap) && |last| <= |RS + gap| <= |s|
    requires s[|s| - |last|..] == last && s[|s| - |RS + gap|..] == RS + gap
    ensures HasNo(last, 'F')
  {
    var end := RS + gap;
    forall i | 0 <= i < |last|
      ensures last[i] != 'F'
    {
      assert last[i] == s[|s| - |last| + i] == end[|end| - |last| + i];
    }
  }

  lemma {:induction false} PrintEnds(rows: seq<seq<string>>, gaps: seq<string>) returns (before: string)
    requires rows != [] && |gaps| == |rows| + 1
    ensures Print(rows, gaps) == before + RS + gaps[|rows|]
    decreases |rows|
  {
    var line := gaps[0] + Join(rows[0]);
    if |rows| == 1 {
      before := line;
      assert Print(rows[1..], gaps[1..]) == gaps[1];
    } else {
      var later := PrintEnds(rows[1..], gaps[1..]);
      before := line + RS + later;
      assert line + RS + (later + RS + gaps[|rows|]) == before + RS + gaps[|rows|];
    }
  }

  lemma {:induction false} EveryRowIsACommit(rows: seq<seq<string>>)
    requires SixFields(rows)
    ensures |Commits(rows)| == |rows|
    ensures rows != [] ==> Commits(rows) == [ToCommit(rows[0])] + Commits(rows[1..])
    decreases |rows|
  {
    if rows != [] { EveryRowIsACommit(rows[1..]); }
  }

  // ---- If everything comes back, the first record is the first row ----

  ghost predicate ComesBack(rows: seq<seq<string>>, gaps: seq<string>)
    requires |gaps| == |rows| + 1
  {
    EmitAll(Split(Print(rows, gaps), RS)) == Commits(rows)
  }

  lemma FirstRecordEmits(rows: seq<seq<string>>, gaps: seq<string>)
    requires rows != [] && |gaps| == |rows| + 1 && CleanGaps(gaps) && SixFields(rows) && ComesBack(rows, gaps)
    ensures
      var records := Split(Print(rows, gaps), RS);
      |records| > 1 && Emit(records[0]) == [ToCommit(rows[0])] && EmitAll(records[1..]) == Commits(rows[1..])
  {
    hide Emit;
    hide Split;
    hide ToCommit;
    var records := Split(Print(rows, gaps), RS);
    FewRecords(rows, gaps);
    EveryRowIsACommit(rows);
    var before := PrintEnds(rows, gaps);
    LastRecordEmitsNothing(before, gaps[|rows|]);
    hide Print;
    AtMostOneEach(records);
    var n := |records| - 1;
    assert records[1..][n - 1] == records[n];
    AtMostOneEach(records[1..]);
    EmitsAtMostOne(records[0]);
    var e, later := Emit(records[0]), EmitAll(records[1..]);
    assert e + later == [ToCommit(rows[0])] + Commits(rows[1..]);
    assert |e| == 1;
    assert e[0] == (e + later)[0] && later == (e + later)[1..];
  }

  lemma FirstIsAt(s: string)
    requires |Split(s, RS)| > 1
    ensures
      var at := IndexOf(s, RS, 0);
      at >= 0 && OccursAt(s, RS, at) && Split(s, RS)[0] == s[..at] && Split(s, RS)[1..] == Split(s[at + 16..], RS)
  {
    IndexOfIsFirst(s, RS, 0);
    var at := IndexOf(s, RS, 0);
    var later := Split(s[at + 16..], RS);
    assert ([s[..at]] + later)[1..] == later;
  }

  // ---- A record cut short does not emit the row ----

  lemma StartsSolidly(s: string, i: nat)
    requires i < |s| && !IsSpace(s[i])
    ensures Weight(s[..i], Solid) < Weight(s, Solid) && Weight(s[i..], Solid) >= 1
  {
    assert s == s[..i] + s[i..];
    Cuts(s[..i], s[i..], Solid);
  }

  lemma BlankIsSpace(s: string)
    requires Trim(s) == ""
    ensures AllSpace(s)
  {
    var a, b := TrimLeaves(s);
    assert s == a + b;
  }

  // All but a blank last field, and no more than a field separator's weight to come.
  lemma NoRecordEndNearTheEnd(head: string, blank: string, rest: string, at: nat)
    requires AllSpace(blank)
    requires at < |head + FS + blank| && OccursAt(head + FS + blank + (RS + rest), RS, at)
    ensures at < |head|
  {
    SeparatorsAreSeps();
    var tail := blank + (RS + rest);
    assert head + FS + blank + (RS + rest) == head + (FS + tail);
    if at >= |head| {
      OccursBehind(head, FS + tail, RS, at);
      NoneBeforeTheEnd(blank, rest, at - |head|);
    }
  }

  lemma NoneBeforeTheEnd(blank: string, rest: string, d: nat)
    requires AllSpace(blank) && d < 15 + |blank|
    ensures !OccursAt(FS + (blank + (RS + rest)), RS, d)
  {
    SeparatorsAreSeps();
    var tail := blank + (RS + rest);
    if d < 12 {
      RecordNotInField(tail, d);
    } else if d < 15 {
      assert (FS + tail)[d + 3] == tail[d - 12];
      assert tail[d - 12] == if d - 12 < |blank| then blank[d - 12] else RS[d - 12 - |blank|];
      Mismatch(FS + tail, RS, d, 3);
    } else {
      assert (FS + tail)[d] == blank[d - 15];
      Mismatch(FS + tail, RS, d, 0);
    }
  }

  lemma LineBeforeLast(gap: string, row: seq<string>) returns (head: string)
    requires |row| == 6
    ensures gap + Join(row) == head + FS + row[5]
  {
    var before := JoinUpToLast(row);
    head := gap + before;
    assert gap + (before + FS + row[5]) == head + FS + row[5];
  }

  lemma {:induction false} JoinUpToLast(row: seq<string>) returns (before: string)
    requires |row| > 1
    ensures Join(row) == before + FS + row[|row| - 1]
    decreases |row|
  {
    if |row| == 2 {
      before := row[0];
      assert row[1..] == [row[1]];
    } else {
      var later := JoinUpToLast(row[1..]);
      before := row[0] + FS + later;
      assert row[0] + FS + (later + FS + row[|row| - 1]) == before + FS + row[|row| - 1];
    }
  }

  lemma WeightOfLine(gap: string, row: seq<string>)
    requires AllSpace(gap) && |row| == 6
    ensures Weight(gap + Join(row), Solid) == CommitWeight(ToCommit(row), Solid) + 75
  {
    hide CommitWeight;
    hide ToCommit;
    hide Weight;
    SeparatorsWeigh();
    SpaceWeighsNothing(gap, Solid);
    RowWeighs(row, Solid, 15);
    Cuts(gap, Join(row), Solid);
  }

  // A record that emits the row weighs nearly all of it.
  lemma EmittingRecordWeighs(record: string, c: Commit)
    requires Emit(record) == [c]
    ensures Weight(record, Solid) >= CommitWeight(c, Solid) + (if c.body == "" then 60 else 75)
  {
    hide CommitWeight;
    hide Weight;
    SeparatorsWeigh();
    RecordWeighs(record, Solid, 15);
  }

  lemma CutShortEmitsOther(gap: string, row: seq<string>, rest: string, at: nat)
    requires AllSpace(gap) && |row| == 6
    requires at < |gap + Join(row)| && OccursAt(gap + Join(row) + (RS + rest), RS, at)
    ensures Emit((gap + Join(row))[..at]) != [ToCommit(row)]
  {
    SeparatorsAreSeps();
    var line, c := gap + Join(row), ToCommit(row);
    OccurrenceMatches(line + (RS + rest), RS, at, 0);
    StartsSolidly(line, at);
    if Emit(line[..at]) == [c] {
      assert line == line[..at] + line[at..];
      Cuts(line[..at], line[at..], Solid);
      WeightOfLine(gap, row);
      EmittingRecordWeighs(line[..at], c);
      hide Weight;
      hide Emit;
      hide CommitWeight;
      assert c.body == "" && Weight(line[at..], Solid) <= 15;
      BlankIsSpace(row[5]);
      var head := LineBeforeLast(gap, row);
      NoRecordEndNearTheEnd(head, row[5], rest, at);
      TooHeavy(head, row[5], at);
    }
  }

  lemma TailOfThree(a: string, b: string, c: string, i: nat)
    requires i <= |a|
    ensures (a + b + c)[i..] == a[i..] + b + c
  {
  }

  lemma TooHeavy(head: string, last: string, at: nat)
    requires at < |head| && !IsSpace(head[at])
    ensures Weight((head + FS + last)[at..], Solid) >= 16
  {
    StartsSolidly(head, at);
    hide Weight;
    SeparatorsWeigh();
    TailOfThree(head, FS, last, at);
    Cuts(head[at..] + FS, last, Solid);
    Cuts(head[at..], FS, Solid);
  }

  // ---- Parts that weigh what the fields weigh are the fields ----

  lemma {:induction false} SameWeightsSameFields(fields: seq<string>)
    requires fields != [] && |Split(Join(fields), FS)| == |fields|
    requires forall k :: 0 <= k < |fields| ==> Weight(Split(Join(fields), FS)[k], Solid) == Weight(fields[k], Solid)
    ensures FieldsApart(fields)
    decreases |fields|
  {
    var f, s := fields[0], Join(fields);
    var parts := Split(s, FS);
    IndexOfIsFirst(s, FS, 0);
    if |fields| == 1 {
      assert IndexOf(s, FS, 0) == -1;
    } else {
      FirstPartIsFirstField(fields);
      hide Weight;
      hide Join;
      var later := Split(Join(fields[1..]), FS);
      assert forall k :: 0 <= k < |later| ==> later[k] == parts[k + 1] && fields[1..][k] == fields[k + 1];
      SameWeightsSameFields(fields[1..]);
      FieldsApartTail(fields);
    }
  }

  lemma FirstPartIsFirstField(fields: seq<string>)
    requires |fields| > 1 && Weight(Split(Join(fields), FS)[0], Solid) == Weight(fields[0], Solid)
    ensures !Has(fields[0] + AT, FS)
    ensures Split(Join(fields), FS) == [fields[0]] + Split(Join(fields[1..]), FS)
  {
    Regroup(fields[0], FS, Join(fields[1..]));
    FieldThenRest(fields[0], Join(fields[1..]), Join(fields));
  }

  lemma FieldThenRest(f: string, rest: string, s: string)
    requires s == f + (FS + rest) && Weight(Split(s, FS)[0], Solid) == Weight(f, Solid)
    ensures !Has(f + AT, FS) && Split(s, FS) == [f] + Split(rest, FS)
  {
    hide Weight;
    hide Has;
    hide OccursAt;
    FieldEndsExactlyWhen(f, rest);
    IndexOfIsFirst(s, FS, 0);
    FirstPart(s);
    hide Split;
    var at := IndexOf(s, FS, 0);
    hide IndexOf;
    BackOf(f, rest);
    EqualWeightEndsThere(f, s, at);
  }

  lemma FirstPart(s: string)
    requires IndexOf(s, FS, 0) != -1
    ensures var at := IndexOf(s, FS, 0); Split(s, FS) == [s[..at]] + Split(s[at + 15..], FS)
  {
    SeparatorsAreSeps();
  }

  lemma EqualWeightEndsThere(f: string, s: string, at: nat)
    requires at <= |f| <= |s| && s[..|f|] == f && OccursAt(s, FS, at)
    requires Weight(s[..at], Solid) == Weight(f, Solid)
    ensures at == |f|
  {
    hide Weight;
    OccurrenceMatches(s, FS, at, 0);
    if at < |f| {
      assert f[at] == s[at] && s[..at] == f[..at];
      StartsSolidly(f, at);
    }
  }

  lemma BackOf(f: string, rest: string)
    ensures (f + (FS + rest))[|f| + 15..] == rest && (f + (FS + rest))[..|f|] == f
  {
  }

  lemma SixParts(gap: string, row: seq<string>)
    requires AllSpace(gap) && |row| == 6 && Emit(gap + Join(row)) == [ToCommit(row)]
    ensures |Split(Trim(gap + Join(row)), FS)| == 6
  {
    hide Weight;
    hide CommitWeight;
    hide ToCommit;
    SeparatorsWeigh();
    WeightOfLine(gap, row);
    RecordWeighs(gap + Join(row), Solid, 15);
  }

  lemma SameCommitSameWeights(parts: seq<string>, row: seq<string>, k: nat)
    requires |parts| == |row| == 6 && ToCommit(parts) == ToCommit(row) && k < 6
    ensures Weight(parts[k], Solid) == Weight(row[k], Solid)
  {
    hide Weight;
    hide Trim;
    SeparatorsWeigh();
    TrimKeepsWeight(parts[k], Solid);
    TrimKeepsWeight(row[k], Solid);
    assert Trim(parts[k]) == Trim(row[k]);
  }

  lemma WholeLineNeedsFieldsApart(gap: string, row: seq<string>)
    requires AllSpace(gap) && |row| == 6 && Emit(gap + Join(row)) == [ToCommit(row)]
    ensures FieldsApart(row)
  {
    SixParts(gap, row);
    TrimmedRecord(gap, row);
    TidyIsTheSameCommit(row);
    TidyKeepsFieldsApart(row);
    var tidy := Tidy(row);
    var parts := Split(Join(tidy), FS);
    assert ToCommit(parts) == ToCommit(tidy);
    hide Weight;
    hide ToCommit;
    hide Tidy;
    forall k | 0 <= k < 6
      ensures Weight(parts[k], Solid) == Weight(tidy[k], Solid)
    {
      SameCommitSameWeights(parts, tidy, k);
    }
    SameWeightsSameFields(tidy);
  }

  // ---- Only separable rows come back ----

  lemma PrintStarts(rows: seq<seq<string>>, gaps: seq<string>)
    requires rows != [] && |gaps| == |rows| + 1
    ensures Print(rows, gaps) == gaps[0] + Join(rows[0]) + (RS + Print(rows[1..], gaps[1..]))
  {
    Regroup(gaps[0] + Join(rows[0]), RS, Print(rows[1..], gaps[1..]));
  }

  lemma FirstRowIsSeparable(rows: seq<seq<string>>, gaps: seq<string>)
    requires rows != [] && |gaps| == |rows| + 1 && CleanGaps(gaps) && SixFields(rows) && ComesBack(rows, gaps)
    ensures Separable(rows[0]) && ComesBack(rows[1..], gaps[1..])
  {
    var gap, row, rest := gaps[0], rows[0], Print(rows[1..], gaps[1..]);
    hide Split;
    hide Emit;
    hide EmitAll;
    hide Commits;
    hide ToCommit;
    hide Join;
    FirstRecordEmits(rows, gaps);
    PrintStarts(rows, gaps);
    hide Print;
    var at := FirstRecordIsTheRow(gap, row, rest);
    WholeLineNeedsFieldsApart(gap, row);
  }

  lemma FirstRecordIsTheRow(gap: string, row: seq<string>, rest: string) returns (at: nat)
    requires AllSpace(gap) && |row| == 6
    requires var records := Split(gap + Join(row) + (RS + rest), RS); |records| > 1 && Emit(records[0]) == [ToCommit(row)]
    ensures RecordApart(row)
    ensures Split(gap + Join(row) + (RS + rest), RS) == [gap + Join(row)] + Split(rest, RS)
  {
    hide Emit;
    hide ToCommit;
    hide Join;
    hide RecordApart;
    var line := gap + Join(row);
    var s, padded := line + (RS + rest), [gap + row[0]] + row[1..];
    FirstIsAt(s);
    hide Split;
    GapJoinsRow(gap, row);
    RecordEndsExactlyWhen(padded, rest);
    at := IndexOf(s, RS, 0);
    if at < |line| {
      assert s[..at] == line[..at];
      CutShortEmitsOther(gap, row, rest, at);
    }
    assert s[..at] == line && s[at + 16..] == rest;
    var records := Split(s, RS);
    assert records == [records[0]] + records[1..];
  }

  lemma {:induction false} OnlySeparableRowsComeBack(rows: seq<seq<string>>, gaps: seq<string>)
    requires |gaps| == |rows| + 1 && CleanGaps(gaps) && SixFields(rows) && ComesBack(rows, gaps)
    ensures forall k :: 0 <= k < |rows| ==> Separable(rows[k])
    decreases |rows|
  {
    hide Separable;
    hide ComesBack;
    if rows != [] {
      FirstRowIsSeparable(rows, gaps);
      OnlySeparableRowsComeBack(rows[1..], gaps[1..]);
      forall k | 1 <= k < |rows|
        ensures rows[k] == rows[1..][k - 1]
      {
      }
    }
  }

  // Printed rows, with any white space in and around their fields, parse to their commits exactly when
  // in every row each separator is found where it was printed.
  lemma RowsComeBackExactlyWhen(rows: seq<seq<string>>, gaps: seq<string>)
    requires |gaps| == |rows| + 1 && CleanGaps(gaps) && SixFields(rows)
    ensures Parse(Print(rows, gaps)) == Commits(rows) <==> forall k :: 0 <= k < |rows| ==> Separable(rows[k])
  {
    ParseEmits(Print(rows, gaps));
    if Parse(Print(rows, gaps)) == Commits(rows) {
      OnlySeparableRowsComeBack(rows, gaps);
    } else if forall k :: 0 <= k < |rows| ==> Separable(rows[k]) {
      PrintedRowsComeBack(rows, gaps);
    }
  }

  // ---- Commits ----

  // The row is the commit as git prints it, up to white space around its fields.
  ghost predicate Prints(row: seq<string>, c: Commit) { |row| == 6 && ToCommit(row) == c }

  lemma {:induction false} CommitsOfRows(commits: seq<Commit>, rows: seq<seq<string>>)
    requires |rows| == |commits| && forall k :: 0 <= k < |rows| ==> Prints(rows[k], commits[k])
    ensures Commits(rows) == commits
    decreases |rows|
  {
    hide ToCommit;
    if rows != [] {
      CommitsOfRows(commits[1..], rows[1..]);
      assert commits == [commits[0]] + commits[1..];
    }
  }

  // Printing any list of commits and parsing it gives the list back exactly when no row hides one of
  // its separators.
  lemma RoundTripExactlyWhen(commits: seq<Commit>, rows: seq<seq<string>>, gaps: seq<string>)
    requires |rows| == |commits| && forall k :: 0 <= k < |rows| ==> Prints(rows[k], commits[k])
    requires |gaps| == |rows| + 1 && CleanGaps(gaps)
    ensures Parse(Print(rows, gaps)) == commits <==> forall k :: 0 <= k < |rows| ==> Separable(rows[k])
  {
    CommitsOfRows(commits, rows);
    RowsComeBackExactlyWhen(rows, gaps);
  }

  function Row(c: Commit): seq<string> { [c.sha, c.author, c.email, c.date, c.subject, c.body] }

  // Git ends a body that is not empty with a newline.
  function GitRow(c: Commit): seq<string> { Row(c)[5 := if c.body == "" then "" else c.body + "\n"] }

  predicate TidyCommit(c: Commit) {
    && Trimmed(c.sha) && Trimmed(c.author) && Trimmed(c.email)
    && Trimmed(c.date) && Trimmed(c.subject) && Trimmed(c.body)
  }

  lemma TrimIsIdentity(s: string)
    requires Trimmed(s)
    ensures Trim(s) == s && Trim(s + "\n") == s
  {
    TrimDropsGaps("", s, "");
    TrimDropsGaps("", s, "\n");
    assert "" + s + "" == s && "" + s + "\n" == s + "\n";
  }

  lemma TidyCommitsPrint(c: Commit)
    requires TidyCommit(c)
    ensures Prints(GitRow(c), c) && Prints(Row(c), c)
  {
    TrimIsIdentity(c.sha);
    TrimIsIdentity(c.author);
    TrimIsIdentity(c.email);
    TrimIsIdentity(c.date);
    TrimIsIdentity(c.subject);
    TrimIsIdentity(c.body);
  }

  // `LAG-`, which both separators hold.
  predicate KeyAt(s: string, p: int) {
    0 <= p && p + 4 <= |s| && s[p] == 'L' && s[p + 1] == 'A' && s[p + 2] == 'G' && s[p + 3] == '-'
  }

  ghost predicate NoKey(s: string) { forall p :: !KeyAt(s, p) }

  lemma SeparatorHasKey(s: string, sep: string, i: int)
    requires (sep == FS || sep == RS) && OccursAt(s, sep, i)
    ensures KeyAt(s, i + 3)
  {
    OccurrenceMatches(s, sep, i, 3);
    OccurrenceMatches(s, sep, i, 4);
    OccurrenceMatches(s, sep, i, 5);
    OccurrenceMatches(s, sep, i, 6);
  }

  lemma NoKeyAround(f: string, p: int)
    requires NoKey(f)
    ensures !KeyAt(f, p) && !KeyAt(f + AT, p) && !KeyAt(AT + f + AT, p)
  {
    assert !KeyAt(f, p) && !KeyAt(f, p - 3);
  }

  lemma NoKeyNoSeparator(f: string, sep: string)
    requires (sep == FS || sep == RS) && NoKey(f)
    ensures !Has(f, sep) && !Has(f + AT, sep) && !Has(AT + f + AT, sep)
  {
    forall i
      ensures !OccursAt(f, sep, i) && !OccursAt(f + AT, sep, i) && !OccursAt(AT + f + AT, sep, i)
    {
      NoKeyAround(f, i + 3);
      if OccursAt(f, sep, i) { SeparatorHasKey(f, sep, i); }
      if OccursAt(f + AT, sep, i) { SeparatorHasKey(f + AT, sep, i); }
      if OccursAt(AT + f + AT, sep, i) { SeparatorHasKey(AT + f + AT, sep, i); }
    }
  }

  lemma NoKeyIsSeparable(row: seq<string>)
    requires row != [] && forall k :: 0 <= k < |row| ==> NoKey(row[k])
    ensures Separable(row)
  {
    hide NoKey;
    forall k | 0 <= k < |row|
      ensures !Has(row[k], FS) && !Has(row[k] + AT, FS) && !Has(row[k] + AT, RS) && !Has(AT + row[k] + AT, RS)
    {
      NoKeyNoSeparator(row[k], FS);
      NoKeyNoSeparator(row[k], RS);
    }
  }

  // In particular the round trip holds whenever no field contains `LAG-`.
  lemma RoundTrip(commits: seq<Commit>, rows: seq<seq<string>>, gaps: seq<string>)
    requires |rows| == |commits| && forall k :: 0 <= k < |rows| ==> Prints(rows[k], commits[k])
    requires forall k, j :: 0 <= k < |rows| && 0 <= j < |rows[k]| ==> NoKey(rows[k][j])
    requires |gaps| == |rows| + 1 && CleanGaps(gaps)
    ensures Parse(Print(rows, gaps)) == commits
  {
    forall k | 0 <= k < |rows|
      ensures Separable(rows[k])
    {
      NoKeyIsSeparable(rows[k]);
    }
    RoundTripExactlyWhen(commits, rows, gaps);
  }

  function GitRows(commits: seq<Commit>): (r: seq<seq<string>>)
    ensures |r| == |commits| && forall k :: 0 <= k < |r| ==> r[k] == GitRow(commits[k])
  {
    seq(|commits|, k requires 0 <= k < |commits| => GitRow(commits[k]))
  }

  // The same for commits with trimmed fields, printed with a newline behind each body.
  lemma GitOutputRoundTripsExactlyWhen(commits: seq<Commit>, gaps: seq<string>)
    requires forall k :: 0 <= k < |commits| ==> TidyCommit(commits[k])
    requires |gaps| == |commits| + 1 && CleanGaps(gaps)
    ensures Parse(Print(GitRows(commits), gaps)) == commits
            <==> forall k :: 0 <= k < |commits| ==> Separable(GitRow(commits[k]))
  {
    forall k | 0 <= k < |commits|
      ensures Prints(GitRow(commits[k]), commits[k])
    {
      TidyCommitsPrint(commits[k]);
    }
    hide Prints;
    hide Separable;
    RoundTripExactlyWhen(commits, GitRows(commits), gaps);
  }

  // A field separator inside a body cuts the body there: what follows is lost.
  lemma SeparatorInBodyTruncates(c: Commit, lost: string)
    requires TidyCommit(c) && Separable(Row(c) + [lost])
    ensures Parse(Print([Row(c.(body := c.body + FS + lost))], ["", ""])) == [c]
  {
    var printed, parsed := Row(c.(body := c.body + FS + lost)), Row(c) + [lost];
    SameLine(c, lost);
    SameLineSamePrint(printed, parsed);
    PrintedRowsComeBack([parsed], ["", ""]);
    ParseEmits(Print([parsed], ["", ""]));
    TidyCommitsPrint(c);
    hide Parse;
    hide Print;
    FirstSixFields(c, lost);
    assert Commits([parsed][1..]) == [];
  }

  lemma FirstSixFields(c: Commit, lost: string)
    requires TidyCommit(c)
    ensures ToCommit(Row(c) + [lost]) == c
  {
    TidyCommitsPrint(c);
    var row, parsed := Row(c), Row(c) + [lost];
    assert forall k :: 0 <= k < 6 ==> parsed[k] == row[k];
    hide Trim;
  }

  lemma SameLineSamePrint(a: seq<string>, b: seq<string>)
    requires Join(a) == Join(b)
    ensures Print([a], ["", ""]) == Print([b], ["", ""])
  {
    assert [a][1..] == [] && [b][1..] == [];
  }

  lemma SameLine(c: Commit, lost: string)
    ensures Join(Row(c.(body := c.body + FS + lost))) == Join(Row(c) + [lost])
  {
    JoinMerges(Row(c)[..5], c.body, lost);
    assert Row(c)[..5] + [c.body + FS + lost] == Row(c.(body := c.body + FS + lost));
    assert Row(c)[..5] + [c.body, lost] == Row(c) + [lost];
  }

  lemma {:induction false} JoinMerges(before: seq<string>, a: string, b: string)
    ensures Join(before + [a + FS + b]) == Join(before + [a, b])
    decreases |before|
  {
    if before == [] {
      assert [] + [a + FS + b] == [a + FS + b] && [] + [a, b] == [a, b] && [a, b][1..] == [b];
    } else {
      JoinMerges(before[1..], a, b);
      assert (before + [a + FS + b])[1..] == before[1..] + [a + FS + b];
      assert (before + [a, b])[1..] == before[1..] + [a, b];
    }
  }
}
