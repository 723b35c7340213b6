// Where the separators of a printed git log are found: exactly where they were printed, or earlier.

module GitSeparators {
  import opened Text
  import opened GitLog

  // Every separator starts with these.
  const AT := "@@@"

  ghost predicate Has(s: string, sep: string) { exists i :: OccursAt(s, sep, i) }

  // No field separator starts before its own.
  ghost predicate FieldsApart(row: seq<string>)
    requires row != []
  {
    && (forall k :: 0 <= k < |row| - 1 ==> !Has(row[k] + AT, FS))
    && !Has(row[|row| - 1], FS)
  }

  // No record separator starts before the one that ends the row.
  ghost predicate RecordApart(row: seq<string>)
    requires row != []
  {
    && !Has(row[0] + AT, RS)
    && (forall k :: 1 <= k < |row| ==> !Has(AT + row[k] + AT, RS))
  }

  ghost predicate Separable(row: seq<string>) { row != [] && FieldsApart(row) && RecordApart(row) }

  // ---- The separators ----

  predicate IsSep(sep: string) {
    && |sep| >= 15 && sep[..3] == AT && sep[3] == 'L'
    && (forall q :: 1 <= q < |sep| - 3 ==> !(sep[q] == '@' && sep[q + 3] == 'L'))
    && (forall q :: 0 <= q < |sep| ==> !IsSpace(sep[q]))
  }

  lemma SeparatorsAreSeps()
    ensures IsSep(FS) && IsSep(RS) && |FS| == 15 && |RS| == 16
  {
    FieldSeparatorIsSep();
    RecordSeparatorIsSep();
  }

  lemma FieldSeparatorIsSep()
    ensures IsSep(FS) && |FS| == 15
  {
    assert FS[..3] == AT;
  }

  lemma RecordSeparatorIsSep()
    ensures IsSep(RS) && |RS| == 16
  {
    assert RS[..3] == AT;
  }

  lemma OccurrenceMatches(s: string, mark: string, i: int, k: nat)
    requires OccursAt(s, mark, i) && k < |mark|
    ensures s[i + k] == mark[k]
  {
    assert s[i..i + |mark|][k] == mark[k];
  }

  lemma Mismatch(s: string, mark: string, i: nat, k: nat)
    requires k < |mark| && i + k < |s| && s[i + k] != mark[k]
    ensures !OccursAt(s, mark, i)
  {
    if OccursAt(s, mark, i) { OccurrenceMatches(s, mark, i, k); }
  }

  lemma OccursBehind(a: string, b: string, mark: string, i: int)
    requires i >= |a|
    ensures OccursAt(a + b, mark, i) <==> OccursAt(b, mark, i - |a|)
  {
    if i + |mark| <= |a + b| { assert (a + b)[i..i + |mark|] == b[i - |a|..i - |a| + |mark|]; }
  }

  // A separator that starts inside a text, before the next separator, ends within its first three
  // characters.
  lemma StartsInField(f: string, sep: string, next: string, tail: string, i: nat)
    requires IsSep(sep) && IsSep(next) && i < |f|
    ensures OccursAt(f + (next + tail), sep, i) <==> OccursAt(f + AT, sep, i)
  {
    var s, q := f + (next + tail), |f| - i;
    assert s[..|f| + 3] == f + AT;
    PrefixOccurrence(s, |f| + 3, sep, i);
    assert s[|f|] == next[0] == AT[0] && s[|f| + 3] == next[3];
    if OccursAt(s, sep, i) && q + 3 < |sep| {
      OccurrenceMatches(s, sep, i, q);
      OccurrenceMatches(s, sep, i, q + 3);
    }
  }

  // A record separator that starts inside a field separator starts in its last three characters.
  lemma RecordNotInField(tail: string, d: nat)
    requires d < 12
    ensures !OccursAt(FS + tail, RS, d)
  {
    var k := if d == 0 then 7 else if d <= 3 then 3 - d else 0;
    assert (FS + tail)[d + k] == FS[d + k] != RS[k];
    if OccursAt(FS + tail, RS, d) { OccurrenceMatches(FS + tail, RS, d, k); }
  }

  lemma NotBeforeSpace(s: string, sep: string, i: int, k: nat)
    requires IsSep(sep) && k < |sep| && 0 <= i && i + k < |s| && IsSpace(s[i + k])
    ensures !OccursAt(s, sep, i)
  {
    if OccursAt(s, sep, i) { OccurrenceMatches(s, sep, i, k); }
  }

  // White space around a text holds no part of a separator.
  lemma HasBehindSpace(gap: string, s: string, sep: string)
    requires AllSpace(gap) && IsSep(sep)
    ensures Has(gap + s, sep) <==> Has(s, sep)
  {
    if Has(gap + s, sep) {
      var i :| OccursAt(gap + s, sep, i);
      if i < |gap| { NotBeforeSpace(gap + s, sep, i, 0); }
      OccursBehind(gap, s, sep, i);
    }
    if Has(s, sep) {
      var i :| OccursAt(s, sep, i);
      OccursBehind(gap, s, sep, i + |gap|);
    }
  }

  lemma HasBeforeSpace(s: string, gap: string, sep: string)
    requires AllSpace(gap) && IsSep(sep)
    ensures Has(s + gap, sep) <==> Has(s, sep)
  {
    var all := s + gap;
    assert all[..|s|] == s;
    if Has(all, sep) {
      var i :| OccursAt(all, sep, i);
      if i + |sep| > |s| { NotBeforeSpace(all, sep, i, |sep| - 1); }
      PrefixOccurrence(all, |s|, sep, i);
    }
    if Has(s, sep) {
      var i :| OccursAt(s, sep, i);
      PrefixOccurrence(all, |s|, sep, i);
    }
  }

  // ---- Field separators ----

  // The first field separator is the printed one exactly when none starts in the field.
  lemma FieldEndsExactlyWhen(f: string, tail: string)
    ensures 0 <= IndexOf(f + (FS + tail), FS, 0) <= |f|
    ensures IndexOf(f + (FS + tail), FS, 0) == |f| <==> !Has(f + AT, FS)
  {
    SeparatorsAreSeps();
    var s := f + (FS + tail);
    assert (FS + tail)[0..0 + |FS|] == FS;
    OccursBehind(f, FS + tail, FS, |f|);
    IndexOfIsFirst(s, FS, 0);
    forall i | 0 <= i < |f|
      ensures OccursAt(s, FS, i) <==> OccursAt(f + AT, FS, i)
    {
      StartsInField(f, FS, FS, tail, i);
    }
    if Has(f + AT, FS) {
      var i :| OccursAt(f + AT, FS, i);
      assert i < |f|;
    }
  }

  lemma {:induction false} SplitUndoesJoin(fields: seq<string>)
    requires fields != [] && FieldsApart(fields)
    ensures Split(Join(fields), FS) == fields
    decreases |fields|
  {
    var f := fields[0];
    if |fields| == 1 {
      NotFound(f, FS, 0);
    } else {
      var s, rest := Join(fields), Join(fields[1..]);
      assert s == f + (FS + rest);
      FieldEndsExactlyWhen(f, rest);
      assert s[..|f|] == f && s[|f| + |FS|..] == rest;
      FieldsApartTail(fields);
      SplitUndoesJoin(fields[1..]);
      assert [f] + fields[1..] == fields;
    }
  }

  lemma FieldsApartTail(fields: seq<string>)
    requires |fields| > 1
    ensures FieldsApart(fields) <==> !Has(fields[0] + AT, FS) && FieldsApart(fields[1..])
  {
    var rest := fields[1..];
    assert forall k :: 0 <= k < |rest| ==> rest[k] == fields[k + 1];
    if FieldsApart(rest) && !Has(fields[0] + AT, FS) {
      forall k | 0 <= k < |fields| - 1
        ensures !Has(fields[k] + AT, FS)
      {
        if k > 0 { assert fields[k] == rest[k - 1]; }
      }
    }
  }

  // ---- Record separators ----

  lemma JoinedLine(fields: seq<string>, rest: string)
    requires |fields| > 1
    ensures
      var tail := Join(fields[1..]) + (RS + rest);
      && Join(fields) + (RS + rest) == fields[0] + (FS + tail) == fields[0] + FS + tail
      && |Join(fields)| == |fields[0] + FS| + |Join(fields[1..])|
  {
  }

  // What follows a field: the next separator and the text behind it.
  lemma AfterField(fields: seq<string>, rest: string) returns (next: string, tail: string)
    requires fields != []
    ensures IsSep(next) && Join(fields) + (RS + rest) == fields[0] + (next + tail)
  {
    SeparatorsAreSeps();
    if |fields| == 1 {
      next, tail := RS, rest;
    } else {
      next, tail := FS, Join(fields[1..]) + (RS + rest);
      JoinedLine(fields, rest);
    }
  }

  lemma HeadStart(fields: seq<string>, rest: string, i: nat)
    requires fields != [] && i < |fields[0]|
    ensures OccursAt(Join(fields) + (RS + rest), RS, i) <==> OccursAt(fields[0] + AT, RS, i)
  {
    SeparatorsAreSeps();
    var next, tail := AfterField(fields, rest);
    StartsInField(fields[0], RS, next, tail, i);
  }

  // A record separator that starts in the last three characters of a field separator.
  lemma SeamStart(f: string, fields: seq<string>, rest: string, d: nat)
    requires fields != [] && d < 3
    ensures OccursAt(f + (FS + (Join(fields) + (RS + rest))), RS, |f| + 12 + d)
            <==> OccursAt(AT + fields[0] + AT, RS, d)
  {
    hide *;
    FieldSeparatorTail(f, Join(fields) + (RS + rest), d);
    SeamHead(fields, rest, d);
  }

  lemma FieldSeparatorTail(f: string, text: string, d: nat)
    requires d < 3
    ensures OccursAt(f + (FS + text), RS, |f| + 12 + d) <==> OccursAt(AT + text, RS, d)
  {
    SeparatorsAreSeps();
    assert f + (FS + text) == (f + FS[..12]) + (AT + text);
    OccursBehind(f + FS[..12], AT + text, RS, |f| + 12 + d);
  }

  lemma SeamHead(fields: seq<string>, rest: string, d: nat)
    requires fields != [] && d < 3
    ensures OccursAt(AT + (Join(fields) + (RS + rest)), RS, d) <==> OccursAt(AT + fields[0] + AT, RS, d)
  {
    SeparatorsAreSeps();
    var next, tail := AfterField(fields, rest);
    hide Join;
    hide OccursAt;
    assert AT + (Join(fields) + (RS + rest)) == (AT + fields[0]) + (next + tail);
    StartsInField(AT + fields[0], RS, next, tail, d);
  }

  lemma RecordApartTail(fields: seq<string>)
    requires |fields| > 1
    ensures RecordApart(fields)
            <==> !Has(fields[0] + AT, RS) && !Has(AT + fields[1] + AT, RS) && RecordApart(fields[1..])
  {
    var rest := fields[1..];
    assert forall k :: 0 <= k < |rest| ==> rest[k] == fields[k + 1];
    if Has(rest[0] + AT, RS) {
      var i :| OccursAt(rest[0] + AT, RS, i);
      OccursBehind(AT, rest[0] + AT, RS, i + 3);
      assert AT + (rest[0] + AT) == AT + rest[0] + AT;
      assert OccursAt(AT + fields[1] + AT, RS, i + 3);
    }
    forall k | 2 <= k < |fields|
      ensures fields[k] == rest[k - 1]
    {
    }
  }

  lemma {:induction false} EarlyMeansNotApart(fields: seq<string>, rest: string, i: nat)
    requires fields != [] && i < |Join(fields)| && OccursAt(Join(fields) + (RS + rest), RS, i)
    ensures !RecordApart(fields)
    decreases |fields|
  {
    hide OccursAt;
    var f := fields[0];
    if i < |f| {
      HeadStart(fields, rest, i);
      assert Has(f + AT, RS);
    } else {
      JoinedLine(fields, rest);
      RecordApartTail(fields);
      hide Join;
      hide RecordApart;
      var tail := Join(fields[1..]) + (RS + rest);
      var d := i - |f|;
      OccursBehind(f, FS + tail, RS, i);
      if d < 12 {
        RecordNotInField(tail, d);
      } else if d < 15 {
        SeamStart(f, fields[1..], rest, d - 12);
        assert Has(AT + fields[1] + AT, RS);
      } else {
        SeparatorsAreSeps();
        OccursBehind(f + FS, tail, RS, i);
        EarlyMeansNotApart(fields[1..], rest, d - 15);
      }
    }
  }

  lemma {:induction false} NotApartMeansEarly(fields: seq<string>, rest: string) returns (i: nat)
    requires fields != [] && !RecordApart(fields)
    ensures i < |Join(fields)| && OccursAt(Join(fields) + (RS + rest), RS, i)
    decreases |fields|
  {
    SeparatorsAreSeps();
    var f := fields[0];
    if Has(f + AT, RS) {
      i :| OccursAt(f + AT, RS, i);
      HeadStart(fields, rest, i);
      if |fields| > 1 { JoinedLine(fields, rest); }
    } else {
      i := NotApartBehind(fields, rest);
    }
  }

  lemma {:induction false} NotApartBehind(fields: seq<string>, rest: string) returns (i: nat)
    requires fields != [] && !RecordApart(fields) && !Has(fields[0] + AT, RS)
    ensures i < |Join(fields)| && OccursAt(Join(fields) + (RS + rest), RS, i)
    decreases |fields|, 0
  {
    SeparatorsAreSeps();
    var f := fields[0];
    assert |fields| > 1;
    RecordApartTail(fields);
    JoinedLine(fields, rest);
    var tail := Join(fields[1..]) + (RS + rest);
    if !RecordApart(fields[1..]) {
      var j := NotApartMeansEarly(fields[1..], rest);
      hide RecordApart;
      hide Join;
      hide OccursAt;
      i := |f + FS| + j;
      OccursBehind(f + FS, tail, RS, i);
    } else {
      assert !Has(fields[1] + AT, RS);
      hide RecordApart;
      hide Join;
      hide OccursAt;
      var d := StartsAtSeam(fields[1]);
      SeamStart(f, fields[1..], rest, d);
      i := |f| + 12 + d;
    }
  }

  // A separator over a seam but not in the field behind it starts in the seam.
  lemma StartsAtSeam(field: string) returns (d: nat)
    requires Has(AT + field + AT, RS) && !Has(field + AT, RS)
    ensures d < 3 && OccursAt(AT + field + AT, RS, d)
  {
    d :| OccursAt(AT + field + AT, RS, d);
    if d >= 3 {
      assert AT + field + AT == AT + (field + AT);
      OccursBehind(AT, field + AT, RS, d);
    }
  }

  // The first record separator is the printed one exactly when the row keeps them apart.
  lemma RecordEndsExactlyWhen(fields: seq<string>, rest: string)
    requires fields != []
    ensures 0 <= IndexOf(Join(fields) + (RS + rest), RS, 0) <= |Join(fields)|
    ensures IndexOf(Join(fields) + (RS + rest), RS, 0) == |Join(fields)| <==> RecordApart(fields)
  {
    var line := Join(fields);
    assert (RS + rest)[0..0 + |RS|] == RS;
    OccursBehind(line, RS + rest, RS, |line|);
    IndexOfIsFirst(line + (RS + rest), RS, 0);
    var at := IndexOf(line + (RS + rest), RS, 0);
    if at < |line| {
      EarlyMeansNotApart(fields, rest, at);
    } else if !RecordApart(fields) {
      var i := NotApartMeansEarly(fields, rest);
    }
  }

  lemma GapJoinsLine(gap: string, row: seq<string>)
    requires row != []
    ensures Join([gap + row[0]] + row[1..]) == gap + Join(row)
  {
    var padded := [gap + row[0]] + row[1..];
    if |row| > 1 {
      assert padded[1..] == row[1..];
      assert gap + row[0] + FS + Join(row[1..]) == gap + (row[0] + FS + Join(row[1..]));
    }
  }

  // The white space before a row joins its first field and makes no difference.
  lemma GapJoinsRow(gap: string, row: seq<string>)
    requires AllSpace(gap) && row != []
    ensures
      var padded := [gap + row[0]] + row[1..];
      Join(padded) == gap + Join(row) && (RecordApart(padded) <==> RecordApart(row))
  {
    GapJoinsLine(gap, row);
    hide Join;
    hide Has;
    SeparatorsAreSeps();
    var padded := [gap + row[0]] + row[1..];
    HasBehindSpace(gap, row[0] + AT, RS);
    assert gap + row[0] + AT == gap + (row[0] + AT);
    assert forall k :: 1 <= k < |row| ==> padded[k] == row[k];
  }
}
