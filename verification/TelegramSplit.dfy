// `splitMarkdownForTelegram` of src/daemon/format.ts and the two cut finders it uses.

module TelegramSplit {
  import opened Prelude
  import opened Text

  const FENCE := "```"
  const OPEN_TAG := "<tg-spoiler>"
  const CLOSE_TAG := "</tg-spoiler>"

  // The last position at or before `from` that holds c, or -1.
  function LastIndexOf(s: string, c: char, from: int): (r: int)
    ensures -1 <= r <= from || r == -1
    ensures r != -1 ==> 0 <= r < |s| && s[r] == c
    ensures forall i :: r < i <= from && 0 <= i < |s| ==> s[i] != c
    decreases from + 1
  {
    if from < 0 then -1
    else if from < |s| && s[from] == c then from
    else LastIndexOf(s, c, from - 1)
  }

  // The occurrences found from left to right, each search starting after the last.
  function Marks(s: string, mark: string, i: nat): seq<int>
    requires mark != ""
    decreases |s| - i
  {
    if i >= |s| then []
    else
      var found := IndexOf(s, mark, i);
      if found == -1 then [] else [found] + Marks(s, mark, found + |mark|)
  }

  method ScanMarks(s: string, mark: string) returns (positions: seq<int>)
    requires mark != ""
    ensures positions == Marks(s, mark, 0)
  {
    positions := [];
    hide IndexOf;
    var i := 0;
    while i < |s|
      invariant 0 <= i
      invariant positions + Marks(s, mark, i) == Marks(s, mark, 0)
      decreases |s| - i
    {
      var found := IndexOf(s, mark, i);
      if found == -1 { break; }
      assert positions + ([found] + Marks(s, mark, found + |mark|)) == positions + [found] + Marks(s, mark, found + |mark|);
      positions := positions + [found];
      i := found + |mark|;
    }
    assert positions + [] == positions;
  }

  // ---- The cut finders ----

  function Window(text: string, limit: nat): string { if limit <= |text| then text[..limit] else text }

  function SafeFence(text: string, limit: nat): int {
    var positions := Marks(Window(text, limit), FENCE, 0);
    if |positions| % 2 == 1 then positions[|positions| - 1] else -1
  }

  function SafeSpoiler(text: string, limit: nat): int {
    var opens := Marks(Window(text, limit), OPEN_TAG, 0);
    var closes := Marks(Window(text, limit), CLOSE_TAG, 0);
    if |opens| > |closes| then opens[|opens| - 1] else -1
  }

  method FindSafeFenceCut(text: string, limit: nat) returns (cut: int)
    ensures cut == SafeFence(text, limit)
    ensures
      var fences := Marks(if limit <= |text| then text[..limit] else text, "```", 0);
      cut == if |fences| % 2 == 1 then fences[|fences| - 1] else -1
  {
    var positions := ScanMarks(Window(text, limit), FENCE);
    cut := if |positions| % 2 == 1 && |positions| > 0 then positions[|positions| - 1] else -1;
  }

  method FindSafeSpoilerCut(text: string, limit: nat) returns (cut: int)
    ensures cut == SafeSpoiler(text, limit)
    ensures
      var window := if limit <= |text| then text[..limit] else text;
      var opens, closes := Marks(window, "<tg-spoiler>", 0), Marks(window, "</tg-spoiler>", 0);
      cut == if |opens| > |closes| then opens[|opens| - 1] else -1
  {
    var openPositions := ScanMarks(Window(text, limit), OPEN_TAG);
    var closePositions := ScanMarks(Window(text, limit), CLOSE_TAG);
    cut := if |openPositions| > |closePositions| then openPositions[|openPositions| - 1] else -1;
  }

  // ---- Where to cut ----

  // More than 30% of the limit, so the chunk is worth sending.
  predicate Worthwhile(cut: int, max: nat) { 10 * cut > 3 * max }

  // A tag-aware cut that is worthwhile; the later of the two if both are.
  function TagCut(text: string, max: nat): int {
    var fence, spoiler := SafeFence(text, max), SafeSpoiler(text, max);
    if Worthwhile(fence, max) && (!Worthwhile(spoiler, max) || fence >= spoiler) then fence
    else if Worthwhile(spoiler, max) then spoiler
    else -1
  }

  // The last newline in the second half of the window, else the last space there, else the limit.
  function BlankCut(text: string, max: nat): (cut: int)
    ensures 2 * cut > max || cut == max
    ensures cut <= max
  {
    var nl, sp := LastIndexOf(text, '\n', max), LastIndexOf(text, ' ', max);
    if 2 * nl > max then nl else if 2 * sp > max then sp else max
  }

  // The end of a spoiler that opens the text and closes beyond the limit, or -1.
  function SpoilerEnd(text: string, max: nat): (cut: int)
    ensures cut == -1 || max + |CLOSE_TAG| <= cut <= |text|
  {
    if SafeSpoiler(text, max) != 0 then -1
    else
      var close := IndexOf(text, CLOSE_TAG, max);
      if close == -1 then -1 else close + |CLOSE_TAG|
  }

  lemma {:induction false} MarksAreOccurrences(s: string, mark: string, i: nat)
    requires mark != ""
    ensures forall p :: p in Marks(s, mark, i) ==> p >= i && OccursAt(s, mark, p)
    decreases |s| - i
  {
    hide IndexOf;
    if i < |s| {
      var found := IndexOf(s, mark, i);
      if found != -1 {
        IndexOfIsFirst(s, mark, i);
        MarksAreOccurrences(s, mark, found + |mark|);
      }
    }
  }

  lemma SafeCutsAreInside(text: string, max: nat)
    requires max <= |text|
    ensures SafeFence(text, max) < max || SafeFence(text, max) == -1
    ensures SafeSpoiler(text, max) < max || SafeSpoiler(text, max) == -1
    ensures SafeFence(text, max) != -1 ==> OccursAt(text, FENCE, SafeFence(text, max))
    ensures SafeSpoiler(text, max) != -1 ==> OccursAt(text, OPEN_TAG, SafeSpoiler(text, max))
  {
    MarksAreOccurrences(Window(text, max), FENCE, 0);
    MarksAreOccurrences(Window(text, max), OPEN_TAG, 0);
    var f, s, w := SafeFence(text, max), SafeSpoiler(text, max), Window(text, max);
    if f != -1 {
      assert f in Marks(w, FENCE, 0);
      assert w[f..f + |FENCE|] == text[f..f + |FENCE|];
    }
    if s != -1 {
      assert s in Marks(w, OPEN_TAG, 0);
      assert w[s..s + |OPEN_TAG|] == text[s..s + |OPEN_TAG|];
    }
  }

  function CutAt(text: string, max: nat): (cut: int)
    requires 1 <= max < |text|
    ensures 1 <= cut <= |text|
  {
    SafeCutsAreInside(text, max);
    if SpoilerEnd(text, max) != -1 then SpoilerEnd(text, max)
    else if TagCut(text, max) != -1 then TagCut(text, max)
    else BlankCut(text, max)
  }

  predicate IsBlank(c: char) { c == '\n' || c == ' ' }

  function StripBlanks(s: string): (r: string)
    ensures |r| <= |s|
  {
    if s != "" && IsBlank(s[0]) then StripBlanks(s[1..]) else s
  }

  lemma {:induction false} StripsTheLeadingBlanks(s: string)
    ensures var r := StripBlanks(s);
            (r != "" ==> !IsBlank(r[0])) && r == s[|s| - |r|..] && forall i :: 0 <= i < |s| - |r| ==> IsBlank(s[i])
  {
    if s != "" && IsBlank(s[0]) { StripsTheLeadingBlanks(s[1..]); }
  }

  // ---- The splitter ----

  function Chunks(text: string, max: nat): seq<string>
    requires 1 <= max
    decreases |text|
  {
    if |text| <= max then (if text == "" then [] else [text])
    else
      var cut := CutAt(text, max);
      [text[..cut]] + Chunks(StripBlanks(text[cut..]), max)
  }

  function Split(text: string, max: nat): seq<string>
    requires 1 <= max
  {
    if |text| <= max then [text] else Chunks(text, max)
  }

  method ChooseCut(remaining: string, maxChars: nat) returns (cut: int)
    requires 1 <= maxChars < |remaining|
    ensures cut == CutAt(remaining, maxChars)
  {
    cut := maxChars;
    var safeFence := FindSafeFenceCut(remaining, maxChars);
    var safeSpoiler := FindSafeSpoilerCut(remaining, maxChars);
    SafeCutsAreInside(remaining, maxChars);
    if safeSpoiler == 0 {
      var closeAfter := IndexOf(remaining, CLOSE_TAG, maxChars);
      if closeAfter != -1 { return closeAfter + |CLOSE_TAG|; }
    }
    var tagCuts := (if 10 * safeFence > 3 * maxChars then [safeFence] else [])
                   + (if 10 * safeSpoiler > 3 * maxChars then [safeSpoiler] else []);
    if |tagCuts| > 0 {
      cut := if |tagCuts| == 2 && tagCuts[1] > tagCuts[0] then tagCuts[1] else tagCuts[0];
    } else {
      var nl := LastIndexOf(remaining, '\n', maxChars);
      if 2 * nl > maxChars {
        cut := nl;
      } else {
        var sp := LastIndexOf(remaining, ' ', maxChars);
        if 2 * sp > maxChars { cut := sp; }
      }
    }
    if cut <= 0 { cut := maxChars; }
  }

  method SplitMarkdownForTelegram(text: string, maxChars: nat) returns (chunks: seq<string>)
    requires 1 <= maxChars
    ensures chunks == Split(text, maxChars)
  {
    hide CutAt;
    if |text| <= maxChars { return [text]; }
    chunks := [];
    var remaining := text;
    while |remaining| > maxChars
      invariant chunks + Chunks(remaining, maxChars) == Chunks(text, maxChars)
      decreases |remaining|
    {
      var cut := ChooseCut(remaining, maxChars);
      ghost var chunk, rest := remaining[..cut], StripBlanks(remaining[cut..]);
      assert Chunks(remaining, maxChars) == [chunk] + Chunks(rest, maxChars);
      Regroup(chunks, [chunk], Chunks(rest, maxChars));
      chunks := chunks + [remaining[..cut]];
      remaining := StripBlanks(remaining[cut..]);
    }
    if |remaining| > 0 { chunks := chunks + [remaining]; }
  }

  // ---- Nothing but blanks is lost ----

  predicate AllBlank(s: string) { forall i :: 0 <= i < |s| ==> s[i] == '\n' || s[i] == ' ' }

  // Each chunk followed by its gap, in order.
  function Weave(chunks: seq<string>, gaps: seq<string>): string
    requires |chunks| == |gaps|
  {
    if chunks == [] then "" else chunks[0] + gaps[0] + Weave(chunks[1..], gaps[1..])
  }

  predicate BlankGaps(text: string, chunks: seq<string>, gaps: seq<string>) {
    && |gaps| == |chunks|
    && (forall k :: 0 <= k < |gaps| ==> AllBlank(gaps[k]))
    && Weave(chunks, gaps) == text
  }

  lemma WeaveOneMore(text: string, cut: nat, rest: string, chunks: seq<string>, gaps: seq<string>)
    requires cut <= |text| && |rest| <= |text| - cut && rest == text[|text| - |rest|..]
    requires AllBlank(text[cut..|text| - |rest|])
    requires BlankGaps(rest, chunks, gaps)
    ensures BlankGaps(text, [text[..cut]] + chunks, [text[cut..|text| - |rest|]] + gaps)
  {
    var cs, gs := [text[..cut]] + chunks, [text[cut..|text| - |rest|]] + gaps;
    assert cs[1..] == chunks && gs[1..] == gaps;
    assert Weave(cs, gs) == text[..cut] + text[cut..|text| - |rest|] + rest;
  }

  lemma WeaveOne(text: string)
    ensures BlankGaps(text, [text], [""])
  {
    assert Weave([text][1..], [""][1..]) == "";
    assert text + "" + "" == text;
  }

  lemma {:induction false} ChunksLoseOnlyBlanks(text: string, max: nat) returns (gaps: seq<string>)
    requires 1 <= max
    ensures BlankGaps(text, Chunks(text, max), gaps)
    decreases |text|
  {
    hide CutAt;
    if |text| <= max {
      gaps := if text == "" then [] else [""];
      WeaveOne(text);
    } else {
      var cut := CutAt(text, max);
      var tail := text[cut..];
      var rest := StripBlanks(tail);
      StripsTheLeadingBlanks(tail);
      var later := ChunksLoseOnlyBlanks(rest, max);
      assert rest == text[|text| - |rest|..];
      assert forall i :: 0 <= i < |tail| - |rest| ==> text[cut..|text| - |rest|][i] == tail[i];
      WeaveOneMore(text, cut, rest, Chunks(rest, max), later);
      gaps := [text[cut..|text| - |rest|]] + later;
    }
  }

  // The text is the chunks in order with runs of spaces and newlines between them.
  lemma SplitLosesOnlyBlanks(text: string, max: nat)
    requires 1 <= max
    ensures exists gaps :: BlankGaps(text, Split(text, max), gaps)
  {
    hide CutAt;
    if |text| <= max {
      WeaveOne(text);
      assert BlankGaps(text, Split(text, max), [""]);
    } else {
      var gaps := ChunksLoseOnlyBlanks(text, max);
      assert BlankGaps(text, Split(text, max), gaps);
    }
  }

  // ---- Every chunk fits, or is one whole spoiler ----

  // Starts with an opening tag and ends with the closing tag, which lies beyond the limit.
  predicate OversizedSpoiler(chunk: string, max: nat) {
    && OccursAt(chunk, OPEN_TAG, 0)
    && OccursAt(chunk, CLOSE_TAG, |chunk| - |CLOSE_TAG|)
    && |chunk| - |CLOSE_TAG| >= max
  }

  lemma SpoilerChunk(text: string, max: nat)
    requires 1 <= max < |text| && SpoilerEnd(text, max) != -1
    ensures OversizedSpoiler(text[..SpoilerEnd(text, max)], max)
  {
    SafeCutsAreInside(text, max);
    IndexOfIsFirst(text, CLOSE_TAG, max);
    hide OccursAt;
    hide IndexOf;
    hide SafeSpoiler;
    var cut := SpoilerEnd(text, max);
    PrefixOccurrence(text, cut, OPEN_TAG, 0);
    PrefixOccurrence(text, cut, CLOSE_TAG, cut - |CLOSE_TAG|);
  }

  lemma CutFits(text: string, max: nat)
    requires 1 <= max < |text|
    ensures CutAt(text, max) <= max || OversizedSpoiler(text[..CutAt(text, max)], max)
  {
    hide OccursAt;
    hide Marks;
    hide OversizedSpoiler;
    hide SpoilerEnd;
    SafeCutsAreInside(text, max);
    if SpoilerEnd(text, max) != -1 { SpoilerChunk(text, max); }
  }

  predicate GoodChunk(chunk: string, max: nat) { chunk != "" && (|chunk| <= max || OversizedSpoiler(chunk, max)) }

  lemma {:induction false} ChunksFit(text: string, max: nat)
    requires 1 <= max
    ensures forall k :: 0 <= k < |Chunks(text, max)| ==> GoodChunk(Chunks(text, max)[k], max)
    ensures forall k :: 1 <= k < |Chunks(text, max)| && Chunks(text, max)[k] != "" ==> !IsBlank(Chunks(text, max)[k][0])
    ensures text != "" && !IsBlank(text[0]) ==> Chunks(text, max) != [] && Chunks(text, max)[0] != "" && Chunks(text, max)[0][0] == text[0]
    decreases |text|
  {
    hide CutAt;
    if |text| > max {
      CutFits(text, max);
      var rest := StripBlanks(text[CutAt(text, max)..]);
      StripsTheLeadingBlanks(text[CutAt(text, max)..]);
      ChunksFit(rest, max);
      var later := Chunks(rest, max);
      assert Chunks(text, max) == [text[..CutAt(text, max)]] + later;
      if rest == "" { assert later == []; }
    }
  }

  // No chunk of a non-empty text is empty or over the limit, except one whole spoiler, and only the
  // first can begin with a blank.
  lemma SplitFits(text: string, max: nat, k: nat)
    requires 1 <= max && text != "" && k < |Split(text, max)|
    ensures GoodChunk(Split(text, max)[k], max)
    ensures k > 0 ==> Split(text, max)[k][0] != '\n' && Split(text, max)[k][0] != ' '
  {
    ChunksFit(text, max);
  }

  lemma {:induction false} NoMarksNoOccurrence(s: string, mark: string, p: int)
    requires mark != "" && Marks(s, mark, 0) == []
    ensures !OccursAt(s, mark, p)
  {
    IndexOfIsFirst(s, mark, 0);
  }

  // A spoiler that opens the text and is still open at the limit stays in one chunk exactly when a
  // closing tag starts at or after the limit.
  lemma LeadingSpoilerStaysWholeExactlyWhen(text: string, max: nat)
    requires 1 <= max < |text|
    requires SafeSpoiler(text, max) == 0 && Marks(text[..max], CLOSE_TAG, 0) == []
    ensures (exists i :: OccursAt(text[..CutAt(text, max)], CLOSE_TAG, i))
            <==> (exists i :: i >= max && OccursAt(text, CLOSE_TAG, i))
  {
    var cut := CutAt(text, max);
    CutFits(text, max);
    SafeCutsAreInside(text, max);
    IndexOfIsFirst(text, CLOSE_TAG, max);
    if SpoilerEnd(text, max) != -1 {
      assert OccursAt(text, CLOSE_TAG, cut - |CLOSE_TAG|);
      assert OccursAt(text[..cut], CLOSE_TAG, cut - |CLOSE_TAG|);
    } else {
      forall i ensures !OccursAt(text[..cut], CLOSE_TAG, i) {
        NoMarksNoOccurrence(text[..max], CLOSE_TAG, i);
        PrefixOccurrence(text, max, CLOSE_TAG, i);
        PrefixOccurrence(text, cut, CLOSE_TAG, i);
      }
    }
  }

  predicate InSecondHalf(i: int, max: nat) { 2 * i > max && i <= max }

  ghost predicate HasInSecondHalf(text: string, max: nat, c: char)
    requires max < |text|
  {
    exists i :: InSecondHalf(i, max) && text[i] == c
  }

  // cut is at the last c of the window's second half.
  ghost predicate LastInSecondHalf(text: string, max: nat, c: char, cut: int)
    requires max < |text|
  {
    InSecondHalf(cut, max) && text[cut] == c && forall i :: cut < i <= max ==> text[i] != c
  }

  // Where the text is cut when no tag decides: before the last newline of the window's second half,
  // else before the last space there, else at the limit.
  ghost predicate IsFallback(text: string, max: nat, cut: int)
    requires max < |text|
  {
    if HasInSecondHalf(text, max, '\n') then LastInSecondHalf(text, max, '\n', cut)
    else if HasInSecondHalf(text, max, ' ') then LastInSecondHalf(text, max, ' ', cut)
    else cut == max
  }

  lemma FallbackCutsAtBlank(text: string, max: nat, cut: int)
    requires 1 <= max < |text|
    ensures IsFallback(text, max, cut) <==> cut == BlankCut(text, max)
  {
    var nl, sp := LastIndexOf(text, '\n', max), LastIndexOf(text, ' ', max);
    if 2 * nl > max { assert InSecondHalf(nl, max) && text[nl] == '\n'; }
    if 2 * sp > max { assert InSecondHalf(sp, max) && text[sp] == ' '; }
  }

  // ---- Fences ----

  lemma {:induction false} PrefixIndexOf(s: string, c: nat, mark: string, from: nat)
    requires c <= |s| && mark != ""
    ensures var r := IndexOf(s, mark, from);
            IndexOf(s[..c], mark, from) == if r != -1 && r + |mark| <= c then r else -1
    decreases |s| - from
  {
    if from <= c {
      PrefixOccurrence(s, c, mark, from);
      if !OccursAt(s, mark, from) { PrefixIndexOf(s, c, mark, from + 1); }
      else if from + |mark| > c { NoneFits(s[..c], mark, from); }
    }
  }

  // The leading positions whose mark ends by c.
  function EndingBy(positions: seq<int>, width: nat, c: int): (r: seq<int>)
    ensures |r| <= |positions|
  {
    if positions == [] || positions[0] + width > c then []
    else [positions[0]] + EndingBy(positions[1..], width, c)
  }

  // Scanning a prefix finds the marks of the whole text that end inside it.
  lemma {:induction false} PrefixMarks(s: string, c: nat, mark: string, i: nat)
    requires c <= |s| && mark != ""
    ensures Marks(s[..c], mark, i) == EndingBy(Marks(s, mark, i), |mark|, c)
    decreases |s| - i
  {
    hide IndexOf;
    if i < |s| {
      PrefixIndexOf(s, c, mark, i);
      var r := IndexOf(s, mark, i);
      if r != -1 {
        PrefixMarks(s, c, mark, r + |mark|);
        assert ([r] + Marks(s, mark, r + |mark|))[1..] == Marks(s, mark, r + |mark|);
      }
    }
  }

  predicate Spaced(positions: seq<int>, width: nat) {
    forall j, k :: 0 <= j < k < |positions| ==> positions[j] + width <= positions[k]
  }

  lemma {:induction false} MarksAreSpaced(s: string, mark: string, i: nat)
    requires mark != ""
    ensures Spaced(Marks(s, mark, i), |mark|)
    decreases |s| - i
  {
    hide IndexOf;
    if i < |s| {
      var r := IndexOf(s, mark, i);
      if r != -1 {
        var rest := Marks(s, mark, r + |mark|);
        MarksAreSpaced(s, mark, r + |mark|);
        MarksAreOccurrences(s, mark, r + |mark|);
        assert forall k :: 0 <= k < |rest| ==> rest[k] in rest;
        assert Marks(s, mark, i) == [r] + rest;
      }
    }
  }

  lemma {:induction false} EndingByCounts(positions: seq<int>, width: nat, c: int, k: nat)
    requires Spaced(positions, width) && k < |positions|
    ensures k < |EndingBy(positions, width, c)| <==> positions[k] + width <= c
  {
    if k > 0 && positions[0] + width <= c {
      EndingByCounts(positions[1..], width, c, k - 1);
    } else if |positions| > 1 && positions[0] + width <= c {
      EndingByCounts(positions[1..], width, c, 0);
    }
  }

  // Past the end of an opening fence and before the end of the one that closes it, if any does.
  ghost predicate InsideBlock(fences: seq<int>, cut: int) {
    exists k :: InBlockAt(fences, cut, k)
  }

  predicate InBlockAt(fences: seq<int>, cut: int, k: int) {
    && 0 <= k < |fences| && k % 2 == 0
    && fences[k] + |FENCE| <= cut && (k + 1 < |fences| ==> cut < fences[k + 1] + |FENCE|)
  }

  lemma OddExactlyInsideBlock(fences: seq<int>, cut: int)
    requires Spaced(fences, |FENCE|)
    ensures |EndingBy(fences, |FENCE|, cut)| % 2 == 1 <==> InsideBlock(fences, cut)
  {
    hide EndingBy;
    hide Spaced;
    var n := |EndingBy(fences, |FENCE|, cut)|;
    if n % 2 == 1 {
      EndingByCounts(fences, |FENCE|, cut, n - 1);
      if n < |fences| { EndingByCounts(fences, |FENCE|, cut, n); }
      assert InBlockAt(fences, cut, n - 1);
    }
    if InsideBlock(fences, cut) {
      var k :| InBlockAt(fences, cut, k);
      EndingByCounts(fences, |FENCE|, cut, k);
      if k + 1 < |fences| { EndingByCounts(fences, |FENCE|, cut, k + 1); }
      assert n == k + 1;
    }
  }

  lemma CutBeforeLastIsEven(fences: seq<int>)
    requires |fences| % 2 == 1 && Spaced(fences, |FENCE|)
    ensures |EndingBy(fences, |FENCE|, fences[|fences| - 1])| % 2 == 0
  {
    var last := |fences| - 1;
    EndingByCounts(fences, |FENCE|, fences[last], last);
    if last > 0 { EndingByCounts(fences, |FENCE|, fences[last], last - 1); }
  }

  // Without opening spoiler tags in the window, the chunk closes every fence it opens exactly when
  // the last unpaired fence is beyond 30% of the limit or the last newline of the window's second
  // half (else the last space there, else the limit) is outside every block.
  lemma FenceSafeExactlyWhen(text: string, max: nat, fallback: int)
    requires 1 <= max < |text| && IsFallback(text, max, fallback)
    requires Marks(text[..max], OPEN_TAG, 0) == []
    ensures |Marks(text[..CutAt(text, max)], FENCE, 0)| % 2 == 0
            <==> 10 * SafeFence(text, max) > 3 * max || !InsideBlock(Marks(text[..max], FENCE, 0), fallback)
  {
    FallbackCutsAtBlank(text, max, fallback);
    hide IsFallback;
    var window, cut := text[..max], CutAt(text, max);
    SafeCutsAreInside(text, max);
    assert cut <= max;
    assert window[..cut] == text[..cut];
    PrefixMarks(window, cut, FENCE, 0);
    MarksAreSpaced(window, FENCE, 0);
    OddExactlyInsideBlock(Marks(window, FENCE, 0), cut);
    if Worthwhile(SafeFence(text, max), max) { CutBeforeLastIsEven(Marks(window, FENCE, 0)); }
  }

  // ---- Every chunk of a split ----

  // What remains after k cuts.
  function Rest(text: string, max: nat, k: nat): string
    requires 1 <= max
    decreases k
  {
    if k == 0 then text
    else if |text| <= max then ""
    else Rest(StripBlanks(text[CutAt(text, max)..]), max, k - 1)
  }

  predicate IsSuffix(rest: string, text: string) { |rest| <= |text| && rest == text[|text| - |rest|..] }

  lemma SuffixOfSuffix(a: string, b: string, c: string)
    requires IsSuffix(a, b) && IsSuffix(b, c)
    ensures IsSuffix(a, c)
  {
  }

  lemma NextIsSuffix(text: string, cut: nat)
    requires cut <= |text|
    ensures IsSuffix(StripBlanks(text[cut..]), text)
  {
    StripsTheLeadingBlanks(text[cut..]);
  }

  // The k-th chunk is the start of what remained: all of it if it is the last.
  lemma {:induction false} ChunkStartsTheRest(text: string, max: nat, k: nat)
    requires 1 <= max && k < |Chunks(text, max)|
    ensures
      var rest := Rest(text, max, k);
      && IsSuffix(rest, text)
      && (|rest| <= max ==> k == |Chunks(text, max)| - 1)
      && (|rest| > max ==> Chunks(text, max)[k] == rest[..CutAt(rest, max)])
    decreases k
  {
    hide CutAt;
    if |text| > max && k > 0 {
      hide StripBlanks;
      hide IsSuffix;
      var next := StripBlanks(text[CutAt(text, max)..]);
      NextIsSuffix(text, CutAt(text, max));
      assert Chunks(text, max) == [text[..CutAt(text, max)]] + Chunks(next, max);
      ChunkStartsTheRest(next, max, k - 1);
      SuffixOfSuffix(Rest(next, max, k - 1), next, text);
    }
  }

  lemma NoMarkInWindow(text: string, rest: string, c: nat, mark: string)
    requires mark != "" && IsSuffix(rest, text) && c <= |rest|
    requires forall i :: !OccursAt(text, mark, i)
    ensures Marks(rest[..c], mark, 0) == []
  {
    var d := |text| - |rest|;
    forall i | 0 <= i
      ensures !OccursAt(rest[..c], mark, i)
    {
      PrefixOccurrence(rest, c, mark, i);
      if i + |mark| <= |rest| { assert rest[i..i + |mark|] == text[d + i..d + i + |mark|]; }
      assert !OccursAt(text, mark, d + i);
    }
    NotFound(rest[..c], mark, 0);
  }

  // In a text without opening spoiler tags, every chunk but the last closes the fences it opens
  // exactly when the text that remained at its cut allowed it.
  lemma EveryChunkFenceSafeExactlyWhen(text: string, max: nat, k: nat, fallback: int)
    requires 1 <= max < |text| && k < |Split(text, max)| - 1
    requires forall i :: !OccursAt(text, OPEN_TAG, i)
    ensures
      var rest := Rest(text, max, k);
      && |rest| > max
      && (IsFallback(rest, max, fallback) ==>
            (|Marks(Split(text, max)[k], FENCE, 0)| % 2 == 0
             <==> 10 * SafeFence(rest, max) > 3 * max || !InsideBlock(Marks(rest[..max], FENCE, 0), fallback)))
  {
    ChunkStartsTheRest(text, max, k);
    var rest := Rest(text, max, k);
    NoMarkInWindow(text, rest, max, OPEN_TAG);
    hide IsFallback;
    hide InsideBlock;
    hide CutAt;
    hide SafeFence;
    if IsFallback(rest, max, fallback) { FenceSafeExactlyWhen(rest, max, fallback); }
  }

  lemma WindowMarks()
    ensures Marks("```ab\n```", FENCE, 0) == [0, 6] && Marks("```ab\n```", OPEN_TAG, 0) == []
    ensures Marks("```ab", FENCE, 0) == [0]
  {
    var window := "```ab\n```";
    FoundAt(window, FENCE, 0, 0);
    forall i | 3 <= i < 6 ensures !OccursAt(window, FENCE, i) {
      assert window[i..i + |FENCE|][0] == window[i] != FENCE[0];
    }
    FoundAt(window, FENCE, 3, 6);
    NotFound(window, OPEN_TAG, 0);
    FoundAt("```ab", FENCE, 0, 0);
    NotFound("```ab", FENCE, 3);
  }

  // The documented "never splits inside a fenced code block" fails: a whole block in the window
  // hides the newline inside it, at which the text is cut.
  lemma WholeBlockInTheWindowIsCut()
    ensures var text := "```ab\n```c";
            Split(text, 9) == ["```ab", "```c"] && Marks("```ab", FENCE, 0) == [0]
  {
    var text, window := "```ab\n```c", "```ab\n```";
    assert text[..9] == window && text[..5] == "```ab" && text[5..] == "\n```c";
    WindowMarks();
    assert SafeSpoiler(text, 9) == -1 && SafeFence(text, 9) == -1;
    assert LastIndexOf(text, '\n', 7) == 5;
    assert LastIndexOf(text, '\n', 9) == 5;
    assert CutAt(text, 9) == 5;
    assert StripBlanks("\n```c") == "```c";
  }
}
