// Exactly when the message splitter cuts a spoiler open.

module SpoilerSafety {
  import opened Text
  import opened TelegramSplit

  // A spoiler reaches from an opening tag to the first closing tag after it.
  ghost predicate Spoiler(text: string, p: int, q: int) {
    && OccursAt(text, OPEN_TAG, p) && OccursAt(text, CLOSE_TAG, q) && p < q
    && forall r :: p < r < q ==> !OccursAt(text, CLOSE_TAG, r)
  }

  ghost predicate CutsOpen(cut: int, p: int, q: int) { p < cut < q + |CLOSE_TAG| }

  // The cut falls inside a spoiler: after its opening tag starts, before its closing tag ends.
  ghost predicate SplitsSpoiler(text: string, cut: int) {
    exists p, q :: Spoiler(text, p, q) && CutsOpen(cut, p, q)
  }

  // ---- Tags ----

  predicate IsTag(tag: string) { |tag| > 1 && tag[0] == '<' && forall k :: 0 < k < |tag| ==> tag[k] != '<' }

  lemma TagsAreTags()
    ensures IsTag(OPEN_TAG) && IsTag(CLOSE_TAG) && |OPEN_TAG| == 12 && |CLOSE_TAG| == 13
  {
  }

  lemma StartsAt(text: string, tag: string, i: int, k: nat)
    requires OccursAt(text, tag, i) && k < |tag|
    ensures text[i + k] == tag[k]
  {
    assert text[i..i + |tag|][k] == tag[k];
  }

  // Two tags do not overlap.
  lemma TagsDoNotOverlap(text: string, a: string, i: int, b: string, j: int)
    requires IsTag(a) && IsTag(b) && OccursAt(text, a, i) && OccursAt(text, b, j) && i < j
    ensures i + |a| <= j
  {
    StartsAt(text, b, j, 0);
    if j < i + |a| { StartsAt(text, a, i, j - i); }
  }

  lemma OpenIsNotClose(text: string, i: int)
    requires OccursAt(text, OPEN_TAG, i)
    ensures !OccursAt(text, CLOSE_TAG, i)
  {
    StartsAt(text, OPEN_TAG, i, 1);
    if OccursAt(text, CLOSE_TAG, i) { StartsAt(text, CLOSE_TAG, i, 1); }
  }

  // The scan for a tag finds every occurrence.
  lemma {:induction false} ScanFindsAll(s: string, tag: string, i: nat, p: int)
    requires IsTag(tag) && p >= i && OccursAt(s, tag, p)
    ensures p in Marks(s, tag, i)
    decreases |s| - i
  {
    TagFits(s, tag, p);
    IndexOfIsFirst(s, tag, i);
    hide OccursAt;
    hide IndexOf;
    var r := IndexOf(s, tag, i);
    assert i <= r <= p;
    if p != r {
      TagsDoNotOverlap(s, tag, r, tag, p);
      ScanFindsAll(s, tag, r + |tag|, p);
    }
  }

  lemma TagFits(s: string, tag: string, p: int)
    requires OccursAt(s, tag, p)
    ensures 0 <= p && p + |tag| <= |s|
  {
  }

  lemma ScanIsExact(s: string, tag: string, p: int)
    requires IsTag(tag)
    ensures p in Marks(s, tag, 0) <==> OccursAt(s, tag, p)
  {
    MarksAreOccurrences(s, tag, 0);
    if OccursAt(s, tag, p) {
      TagFits(s, tag, p);
      ScanFindsAll(s, tag, 0, p);
    }
  }

  // ---- What the cut finder sees ----

  // sp is the last opening tag that lies within the limit.
  lemma SafeSpoilerIsLast(text: string, max: nat)
    requires max <= |text| && SafeSpoiler(text, max) != -1
    ensures
      var sp := SafeSpoiler(text, max);
      && OccursAt(text, OPEN_TAG, sp) && sp + |OPEN_TAG| <= max
      && forall p :: OccursAt(text, OPEN_TAG, p) && p + |OPEN_TAG| <= max ==> p <= sp
  {
    TagsAreTags();
    var window, sp := text[..max], SafeSpoiler(text, max);
    var opens := Marks(window, OPEN_TAG, 0);
    MarksAreSpaced(window, OPEN_TAG, 0);
    assert sp in opens;
    hide Marks;
    hide SafeSpoiler;
    ScanIsExact(window, OPEN_TAG, sp);
    PrefixOccurrence(text, max, OPEN_TAG, sp);
    hide OccursAt;
    forall p | OccursAt(text, OPEN_TAG, p) && p + |OPEN_TAG| <= max
      ensures p <= sp
    {
      PrefixOccurrence(text, max, OPEN_TAG, p);
      ScanIsExact(window, OPEN_TAG, p);
      var k :| 0 <= k < |opens| && opens[k] == p;
    }
  }

  // ---- Openings and closings by count ----

  // Between any two opening tags there is a closing one.
  ghost predicate NoNesting(text: string) {
    forall p, q :: OccursAt(text, OPEN_TAG, p) && OccursAt(text, OPEN_TAG, q) && p < q ==>
      exists r :: p < r < q && OccursAt(text, CLOSE_TAG, r)
  }

  ghost predicate ClosedNext(opens: seq<int>, closes: seq<int>, k: nat, j: nat)
    requires k < |opens| && j < |closes|
  {
    opens[k] < closes[j] && (k + 1 < |opens| ==> closes[j] < opens[k + 1])
  }

  ghost predicate Closes(opens: seq<int>, closes: seq<int>, k: nat)
    requires k < |opens|
  {
    exists j: nat :: j < |closes| && ClosedNext(opens, closes, k, j)
  }

  lemma InOrder(positions: seq<int>, i: nat, j: nat)
    requires Spaced(positions, 1) && i < |positions| && j < |positions|
    ensures i < j <==> positions[i] < positions[j]
  {
    if j < i { assert positions[j] + 1 <= positions[i]; }
  }

  lemma {:induction false} ClosingsKeepUp(opens: seq<int>, closes: seq<int>, k: nat) returns (j: nat)
    requires Spaced(opens, 1) && Spaced(closes, 1) && k < |opens|
    requires forall m: nat :: m < |opens| ==> Closes(opens, closes, m)
    ensures k <= j < |closes| && ClosedNext(opens, closes, k, j)
  {
    assert Closes(opens, closes, k);
    j :| j < |closes| && ClosedNext(opens, closes, k, j);
    if k > 0 {
      var before := ClosingsKeepUp(opens, closes, k - 1);
      assert closes[before] < opens[k] < closes[j];
      InOrder(closes, before, j);
    }
  }

  lemma ClosingInWindow(text: string, max: nat, r: int) returns (j: nat)
    requires max <= |text| && OccursAt(text, CLOSE_TAG, r) && r + |CLOSE_TAG| <= max
    ensures j < |Marks(text[..max], CLOSE_TAG, 0)| && Marks(text[..max], CLOSE_TAG, 0)[j] == r
  {
    TagsAreTags();
    PrefixOccurrence(text, max, CLOSE_TAG, r);
    ScanIsExact(text[..max], CLOSE_TAG, r);
    j :| 0 <= j < |Marks(text[..max], CLOSE_TAG, 0)| && Marks(text[..max], CLOSE_TAG, 0)[j] == r;
  }

  lemma OpeningInText(text: string, max: nat, k: nat)
    requires max <= |text| && k < |Marks(text[..max], OPEN_TAG, 0)|
    ensures var p := Marks(text[..max], OPEN_TAG, 0)[k]; OccursAt(text, OPEN_TAG, p) && p + |OPEN_TAG| <= max
  {
    TagsAreTags();
    var p := Marks(text[..max], OPEN_TAG, 0)[k];
    ScanIsExact(text[..max], OPEN_TAG, p);
    PrefixOccurrence(text, max, OPEN_TAG, p);
  }

  lemma WiderSpacing(positions: seq<int>, width: nat)
    requires width >= 1 && Spaced(positions, width)
    ensures Spaced(positions, 1)
  {
  }

  // A tag list of the window, in order.
  lemma WindowTags(text: string, max: nat, tag: string) returns (positions: seq<int>)
    requires max <= |text| && IsTag(tag)
    ensures positions == Marks(text[..max], tag, 0) && Spaced(positions, 1)
  {
    positions := Marks(text[..max], tag, 0);
    MarksAreSpaced(text[..max], tag, 0);
    WiderSpacing(positions, |tag|);
  }

  lemma EachOpeningCloses(text: string, max: nat, r: int, m: nat)
    requires max <= |text| && NoNesting(text) && m < |Marks(text[..max], OPEN_TAG, 0)|
    requires OccursAt(text, CLOSE_TAG, r) && r + |CLOSE_TAG| <= max
    requires var opens := Marks(text[..max], OPEN_TAG, 0); opens[|opens| - 1] < r
    ensures Closes(Marks(text[..max], OPEN_TAG, 0), Marks(text[..max], CLOSE_TAG, 0), m)
  {
    TagsAreTags();
    var opens, closes := Marks(text[..max], OPEN_TAG, 0), Marks(text[..max], CLOSE_TAG, 0);
    var tags := WindowTags(text, max, OPEN_TAG);
    hide Marks;
    hide OccursAt;
    OpeningInText(text, max, m);
    var q := r;
    if m + 1 < |opens| {
      OpeningInText(text, max, m + 1);
      q :| opens[m] < q < opens[m + 1] && OccursAt(text, CLOSE_TAG, q);
      TagsDoNotOverlap(text, CLOSE_TAG, q, OPEN_TAG, opens[m + 1]);
    }
    var i := ClosingInWindow(text, max, q);
    assert ClosedNext(opens, closes, m, i);
  }

  // The opening tag the finder reports is not closed within the limit.
  lemma SafeSpoilerIsOpen(text: string, max: nat, r: int)
    requires max <= |text| && NoNesting(text) && SafeSpoiler(text, max) != -1
    requires OccursAt(text, CLOSE_TAG, r) && SafeSpoiler(text, max) < r
    ensures r + |CLOSE_TAG| > max
  {
    TagsAreTags();
    if r + |CLOSE_TAG| <= max {
      var opens := WindowTags(text, max, OPEN_TAG);
      var closes := WindowTags(text, max, CLOSE_TAG);
      assert |opens| > |closes| && opens[|opens| - 1] == SafeSpoiler(text, max);
      hide SafeSpoiler;
      hide Marks;
      hide OccursAt;
      hide NoNesting;
      forall m: nat | m < |opens|
        ensures Closes(opens, closes, m)
      {
        EachOpeningCloses(text, max, r, m);
      }
      var j := ClosingsKeepUp(opens, closes, |opens| - 1);
    }
  }

  // ---- Where a cut falls ----

  lemma FirstClosing(text: string, p: int, r: int) returns (q: int)
    requires OccursAt(text, OPEN_TAG, p) && p < r && OccursAt(text, CLOSE_TAG, r)
    ensures Spoiler(text, p, q) && q <= r
    decreases r - p
  {
    if t :| p < t < r && OccursAt(text, CLOSE_TAG, t) {
      q := FirstClosing(text, p, t);
    } else {
      q := r;
    }
  }

  // A forward cut right behind a closing tag splits nothing.
  lemma CutBehindClosing(text: string, q: int)
    requires OccursAt(text, CLOSE_TAG, q)
    ensures !SplitsSpoiler(text, q + |CLOSE_TAG|)
  {
    TagsAreTags();
    forall p, q' | Spoiler(text, p, q')
      ensures !CutsOpen(q + |CLOSE_TAG|, p, q')
    {
      OpenIsNotClose(text, p);
      if p < q {
        assert q' <= q;
      } else {
        TagsDoNotOverlap(text, CLOSE_TAG, q, OPEN_TAG, p);
      }
    }
  }

  lemma ForwardCutIsSafe(text: string, max: nat)
    requires 1 <= max < |text| && SpoilerEnd(text, max) != -1
    ensures !SplitsSpoiler(text, CutAt(text, max))
  {
    hide SplitsSpoiler;
    IndexOfIsFirst(text, CLOSE_TAG, max);
    CutBehindClosing(text, IndexOf(text, CLOSE_TAG, max));
  }

  // Without nesting, a cut at an opening tag splits nothing.
  lemma CutAtOpening(text: string, sp: int)
    requires NoNesting(text) && OccursAt(text, OPEN_TAG, sp)
    ensures !SplitsSpoiler(text, sp)
  {
    TagsAreTags();
    forall p, q | Spoiler(text, p, q)
      ensures !CutsOpen(sp, p, q)
    {
      if p < sp {
        var r :| p < r < sp && OccursAt(text, CLOSE_TAG, r);
        TagsDoNotOverlap(text, CLOSE_TAG, r, OPEN_TAG, sp);
        assert q <= r;
      }
    }
  }

  ghost predicate NeverCloses(text: string, p: int) { forall r :: p < r ==> !OccursAt(text, CLOSE_TAG, r) }

  // A cut behind the open tag splits its spoiler, if that ever closes.
  lemma CutBehindOpening(text: string, max: nat, cut: nat)
    requires cut <= max <= |text| && NoNesting(text) && SafeSpoiler(text, max) != -1 && SafeSpoiler(text, max) < cut
    ensures SplitsSpoiler(text, cut) <==> !NeverCloses(text, SafeSpoiler(text, max))
  {
    TagsAreTags();
    SafeSpoilerIsLast(text, max);
    var sp := SafeSpoiler(text, max);
    hide SafeSpoiler;
    hide OccursAt;
    if !NeverCloses(text, sp) {
      var r :| sp < r && OccursAt(text, CLOSE_TAG, r);
      var q := FirstClosing(text, sp, r);
      SafeSpoilerIsOpen(text, max, q);
      assert CutsOpen(cut, sp, q);
    }
    if SplitsSpoiler(text, cut) {
      var p, q :| Spoiler(text, p, q) && CutsOpen(cut, p, q);
      if NeverCloses(text, sp) { LaterClosing(text, sp, p, q, cut); }
    }
  }

  lemma LaterClosing(text: string, sp: int, p: int, q: int, cut: int)
    requires NoNesting(text) && OccursAt(text, OPEN_TAG, sp) && sp < cut
    requires Spoiler(text, p, q) && CutsOpen(cut, p, q)
    ensures !NeverCloses(text, sp)
  {
    TagsAreTags();
    if q < sp { TagsDoNotOverlap(text, CLOSE_TAG, q, OPEN_TAG, sp); }
    OpenIsNotClose(text, sp);
    assert sp < q;
  }

  // ---- The window's open spoiler ----

  // If the window holds more openings than closings and spoilers do not nest, the chunk splits none
  // exactly when the last opening never closes; or it is at the start and closes at or after the
  // limit; or it is beyond 30% of the limit and no fence cut comes after it.
  lemma OpenSpoilerSafeExactlyWhen(text: string, max: nat)
    requires 1 <= max < |text| && NoNesting(text) && SafeSpoiler(text, max) != -1
    ensures
      var sp, fence := SafeSpoiler(text, max), SafeFence(text, max);
      !SplitsSpoiler(text, CutAt(text, max)) <==>
        || NeverCloses(text, sp)
        || (sp == 0 && exists i :: i >= max && OccursAt(text, CLOSE_TAG, i))
        || (10 * sp > 3 * max && !(10 * fence > 3 * max && fence > sp))
  {
    var sp, fence, cut := SafeSpoiler(text, max), SafeFence(text, max), CutAt(text, max);
    SafeCutsAreInside(text, max);
    SafeSpoilerIsLast(text, max);
    SpoilerEndExactlyWhen(text, max);
    if SpoilerEnd(text, max) != -1 {
      ForwardCutIsSafe(text, max);
    } else if cut == sp {
      assert Worthwhile(sp, max);
      CutAtOpening(text, sp);
    } else {
      assert sp < cut <= max;
      CutBehindOpening(text, max, cut);
    }
  }

  lemma SpoilerEndExactlyWhen(text: string, max: nat)
    ensures SpoilerEnd(text, max) != -1
            <==> SafeSpoiler(text, max) == 0 && exists i :: i >= max && OccursAt(text, CLOSE_TAG, i)
  {
    IndexOfIsFirst(text, CLOSE_TAG, max);
    var at := IndexOf(text, CLOSE_TAG, max);
    if at == -1 {
      forall i | i >= max
        ensures !OccursAt(text, CLOSE_TAG, i)
      {
      }
    }
  }

  // ---- Every text ----

  // c lies inside the spoiler of the last opening tag before it.
  predicate AroundAt(opens: seq<int>, closes: seq<int>, c: int, k: int, j: int) {
    && 0 <= k < |opens| && 0 <= j < |closes|
    && opens[k] < c && (k + 1 < |opens| ==> c <= opens[k + 1])
    && opens[k] < closes[j] && (j > 0 ==> closes[j - 1] < opens[k])
    && c < closes[j] + |CLOSE_TAG|
  }

  ghost predicate InsideSpoiler(opens: seq<int>, closes: seq<int>, c: int) {
    exists k, j :: AroundAt(opens, closes, c, k, j)
  }

  // The last position below c.
  lemma {:induction false} LastBelow(positions: seq<int>, c: int, i: nat) returns (k: nat)
    requires Spaced(positions, 1) && i < |positions| && positions[i] < c
    ensures i <= k < |positions| && positions[k] < c && (k + 1 < |positions| ==> c <= positions[k + 1])
    decreases |positions| - i
  {
    if i + 1 < |positions| && positions[i + 1] < c { k := LastBelow(positions, c, i + 1); } else { k := i; }
  }

  lemma TextTags(text: string, tag: string) returns (positions: seq<int>)
    requires IsTag(tag)
    ensures positions == Marks(text, tag, 0) && Spaced(positions, 1)
  {
    positions := Marks(text, tag, 0);
    MarksAreSpaced(text, tag, 0);
    WiderSpacing(positions, |tag|);
  }

  lemma TagIndex(text: string, tag: string, p: int) returns (k: nat)
    requires IsTag(tag) && OccursAt(text, tag, p)
    ensures k < |Marks(text, tag, 0)| && Marks(text, tag, 0)[k] == p
  {
    ScanIsExact(text, tag, p);
    k :| 0 <= k < |Marks(text, tag, 0)| && Marks(text, tag, 0)[k] == p;
  }

  // The last opening tag before a cut inside a spoiler lies in that spoiler.
  lemma LastOpening(text: string, c: int, p: int, q: int) returns (k: nat)
    requires Spoiler(text, p, q) && CutsOpen(c, p, q)
    ensures
      var opens := Marks(text, OPEN_TAG, 0);
      k < |opens| && p <= opens[k] < q && opens[k] < c && (k + 1 < |opens| ==> c <= opens[k + 1])
  {
    TagsAreTags();
    var opens := TextTags(text, OPEN_TAG);
    var first := TagIndex(text, OPEN_TAG, p);
    k := LastBelow(opens, c, first);
    var o := opens[k];
    InOrder(opens, k, first);
    ScanIsExact(text, OPEN_TAG, o);
    hide Marks;
    hide OccursAt;
    hide Spaced;
    OpenIsNotClose(text, o);
    if q < o { TagsDoNotOverlap(text, CLOSE_TAG, q, OPEN_TAG, o); }
  }

  lemma SplitMeansInside(text: string, c: int, p: int, q: int)
    requires Spoiler(text, p, q) && CutsOpen(c, p, q)
    ensures InsideSpoiler(Marks(text, OPEN_TAG, 0), Marks(text, CLOSE_TAG, 0), c)
  {
    TagsAreTags();
    var k := LastOpening(text, c, p, q);
    var closes := TextTags(text, CLOSE_TAG);
    var j := TagIndex(text, CLOSE_TAG, q);
    if j > 0 {
      ScanIsExact(text, CLOSE_TAG, closes[j - 1]);
      InOrder(closes, j - 1, j);
    }
    hide Marks;
    hide OccursAt;
    hide Spaced;
    OpenIsNotClose(text, p);
    assert AroundAt(Marks(text, OPEN_TAG, 0), closes, c, k, j);
  }

  lemma NoneBetween(closes: seq<int>, p: int, i: nat, j: nat)
    requires Spaced(closes, 1) && i < |closes| && j < |closes| && (j > 0 ==> closes[j - 1] < p)
    ensures !(p < closes[i] < closes[j])
  {
    InOrder(closes, i, j);
    if i < j { InOrder(closes, j - 1, i); }
  }

  lemma InsideMeansSplit(text: string, c: int, k: int, j: int)
    requires AroundAt(Marks(text, OPEN_TAG, 0), Marks(text, CLOSE_TAG, 0), c, k, j)
    ensures SplitsSpoiler(text, c)
  {
    TagsAreTags();
    var opens := TextTags(text, OPEN_TAG);
    var closes := TextTags(text, CLOSE_TAG);
    var p, q := opens[k], closes[j];
    ScanIsExact(text, OPEN_TAG, p);
    ScanIsExact(text, CLOSE_TAG, q);
    hide Marks;
    hide OccursAt;
    forall r | p < r < q
      ensures !OccursAt(text, CLOSE_TAG, r)
    {
      if OccursAt(text, CLOSE_TAG, r) {
        var i := TagIndex(text, CLOSE_TAG, r);
        NoneBetween(closes, p, i, j);
      }
    }
    assert Spoiler(text, p, q) && CutsOpen(c, p, q);
  }

  // The scanned tag lists tell whether a cut splits a spoiler.
  lemma SplitExactlyWhenInside(text: string, c: int)
    ensures SplitsSpoiler(text, c) <==> InsideSpoiler(Marks(text, OPEN_TAG, 0), Marks(text, CLOSE_TAG, 0), c)
  {
    if SplitsSpoiler(text, c) {
      var p, q :| Spoiler(text, p, q) && CutsOpen(c, p, q);
      SplitMeansInside(text, c, p, q);
    }
    if InsideSpoiler(Marks(text, OPEN_TAG, 0), Marks(text, CLOSE_TAG, 0), c) {
      var k, j :| AroundAt(Marks(text, OPEN_TAG, 0), Marks(text, CLOSE_TAG, 0), c, k, j);
      InsideMeansSplit(text, c, k, j);
    }
  }

  // What decides, for any text: an unclosed spoiler at the start that closes at or after the limit;
  // else the position of the later worthwhile tag; else the fallback.
  ghost predicate SpoilerGuard(text: string, max: nat, fallback: int) {
    var sp, fence := SafeSpoiler(text, max), SafeFence(text, max);
    var opens, closes := Marks(text, OPEN_TAG, 0), Marks(text, CLOSE_TAG, 0);
    || (sp == 0 && exists i :: i >= max && OccursAt(text, CLOSE_TAG, i))
    || (if 10 * sp > 3 * max && !(10 * fence > 3 * max && fence > sp) then !InsideSpoiler(opens, closes, sp)
        else if 10 * fence > 3 * max then !InsideSpoiler(opens, closes, fence)
        else !InsideSpoiler(opens, closes, fallback))
  }

  // The cut: behind the closing tag of a spoiler that opens the text and is reported open, if one starts
  // at or after the limit; else the later of the fence and the spoiler that lie beyond 30% of the limit;
  // else the fallback.
  lemma CutIsOneOf(text: string, max: nat, fallback: int)
    requires 1 <= max < |text| && IsFallback(text, max, fallback)
    ensures
      var sp, fence, close := SafeSpoiler(text, max), SafeFence(text, max), IndexOf(text, "</tg-spoiler>", max);
      CutAt(text, max)
      == if sp == 0 && close != -1 then close + 13
         else if 10 * fence > 3 * max && !(10 * sp > 3 * max && sp > fence) then fence
         else if 10 * sp > 3 * max then sp
         else fallback
  {
    FallbackCutsAtBlank(text, max, fallback);
    hide IsFallback;
    hide BlankCut;
    hide SafeSpoiler;
    hide SafeFence;
    hide IndexOf;
  }

  // Every text, stray and nested tags included: the chunk splits no spoiler exactly when the guard holds.
  lemma SpoilerSafeExactlyWhen(text: string, max: nat, fallback: int)
    requires 1 <= max < |text| && IsFallback(text, max, fallback)
    ensures !SplitsSpoiler(text, CutAt(text, max)) <==> SpoilerGuard(text, max, fallback)
  {
    hide CutAt;
    hide IsFallback;
    hide InsideSpoiler;
    hide SplitsSpoiler;
    hide Marks;
    hide OccursAt;
    hide SafeSpoiler;
    hide SafeFence;
    hide IndexOf;
    CutIsOneOf(text, max, fallback);
    SpoilerEndExactlyWhen(text, max);
    if SpoilerEnd(text, max) != -1 {
      ForwardCutIsSafe(text, max);
    } else {
      SplitExactlyWhenInside(text, CutAt(text, max));
    }
  }

  // The same for every chunk but the last, over the text that remained at its cut.
  lemma EveryChunkSpoilerSafeExactlyWhen(text: string, max: nat, k: nat, fallback: int)
    requires 1 <= max < |text| && k < |Split(text, max)| - 1
    ensures
      var rest := Rest(text, max, k);
      && |rest| > max && Split(text, max)[k] <= rest
      && (IsFallback(rest, max, fallback) ==>
            (!SplitsSpoiler(rest, |Split(text, max)[k]|) <==> SpoilerGuard(rest, max, fallback)))
  {
    hide CutAt;
    hide SplitsSpoiler;
    hide SpoilerGuard;
    hide IsFallback;
    ChunkStartsTheRest(text, max, k);
    var rest := Rest(text, max, k);
    if IsFallback(rest, max, fallback) { SpoilerSafeExactlyWhen(rest, max, fallback); }
  }

  // ---- Fences in any text ----

  // What decides for fences when the text may hold spoilers: a fence cut that is worthwhile and not
  // before a worthwhile spoiler cut; else the cut made instead lies outside every block.
  ghost predicate FenceGuard(text: string, max: nat, fallback: int) {
    var sp, fence := SafeSpoiler(text, max), SafeFence(text, max);
    var fences, close := Marks(text, FENCE, 0), IndexOf(text, CLOSE_TAG, max);
    if sp == 0 && close != -1 then !InsideBlock(fences, close + |CLOSE_TAG|)
    else if 10 * fence > 3 * max && !(10 * sp > 3 * max && sp > fence) then true
    else if 10 * sp > 3 * max then !InsideBlock(fences, sp)
    else !InsideBlock(fences, fallback)
  }

  lemma PrefixFences(text: string, cut: nat)
    requires cut <= |text|
    ensures |Marks(text[..cut], FENCE, 0)| % 2 == 1 <==> InsideBlock(Marks(text, FENCE, 0), cut)
  {
    PrefixMarks(text, cut, FENCE, 0);
    MarksAreSpaced(text, FENCE, 0);
    OddExactlyInsideBlock(Marks(text, FENCE, 0), cut);
  }

  lemma FenceCutIsEven(text: string, max: nat)
    requires max <= |text| && 0 <= SafeFence(text, max) <= max
    ensures |Marks(text[..SafeFence(text, max)], FENCE, 0)| % 2 == 0
  {
    var window, fence := text[..max], SafeFence(text, max);
    assert window[..fence] == text[..fence];
    PrefixMarks(window, fence, FENCE, 0);
    MarksAreSpaced(window, FENCE, 0);
    CutBeforeLastIsEven(Marks(window, FENCE, 0));
  }

  // For every text, spoilers included: the chunk closes every fence it opens exactly when the guard holds.
  lemma FencesSafeInAnyText(text: string, max: nat, fallback: int)
    requires 1 <= max < |text| && IsFallback(text, max, fallback)
    ensures |Marks(text[..CutAt(text, max)], FENCE, 0)| % 2 == 0 <==> FenceGuard(text, max, fallback)
  {
    var cut, fence := CutAt(text, max), SafeFence(text, max);
    hide CutAt;
    hide IsFallback;
    hide InsideBlock;
    hide Marks;
    hide SafeSpoiler;
    hide SafeFence;
    hide IndexOf;
    CutIsOneOf(text, max, fallback);
    PrefixFences(text, cut);
    if 0 <= fence == cut {
      FenceAtMostMax(text, max);
      FenceCutIsEven(text, max);
    }
  }

  lemma FenceAtMostMax(text: string, max: nat)
    requires 1 <= max < |text|
    ensures SafeFence(text, max) <= max
  {
    SafeCutsAreInside(text, max);
    hide SafeFence;
    hide SafeSpoiler;
  }

  // ---- Spoilers that are cut ----

  lemma NoTagWithout(text: string, tag: string)
    requires IsTag(tag) && forall i :: 0 <= i < |text| - 1 ==> !(text[i] == '<' && text[i + 1] == tag[1])
    ensures Marks(text, tag, 0) == []
  {
    forall i | 0 <= i
      ensures !OccursAt(text, tag, i)
    {
      if OccursAt(text, tag, i) {
        StartsAt(text, tag, i, 0);
        StartsAt(text, tag, i, 1);
      }
    }
    NotFound(text, tag, 0);
  }

  lemma NoFence(text: string)
    requires forall i :: 0 <= i < |text| ==> text[i] != '`'
    ensures Marks(text, FENCE, 0) == []
  {
    forall i | 0 <= i
      ensures !OccursAt(text, FENCE, i)
    {
      if OccursAt(text, FENCE, i) { StartsAt(text, FENCE, i, 0); }
    }
    NotFound(text, FENCE, 0);
  }

  lemma NotHere(text: string, tag: string, i: nat, k: nat)
    requires k < |tag| && i + k < |text| && text[i + k] != tag[k]
    ensures !OccursAt(text, tag, i)
  {
    if OccursAt(text, tag, i) { StartsAt(text, tag, i, k); }
  }

  lemma OneOpening(text: string, p: nat)
    requires OccursAt(text, OPEN_TAG, p) && p + 14 >= |text|
    requires forall i :: 0 <= i < p ==> text[i] != '<'
    ensures Marks(text, OPEN_TAG, 0) == [p]
  {
    TagsAreTags();
    forall i | 0 <= i < p
      ensures !OccursAt(text, OPEN_TAG, i)
    {
      NotHere(text, OPEN_TAG, i, 0);
    }
    FoundAt(text, OPEN_TAG, 0, p);
    if p + 12 < |text| { NoneFits(text, OPEN_TAG, p + 12); }
  }

  // A short text around one spoiler, cut at a limit of 14.
  lemma CutAtFourteen(text: string, p: nat)
    requires |text| > 14 && p <= 1 && OccursAt(text, OPEN_TAG, p)
    requires p == 1 ==> text[0] == 'a'
    requires text[p + 12] == 'x' && (p == 0 ==> text[13] == '<')
    requires text[14] != '\n' && text[14] != ' '
    requires p == 0 ==> forall i :: i >= 14 ==> !OccursAt(text, CLOSE_TAG, i)
    ensures CutAt(text, 14) == 14 && SafeSpoiler(text, 14) == p
  {
    TagsAreTags();
    var window := text[..14];
    PrefixOccurrence(text, 14, OPEN_TAG, p);
    forall k | 0 <= k < 12
      ensures text[p + k] == OPEN_TAG[k]
    {
      StartsAt(text, OPEN_TAG, p, k);
    }
    assert forall i :: 0 <= i < 14 ==> window[i] == text[i];
    WindowHasOneTag(text, p);
    hide Marks;
    SpoilerEndExactlyWhen(text, 14);
    forall i | 8 <= i <= 14
      ensures text[i] != '\n' && text[i] != ' '
    {
      if i < p + 12 { assert text[i] == OPEN_TAG[i - p]; }
    }
    NoBlank(text);
  }

  lemma WindowHasOneTag(text: string, p: nat)
    requires |text| > 14 && p <= 1 && OccursAt(text[..14], OPEN_TAG, p)
    requires p == 1 ==> text[0] == 'a'
    requires text[p + 12] == 'x' && (p == 0 ==> text[13] == '<')
    requires forall k :: 0 <= k < 12 ==> text[p + k] == OPEN_TAG[k]
    ensures SafeSpoiler(text, 14) == p && SafeFence(text, 14) == -1
  {
    TagsAreTags();
    var window := text[..14];
    OneOpening(window, p);
    assert text[p + 1] == OPEN_TAG[1];
    forall i | 0 <= i < 13
      ensures !(window[i] == '<' && window[i + 1] == CLOSE_TAG[1])
    {
      if p < i < p + 12 { assert window[i] == OPEN_TAG[i - p]; }
    }
    NoTagWithout(window, CLOSE_TAG);
    forall i | 0 <= i < 14
      ensures window[i] != '`'
    {
      if p <= i < p + 12 { assert window[i] == OPEN_TAG[i - p]; }
    }
    NoFence(window);
  }

  lemma NoBlank(text: string)
    requires |text| > 14 && forall i :: 8 <= i <= 14 ==> text[i] != '\n' && text[i] != ' '
    ensures BlankCut(text, 14) == 14
  {
  }

  // A spoiler that opens within 30% of the limit is cut, although it closes at the limit.
  lemma EarlySpoilerIsCut() returns (text: string)
    ensures text == "a<tg-spoiler>x</tg-spoiler>" && SafeSpoiler(text, 14) == 1
    ensures Spoiler(text, 1, 14) && SplitsSpoiler(text, CutAt(text, 14))
  {
    EarlyText();
    TagsAreTags();
    text := "a" + OPEN_TAG + "x" + CLOSE_TAG;
    hide *;
    EarlyIsCut(text);
  }

  lemma EarlyText()
    ensures "a<tg-spoiler>x</tg-spoiler>" == "a" + OPEN_TAG + "x" + CLOSE_TAG
  {
  }

  lemma EarlyIsCut(text: string)
    requires text == "a" + OPEN_TAG + "x" + CLOSE_TAG
    ensures |text| > 14 && SafeSpoiler(text, 14) == 1 && Spoiler(text, 1, 14) && SplitsSpoiler(text, CutAt(text, 14))
  {
    TagsAreTags();
    assert text[1..1 + 12] == OPEN_TAG && text[14..14 + 13] == CLOSE_TAG;
    FirstIsSpoiler(text, 1, 14);
    CutAtFourteen(text, 1);
    assert CutsOpen(14, 1, 14);
  }

  // A spoiler at the start whose closing tag straddles the limit is cut inside that tag.
  lemma StraddlingSpoilerIsCut() returns (text: string)
    ensures text == "<tg-spoiler>x</tg-spoiler>" && SafeSpoiler(text, 14) == 0
    ensures Spoiler(text, 0, 13) && SplitsSpoiler(text, CutAt(text, 14))
  {
    StraddlingText();
    TagsAreTags();
    text := OPEN_TAG + "x" + CLOSE_TAG;
    hide *;
    StraddlingIsCut(text);
  }

  lemma StraddlingText()
    ensures "<tg-spoiler>x</tg-spoiler>" == OPEN_TAG + "x" + CLOSE_TAG
  {
  }

  lemma StraddlingIsCut(text: string)
    requires text == OPEN_TAG + "x" + CLOSE_TAG
    ensures |text| > 14 && SafeSpoiler(text, 14) == 0 && Spoiler(text, 0, 13) && SplitsSpoiler(text, CutAt(text, 14))
  {
    TagsAreTags();
    assert text[0..0 + 12] == OPEN_TAG && text[13..13 + 13] == CLOSE_TAG;
    FirstIsSpoiler(text, 0, 13);
    CutAtFourteen(text, 0);
    assert CutsOpen(14, 0, 13);
  }

  lemma FirstIsSpoiler(text: string, p: nat, q: nat)
    requires q == p + 13 && OccursAt(text, OPEN_TAG, p) && OccursAt(text, CLOSE_TAG, q) && text[p + 12] == 'x'
    ensures Spoiler(text, p, q)
  {
    TagsAreTags();
    forall r | p < r < q
      ensures !OccursAt(text, CLOSE_TAG, r)
    {
      if r < p + 12 { StartsAt(text, OPEN_TAG, p, r - p); }
      NotHere(text, CLOSE_TAG, r, 0);
    }
  }
}
