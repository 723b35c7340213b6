// Searching for a substring, as `indexOf` does.

module Text {

  predicate OccursAt(s: string, mark: string, i: int) { 0 <= i <= |s| - |mark| && s[i..i + |mark|] == mark }

  lemma PrefixOccurrence(s: string, c: nat, mark: string, i: int)
    requires c <= |s|
    ensures OccursAt(s[..c], mark, i) <==> i + |mark| <= c && OccursAt(s, mark, i)
  {
    if 0 <= i && i + |mark| <= c { assert s[..c][i..i + |mark|] == s[i..i + |mark|]; }
  }

  // The first occurrence at or after `from`, or -1.
  function IndexOf(s: string, mark: string, from: nat): (r: int)
    ensures r == -1 || from <= r <= |s| - |mark|
    decreases |s| - from
  {
    if from > |s| then -1
    else if OccursAt(s, mark, from) then from
    else IndexOf(s, mark, from + 1)
  }

  lemma {:induction false} IndexOfIsFirst(s: string, mark: string, from: nat)
    ensures var r := IndexOf(s, mark, from);
            (r == -1 || OccursAt(s, mark, r))
            && forall i :: from <= i < (if r == -1 then |s| + 1 else r) ==> !OccursAt(s, mark, i)
    decreases |s| - from
  {
    if from <= |s| && !OccursAt(s, mark, from) { IndexOfIsFirst(s, mark, from + 1); }
  }

  lemma {:induction false} NoneFits(s: string, mark: string, from: nat)
    requires from + |mark| > |s|
    ensures IndexOf(s, mark, from) == -1
    decreases |s| - from
  {
    if from <= |s| { NoneFits(s, mark, from + 1); }
  }

  lemma {:induction false} FoundAt(s: string, mark: string, from: nat, r: nat)
    requires from <= r && OccursAt(s, mark, r) && forall i :: from <= i < r ==> !OccursAt(s, mark, i)
    ensures IndexOf(s, mark, from) == r
    decreases r - from
  {
    if from < r { FoundAt(s, mark, from + 1, r); }
  }

  lemma {:induction false} NotFound(s: string, mark: string, from: nat)
    requires forall i :: from <= i ==> !OccursAt(s, mark, i)
    ensures IndexOf(s, mark, from) == -1
    decreases |s| - from
  {
    if from <= |s| { NotFound(s, mark, from + 1); }
  }
}
