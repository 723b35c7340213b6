// Small facts about built-in collections that several modules need.

module Prelude {

  datatype Option<+T> = None | Some(value: T)

  // Two finite sets that a map matches one to one have the same size.
  lemma {:induction false} MatchedSetsHaveSameSize<A, B>(xs: set<A>, ys: set<B>, f: map<A, B>)
    requires f.Keys == xs
    requires forall x :: x in xs ==> f[x] in ys
    requires forall x, x' :: x in xs && x' in xs && f[x] == f[x'] ==> x == x'
    requires forall y :: y in ys ==> exists x :: x in xs && f[x] == y
    ensures |xs| == |ys|
    decreases xs
  {
    if xs == {} {
      assert ys == {};
    } else {
      var x :| x in xs;
      var g := map z | z in xs - {x} :: f[z];
      forall y | y in ys - {f[x]}
        ensures exists z :: z in xs - {x} && g[z] == y
      {
        var z :| z in xs && f[z] == y;
        assert z in xs - {x} && g[z] == y;
      }
      MatchedSetsHaveSameSize(xs - {x}, ys - {f[x]}, g);
    }
  }

  // A smaller set has no more elements.
  lemma {:induction false} SubsetIsNoLarger<T>(xs: set<T>, ys: set<T>)
    requires xs <= ys
    ensures |xs| <= |ys|
    decreases xs
  {
    if xs != {} {
      var x :| x in xs;
      SubsetIsNoLarger(xs - {x}, ys - {x});
    }
  }

  // Concatenation is associative.
  lemma Regroup<T>(a: seq<T>, b: seq<T>, c: seq<T>)
    ensures a + (b + c) == a + b + c
  {
  }
}
