// Breadth-first bookkeeping shared by the two provenance walks: shortest distances in a
// finite graph, and what a queue-driven walk has settled at each moment.

module ProvenanceGraph {

  type Graph = map<string, seq<string>>

  function Succ(g: Graph, v: string): seq<string> { if v in g then g[v] else [] }

  // ---- Distance by paths ----

  ghost predicate IsPath(g: Graph, p: seq<string>) {
    forall i :: 0 <= i < |p| - 1 ==> p[i + 1] in Succ(g, p[i])
  }

  ghost predicate PathWithin(g: Graph, x: string, y: string, n: nat, p: seq<string>) {
    0 < |p| <= n + 1 && p[0] == x && p[|p| - 1] == y && IsPath(g, p)
  }

  // y is at distance at most n from x.
  ghost predicate Within(g: Graph, x: string, y: string, n: nat) { exists p :: PathWithin(g, x, y, n, p) }

  lemma WithinZero(g: Graph, x: string, y: string)
    ensures Within(g, x, y, 0) <==> x == y
  {
    if x == y {
      assert PathWithin(g, x, y, 0, [x]);
    }
    if Within(g, x, y, 0) {
      var p :| PathWithin(g, x, y, 0, p);
    }
  }

  lemma WithinGrows(g: Graph, x: string, y: string, m: nat, n: nat)
    requires Within(g, x, y, m) && m <= n
    ensures Within(g, x, y, n)
  {
    var p :| PathWithin(g, x, y, m, p);
    assert PathWithin(g, x, y, n, p);
  }

  lemma WithinExtends(g: Graph, x: string, y: string, z: string, n: nat)
    requires Within(g, x, y, n) && z in Succ(g, y)
    ensures Within(g, x, z, n + 1)
  {
    var p :| PathWithin(g, x, y, n, p);
    assert PathWithin(g, x, z, n + 1, p + [z]);
  }

  // The last edge of a shortest path.
  lemma WithinHasLastEdge(g: Graph, x: string, z: string, n: nat) returns (y: string)
    requires Within(g, x, z, n + 1) && !Within(g, x, z, n)
    ensures Within(g, x, y, n) && z in Succ(g, y)
  {
    var p :| PathWithin(g, x, z, n + 1, p);
    assert !PathWithin(g, x, z, n, p);
    var q := p[..|p| - 1];
    y := q[|q| - 1];
    assert PathWithin(g, x, y, n, q);
  }

  lemma WithinPrepends(g: Graph, x: string, y: string, z: string, n: nat)
    requires y in Succ(g, x) && Within(g, y, z, n)
    ensures Within(g, x, z, n + 1)
  {
    var p :| PathWithin(g, y, z, n, p);
    var q := [x] + p;
    assert forall i :: 0 < i < |q| ==> q[i] == p[i - 1];
    assert PathWithin(g, x, z, n + 1, q);
  }

  ghost predicate EdgeReversed(g: Graph, h: Graph, from: set<string>, u: string, v: string) {
    u in from && v in Succ(g, u) ==> v in from && (v == u || u in Succ(h, v))
  }

  // h reverses the edges of g that leave the vertices in `from`, self-loops aside, and
  // those edges stay in `from`.
  ghost predicate Reverses(g: Graph, h: Graph, from: set<string>) {
    forall u, v :: EdgeReversed(g, h, from, u, v)
  }

  lemma {:induction false} WithinReversed(g: Graph, h: Graph, from: set<string>, x: string, y: string, n: nat)
    requires Reverses(g, h, from) && x in from && Within(g, x, y, n)
    ensures y in from && Within(h, y, x, n)
    decreases n
  {
    if n == 0 {
      WithinZero(g, x, y);
      WithinZero(h, y, x);
    } else if Within(g, x, y, n - 1) {
      WithinReversed(g, h, from, x, y, n - 1);
      WithinGrows(h, y, x, n - 1, n);
    } else {
      var z := WithinHasLastEdge(g, x, y, n - 1);
      WithinReversed(g, h, from, x, z, n - 1);
      assert EdgeReversed(g, h, from, z, y);
      WithinPrepends(h, y, z, x, n - 1);
    }
  }

  // ---- The walk ----

  // order lists the vertices discovered so far, dist how far each was when discovered; the
  // first k have been expanded, except that nothing at distance bound is expanded.
  ghost predicate Wave(g: Graph, seed: string, bound: nat, order: seq<string>, dist: seq<nat>, k: nat) {
    && |order| == |dist| && k <= |order|
    && 0 < |order| && order[0] == seed && dist[0] == 0
    && (forall i, j :: 0 <= i < j < |order| ==> order[i] != order[j])
    && (forall i, j :: 0 <= i <= j < |dist| ==> dist[i] <= dist[j])
    && (k < |order| ==> dist[|dist| - 1] <= dist[k] + 1)
    && (forall i :: 0 <= i < |order| ==> dist[i] <= bound)
    && (forall i :: 0 <= i < |order| ==> Within(g, seed, order[i], dist[i]))
    && (forall i :: 0 < i < |order| ==> !Within(g, seed, order[i], dist[i] - 1))
    && (forall i :: 0 <= i < k && dist[i] < bound ==> Expanded(g, order, dist, i))
  }

  // Every successor of the i-th vertex is listed, at most one further out.
  ghost predicate Expanded(g: Graph, order: seq<string>, dist: seq<nat>, i: nat)
    requires i < |order| == |dist|
  {
    forall z :: z in Succ(g, order[i]) ==> Listed(order, dist, z, dist[i] + 1)
  }

  ghost predicate Listed(order: seq<string>, dist: seq<nat>, z: string, n: int)
    requires |order| == |dist|
  {
    exists j :: 0 <= j < |order| && order[j] == z && dist[j] <= n
  }

  lemma WaveStarts(g: Graph, seed: string, bound: nat)
    ensures Wave(g, seed, bound, [seed], [0], 0)
  {
    WithinZero(g, seed, seed);
  }

  // While everything nearer than n has been expanded, everything within n is listed.
  lemma {:induction false} NearIsListed(g: Graph, seed: string, bound: nat, order: seq<string>, dist: seq<nat>, k: nat,
                                        z: string, n: nat)
    requires Wave(g, seed, bound, order, dist, k)
    requires n <= bound && (forall i :: k <= i < |order| ==> dist[i] >= n)
    requires Within(g, seed, z, n)
    ensures Listed(order, dist, z, n)
    decreases n
  {
    if n == 0 {
      WithinZero(g, seed, z);
      assert order[0] == z;
    } else if Within(g, seed, z, n - 1) {
      NearIsListed(g, seed, bound, order, dist, k, z, n - 1);
    } else {
      var y := WithinHasLastEdge(g, seed, z, n - 1);
      NearIsListed(g, seed, bound, order, dist, k, y, n - 1);
      var j :| 0 <= j < |order| && order[j] == y && dist[j] <= n - 1;
      assert j < k && Expanded(g, order, dist, j);
    }
  }

  // A vertex not yet listed when the k-th is being expanded is exactly one step further.
  lemma NewIsOneFurther(g: Graph, seed: string, bound: nat, order: seq<string>, dist: seq<nat>, k: nat, z: string)
    requires Wave(g, seed, bound, order, dist, k) && k < |order| && dist[k] < bound
    requires z in Succ(g, order[k]) && z !in order
    ensures Within(g, seed, z, dist[k] + 1) && !Within(g, seed, z, dist[k])
  {
    WithinExtends(g, seed, order[k], z, dist[k]);
    if Within(g, seed, z, dist[k]) {
      NearIsListed(g, seed, bound, order, dist, k, z, dist[k]);
    }
  }

  lemma WaveDiscovers(g: Graph, seed: string, bound: nat, order: seq<string>, dist: seq<nat>, k: nat, z: string)
    requires Wave(g, seed, bound, order, dist, k) && k < |order| && dist[k] < bound
    requires z in Succ(g, order[k]) && z !in order
    ensures Wave(g, seed, bound, order + [z], dist + [dist[k] + 1], k)
  {
    NewIsOneFurther(g, seed, bound, order, dist, k, z);
    forall i | 0 <= i < k && dist[i] < bound
      ensures Expanded(g, order + [z], dist + [dist[k] + 1], i)
    {
      ListingGrows(g, order, dist, z, dist[k] + 1, i);
    }
  }

  lemma ListingGrows(g: Graph, order: seq<string>, dist: seq<nat>, z: string, d: nat, i: nat)
    requires i < |order| == |dist| && Expanded(g, order, dist, i)
    ensures Expanded(g, order + [z], dist + [d], i)
  {
    forall y | y in Succ(g, order[i])
      ensures Listed(order + [z], dist + [d], y, dist[i] + 1)
    {
      var j :| 0 <= j < |order| && order[j] == y && dist[j] <= dist[i] + 1;
      assert (order + [z])[j] == y && (dist + [d])[j] == dist[j];
    }
  }

  // All successors of the k-th vertex are listed: move on to the next.
  lemma WaveMovesOn(g: Graph, seed: string, bound: nat, order: seq<string>, dist: seq<nat>, k: nat)
    requires Wave(g, seed, bound, order, dist, k) && k < |order|
    requires dist[k] < bound ==> forall z :: z in Succ(g, order[k]) ==> z in order
    ensures Wave(g, seed, bound, order, dist, k + 1)
  {
    if dist[k] < bound {
      forall z | z in Succ(g, order[k])
        ensures Listed(order, dist, z, dist[k] + 1)
      {
        var j :| 0 <= j < |order| && order[j] == z;
        assert dist[j] <= dist[|dist| - 1];
      }
      assert Expanded(g, order, dist, k);
    }
  }

  // What the finished walk lists: exactly the vertices within the bound, once each, in
  // order of shortest distance.
  ghost predicate Walk(g: Graph, seed: string, bound: nat, order: seq<string>) {
    && 0 < |order| && order[0] == seed
    && (forall i, j :: 0 <= i < j < |order| ==> order[i] != order[j])
    && (forall z :: z in order <==> Within(g, seed, z, bound))
    && (forall i, j, n: nat :: 0 <= i <= j < |order| && Within(g, seed, order[j], n) ==> Within(g, seed, order[i], n))
  }

  lemma DistIsShortest(g: Graph, seed: string, bound: nat, order: seq<string>, dist: seq<nat>, k: nat, i: nat, n: nat)
    requires Wave(g, seed, bound, order, dist, k) && i < |order|
    ensures Within(g, seed, order[i], n) <==> dist[i] <= n
  {
    if dist[i] <= n {
      WithinGrows(g, seed, order[i], dist[i], n);
    } else if Within(g, seed, order[i], n) {
      WithinGrows(g, seed, order[i], n, dist[i] - 1);
    }
  }

  lemma WaveEnds(g: Graph, seed: string, bound: nat, order: seq<string>, dist: seq<nat>)
    requires Wave(g, seed, bound, order, dist, |order|)
    ensures Walk(g, seed, bound, order)
  {
    forall z
      ensures z in order <==> Within(g, seed, z, bound)
    {
      if Within(g, seed, z, bound) {
        NearIsListed(g, seed, bound, order, dist, |order|, z, bound);
      }
      if z in order {
        var i :| 0 <= i < |order| && order[i] == z;
        DistIsShortest(g, seed, bound, order, dist, |order|, i, bound);
      }
    }
    forall i, j, n: nat | 0 <= i <= j < |order| && Within(g, seed, order[j], n)
      ensures Within(g, seed, order[i], n)
    {
      DistIsShortest(g, seed, bound, order, dist, |order|, i, n);
      DistIsShortest(g, seed, bound, order, dist, |order|, j, n);
    }
  }

  // ---- The order of discovery ----

  // The list, and then each of zs in turn that is not on it yet.
  function Append(listed: seq<string>, zs: seq<string>): seq<string>
    decreases |zs|
  {
    if zs == [] then listed
    else
      var longer, z := Append(listed, zs[..|zs| - 1]), zs[|zs| - 1];
      if z in longer then longer else longer + [z]
  }

  lemma AppendOneMore(listed: seq<string>, zs: seq<string>, z: string)
    ensures Append(listed, zs + [z])
            == if z in Append(listed, zs) then Append(listed, zs) else Append(listed, zs) + [z]
  {
    assert (zs + [z])[..|zs + [z]| - 1] == zs;
  }

  // What is known once the vertices in `expanded` have been expanded one after the other.
  function Discovered(g: Graph, seed: string, expanded: seq<string>): seq<string>
    decreases |expanded|
  {
    if expanded == [] then [seed]
    else Append(Discovered(g, seed, expanded[..|expanded| - 1]), Succ(g, expanded[|expanded| - 1]))
  }

  // The list is what expanding its own vertices nearer than the bound, from first to last, discovers.
  ghost predicate InDiscoveryOrder(g: Graph, seed: string, bound: nat, order: seq<string>) {
    exists m :: && 0 <= m <= |order| && order == Discovered(g, seed, order[..m])
                && NearerCount(g, seed, bound, order, m)
  }

  ghost predicate NearerCount(g: Graph, seed: string, bound: nat, order: seq<string>, m: nat) {
    forall i :: 0 <= i < |order| ==> (i < m <==> 0 < bound && Within(g, seed, order[i], bound - 1))
  }

  // Of the first k, those nearer than the bound.
  function Nearer(order: seq<string>, dist: seq<nat>, k: nat, bound: nat): seq<string>
    requires k <= |order| == |dist|
  {
    if k == 0 then []
    else Nearer(order, dist, k - 1, bound) + (if dist[k - 1] < bound then [order[k - 1]] else [])
  }

  lemma {:induction false} NearerStays(order: seq<string>, dist: seq<nat>, order': seq<string>, dist': seq<nat>, k: nat,
                                       bound: nat)
    requires |order| == |dist| && |order'| == |dist'| && order <= order' && dist <= dist' && k <= |order|
    ensures Nearer(order', dist', k, bound) == Nearer(order, dist, k, bound)
    decreases k
  {
    if k > 0 { NearerStays(order, dist, order', dist', k - 1, bound); }
  }

  // Expanding the k-th vertex, and leaving it at the bound.
  lemma NearerExpands(g: Graph, seed: string, bound: nat, order: seq<string>, dist: seq<nat>, k: nat,
                      order': seq<string>, dist': seq<nat>)
    requires k < |order| == |dist| && |order'| == |dist'| && order <= order' && dist <= dist' && dist[k] < bound
    requires order == Discovered(g, seed, Nearer(order, dist, k, bound)) && order' == Append(order, Succ(g, order[k]))
    ensures order' == Discovered(g, seed, Nearer(order', dist', k + 1, bound))
  {
    NearerStays(order, dist, order', dist', k, bound);
    var expanded := Nearer(order, dist, k, bound);
    assert (expanded + [order[k]])[..|expanded|] == expanded;
  }

  lemma NearerWaits(order: seq<string>, dist: seq<nat>, k: nat, bound: nat)
    requires k < |order| == |dist| && dist[k] >= bound
    ensures Nearer(order, dist, k + 1, bound) == Nearer(order, dist, k, bound)
  {
  }

  lemma {:induction false} NearerComeFirst(order: seq<string>, dist: seq<nat>, k: nat, bound: nat) returns (m: nat)
    requires k <= |order| == |dist| && forall i, j :: 0 <= i <= j < |dist| ==> dist[i] <= dist[j]
    ensures m <= k && Nearer(order, dist, k, bound) == order[..m]
    ensures forall i :: 0 <= i < k ==> (i < m <==> dist[i] < bound)
    decreases k
  {
    if k == 0 {
      m := 0;
    } else {
      m := NearerComeFirst(order, dist, k - 1, bound);
      if dist[k - 1] < bound {
        assert m == k - 1;
        assert order[..k] == order[..k - 1] + [order[k - 1]];
        m := k;
      } else {
        assert Nearer(order, dist, k, bound) == order[..m];
      }
    }
  }

  lemma NearerAreCounted(g: Graph, seed: string, bound: nat, order: seq<string>, dist: seq<nat>, m: nat)
    requires Wave(g, seed, bound, order, dist, |order|)
    requires forall i :: 0 <= i < |order| ==> (i < m <==> dist[i] < bound)
    ensures NearerCount(g, seed, bound, order, m)
  {
    forall i | 0 <= i < |order|
      ensures i < m <==> 0 < bound && Within(g, seed, order[i], bound - 1)
    {
      if 0 < bound { DistIsShortest(g, seed, bound, order, dist, |order|, i, bound - 1); }
    }
  }

  lemma DiscoveryEnds(g: Graph, seed: string, bound: nat, order: seq<string>, dist: seq<nat>)
    requires Wave(g, seed, bound, order, dist, |order|)
    requires order == Discovered(g, seed, Nearer(order, dist, |order|, bound))
    ensures InDiscoveryOrder(g, seed, bound, order)
  {
    var m := NearerComeFirst(order, dist, |order|, bound);
    NearerAreCounted(g, seed, bound, order, dist, m);
  }
}
