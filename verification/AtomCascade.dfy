// `handleAtomCascade` of apps/console/server/index.ts: the reverse walk from an atom to
// everything that derives from it, and how it mirrors the audit chain.

module AtomCascade {
  import opened Prelude
  import opened ProvenanceGraph
  import opened AuditChain

  // Adds one citation. Keys that are not text are never looked up, so they are dropped.
  function AddReferencer(g: Graph, child: string, cited: Ref): Graph {
    if cited.Text? then g[cited.id := Succ(g, cited.id) + [child]] else g
  }

  function AddReferencers(g: Graph, child: string, raw: seq<Ref>): Graph {
    if raw == [] then g
    else AddReferencer(AddReferencers(g, child, raw[..|raw| - 1]), child, raw[|raw| - 1])
  }

  function RawCitations(a: Atom): seq<Ref> { if a.derivedFrom.Some? then a.derivedFrom.value else [] }

  // Each id points at the atoms that cite it, in the order they are met.
  function Referencers(atoms: seq<Atom>): Graph {
    if atoms == [] then map[]
    else
      var last := atoms[|atoms| - 1];
      AddReferencers(Referencers(atoms[..|atoms| - 1]), last.id, RawCitations(last))
  }

  ghost predicate Cites(atoms: seq<Atom>, child: string, cited: string) {
    exists a :: a in atoms && a.id == child && Text(cited) in RawCitations(a)
  }

  lemma {:induction false} AddedReferencers(g: Graph, child: string, raw: seq<Ref>, x: string, y: string)
    ensures y in Succ(AddReferencers(g, child, raw), x) <==> y in Succ(g, x) || (y == child && Text(x) in raw)
  {
    if raw != [] {
      var front := raw[..|raw| - 1];
      AddedReferencers(g, child, front, x, y);
      assert raw == front + [raw[|raw| - 1]];
    }
  }

  lemma {:induction false} ReferencersCite(atoms: seq<Atom>, x: string, y: string)
    ensures y in Succ(Referencers(atoms), x) <==> Cites(atoms, y, x)
  {
    if atoms != [] {
      var front, last := atoms[..|atoms| - 1], atoms[|atoms| - 1];
      assert atoms == front + [last];
      ReferencersCite(front, x, y);
      AddedReferencers(Referencers(front), last.id, RawCitations(last), x, y);
      if Cites(atoms, y, x) && !Cites(front, y, x) {
        var a :| a in atoms && a.id == y && Text(x) in RawCitations(a);
        assert a == last;
      }
    }
  }

  // A further atom's id goes behind those of the atoms before it, once for each entry that cites x.
  lemma LaterReferencersComeLast(atoms: seq<Atom>, a: Atom, x: string)
    ensures
      var before, after := Succ(Referencers(atoms), x), Succ(Referencers(atoms + [a]), x);
      before <= after && forall i :: |before| <= i < |after| ==> after[i] == a.id
  {
    assert (atoms + [a])[..|atoms + [a]| - 1] == atoms;
    AddedComeLast(Referencers(atoms), a.id, RawCitations(a), x);
  }

  lemma {:induction false} AddedComeLast(g: Graph, child: string, raw: seq<Ref>, x: string)
    ensures
      var before, after := Succ(g, x), Succ(AddReferencers(g, child, raw), x);
      before <= after && forall i :: |before| <= i < |after| ==> after[i] == child
    decreases |raw|
  {
    if raw != [] { AddedComeLast(g, child, raw[..|raw| - 1], x); }
  }

  method IndexReferencers(atoms: seq<Atom>) returns (referencers: Graph)
    ensures referencers == Referencers(atoms)
    ensures forall x, y :: y in Succ(referencers, x) <==> Cites(atoms, y, x)
  {
    referencers := map[];
    for i := 0 to |atoms|
      invariant referencers == Referencers(atoms[..i])
    {
      var raw := RawCitations(atoms[i]);
      ghost var before := referencers;
      for j := 0 to |raw|
        invariant referencers == AddReferencers(before, atoms[i].id, raw[..j])
      {
        assert raw[..j + 1][..j] == raw[..j];
        if raw[j].Text? {
          var bucket := if raw[j].id in referencers then referencers[raw[j].id] else [];
          referencers := referencers[raw[j].id := bucket + [atoms[i].id]];
        }
      }
      assert raw[..|raw|] == raw;
      assert atoms[..i + 1][..i] == atoms[..i];
    }
    assert atoms[..|atoms|] == atoms;
    forall x, y
      ensures y in Succ(referencers, x) <==> Cites(atoms, y, x)
    {
      ReferencersCite(atoms, x, y);
    }
  }

  // ---- The walk's variables ----

  // visited lists seed first and then the cascade; the queue holds its unexpanded end.
  ghost predicate Cascading(byId: map<string, Atom>, g: Graph, seed: string, maxDepth: nat, order: seq<string>,
                            dist: seq<nat>, k: nat, queue: seq<WalkEntry>, visited: set<string>, cascade: seq<Atom>)
  {
    && Wave(g, seed, maxDepth + 1, order, dist, k)
    && Queued(order, dist, k, queue)
    && Collected(byId, seed, order, visited, cascade)
    && order == Discovered(g, seed, Nearer(order, dist, k, maxDepth + 1))
  }

  ghost predicate Collected(byId: map<string, Atom>, seed: string, order: seq<string>, visited: set<string>, cascade: seq<Atom>) {
    && (forall z :: z in visited <==> z in order)
    && |order| == |cascade| + 1 && order[0] == seed
    && (forall i :: 0 <= i < |cascade| ==> cascade[i].id == order[i + 1] && order[i + 1] in byId && byId[order[i + 1]] == cascade[i])
  }

  lemma CollectionGrows(byId: map<string, Atom>, seed: string, order: seq<string>, visited: set<string>, cascade: seq<Atom>,
                        z: string)
    requires Collected(byId, seed, order, visited, cascade) && z in byId && byId[z].id == z
    ensures Collected(byId, seed, order + [z], visited + {z}, cascade + [byId[z]])
  {
  }

  // The head of the queue has been taken off and its referencers are being looked at.
  ghost predicate Collecting(byId: map<string, Atom>, g: Graph, seed: string, maxDepth: nat, order: seq<string>,
                             dist: seq<nat>, k: nat, cur: WalkEntry, queue: seq<WalkEntry>, visited: set<string>,
                             cascade: seq<Atom>)
  {
    && Wave(g, seed, maxDepth + 1, order, dist, k)
    && k < |order| && order[k] == cur.id && dist[k] == cur.depth
    && Queued(order, dist, k + 1, queue)
    && Collected(byId, seed, order, visited, cascade)
  }

  lemma CascadeDiscovers(byId: map<string, Atom>, g: Graph, seed: string, maxDepth: nat, order: seq<string>,
                         dist: seq<nat>, k: nat, cur: WalkEntry, queue: seq<WalkEntry>, visited: set<string>,
                         cascade: seq<Atom>, r: string)
    requires Collecting(byId, g, seed, maxDepth, order, dist, k, cur, queue, visited, cascade)
    requires cur.depth <= maxDepth && r in Succ(g, cur.id) && r !in visited && r in byId && byId[r].id == r
    ensures Collecting(byId, g, seed, maxDepth, order + [r], dist + [cur.depth + 1], k, cur,
                       queue + [WalkEntry(r, cur.depth + 1)], visited + {r}, cascade + [byId[r]])
  {
    hide Wave;
    hide Queued;
    WaveDiscovers(g, seed, maxDepth + 1, order, dist, k, r);
    QueueGrows(order, dist, k + 1, queue, r, cur.depth + 1);
    CollectionGrows(byId, seed, order, visited, cascade, r);
  }

  // Collecting, with the referencers in `seen` looked at since the lists were order0 and dist0.
  ghost predicate HalfCollected(byId: map<string, Atom>, g: Graph, seed: string, maxDepth: nat, k: nat, cur: WalkEntry,
                                order0: seq<string>, dist0: seq<nat>, seen: seq<string>,
                                order: seq<string>, dist: seq<nat>, queue: seq<WalkEntry>, visited: set<string>,
                                cascade: seq<Atom>)
  {
    && Collecting(byId, g, seed, maxDepth, order, dist, k, cur, queue, visited, cascade)
    && order0 <= order && dist0 <= dist
    && (forall z :: z in seen ==> z in order)
    && order == Append(order0, seen)
  }

  lemma NothingCollected(byId: map<string, Atom>, g: Graph, seed: string, maxDepth: nat, k: nat, cur: WalkEntry,
                         order: seq<string>, dist: seq<nat>, queue: seq<WalkEntry>, visited: set<string>,
                         cascade: seq<Atom>)
    requires Collecting(byId, g, seed, maxDepth, order, dist, k, cur, queue, visited, cascade)
    ensures HalfCollected(byId, g, seed, maxDepth, k, cur, order, dist, [], order, dist, queue, visited, cascade)
  {
  }

  lemma CollectsOldReferencer(byId: map<string, Atom>, g: Graph, seed: string, maxDepth: nat, k: nat, cur: WalkEntry,
                              order0: seq<string>, dist0: seq<nat>, seen: seq<string>,
                              order: seq<string>, dist: seq<nat>, queue: seq<WalkEntry>, visited: set<string>,
                              cascade: seq<Atom>, r: string)
    requires HalfCollected(byId, g, seed, maxDepth, k, cur, order0, dist0, seen, order, dist, queue, visited, cascade)
    requires r in visited
    ensures HalfCollected(byId, g, seed, maxDepth, k, cur, order0, dist0, seen + [r], order, dist, queue, visited, cascade)
  {
    AppendOneMore(order0, seen, r);
  }

  lemma CollectsNewReferencer(byId: map<string, Atom>, g: Graph, seed: string, maxDepth: nat, k: nat, cur: WalkEntry,
                              order0: seq<string>, dist0: seq<nat>, seen: seq<string>,
                              order: seq<string>, dist: seq<nat>, queue: seq<WalkEntry>, visited: set<string>,
                              cascade: seq<Atom>, r: string)
    requires HalfCollected(byId, g, seed, maxDepth, k, cur, order0, dist0, seen, order, dist, queue, visited, cascade)
    requires cur.depth <= maxDepth && r in Succ(g, cur.id) && r !in visited && r in byId && byId[r].id == r
    ensures HalfCollected(byId, g, seed, maxDepth, k, cur, order0, dist0, seen + [r], order + [r], dist + [cur.depth + 1],
                          queue + [WalkEntry(r, cur.depth + 1)], visited + {r}, cascade + [byId[r]])
  {
    AppendOneMore(order0, seen, r);
    CascadeDiscovers(byId, g, seed, maxDepth, order, dist, k, cur, queue, visited, cascade, r);
    assert r !in order;
    hide Collecting;
  }

  lemma AllCollected(byId: map<string, Atom>, g: Graph, seed: string, maxDepth: nat, k: nat, cur: WalkEntry,
                     order0: seq<string>, dist0: seq<nat>, order: seq<string>, dist: seq<nat>, queue: seq<WalkEntry>,
                     visited: set<string>, cascade: seq<Atom>, queue0: seq<WalkEntry>, visited0: set<string>,
                     cascade0: seq<Atom>)
    requires Collecting(byId, g, seed, maxDepth, order0, dist0, k, cur, queue0, visited0, cascade0) && cur.depth <= maxDepth
    requires order0 == Discovered(g, seed, Nearer(order0, dist0, k, maxDepth + 1))
    requires HalfCollected(byId, g, seed, maxDepth, k, cur, order0, dist0, Succ(g, cur.id), order, dist, queue, visited,
                           cascade)
    ensures Cascading(byId, g, seed, maxDepth, order, dist, k + 1, queue, visited, cascade) && order0 <= order
  {
    WaveMovesOn(g, seed, maxDepth + 1, order, dist, k);
    assert |order| == |dist| && |order0| == |dist0| && order0[k] == cur.id && dist0[k] == cur.depth;
    hide Wave;
    NearerExpands(g, seed, maxDepth + 1, order0, dist0, k, order, dist);
  }

  // Adds the referencers of `cur` that have not been seen.
  method CollectReferencers(byId: map<string, Atom>, g: Graph, ghost seed: string, maxDepth: nat, cur: WalkEntry,
                            queue: seq<WalkEntry>, visited: set<string>, cascade: seq<Atom>,
                            ghost order: seq<string>, ghost dist: seq<nat>, ghost k: nat)
      returns (queue': seq<WalkEntry>, visited': set<string>, cascade': seq<Atom>,
               ghost order': seq<string>, ghost dist': seq<nat>)
    requires Collecting(byId, g, seed, maxDepth, order, dist, k, cur, queue, visited, cascade)
    requires cur.depth <= maxDepth
    requires forall z :: z in Succ(g, cur.id) ==> z in byId && byId[z].id == z
    requires k <= |order| == |dist| && order == Discovered(g, seed, Nearer(order, dist, k, maxDepth + 1))
    ensures Cascading(byId, g, seed, maxDepth, order', dist', k + 1, queue', visited', cascade')
    ensures order <= order'
  {
    queue', visited', cascade', order', dist' := queue, visited, cascade, order, dist;
    var refs := Succ(g, cur.id);
    hide *;
    assert refs[..0] == [];
    NothingCollected(byId, g, seed, maxDepth, k, cur, order, dist, queue, visited, cascade);
    for m := 0 to |refs|
      invariant HalfCollected(byId, g, seed, maxDepth, k, cur, order, dist, refs[..m],
                              order', dist', queue', visited', cascade')
    {
      var r := refs[m];
      assert refs[..m + 1] == refs[..m] + [r];
      if r !in visited' {
        CollectsNewReferencer(byId, g, seed, maxDepth, k, cur, order, dist, refs[..m],
                              order', dist', queue', visited', cascade', r);
        visited' := visited' + {r};
        cascade' := cascade' + [byId[r]];
        queue' := queue' + [WalkEntry(r, cur.depth + 1)];
        order' := order' + [r];
        dist' := dist' + [cur.depth + 1];
      } else {
        CollectsOldReferencer(byId, g, seed, maxDepth, k, cur, order, dist, refs[..m],
                              order', dist', queue', visited', cascade', r);
      }
    }
    assert refs[..|refs|] == refs;
    AllCollected(byId, g, seed, maxDepth, k, cur, order, dist, order', dist', queue', visited', cascade',
                 queue, visited, cascade);
  }

  lemma ReferencersAreStored(atoms: seq<Atom>, x: string)
    ensures forall z :: z in Succ(Referencers(atoms), x) ==> z in ById(atoms) && ById(atoms)[z].id == z
  {
    ByIdHoldsTheIds(atoms);
    forall z | z in Succ(Referencers(atoms), x)
      ensures z in ById(atoms) && ById(atoms)[z].id == z
    {
      ReferencersCite(atoms, x, z);
    }
  }

  // ---- What the cascade promises ----

  ghost predicate InChain(atoms: seq<Atom>, seed: string, maxDepth: nat, z: string) {
    Within(ParentGraph(ById(atoms)), seed, z, maxDepth)
  }

  ghost predicate InCascade(atoms: seq<Atom>, seed: string, maxDepth: nat, z: string) {
    z != seed && Within(Referencers(atoms), seed, z, maxDepth + 1)
  }

  ghost predicate IsCascade(atoms: seq<Atom>, seed: string, maxDepth: nat, cascade: seq<Atom>) {
    && (forall i :: 0 <= i < |cascade| ==> cascade[i].id in ById(atoms) && cascade[i] == ById(atoms)[cascade[i].id])
    && Walk(Referencers(atoms), seed, maxDepth + 1, [seed] + Ids(cascade))
    && (forall z :: z in Ids(cascade) <==> InCascade(atoms, seed, maxDepth, z))
  }

  lemma CollectedIds(byId: map<string, Atom>, seed: string, order: seq<string>, visited: set<string>, cascade: seq<Atom>)
    requires Collected(byId, seed, order, visited, cascade)
    ensures order == [seed] + Ids(cascade)
  {
  }

  lemma CascadeIsTheRest(atoms: seq<Atom>, seed: string, maxDepth: nat, order: seq<string>, ids: seq<string>)
    requires Walk(Referencers(atoms), seed, maxDepth + 1, order) && order == [seed] + ids
    ensures forall z :: z in ids <==> InCascade(atoms, seed, maxDepth, z)
  {
    assert forall i :: 0 <= i < |ids| ==> ids[i] == order[i + 1] && order[0] != order[i + 1];
    forall z
      ensures z in ids <==> InCascade(atoms, seed, maxDepth, z)
    {
      assert z in order <==> z == seed || z in ids;
    }
  }

  lemma CascadeEndsRight(atoms: seq<Atom>, seed: string, maxDepth: nat, order: seq<string>, dist: seq<nat>,
                         visited: set<string>, cascade: seq<Atom>)
    requires Wave(Referencers(atoms), seed, maxDepth + 1, order, dist, |order|)
    requires Collected(ById(atoms), seed, order, visited, cascade)
    ensures IsCascade(atoms, seed, maxDepth, cascade)
  {
    CollectedIds(ById(atoms), seed, order, visited, cascade);
    WaveEnds(Referencers(atoms), seed, maxDepth + 1, order, dist);
    CascadeIsTheRest(atoms, seed, maxDepth, order, Ids(cascade));
  }

  // The ids taken off the queue so far.
  function Done(order: seq<string>, k: nat): set<string>
    requires k <= |order|
  {
    set i | 0 <= i < k :: order[i]
  }

  lemma DoneGrows(order: seq<string>, order': seq<string>, k: nat)
    requires k < |order| && order <= order'
    requires forall i, j :: 0 <= i < j < |order| ==> order[i] != order[j]
    ensures Done(order', k + 1) == Done(order, k) + {order[k]} && order[k] !in Done(order, k)
  {
  }

  lemma CascadeHead(byId: map<string, Atom>, g: Graph, seed: string, maxDepth: nat, order: seq<string>, dist: seq<nat>,
                    k: nat, queue: seq<WalkEntry>, visited: set<string>, cascade: seq<Atom>)
    requires Cascading(byId, g, seed, maxDepth, order, dist, k, queue, visited, cascade) && queue != []
    ensures Collecting(byId, g, seed, maxDepth, order, dist, k, queue[0], queue[1..], visited, cascade)
    ensures k < |order| == |dist| && order == Discovered(g, seed, Nearer(order, dist, k, maxDepth + 1))
    ensures order[k] == seed || order[k] in byId
    ensures forall i, j :: 0 <= i < j < |order| ==> order[i] != order[j]
  {
    assert k > 0 ==> order[k] == cascade[k - 1].id;
    hide Discovered;
    hide Nearer;
  }

  lemma CascadeWaits(byId: map<string, Atom>, g: Graph, seed: string, maxDepth: nat, order: seq<string>, dist: seq<nat>,
                     k: nat, cur: WalkEntry, queue: seq<WalkEntry>, visited: set<string>, cascade: seq<Atom>)
    requires Collecting(byId, g, seed, maxDepth, order, dist, k, cur, queue, visited, cascade) && cur.depth > maxDepth
    requires k < |order| == |dist| && order == Discovered(g, seed, Nearer(order, dist, k, maxDepth + 1))
    ensures Cascading(byId, g, seed, maxDepth, order, dist, k + 1, queue, visited, cascade)
  {
    NearerWaits(order, dist, k, maxDepth + 1);
    WaveMovesOn(g, seed, maxDepth + 1, order, dist, k);
    hide Wave;
    hide Collected;
    hide Discovered;
    hide Nearer;
  }

  // Takes the head off the queue and expands it unless it lies beyond the limit.
  method CascadeOn(atoms: seq<Atom>, byId: map<string, Atom>, g: Graph, ghost seed: string, maxDepth: nat,
                   queue: seq<WalkEntry>, visited: set<string>, cascade: seq<Atom>,
                   ghost order: seq<string>, ghost dist: seq<nat>, ghost k: nat)
      returns (queue': seq<WalkEntry>, visited': set<string>, cascade': seq<Atom>,
               ghost order': seq<string>, ghost dist': seq<nat>)
    requires byId == ById(atoms) && g == Referencers(atoms)
    requires Cascading(byId, g, seed, maxDepth, order, dist, k, queue, visited, cascade) && queue != []
    ensures Cascading(byId, g, seed, maxDepth, order', dist', k + 1, queue', visited', cascade')
    ensures order <= order' && k < |order| && (order[k] == seed || order[k] in byId)
    ensures forall i, j :: 0 <= i < j < |order| ==> order[i] != order[j]
  {
    hide *;
    var cur := queue[0];
    queue', visited', cascade', order', dist' := queue[1..], visited, cascade, order, dist;
    CascadeHead(byId, g, seed, maxDepth, order, dist, k, queue, visited, cascade);
    if cur.depth <= maxDepth {
      ReferencersAreStored(atoms, cur.id);
      queue', visited', cascade', order', dist' :=
        CollectReferencers(byId, g, seed, maxDepth, cur, queue', visited, cascade, order, dist, k);
    } else {
      CascadeWaits(byId, g, seed, maxDepth, order, dist, k, cur, queue', visited, cascade);
    }
  }

  lemma CascadeStarts(byId: map<string, Atom>, g: Graph, seed: string, maxDepth: nat)
    ensures Cascading(byId, g, seed, maxDepth, [seed], [0], 0, [WalkEntry(seed, 0)], {seed}, [])
  {
    WaveStarts(g, seed, maxDepth + 1);
  }

  // Nothing is left on the queue.
  lemma CascadeRunsDry(atoms: seq<Atom>, seed: string, maxDepth: nat, order: seq<string>, dist: seq<nat>, k: nat,
                       visited: set<string>, cascade: seq<Atom>)
    requires Cascading(ById(atoms), Referencers(atoms), seed, maxDepth, order, dist, k, [], visited, cascade)
    ensures IsCascade(atoms, seed, maxDepth, cascade)
    ensures InDiscoveryOrder(Referencers(atoms), seed, maxDepth + 1, [seed] + Ids(cascade))
  {
    assert k == |order| == |dist|;
    hide ById;
    hide Referencers;
    hide Discovered;
    hide Nearer;
    CascadeEndsRight(atoms, seed, maxDepth, order, dist, visited, cascade);
    CollectedIds(ById(atoms), seed, order, visited, cascade);
    DiscoveryEnds(Referencers(atoms), seed, maxDepth + 1, order, dist);
    hide *;
  }

  // The reverse walk: exactly the other atoms within maxDepth + 1 citations of the seed,
  // once each, in order of shortest distance and of discovery. The seed need not be stored.
  method HandleAtomCascade(id: string, atoms: seq<Atom>, maxDepth: nat) returns (cascade: seq<Atom>)
    ensures IsCascade(atoms, id, maxDepth, cascade)
    ensures InDiscoveryOrder(Referencers(atoms), id, maxDepth + 1, [id] + Ids(cascade))
  {
    var referencers := IndexReferencers(atoms);
    var byId := IndexById(atoms);
    var visited := {id};
    cascade := [];
    var queue := [WalkEntry(id, 0)];
    ghost var order, dist: seq<nat>, k: nat := [id], [0], 0;
    CascadeStarts(byId, referencers, id, maxDepth);
    assert Done(order, 0) == {};
    hide Cascading;
    hide ById;
    hide Referencers;
    hide IsCascade;
    hide InDiscoveryOrder;
    while |queue| > 0
      invariant k <= |order|
      invariant Cascading(byId, referencers, id, maxDepth, order, dist, k, queue, visited, cascade)
      decreases byId.Keys + {id} - Done(order, k)
    {
      ghost var order0 := order;
      queue, visited, cascade, order, dist :=
        CascadeOn(atoms, byId, referencers, id, maxDepth, queue, visited, cascade, order, dist, k);
      DoneGrows(order0, order, k);
      k := k + 1;
    }
    CascadeRunsDry(atoms, id, maxDepth, order, dist, k, visited, cascade);
  }

  // ---- The two walks are duals ----

  lemma ParentsAreCited(atoms: seq<Atom>, child: string, parent: string)
    requires parent in Succ(ParentGraph(ById(atoms)), child)
    ensures Cites(atoms, child, parent) && parent != "" && parent in ById(atoms)
  {
    ByIdHoldsTheIds(atoms);
    ParentIsSuccessor(ById(atoms), child, parent);
  }

  ghost predicate UniqueIds(atoms: seq<Atom>) {
    forall a, b :: a in atoms && b in atoms && a.id == b.id ==> a == b
  }

  lemma CitedAreParents(atoms: seq<Atom>, child: string, parent: string)
    requires UniqueIds(atoms) && Cites(atoms, child, parent) && parent != "" && parent in ById(atoms)
    ensures parent in Succ(ParentGraph(ById(atoms)), child)
  {
    ByIdHoldsTheIds(atoms);
    ParentIsSuccessor(ById(atoms), child, parent);
  }

  // Some other atom cites a stored atom whose id is the empty string.
  ghost predicate EmptyIdCited(atoms: seq<Atom>) {
    "" in ById(atoms) && exists y :: y != "" && Cites(atoms, y, "")
  }

  lemma ChainEdgeReversed(atoms: seq<Atom>, u: string, v: string)
    ensures EdgeReversed(ParentGraph(ById(atoms)), Referencers(atoms), ById(atoms).Keys, u, v)
  {
    if v in Succ(ParentGraph(ById(atoms)), u) {
      ParentsAreCited(atoms, u, v);
      ReferencersCite(atoms, v, u);
    }
  }

  lemma CascadeReversesChain(atoms: seq<Atom>)
    ensures Reverses(ParentGraph(ById(atoms)), Referencers(atoms), ById(atoms).Keys)
  {
    forall u, v
      ensures EdgeReversed(ParentGraph(ById(atoms)), Referencers(atoms), ById(atoms).Keys, u, v)
    {
      ChainEdgeReversed(atoms, u, v);
    }
  }

  lemma CascadeEdgeReversed(atoms: seq<Atom>, u: string, v: string)
    requires UniqueIds(atoms) && !EmptyIdCited(atoms)
    ensures EdgeReversed(Referencers(atoms), ParentGraph(ById(atoms)), ById(atoms).Keys, u, v)
  {
    if u in ById(atoms) && v in Succ(Referencers(atoms), u) {
      ReferencersCite(atoms, u, v);
      ReferencersAreStored(atoms, u);
      if u != "" { CitedAreParents(atoms, v, u); }
    }
  }

  lemma ChainReversesCascade(atoms: seq<Atom>)
    requires UniqueIds(atoms) && !EmptyIdCited(atoms)
    ensures Reverses(Referencers(atoms), ParentGraph(ById(atoms)), ById(atoms).Keys)
  {
    forall u, v
      ensures EdgeReversed(Referencers(atoms), ParentGraph(ById(atoms)), ById(atoms).Keys, u, v)
    {
      CascadeEdgeReversed(atoms, u, v);
    }
  }

  ghost predicate Dual(atoms: seq<Atom>) {
    forall x, y, d: nat :: x in ById(atoms) && y in ById(atoms) && x != y ==>
      (InCascade(atoms, x, d, y) <==> InChain(atoms, y, d + 1, x))
  }

  lemma EmptyIdBreaksDuality(atoms: seq<Atom>)
    requires EmptyIdCited(atoms)
    ensures !Dual(atoms)
  {
    var y :| y != "" && Cites(atoms, y, "");
    var g, h := ParentGraph(ById(atoms)), Referencers(atoms);
    ReferencersCite(atoms, "", y);
    ReferencersAreStored(atoms, "");
    WithinZero(h, "", "");
    WithinExtends(h, "", "", y, 0);
    assert InCascade(atoms, "", 0, y);
    EmptyIdIsNoParent(atoms, y);
  }

  lemma EmptyIdIsNoParent(atoms: seq<Atom>, y: string)
    requires y != ""
    ensures !InChain(atoms, y, 1, "")
  {
    hide ParentGraph;
    var g := ParentGraph(ById(atoms));
    WithinZero(g, y, "");
    if InChain(atoms, y, 1, "") {
      var z := WithinHasLastEdge(g, y, "", 0);
      ParentsAreCited(atoms, z, "");
    }
  }

  // With unique ids, y is in the cascade of x to depth d exactly when x is in the chain of
  // y to depth d + 1, for all pairs and depths, unless an empty id is cited: the chain
  // drops empty references and the cascade does not.
  lemma WalksAreDualExactlyWhen(atoms: seq<Atom>)
    requires UniqueIds(atoms)
    ensures Dual(atoms) <==> !EmptyIdCited(atoms)
  {
    if EmptyIdCited(atoms) {
      EmptyIdBreaksDuality(atoms);
    } else {
      var g, h, stored := ParentGraph(ById(atoms)), Referencers(atoms), ById(atoms).Keys;
      CascadeReversesChain(atoms);
      ChainReversesCascade(atoms);
      forall x, y, d: nat | x in ById(atoms) && y in ById(atoms) && x != y
        ensures InCascade(atoms, x, d, y) <==> InChain(atoms, y, d + 1, x)
      {
        if InCascade(atoms, x, d, y) { WithinReversed(h, g, stored, x, y, d + 1); }
        if InChain(atoms, y, d + 1, x) { WithinReversed(g, h, stored, y, x, d + 1); }
      }
    }
  }
}
