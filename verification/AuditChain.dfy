// `buildAuditChain` of apps/console/server/audit-chain.ts: the forward walk from an atom
// to its ancestors.

module AuditChain {
  import opened Prelude
  import opened ProvenanceGraph

  // An entry of provenance.derived_from as found on disk.
  datatype Ref = Text(id: string) | NotText

  // derivedFrom is None when the field is missing or is not an array.
  datatype Atom = Atom(id: string, derivedFrom: Option<seq<Ref>>)

  datatype Edge = Edge(child: string, parent: string)

  datatype Response = Response(atoms: seq<Atom>, edges: seq<Edge>, depthReached: bool, missingAncestors: nat)

  datatype WalkEntry = WalkEntry(id: string, depth: nat)

  function KeepIds(raw: seq<Ref>): (ids: seq<string>)
    ensures forall p :: p in ids <==> p != "" && Text(p) in raw
  {
    if raw == [] then []
    else (if raw[0].Text? && raw[0].id != "" then [raw[0].id] else []) + KeepIds(raw[1..])
  }

  // Entries are kept in the order in which they stand.
  lemma {:induction false} KeepIdsInOrder(first: seq<Ref>, second: seq<Ref>)
    ensures KeepIds(first + second) == KeepIds(first) + KeepIds(second)
    decreases |first|
  {
    if first == [] {
      assert first + second == second;
    } else {
      assert (first + second)[0] == first[0] && (first + second)[1..] == first[1..] + second;
      KeepIdsInOrder(first[1..], second);
    }
  }

  function ReadDerivedFrom(a: Atom): seq<string> {
    if a.derivedFrom.Some? then KeepIds(a.derivedFrom.value) else []
  }

  // A later atom with the same id replaces an earlier one.
  function ById(atoms: seq<Atom>): map<string, Atom> {
    if atoms == [] then map[]
    else ById(atoms[..|atoms| - 1])[atoms[|atoms| - 1].id := atoms[|atoms| - 1]]
  }

  lemma {:induction false} ByIdHoldsTheIds(atoms: seq<Atom>)
    ensures forall id :: id in ById(atoms) ==> ById(atoms)[id].id == id && ById(atoms)[id] in atoms
    ensures forall a :: a in atoms ==> a.id in ById(atoms)
  {
    if atoms != [] {
      var front := atoms[..|atoms| - 1];
      ByIdHoldsTheIds(front);
      assert atoms == front + [atoms[|atoms| - 1]];
    }
  }

  // Of several atoms with one id the last counts.
  lemma {:induction false} LastAtomWins(atoms: seq<Atom>, j: nat)
    requires j < |atoms| && forall l :: j < l < |atoms| ==> atoms[l].id != atoms[j].id
    ensures atoms[j].id in ById(atoms) && ById(atoms)[atoms[j].id] == atoms[j]
    decreases |atoms|
  {
    if j < |atoms| - 1 { LastAtomWins(atoms[..|atoms| - 1], j); }
  }

  method IndexById(atoms: seq<Atom>) returns (byId: map<string, Atom>)
    ensures byId == ById(atoms)
    ensures forall j :: 0 <= j < |atoms| && (forall l :: j < l < |atoms| ==> atoms[l].id != atoms[j].id) ==>
              atoms[j].id in byId && byId[atoms[j].id] == atoms[j]
    ensures forall id :: id in byId ==> byId[id].id == id && byId[id] in atoms
  {
    byId := map[];
    for i := 0 to |atoms|
      invariant byId == ById(atoms[..i])
    {
      assert atoms[..i + 1][..i] == atoms[..i];
      byId := byId[atoms[i].id := atoms[i]];
    }
    assert atoms[..|atoms|] == atoms;
    hide ById;
    ByIdHoldsTheIds(atoms);
    forall j: nat | j < |atoms| && forall l :: j < l < |atoms| ==> atoms[l].id != atoms[j].id
      ensures atoms[j].id in byId && byId[atoms[j].id] == atoms[j]
    {
      LastAtomWins(atoms, j);
    }
  }

  function Parents(byId: map<string, Atom>, id: string): seq<string> {
    if id in byId then ReadDerivedFrom(byId[id]) else []
  }

  function Stored(ids: seq<string>, byId: map<string, Atom>): (kept: seq<string>)
    ensures forall p :: p in kept <==> p in ids && p in byId
  {
    if ids == [] then [] else (if ids[0] in byId then [ids[0]] else []) + Stored(ids[1..], byId)
  }

  lemma {:induction false} StoredOneMore(ids: seq<string>, id: string, byId: map<string, Atom>)
    ensures Stored(ids + [id], byId) == Stored(ids, byId) + (if id in byId then [id] else [])
    decreases |ids|
  {
    if ids == [] {
      assert [id][1..] == [] && ids + [id] == [id];
    } else {
      assert (ids + [id])[0] == ids[0] && (ids + [id])[1..] == ids[1..] + [id];
      StoredOneMore(ids[1..], id, byId);
    }
  }

  // Each atom points at those of its parents that are stored.
  function ParentGraph(byId: map<string, Atom>): Graph { map id | id in byId :: Stored(Parents(byId, id), byId) }

  function AllCited(byId: map<string, Atom>, ids: seq<string>): set<string> {
    set i, p | 0 <= i < |ids| && p in Parents(byId, ids[i]) :: p
  }

  function Ids(atoms: seq<Atom>): seq<string> { seq(|atoms|, i requires 0 <= i < |atoms| => atoms[i].id) }

  // At distance exactly n.
  ghost predicate At(g: Graph, seed: string, z: string, n: nat) {
    Within(g, seed, z, n) && (n == 0 || !Within(g, seed, z, n - 1))
  }

  // ---- The walk's variables ----

  ghost predicate Walking(byId: map<string, Atom>, seed: string, maxDepth: nat, order: seq<string>, dist: seq<nat>, k: nat,
                          queue: seq<WalkEntry>, included: set<string>)
  {
    && Wave(ParentGraph(byId), seed, maxDepth, order, dist, k)
    && Queued(order, dist, k, queue)
    && Mirrors(byId, order, included)
  }

  // The pairs pushed so far: atoms that were expanded, with each parent they cite.
  ghost predicate EdgesPushed(byId: map<string, Atom>, maxDepth: nat, order: seq<string>, dist: seq<nat>, k: nat,
                              edges: seq<Edge>)
    requires k <= |order| == |dist|
  {
    forall e :: e in edges <==>
      exists i :: 0 <= i < k && order[i] == e.child && dist[i] < maxDepth && e.parent in Parents(byId, e.child)
  }

  // What the boundary atoms seen so far cite beyond the chain.
  ghost predicate BoundarySeen(byId: map<string, Atom>, maxDepth: nat, order: seq<string>, dist: seq<nat>, k: nat,
                               missing: set<string>, depthReached: bool)
    requires k <= |order| == |dist|
  {
    && (forall p :: p in missing <==> p !in order && exists i :: 0 <= i < k && dist[i] == maxDepth && p in Parents(byId, order[i]))
    && (depthReached <==> exists i :: 0 <= i < k && dist[i] == maxDepth && Parents(byId, order[i]) != [])
  }

  ghost predicate Queued(order: seq<string>, dist: seq<nat>, k: nat, queue: seq<WalkEntry>) {
    && k <= |order| == |dist|
    && |queue| == |order| - k
    && (forall j :: 0 <= j < |queue| ==> queue[j] == WalkEntry(order[k + j], dist[k + j]))
  }

  lemma QueueGrows(order: seq<string>, dist: seq<nat>, k: nat, queue: seq<WalkEntry>, z: string, d: nat)
    requires Queued(order, dist, k, queue)
    ensures Queued(order + [z], dist + [d], k, queue + [WalkEntry(z, d)])
  {
  }

  // The listed ids are stored atoms, and the set mirrors the list.
  ghost predicate Mirrors(byId: map<string, Atom>, order: seq<string>, included: set<string>) {
    (forall z :: z in included <==> z in order) && (forall z :: z in order ==> z in byId)
  }

  lemma MirrorGrows(byId: map<string, Atom>, order: seq<string>, included: set<string>, z: string)
    requires Mirrors(byId, order, included) && z in byId
    ensures Mirrors(byId, order + [z], included + {z})
  {
  }

  lemma ParentIsSuccessor(byId: map<string, Atom>, child: string, z: string)
    requires child in byId
    ensures z in Succ(ParentGraph(byId), child) <==> z in Parents(byId, child) && z in byId
  {
  }

  // The head of the queue has been taken off and its parents are being looked at.
  ghost predicate Expanding(byId: map<string, Atom>, seed: string, maxDepth: nat, order: seq<string>, dist: seq<nat>,
                            k: nat, cur: WalkEntry, queue: seq<WalkEntry>, included: set<string>)
  {
    && Wave(ParentGraph(byId), seed, maxDepth, order, dist, k)
    && k < |order| && order[k] == cur.id && dist[k] == cur.depth
    && Queued(order, dist, k + 1, queue)
    && Mirrors(byId, order, included)
  }

  lemma WalkTakesHead(byId: map<string, Atom>, seed: string, maxDepth: nat, order: seq<string>, dist: seq<nat>, k: nat,
                      queue: seq<WalkEntry>, included: set<string>)
    requires Walking(byId, seed, maxDepth, order, dist, k, queue, included) && queue != []
    ensures Expanding(byId, seed, maxDepth, order, dist, k, queue[0], queue[1..], included)
  {
  }

  lemma WalkDiscovers(byId: map<string, Atom>, seed: string, maxDepth: nat, order: seq<string>, dist: seq<nat>, k: nat,
                      cur: WalkEntry, queue: seq<WalkEntry>, included: set<string>, z: string)
    requires Expanding(byId, seed, maxDepth, order, dist, k, cur, queue, included)
    requires cur.depth < maxDepth && z in byId && z in Parents(byId, cur.id) && z !in included
    ensures Expanding(byId, seed, maxDepth, order + [z], dist + [cur.depth + 1], k, cur,
                      queue + [WalkEntry(z, cur.depth + 1)], included + {z})
  {
    ParentIsSuccessor(byId, cur.id, z);
    WaveDiscovers(ParentGraph(byId), seed, maxDepth, order, dist, k, z);
    QueueGrows(order, dist, k + 1, queue, z, cur.depth + 1);
    MirrorGrows(byId, order, included, z);
  }

  lemma WalkMovesOn(byId: map<string, Atom>, seed: string, maxDepth: nat, order: seq<string>, dist: seq<nat>, k: nat,
                    cur: WalkEntry, queue: seq<WalkEntry>, included: set<string>)
    requires Expanding(byId, seed, maxDepth, order, dist, k, cur, queue, included)
    requires cur.depth < maxDepth ==> forall z :: z in Parents(byId, cur.id) && z in byId ==> z in order
    ensures Walking(byId, seed, maxDepth, order, dist, k + 1, queue, included)
  {
    forall z | z in Succ(ParentGraph(byId), cur.id) && cur.depth < maxDepth
      ensures z in order
    {
      ParentIsSuccessor(byId, cur.id, z);
    }
    WaveMovesOn(ParentGraph(byId), seed, maxDepth, order, dist, k);
  }

  // Exactly one edge per parent looked at, in order.
  ghost predicate EdgesTo(pushed: seq<Edge>, child: string, parents: seq<string>) {
    |pushed| == |parents| && forall i :: 0 <= i < |pushed| ==> pushed[i] == Edge(child, parents[i])
  }

  lemma EdgesToMembers(pushed: seq<Edge>, child: string, parents: seq<string>)
    requires EdgesTo(pushed, child, parents)
    ensures forall e :: e in pushed <==> e.child == child && e.parent in parents
  {
    forall e: Edge | e.child == child && e.parent in parents
      ensures e in pushed
    {
      var i :| 0 <= i < |parents| && parents[i] == e.parent;
      assert pushed[i] == e;
    }
  }

  lemma EdgesToOneMore(pushed: seq<Edge>, child: string, parents: seq<string>, parent: string)
    requires EdgesTo(pushed, child, parents)
    ensures EdgesTo(pushed + [Edge(child, parent)], child, parents + [parent])
  {
  }

  // Expanding, with the parents in `seen` looked at since the lists were order0 and dist0.
  ghost predicate HalfExpanded(byId: map<string, Atom>, seed: string, maxDepth: nat, k: nat, cur: WalkEntry,
                               order0: seq<string>, dist0: seq<nat>, seen: seq<string>,
                               order: seq<string>, dist: seq<nat>, queue: seq<WalkEntry>, included: set<string>,
                               pushed: seq<Edge>)
  {
    && Expanding(byId, seed, maxDepth, order, dist, k, cur, queue, included)
    && order0 <= order && dist0 <= dist
    && EdgesTo(pushed, cur.id, seen)
    && (forall z :: z in seen && z in byId ==> z in order)
    && order == Append(order0, Stored(seen, byId))
  }

  lemma LooksAtOldParent(byId: map<string, Atom>, seed: string, maxDepth: nat, k: nat, cur: WalkEntry,
                         order0: seq<string>, dist0: seq<nat>, seen: seq<string>,
                         order: seq<string>, dist: seq<nat>, queue: seq<WalkEntry>, included: set<string>,
                         pushed: seq<Edge>, parent: string)
    requires HalfExpanded(byId, seed, maxDepth, k, cur, order0, dist0, seen, order, dist, queue, included, pushed)
    requires parent in included || parent !in byId
    ensures HalfExpanded(byId, seed, maxDepth, k, cur, order0, dist0, seen + [parent], order, dist, queue, included,
                         pushed + [Edge(cur.id, parent)])
  {
    EdgesToOneMore(pushed, cur.id, seen, parent);
    StoredOneMore(seen, parent, byId);
    AppendOneMore(order0, Stored(seen, byId), parent);
    assert Stored(seen, byId) + [] == Stored(seen, byId);
    hide EdgesTo;
  }

  lemma LooksAtNewParent(byId: map<string, Atom>, seed: string, maxDepth: nat, k: nat, cur: WalkEntry,
                         order0: seq<string>, dist0: seq<nat>, seen: seq<string>,
                         order: seq<string>, dist: seq<nat>, queue: seq<WalkEntry>, included: set<string>,
                         pushed: seq<Edge>, parent: string)
    requires HalfExpanded(byId, seed, maxDepth, k, cur, order0, dist0, seen, order, dist, queue, included, pushed)
    requires cur.depth < maxDepth && parent in byId && parent !in included && parent in Parents(byId, cur.id)
    ensures HalfExpanded(byId, seed, maxDepth, k, cur, order0, dist0, seen + [parent],
                         order + [parent], dist + [cur.depth + 1], queue + [WalkEntry(parent, cur.depth + 1)],
                         included + {parent}, pushed + [Edge(cur.id, parent)])
  {
    EdgesToOneMore(pushed, cur.id, seen, parent);
    WalkDiscovers(byId, seed, maxDepth, order, dist, k, cur, queue, included, parent);
    StoredOneMore(seen, parent, byId);
    AppendOneMore(order0, Stored(seen, byId), parent);
    assert parent !in order;
    hide Expanding;
    hide EdgesTo;
  }

  lemma AllParentsSeen(byId: map<string, Atom>, seed: string, maxDepth: nat, k: nat, cur: WalkEntry,
                       order0: seq<string>, dist0: seq<nat>, order: seq<string>, dist: seq<nat>,
                       queue: seq<WalkEntry>, included: set<string>, pushed: seq<Edge>)
    requires cur.id in byId
    requires HalfExpanded(byId, seed, maxDepth, k, cur, order0, dist0, Parents(byId, cur.id), order, dist, queue, included,
                          pushed)
    ensures Walking(byId, seed, maxDepth, order, dist, k + 1, queue, included)
    ensures order0 <= order && dist0 <= dist && EdgesTo(pushed, cur.id, Parents(byId, cur.id))
    ensures order == Append(order0, Succ(ParentGraph(byId), cur.id))
  {
    WalkMovesOn(byId, seed, maxDepth, order, dist, k, cur, queue, included);
  }

  // Expands the atom at the head of the queue.
  method ExpandAtom(byId: map<string, Atom>, ghost seed: string, maxDepth: nat, cur: WalkEntry, orderedIds: seq<string>,
                    queue: seq<WalkEntry>, included: set<string>, ghost dist: seq<nat>, ghost k: nat)
      returns (orderedIds': seq<string>, queue': seq<WalkEntry>, included': set<string>, pushed: seq<Edge>,
               ghost dist': seq<nat>)
    requires Expanding(byId, seed, maxDepth, orderedIds, dist, k, cur, queue, included)
    requires cur.depth < maxDepth
    ensures Walking(byId, seed, maxDepth, orderedIds', dist', k + 1, queue', included')
    ensures orderedIds <= orderedIds' && dist <= dist'
    ensures EdgesTo(pushed, cur.id, Parents(byId, cur.id))
    ensures orderedIds' == Append(orderedIds, Succ(ParentGraph(byId), cur.id))
  {
    var parents := ReadDerivedFrom(byId[cur.id]);
    hide Walking;
    NothingSeen(byId, seed, maxDepth, k, cur, orderedIds, dist, queue, included);
    orderedIds', queue', included', pushed, dist' :=
      LookAtParents(byId, seed, maxDepth, cur, parents, orderedIds, queue, included, dist, k);
    hide HalfExpanded;
    hide Expanding;
    AllParentsSeen(byId, seed, maxDepth, k, cur, orderedIds, dist, orderedIds', dist', queue', included', pushed);
  }

  lemma NothingSeen(byId: map<string, Atom>, seed: string, maxDepth: nat, k: nat, cur: WalkEntry, order: seq<string>,
                    dist: seq<nat>, queue: seq<WalkEntry>, included: set<string>)
    requires Expanding(byId, seed, maxDepth, order, dist, k, cur, queue, included)
    ensures HalfExpanded(byId, seed, maxDepth, k, cur, order, dist, [], order, dist, queue, included, [])
  {
  }

  method LookAtParents(byId: map<string, Atom>, ghost seed: string, maxDepth: nat, cur: WalkEntry, parents: seq<string>,
                       orderedIds: seq<string>, queue: seq<WalkEntry>, included: set<string>, ghost dist: seq<nat>,
                       ghost k: nat)
      returns (orderedIds': seq<string>, queue': seq<WalkEntry>, included': set<string>, pushed: seq<Edge>,
               ghost dist': seq<nat>)
    requires cur.depth < maxDepth && cur.id in byId && parents == Parents(byId, cur.id)
    requires HalfExpanded(byId, seed, maxDepth, k, cur, orderedIds, dist, [], orderedIds, dist, queue, included, [])
    ensures HalfExpanded(byId, seed, maxDepth, k, cur, orderedIds, dist, parents,
                         orderedIds', dist', queue', included', pushed)
  {
    hide *;
    orderedIds', queue', included', pushed, dist' := orderedIds, queue, included, [], dist;
    assert parents[..0] == [];
    for m := 0 to |parents|
      invariant HalfExpanded(byId, seed, maxDepth, k, cur, orderedIds, dist, parents[..m],
                             orderedIds', dist', queue', included', pushed)
    {
      var parentId := parents[m];
      assert parents[..m + 1] == parents[..m] + [parentId];
      if parentId !in included' && parentId in byId {
        LooksAtNewParent(byId, seed, maxDepth, k, cur, orderedIds, dist, parents[..m],
                         orderedIds', dist', queue', included', pushed, parentId);
        included' := included' + {parentId};
        orderedIds' := orderedIds' + [parentId];
        queue' := queue' + [WalkEntry(parentId, cur.depth + 1)];
        dist' := dist' + [cur.depth + 1];
      } else {
        LooksAtOldParent(byId, seed, maxDepth, k, cur, orderedIds, dist, parents[..m],
                         orderedIds', dist', queue', included', pushed, parentId);
      }
      pushed := pushed + [Edge(cur.id, parentId)];
    }
    assert parents[..|parents|] == parents;
  }

  lemma ExpansionPushes(byId: map<string, Atom>, maxDepth: nat, order: seq<string>, dist: seq<nat>, k: nat,
                        edges: seq<Edge>, order': seq<string>, dist': seq<nat>, pushed: seq<Edge>)
    requires k < |order| == |dist| && order <= order' && dist <= dist' && |order'| == |dist'|
    requires EdgesPushed(byId, maxDepth, order, dist, k, edges) && dist[k] < maxDepth
    requires EdgesTo(pushed, order[k], Parents(byId, order[k]))
    ensures EdgesPushed(byId, maxDepth, order', dist', k + 1, edges + pushed)
  {
    assert forall i :: 0 <= i < |order| ==> order'[i] == order[i] && dist'[i] == dist[i];
    EdgesToMembers(pushed, order[k], Parents(byId, order[k]));
    hide EdgesTo;
  }

  lemma ExpansionSeesNoBoundary(byId: map<string, Atom>, maxDepth: nat, order: seq<string>, dist: seq<nat>, k: nat,
                                missing: set<string>, depthReached: bool, order': seq<string>, dist': seq<nat>)
    requires k < |order| == |dist| && order <= order' && dist <= dist' && |order'| == |dist'|
    requires forall i :: 0 <= i <= k ==> dist[i] < maxDepth
    requires BoundarySeen(byId, maxDepth, order, dist, k, missing, depthReached)
    ensures BoundarySeen(byId, maxDepth, order', dist', k + 1, missing, depthReached)
  {
    assert forall i :: 0 <= i < |order| ==> order'[i] == order[i] && dist'[i] == dist[i];
  }

  lemma BoundaryPushesNothing(byId: map<string, Atom>, maxDepth: nat, order: seq<string>, dist: seq<nat>, k: nat,
                              edges: seq<Edge>)
    requires k < |order| == |dist| && EdgesPushed(byId, maxDepth, order, dist, k, edges) && dist[k] >= maxDepth
    ensures EdgesPushed(byId, maxDepth, order, dist, k + 1, edges)
  {
  }

  // Looks at an atom the depth limit keeps from being expanded.
  method LookAtBoundary(byId: map<string, Atom>, maxDepth: nat, cur: WalkEntry, included: set<string>,
                        missing: set<string>, depthReached: bool, ghost order: seq<string>, ghost dist: seq<nat>, ghost k: nat)
      returns (missing': set<string>, depthReached': bool)
    requires k < |order| == |dist| && order[k] == cur.id && dist[k] == maxDepth && cur.id in byId
    requires Mirrors(byId, order, included)
    requires BoundarySeen(byId, maxDepth, order, dist, k, missing, depthReached)
    ensures BoundarySeen(byId, maxDepth, order, dist, k + 1, missing', depthReached')
  {
    missing', depthReached' := missing, depthReached;
    var parents := ReadDerivedFrom(byId[cur.id]);
    if |parents| > 0 {
      depthReached' := true;
      for m := 0 to |parents|
        invariant forall p :: p in missing' <==> p in missing || (p in parents[..m] && p !in included)
      {
        assert parents[..m + 1] == parents[..m] + [parents[m]];
        if parents[m] !in included { missing' := missing' + {parents[m]}; }
      }
      assert parents[..|parents|] == parents;
    }
    BoundaryStep(byId, maxDepth, order, dist, k, missing, depthReached, missing', depthReached');
  }

  lemma BoundaryStep(byId: map<string, Atom>, maxDepth: nat, order: seq<string>, dist: seq<nat>, k: nat,
                     missing: set<string>, depthReached: bool, missing': set<string>, depthReached': bool)
    requires k < |order| == |dist| && dist[k] == maxDepth
    requires BoundarySeen(byId, maxDepth, order, dist, k, missing, depthReached)
    requires forall p :: p in missing' <==> p in missing || (p in Parents(byId, order[k]) && p !in order)
    requires depthReached' == (depthReached || Parents(byId, order[k]) != [])
    ensures BoundarySeen(byId, maxDepth, order, dist, k + 1, missing', depthReached')
  {
  }

  // The edges to listed parents, each where it stands first.
  function Resolved(accumulated: seq<Edge>, included: set<string>): seq<Edge>
    decreases |accumulated|
  {
    if accumulated == [] then []
    else
      var earlier, e := Resolved(accumulated[..|accumulated| - 1], included), accumulated[|accumulated| - 1];
      if e.parent in included && e !in earlier then earlier + [e] else earlier
  }

  // Keeps each pushed edge whose parent is in the chain, once; every other parent is missing.
  method ResolveEdges(accumulated: seq<Edge>, included: set<string>, missing: set<string>)
      returns (edges: seq<Edge>, missing': set<string>)
    ensures forall e :: e in edges <==> e in accumulated && e.parent in included
    ensures forall i, j :: 0 <= i < j < |edges| ==> edges[i] != edges[j]
    ensures edges == Resolved(accumulated, included)
    ensures forall p :: p in missing' <==> p in missing || (p !in included && exists e :: e in accumulated && e.parent == p)
  {
    edges, missing' := [], missing;
    var edgeKey: set<Edge> := {};
    for m := 0 to |accumulated|
      invariant forall e :: e in edges <==> e in accumulated[..m] && e.parent in included
      invariant edges == Resolved(accumulated[..m], included)
      invariant forall e :: e in edgeKey <==> e in edges
      invariant forall i, j :: 0 <= i < j < |edges| ==> edges[i] != edges[j]
      invariant forall p :: p in missing' <==>
                  p in missing || (p !in included && exists e :: e in accumulated[..m] && e.parent == p)
    {
      var e := accumulated[m];
      assert accumulated[..m + 1] == accumulated[..m] + [e];
      assert accumulated[..m + 1][..m] == accumulated[..m];
      if e.parent !in included {
        missing' := missing' + {e.parent};
      } else if e !in edgeKey {
        edgeKey := edgeKey + {e};
        edges := edges + [e];
      }
    }
    assert accumulated[..|accumulated|] == accumulated;
  }

  // ---- What the projection promises ----

  // An edge joins an atom nearer than the limit to a parent it cites that is in the chain.
  ghost predicate EdgesRight(byId: map<string, Atom>, seed: string, maxDepth: nat, ids: seq<string>, edges: seq<Edge>) {
    && (forall i, j :: 0 <= i < j < |edges| ==> edges[i] != edges[j])
    && (forall e :: e in edges <==>
          && 0 < maxDepth && Within(ParentGraph(byId), seed, e.child, maxDepth - 1)
          && e.parent in Parents(byId, e.child)
          && e.parent in ids)
  }

  ghost predicate TruncationRight(byId: map<string, Atom>, seed: string, maxDepth: nat, ids: seq<string>,
                                  depthReached: bool, missingAncestors: nat)
  {
    && (depthReached <==> exists z :: At(ParentGraph(byId), seed, z, maxDepth) && Parents(byId, z) != [])
    && missingAncestors == |AllCited(byId, ids) - (set z | z in ids)|
  }

  ghost predicate IsChain(byId: map<string, Atom>, seed: string, maxDepth: nat, r: Response) {
    && (forall i :: 0 <= i < |r.atoms| ==> r.atoms[i].id in byId && r.atoms[i] == byId[r.atoms[i].id])
    && Walk(ParentGraph(byId), seed, maxDepth, Ids(r.atoms))
    && EdgesRight(byId, seed, maxDepth, Ids(r.atoms), r.edges)
    && TruncationRight(byId, seed, maxDepth, Ids(r.atoms), r.depthReached, r.missingAncestors)
  }

  lemma NearerIsEarlier(byId: map<string, Atom>, seed: string, maxDepth: nat, order: seq<string>, dist: seq<nat>, z: string, n: nat)
    requires Wave(ParentGraph(byId), seed, maxDepth, order, dist, |order|) && n <= maxDepth
    ensures Within(ParentGraph(byId), seed, z, n) <==> exists i :: 0 <= i < |order| && order[i] == z && dist[i] <= n
  {
    var g := ParentGraph(byId);
    if Within(g, seed, z, n) {
      WithinGrows(g, seed, z, n, maxDepth);
      WaveEnds(g, seed, maxDepth, order, dist);
      var i :| 0 <= i < |order| && order[i] == z;
      DistIsShortest(g, seed, maxDepth, order, dist, |order|, i, n);
    }
    forall i | 0 <= i < |order| && order[i] == z && dist[i] <= n
      ensures Within(g, seed, z, n)
    {
      DistIsShortest(g, seed, maxDepth, order, dist, |order|, i, n);
    }
  }

  lemma EdgesEndRight(byId: map<string, Atom>, seed: string, maxDepth: nat, order: seq<string>, dist: seq<nat>,
                      accumulated: seq<Edge>, edges: seq<Edge>)
    requires Wave(ParentGraph(byId), seed, maxDepth, order, dist, |order|)
    requires EdgesPushed(byId, maxDepth, order, dist, |order|, accumulated)
    requires forall i, j :: 0 <= i < j < |edges| ==> edges[i] != edges[j]
    requires forall e :: e in edges <==> e in accumulated && e.parent in order
    ensures EdgesRight(byId, seed, maxDepth, order, edges)
  {
    forall e: Edge
      ensures e in accumulated <==>
        && 0 < maxDepth && Within(ParentGraph(byId), seed, e.child, maxDepth - 1)
        && e.parent in Parents(byId, e.child)
    {
      EdgeEndsRight(byId, seed, maxDepth, order, dist, accumulated, e);
    }
    hide Wave;
    hide EdgesPushed;
    hide Within;
    hide Parents;
  }

  lemma EdgeEndsRight(byId: map<string, Atom>, seed: string, maxDepth: nat, order: seq<string>, dist: seq<nat>,
                      accumulated: seq<Edge>, e: Edge)
    requires Wave(ParentGraph(byId), seed, maxDepth, order, dist, |order|)
    requires EdgesPushed(byId, maxDepth, order, dist, |order|, accumulated)
    ensures e in accumulated <==>
      && 0 < maxDepth && Within(ParentGraph(byId), seed, e.child, maxDepth - 1)
      && e.parent in Parents(byId, e.child)
  {
    hide Within;
    hide ParentGraph;
    if 0 < maxDepth { NearerIsEarlier(byId, seed, maxDepth, order, dist, e.child, maxDepth - 1); }
  }

  lemma AtIsDist(byId: map<string, Atom>, seed: string, maxDepth: nat, order: seq<string>, dist: seq<nat>, z: string)
    requires Wave(ParentGraph(byId), seed, maxDepth, order, dist, |order|)
    ensures At(ParentGraph(byId), seed, z, maxDepth) <==>
              exists i :: 0 <= i < |order| && order[i] == z && dist[i] == maxDepth
  {
    NearerIsEarlier(byId, seed, maxDepth, order, dist, z, maxDepth);
    if 0 < maxDepth { NearerIsEarlier(byId, seed, maxDepth, order, dist, z, maxDepth - 1); }
  }

  lemma DepthReachedIsRight(byId: map<string, Atom>, seed: string, maxDepth: nat, order: seq<string>, dist: seq<nat>,
                            boundary: set<string>, depthReached: bool)
    requires Wave(ParentGraph(byId), seed, maxDepth, order, dist, |order|)
    requires BoundarySeen(byId, maxDepth, order, dist, |order|, boundary, depthReached)
    ensures depthReached <==> exists z :: At(ParentGraph(byId), seed, z, maxDepth) && Parents(byId, z) != []
  {
    forall z
      ensures At(ParentGraph(byId), seed, z, maxDepth) <==>
                exists i :: 0 <= i < |order| && order[i] == z && dist[i] == maxDepth
    {
      AtIsDist(byId, seed, maxDepth, order, dist, z);
    }
  }

  // Boundary atoms and dropped edges between them account for every cited parent.
  lemma MissingIsRight(byId: map<string, Atom>, maxDepth: nat, order: seq<string>, dist: seq<nat>,
                       boundary: set<string>, depthReached: bool, accumulated: seq<Edge>, missing: set<string>)
    requires |order| == |dist| && (forall i :: 0 <= i < |dist| ==> dist[i] <= maxDepth)
    requires EdgesPushed(byId, maxDepth, order, dist, |order|, accumulated)
    requires BoundarySeen(byId, maxDepth, order, dist, |order|, boundary, depthReached)
    requires forall p :: p in missing <==> p in boundary || (p !in order && exists e :: e in accumulated && e.parent == p)
    ensures missing == AllCited(byId, order) - (set z | z in order)
  {
    forall p
      ensures p in missing <==> p in AllCited(byId, order) && p !in order
    {
      if p in AllCited(byId, order) && p !in order {
        var i :| 0 <= i < |order| && p in Parents(byId, order[i]);
        if dist[i] < maxDepth { assert Edge(order[i], p) in accumulated; }
      }
    }
  }

  lemma ProjectionIsRight(byId: map<string, Atom>, seed: string, maxDepth: nat, order: seq<string>, dist: seq<nat>,
                          boundary: set<string>, depthReached: bool, accumulated: seq<Edge>,
                          edges: seq<Edge>, missing: set<string>, r: Response)
    requires Wave(ParentGraph(byId), seed, maxDepth, order, dist, |order|)
    requires EdgesPushed(byId, maxDepth, order, dist, |order|, accumulated)
    requires BoundarySeen(byId, maxDepth, order, dist, |order|, boundary, depthReached)
    requires forall i, j :: 0 <= i < j < |edges| ==> edges[i] != edges[j]
    requires forall e :: e in edges <==> e in accumulated && e.parent in order
    requires forall p :: p in missing <==> p in boundary || (p !in order && exists e :: e in accumulated && e.parent == p)
    requires forall i :: 0 <= i < |r.atoms| ==> r.atoms[i].id in byId && r.atoms[i] == byId[r.atoms[i].id]
    requires Ids(r.atoms) == order && r.edges == edges && r.depthReached == depthReached && r.missingAncestors == |missing|
    ensures IsChain(byId, seed, maxDepth, r)
  {
    WaveEnds(ParentGraph(byId), seed, maxDepth, order, dist);
    EdgesEndRight(byId, seed, maxDepth, order, dist, accumulated, edges);
    DepthReachedIsRight(byId, seed, maxDepth, order, dist, boundary, depthReached);
    MissingIsRight(byId, maxDepth, order, dist, boundary, depthReached, accumulated, missing);
  }

  // ---- The order of the walk ----

  // Every edge from a child to a parent it cites, child by child, in the order of the citations.
  function EdgesOut(byId: map<string, Atom>, children: seq<string>): (edges: seq<Edge>)
    decreases |children|
  {
    if children == [] then []
    else
      var child := children[|children| - 1];
      var parents := Parents(byId, child);
      EdgesOut(byId, children[..|children| - 1]) + seq(|parents|, i requires 0 <= i < |parents| => Edge(child, parents[i]))
  }

  // The list and the edges are what expanding the atoms taken off the queue so far makes of them.
  ghost predicate InOrder(byId: map<string, Atom>, seed: string, maxDepth: nat, order: seq<string>, dist: seq<nat>, k: nat,
                          edges: seq<Edge>)
  {
    && k <= |order| == |dist|
    && var expanded := Nearer(order, dist, k, maxDepth);
       order == Discovered(ParentGraph(byId), seed, expanded) && edges == EdgesOut(byId, expanded)
  }

  lemma ExpansionKeepsOrder(byId: map<string, Atom>, seed: string, maxDepth: nat, order: seq<string>, dist: seq<nat>, k: nat,
                            edges: seq<Edge>, order': seq<string>, dist': seq<nat>, pushed: seq<Edge>)
    requires InOrder(byId, seed, maxDepth, order, dist, k, edges) && k < |order| && dist[k] < maxDepth
    requires order <= order' && dist <= dist' && |order'| == |dist'|
    requires order' == Append(order, Succ(ParentGraph(byId), order[k])) && EdgesTo(pushed, order[k], Parents(byId, order[k]))
    ensures InOrder(byId, seed, maxDepth, order', dist', k + 1, edges + pushed)
  {
    NearerExpands(ParentGraph(byId), seed, maxDepth, order, dist, k, order', dist');
    NearerStays(order, dist, order', dist', k, maxDepth);
    var expanded := Nearer(order, dist, k, maxDepth);
    var longer := expanded + [order[k]];
    assert Nearer(order', dist', k + 1, maxDepth) == longer;
    hide Discovered;
    assert longer[..|longer| - 1] == expanded;
    var parents := Parents(byId, order[k]);
    assert pushed == seq(|parents|, i requires 0 <= i < |parents| => Edge(order[k], parents[i]));
    hide ParentGraph;
    hide Parents;
    hide EdgesTo;
  }

  lemma BoundaryKeepsOrder(byId: map<string, Atom>, seed: string, maxDepth: nat, order: seq<string>, dist: seq<nat>, k: nat,
                           edges: seq<Edge>)
    requires InOrder(byId, seed, maxDepth, order, dist, k, edges) && k < |order| && dist[k] >= maxDepth
    ensures InOrder(byId, seed, maxDepth, order, dist, k + 1, edges)
  {
    NearerWaits(order, dist, k, maxDepth);
  }

  // The atoms stand in the order of discovery, and the edges in the order of the walk.
  ghost predicate WalkOrder(byId: map<string, Atom>, seed: string, maxDepth: nat, r: Response) {
    var ids := Ids(r.atoms);
    && InDiscoveryOrder(ParentGraph(byId), seed, maxDepth, ids)
    && exists m :: && 0 <= m <= |ids| && NearerCount(ParentGraph(byId), seed, maxDepth, ids, m)
                   && r.edges == Resolved(EdgesOut(byId, ids[..m]), set id | id in ids)
  }

  lemma OrderIsRight(byId: map<string, Atom>, seed: string, maxDepth: nat, order: seq<string>, dist: seq<nat>,
                     accumulated: seq<Edge>, included: set<string>, r: Response)
    requires Wave(ParentGraph(byId), seed, maxDepth, order, dist, |order|)
    requires InOrder(byId, seed, maxDepth, order, dist, |order|, accumulated) && Mirrors(byId, order, included)
    requires Ids(r.atoms) == order && r.edges == Resolved(accumulated, included)
    ensures WalkOrder(byId, seed, maxDepth, r)
  {
    var g := ParentGraph(byId);
    DiscoveryEnds(g, seed, maxDepth, order, dist);
    var m := NearerComeFirst(order, dist, |order|, maxDepth);
    NearerAreCounted(g, seed, maxDepth, order, dist, m);
    assert included == set id | id in order;
  }

  // Everything the loop keeps, in one place.
  ghost predicate LoopState(byId: map<string, Atom>, seed: string, maxDepth: nat, order: seq<string>, dist: seq<nat>,
                            k: nat, queue: seq<WalkEntry>, included: set<string>, visited: set<string>,
                            edges: seq<Edge>, missing: set<string>, depthReached: bool)
  {
    && Walking(byId, seed, maxDepth, order, dist, k, queue, included)
    && (forall z :: z in visited <==> z in order[..k])
    && EdgesPushed(byId, maxDepth, order, dist, k, edges)
    && BoundarySeen(byId, maxDepth, order, dist, k, missing, depthReached)
    && InOrder(byId, seed, maxDepth, order, dist, k, edges)
  }

  // An id is queued once, when it is first listed, so what is taken off the queue has not
  // been visited and is stored.
  lemma HeadIsNew(byId: map<string, Atom>, seed: string, maxDepth: nat, order: seq<string>, dist: seq<nat>, k: nat,
                  queue: seq<WalkEntry>, included: set<string>, visited: set<string>,
                  edges: seq<Edge>, missing: set<string>, depthReached: bool)
    requires LoopState(byId, seed, maxDepth, order, dist, k, queue, included, visited, edges, missing, depthReached)
    requires queue != []
    ensures queue[0].id !in visited && queue[0].id in byId
  {
    WalkTakesHead(byId, seed, maxDepth, order, dist, k, queue, included);
  }

  lemma VisitedGrows(order: seq<string>, order': seq<string>, k: nat, visited: set<string>)
    requires k < |order| && order <= order' && (forall z :: z in visited <==> z in order[..k])
    ensures forall z :: z in visited + {order[k]} <==> z in order'[..k + 1]
  {
    assert order'[..k + 1] == order[..k] + [order[k]];
  }

  lemma LoopStarts(byId: map<string, Atom>, seed: string, maxDepth: nat)
    requires seed in byId
    ensures LoopState(byId, seed, maxDepth, [seed], [0], 0, [WalkEntry(seed, 0)], {seed}, {}, [], {}, false)
  {
    WaveStarts(ParentGraph(byId), seed, maxDepth);
  }

  lemma LoopEnds(byId: map<string, Atom>, seed: string, maxDepth: nat, order: seq<string>, dist: seq<nat>, k: nat,
                 queue: seq<WalkEntry>, included: set<string>, visited: set<string>, edges: seq<Edge>,
                 missing: set<string>, depthReached: bool)
    requires LoopState(byId, seed, maxDepth, order, dist, k, queue, included, visited, edges, missing, depthReached)
    requires queue == []
    ensures Wave(ParentGraph(byId), seed, maxDepth, order, dist, |order|)
    ensures Mirrors(byId, order, included)
    ensures EdgesPushed(byId, maxDepth, order, dist, |order|, edges)
    ensures BoundarySeen(byId, maxDepth, order, dist, |order|, missing, depthReached)
    ensures InOrder(byId, seed, maxDepth, order, dist, |order|, edges)
  {
  }

  // What the head of the queue can rely on.
  lemma LoopHead(byId: map<string, Atom>, seed: string, maxDepth: nat, order: seq<string>, dist: seq<nat>, k: nat,
                 cur: WalkEntry, queue: seq<WalkEntry>, included: set<string>, visited: set<string>,
                 edges: seq<Edge>, missing: set<string>, depthReached: bool)
    requires LoopState(byId, seed, maxDepth, order, dist, k, [cur] + queue, included, visited, edges, missing, depthReached)
    ensures Expanding(byId, seed, maxDepth, order, dist, k, cur, queue, included)
    ensures Mirrors(byId, order, included)
    ensures k < |order| == |dist| && order[k] == cur.id && dist[k] == cur.depth <= maxDepth
    ensures forall i :: 0 <= i <= k ==> dist[i] <= dist[k]
    ensures EdgesPushed(byId, maxDepth, order, dist, k, edges)
    ensures BoundarySeen(byId, maxDepth, order, dist, k, missing, depthReached)
    ensures InOrder(byId, seed, maxDepth, order, dist, k, edges)
    ensures forall z :: z in visited <==> z in order[..k]
  {
    assert ([cur] + queue)[1..] == queue;
    WalkTakesHead(byId, seed, maxDepth, order, dist, k, [cur] + queue, included);
    hide EdgesPushed;
    hide BoundarySeen;
    hide InOrder;
  }

  lemma BoundaryKeepsLoop(byId: map<string, Atom>, seed: string, maxDepth: nat, order: seq<string>, dist: seq<nat>, k: nat,
                          cur: WalkEntry, queue: seq<WalkEntry>, included: set<string>, visited: set<string>,
                          edges: seq<Edge>, missing: set<string>, depthReached: bool, missing': set<string>,
                          depthReached': bool)
    requires LoopState(byId, seed, maxDepth, order, dist, k, [cur] + queue, included, visited, edges, missing, depthReached)
    requires cur.depth >= maxDepth && k < |order| == |dist|
    requires BoundarySeen(byId, maxDepth, order, dist, k + 1, missing', depthReached')
    ensures LoopState(byId, seed, maxDepth, order, dist, k + 1, queue, included, visited + {cur.id}, edges, missing',
                      depthReached')
  {
    LoopHead(byId, seed, maxDepth, order, dist, k, cur, queue, included, visited, edges, missing, depthReached);
    hide Expanding;
    hide Walking;
    hide EdgesPushed;
    hide BoundarySeen;
    hide InOrder;
    hide Mirrors;
    BoundaryPushesNothing(byId, maxDepth, order, dist, k, edges);
    BoundaryKeepsOrder(byId, seed, maxDepth, order, dist, k, edges);
    WalkMovesOn(byId, seed, maxDepth, order, dist, k, cur, queue, included);
    VisitedGrows(order, order, k, visited);
  }

  lemma ExpansionKeepsLoop(byId: map<string, Atom>, seed: string, maxDepth: nat, order: seq<string>, dist: seq<nat>, k: nat,
                           cur: WalkEntry, queue: seq<WalkEntry>, included: set<string>, visited: set<string>,
                           edges: seq<Edge>, missing: set<string>, depthReached: bool,
                           order': seq<string>, dist': seq<nat>, queue': seq<WalkEntry>, included': set<string>,
                           pushed: seq<Edge>)
    requires LoopState(byId, seed, maxDepth, order, dist, k, [cur] + queue, included, visited, edges, missing, depthReached)
    requires cur.depth < maxDepth
    requires Walking(byId, seed, maxDepth, order', dist', k + 1, queue', included')
    requires order <= order' && dist <= dist' && EdgesTo(pushed, cur.id, Parents(byId, cur.id))
    requires order' == Append(order, Succ(ParentGraph(byId), cur.id))
    ensures LoopState(byId, seed, maxDepth, order', dist', k + 1, queue', included', visited + {cur.id}, edges + pushed,
                      missing, depthReached)
  {
    LoopHead(byId, seed, maxDepth, order, dist, k, cur, queue, included, visited, edges, missing, depthReached);
    assert |order'| == |dist'|;
    hide Expanding;
    hide Walking;
    hide EdgesPushed;
    hide BoundarySeen;
    hide InOrder;
    hide Mirrors;
    hide EdgesTo;
    ExpansionPushes(byId, maxDepth, order, dist, k, edges, order', dist', pushed);
    ExpansionSeesNoBoundary(byId, maxDepth, order, dist, k, missing, depthReached, order', dist');
    ExpansionKeepsOrder(byId, seed, maxDepth, order, dist, k, edges, order', dist', pushed);
    VisitedGrows(order, order', k, visited);
  }

  // Takes the head of the queue and either expands it or notes it as a boundary atom.
  method WalkOn(byId: map<string, Atom>, ghost seed: string, maxDepth: nat, cur: WalkEntry, orderedIds: seq<string>,
                queue: seq<WalkEntry>, included: set<string>, ghost visited: set<string>, edgesAccum: seq<Edge>,
                missing: set<string>, depthReached: bool, ghost dist: seq<nat>, ghost k: nat)
      returns (orderedIds': seq<string>, queue': seq<WalkEntry>, included': set<string>, edgesAccum': seq<Edge>,
               missing': set<string>, depthReached': bool, ghost dist': seq<nat>)
    requires LoopState(byId, seed, maxDepth, orderedIds, dist, k, [cur] + queue, included, visited, edgesAccum, missing, depthReached)
    requires cur.id in byId
    ensures LoopState(byId, seed, maxDepth, orderedIds', dist', k + 1, queue', included', visited + {cur.id},
                      edgesAccum', missing', depthReached')
  {
    hide LoopState;
    LoopHead(byId, seed, maxDepth, orderedIds, dist, k, cur, queue, included, visited, edgesAccum, missing, depthReached);
    orderedIds', queue', included', dist' := orderedIds, queue, included, dist;
    edgesAccum', missing', depthReached' := edgesAccum, missing, depthReached;
    if cur.depth >= maxDepth {
      missing', depthReached' :=
        LookAtBoundary(byId, maxDepth, cur, included, missing, depthReached, orderedIds, dist, k);
      BoundaryKeepsLoop(byId, seed, maxDepth, orderedIds, dist, k, cur, queue, included, visited, edgesAccum,
                        missing, depthReached, missing', depthReached');
    } else {
      var pushed;
      orderedIds', queue', included', pushed, dist' :=
        ExpandAtom(byId, seed, maxDepth, cur, orderedIds, queue, included, dist, k);
      edgesAccum' := edgesAccum + pushed;
      ExpansionKeepsLoop(byId, seed, maxDepth, orderedIds, dist, k, cur, queue, included, visited, edgesAccum,
                         missing, depthReached, orderedIds', dist', queue', included', pushed);
    }
  }

  // Runs the queue dry.
  method WalkToTheRoots(byId: map<string, Atom>, seedId: string, maxDepth: nat)
      returns (orderedIds: seq<string>, included: set<string>, edgesAccum: seq<Edge>, missingAncestorIds: set<string>,
               depthReached: bool, ghost dist: seq<nat>)
    requires seedId in byId
    ensures Wave(ParentGraph(byId), seedId, maxDepth, orderedIds, dist, |orderedIds|)
    ensures Mirrors(byId, orderedIds, included)
    ensures EdgesPushed(byId, maxDepth, orderedIds, dist, |orderedIds|, edgesAccum)
    ensures BoundarySeen(byId, maxDepth, orderedIds, dist, |orderedIds|, missingAncestorIds, depthReached)
    ensures InOrder(byId, seedId, maxDepth, orderedIds, dist, |orderedIds|, edgesAccum)
  {
    included, orderedIds := {seedId}, [seedId];
    edgesAccum, missingAncestorIds, depthReached := [], {}, false;
    var queue, visited: set<string> := [WalkEntry(seedId, 0)], {};
    ghost var k: nat := 0;
    dist := [0];
    LoopStarts(byId, seedId, maxDepth);
    hide *;
    while |queue| > 0
      invariant LoopState(byId, seedId, maxDepth, orderedIds, dist, k, queue, included, visited, edgesAccum,
                          missingAncestorIds, depthReached)
      decreases byId.Keys - visited
    {
      HeadIsNew(byId, seedId, maxDepth, orderedIds, dist, k, queue, included, visited, edgesAccum,
                missingAncestorIds, depthReached);
      var cur := queue[0];
      assert queue == [cur] + queue[1..];
      orderedIds, queue, included, edgesAccum, missingAncestorIds, depthReached, dist :=
        WalkOn(byId, seedId, maxDepth, cur, orderedIds, queue[1..], included, visited, edgesAccum,
               missingAncestorIds, depthReached, dist, k);
      visited := visited + {cur.id};
      k := k + 1;
    }
    LoopEnds(byId, seedId, maxDepth, orderedIds, dist, k, queue, included, visited, edgesAccum,
             missingAncestorIds, depthReached);
  }

  function AtomsOf(byId: map<string, Atom>, ids: seq<string>): (atoms: seq<Atom>)
    requires forall id :: id in ids ==> id in byId && byId[id].id == id
    ensures Ids(atoms) == ids
    ensures forall i :: 0 <= i < |atoms| ==> atoms[i].id in byId && atoms[i] == byId[atoms[i].id]
  {
    seq(|ids|, i requires 0 <= i < |ids| && ids[i] in byId => byId[ids[i]])
  }

  // The forward walk: a null result for an unknown seed, otherwise the chain.
  method BuildAuditChain(seedId: string, atoms: seq<Atom>, maxDepth: nat) returns (r: Option<Response>)
    ensures r.None? <==> forall a :: a in atoms ==> a.id != seedId
    ensures r.Some? ==> IsChain(ById(atoms), seedId, maxDepth, r.value)
    ensures r.Some? ==> WalkOrder(ById(atoms), seedId, maxDepth, r.value)
  {
    var byId := IndexById(atoms);
    ByIdHoldsTheIds(atoms);
    if seedId !in byId { return None; }
    var orderedIds, included, edgesAccum, boundaryIds, depthReached;
    ghost var dist;
    orderedIds, included, edgesAccum, boundaryIds, depthReached, dist := WalkToTheRoots(byId, seedId, maxDepth);
    var edges, missingAncestorIds := ResolveEdges(edgesAccum, included, boundaryIds);
    var response := Response(AtomsOf(byId, orderedIds), edges, depthReached, |missingAncestorIds|);
    ProjectionIsRight(byId, seedId, maxDepth, orderedIds, dist, boundaryIds, depthReached, edgesAccum, edges,
                      missingAncestorIds, response);
    OrderIsRight(byId, seedId, maxDepth, orderedIds, dist, edgesAccum, included, response);
    r := Some(response);
  }
}
