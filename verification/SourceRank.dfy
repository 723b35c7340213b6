// `computePrincipalDepth` and `computeSourceRank` of apps/console/server/index.ts.

module SourceRank {
  import opened Prelude

  // Who signed each principal; a missing or empty signer marks a root.
  type Principals = map<string, Option<string>>

  const MAX_DEPTH := 9

  // b is the stored signer of the stored principal a.
  predicate Signs(ps: Principals, a: string, b: string) { a in ps && ps[a] == Some(b) && b != "" && b in ps }

  predicate HasSigner(ps: Principals, a: string) { a in ps && ps[a].Some? && Signs(ps, a, ps[a].value) }

  ghost predicate Ladder(ps: Principals, path: seq<string>) {
    forall i :: 0 <= i < |path| - 1 ==> Signs(ps, path[i], path[i + 1])
  }

  ghost predicate Distinct(path: seq<string>) {
    forall i, j :: 0 <= i < j < |path| ==> path[i] != path[j]
  }

  // The climb from id: up signer by signer until the cap, a principal without a stored
  // signer, or one met before.
  ghost predicate Climb(ps: Principals, id: string, path: seq<string>) {
    && 0 < |path| <= MAX_DEPTH + 1 && path[0] == id
    && Ladder(ps, path)
    && Distinct(path[..|path| - 1])
    && (|path| == MAX_DEPTH + 1 || !HasSigner(ps, path[|path| - 1]) || path[|path| - 1] in path[..|path| - 1])
  }

  ghost predicate IsDepth(ps: Principals, id: string, depth: nat) {
    if id in ps then exists path :: Climb(ps, id, path) && |path| == depth + 1 else depth == 0
  }

  method ComputePrincipalDepth(id: string, byId: Principals) returns (depth: nat)
    ensures IsDepth(byId, id, depth)
  {
    depth := 0;
    if id !in byId { return; }
    var cur := Some(id);
    var seen: set<string> := {};
    ghost var path := [id];
    while cur.Some? && byId[cur.value].Some? && byId[cur.value].value != "" && cur.value !in seen && depth < MAX_DEPTH
      invariant |path| == depth + 1 <= MAX_DEPTH + 1 && path[0] == id && Ladder(byId, path)
      invariant cur.Some? ==> cur.value in byId && cur.value == path[depth]
      invariant cur.Some? ==> forall z :: z in seen <==> z in path[..depth]
      invariant cur.None? ==> !HasSigner(byId, path[depth])
      invariant Distinct(path[..depth])
      decreases MAX_DEPTH - depth, if cur.Some? then 1 else 0
    {
      seen := seen + {cur.value};
      var signer := byId[cur.value].value;
      if signer in byId {
        assert path[..depth + 1] == path[..depth] + [cur.value];
        cur := Some(signer);
        depth := depth + 1;
        path := path + [signer];
        assert path[..depth] == path[..|path| - 1];
      } else {
        cur := None;
      }
    }
    assert Climb(byId, id, path);
  }

  // ---- Depth is well defined ----

  lemma {:induction false} LaddersAgree(ps: Principals, p: seq<string>, q: seq<string>, i: nat)
    requires Ladder(ps, p) && Ladder(ps, q) && i < |p| && i < |q| && p[0] == q[0]
    ensures p[i] == q[i]
  {
    if i > 0 {
      LaddersAgree(ps, p, q, i - 1);
      assert Signs(ps, p[i - 1], p[i]) && Signs(ps, q[i - 1], q[i]);
    }
  }

  // No principal is met twice on a climb before its last rung.
  lemma RungsDiffer(path: seq<string>, i: nat, j: nat)
    requires i < j < |path| - 1 && Distinct(path[..|path| - 1])
    ensures path[i] != path[j]
  {
    assert path[..|path| - 1][i] == path[i] && path[..|path| - 1][j] == path[j];
  }

  lemma NoShorterClimb(ps: Principals, id: string, p: seq<string>, q: seq<string>)
    requires Climb(ps, id, p) && Climb(ps, id, q)
    ensures |p| >= |q|
  {
    if |p| < |q| {
      var n := |p| - 1;
      forall i | 0 <= i < |p|
        ensures p[i] == q[i]
      {
        LaddersAgree(ps, p, q, i);
      }
      assert Signs(ps, q[n], q[n + 1]);
      if p[n] in p[..n] {
        var i :| 0 <= i < n && p[i] == p[n];
        RungsDiffer(q, i, n);
      }
    }
  }

  lemma DepthIsUnique(ps: Principals, id: string, d: nat, e: nat)
    requires IsDepth(ps, id, d) && IsDepth(ps, id, e)
    ensures d == e
  {
    if id in ps {
      var p :| Climb(ps, id, p) && |p| == d + 1;
      var q :| Climb(ps, id, q) && |q| == e + 1;
      NoShorterClimb(ps, id, p, q);
      NoShorterClimb(ps, id, q, p);
    }
  }

  lemma RootsAreAtZero(ps: Principals, id: string, d: nat)
    requires !HasSigner(ps, id) && IsDepth(ps, id, d)
    ensures d == 0
  {
    if id in ps {
      assert Climb(ps, id, [id]);
      DepthIsUnique(ps, id, d, 0);
    }
  }

  // ---- Exactly when depth is one more than the signer's ----

  function Min(a: int, b: int): int { if a <= b then a else b }

  // A chain of at most eight signatures leads from id back to id.
  ghost predicate OnShortCycle(ps: Principals, id: string) {
    exists loop :: 2 <= |loop| <= MAX_DEPTH && ShortLoop(ps, id, loop)
  }

  ghost predicate ShortLoop(ps: Principals, id: string, loop: seq<string>) {
    0 < |loop| && loop[0] == id && loop[|loop| - 1] == id && Ladder(ps, loop)
  }

  // Once a ladder repeats between a and b, every later rung repeats one of those.
  lemma {:induction false} RungsRepeat(ps: Principals, path: seq<string>, a: nat, b: nat, n: nat) returns (j: nat)
    requires Ladder(ps, path) && a < b <= n < |path| && path[a] == path[b]
    ensures a <= j < b && path[j] == path[n]
  {
    if n == b {
      j := a;
    } else {
      var i := RungsRepeat(ps, path, a, b, n - 1);
      assert Signs(ps, path[i], path[i + 1]) && Signs(ps, path[n - 1], path[n]);
      j := if i + 1 < b then i + 1 else a;
    }
  }

  // If id lies on a short cycle, its signer's climb meets id before it stops.
  lemma CycleIsMet(ps: Principals, id: string, p: string, q: seq<string>) returns (j: nat)
    requires Signs(ps, id, p) && Climb(ps, p, q) && OnShortCycle(ps, id)
    ensures j < |q| - 1 && j <= 7 && q[j] == id
  {
    var loop :| 2 <= |loop| <= MAX_DEPTH && ShortLoop(ps, id, loop);
    var rest := loop[1..];
    assert Signs(ps, loop[0], loop[1]);
    assert Ladder(ps, rest) by {
      forall i | 0 <= i < |rest| - 1
        ensures Signs(ps, rest[i], rest[i + 1])
      {
        assert Signs(ps, loop[i + 1], loop[i + 2]);
      }
    }
    j := |rest| - 1;
    if |q| - 1 > j {
      LaddersAgree(ps, rest, q, j);
    } else {
      j := EarlyStopMeets(ps, id, p, q, rest);
    }
  }

  lemma EarlyStopMeets(ps: Principals, id: string, p: string, q: seq<string>, rest: seq<string>) returns (j: nat)
    requires Signs(ps, id, p) && Climb(ps, p, q)
    requires |q| <= |rest| <= MAX_DEPTH - 1 && Ladder(ps, rest) && rest[0] == p && rest[|rest| - 1] == id
    ensures j < |q| - 1 && q[j] == id
  {
    var e := |q| - 1;
    forall i | 0 <= i <= e
      ensures q[i] == rest[i]
    {
      LaddersAgree(ps, q, rest, i);
    }
    assert HasSigner(ps, q[e]) by {
      if e < |rest| - 1 { assert Signs(ps, rest[e], rest[e + 1]); }
    }
    var i :| 0 <= i < e && q[i] == q[e];
    j := RungsRepeat(ps, rest, i, e, |rest| - 1);
  }

  // The signer's climb does not meet id: id's climb is one longer, up to the cap.
  lemma ClimbFromBelow(ps: Principals, id: string, p: string, q: seq<string>)
    requires Signs(ps, id, p) && Climb(ps, p, q) && id !in q[..Min(|q| - 1, MAX_DEPTH - 1)]
    ensures IsDepth(ps, id, Min(MAX_DEPTH, |q|))
  {
    var n := Min(MAX_DEPTH, |q|);
    var path := [id] + q[..n];
    assert Ladder(ps, path) by {
      forall i | 0 <= i < |path| - 1
        ensures Signs(ps, path[i], path[i + 1])
      {
        if i > 0 { assert Signs(ps, q[i - 1], q[i]); }
      }
    }
    assert path[..n] == [id] + q[..n - 1];
    assert q[..n - 1] == q[..|q| - 1][..n - 1];
    if n == |q| && |path| < MAX_DEPTH + 1 {
      assert path[n] == q[n - 1];
    }
    assert Climb(ps, id, path);
  }

  // The signer's climb meets id: both climbs go once round the cycle.
  lemma ClimbRoundCycle(ps: Principals, id: string, p: string, q: seq<string>, j: nat)
    requires Signs(ps, id, p) && Climb(ps, p, q) && j < |q| - 1 && j <= 7 && q[j] == id
    ensures IsDepth(ps, id, j + 1) && |q| == j + 2 && OnShortCycle(ps, id)
  {
    var path := [id] + q[..j + 1];
    assert Ladder(ps, path) by {
      forall i | 0 <= i < |path| - 1
        ensures Signs(ps, path[i], path[i + 1])
      {
        if i > 0 { assert Signs(ps, q[i - 1], q[i]); }
      }
    }
    assert path[..j + 1] == [id] + q[..j];
    assert Distinct(path[..j + 1]) by {
      forall i | 0 <= i < j
        ensures q[i] != id
      {
        RungsDiffer(q, i, j);
      }
      assert q[..j] == q[..|q| - 1][..j];
    }
    assert path[j + 1] == id && path[0] == id && path[..j + 1][0] == id;
    assert Climb(ps, id, path);
    assert ShortLoop(ps, id, path);
    assert Signs(ps, q[j], q[j + 1]);
    assert q[j + 1] == q[0];
    if |q| > j + 2 {
      RungsDiffer(q, 0, j + 1);
    }
  }

  // Depth is one more than the signer's depth, up to the cap, exactly when the principal
  // is not on a signing cycle of at most eight signatures.
  lemma DepthIsOneMoreExactlyWhen(ps: Principals, id: string, p: string, d: nat, e: nat)
    requires Signs(ps, id, p) && IsDepth(ps, id, d) && IsDepth(ps, p, e)
    ensures d == Min(MAX_DEPTH, e + 1) <==> !OnShortCycle(ps, id)
  {
    var q :| Climb(ps, p, q) && |q| == e + 1;
    if OnShortCycle(ps, id) {
      var j := CycleIsMet(ps, id, p, q);
      ClimbRoundCycle(ps, id, p, q, j);
      DepthIsUnique(ps, id, d, j + 1);
    } else {
      if id in q[..Min(|q| - 1, MAX_DEPTH - 1)] {
        var j :| 0 <= j < Min(|q| - 1, MAX_DEPTH - 1) && q[j] == id;
        ClimbRoundCycle(ps, id, p, q, j);
      }
      ClimbFromBelow(ps, id, p, q);
      DepthIsUnique(ps, id, d, Min(MAX_DEPTH, |q|));
    }
  }

  // ---- Rank ----

  datatype Layer = L0 | L1 | L2 | L3 | OtherLayer

  datatype ProvenanceKind = OperatorSeeded | UserDirective | Bootstrap | AgentObserved | LlmDerived | OtherKind

  datatype Ranked = Ranked(layer: Layer, kind: ProvenanceKind, depth: nat, confidence: real)

  function LayerIndex(l: Layer): nat {
    match l
    case L1 => 1
    case L2 => 2
    case L3 => 3
    case _ => 0
  }

  function ProvenancePoints(k: ProvenanceKind): nat {
    match k
    case OperatorSeeded => 90
    case UserDirective => 80
    case Bootstrap => 70
    case AgentObserved => 40
    case LlmDerived => 30
    case OtherKind => 10
  }

  function ComputeSourceRank(a: Ranked): int {
    var hierarchy := if a.depth < MAX_DEPTH then MAX_DEPTH - a.depth else 0;
    LayerIndex(a.layer) * 10000 + ProvenancePoints(a.kind) * 100 + hierarchy * 10 + (a.confidence * 10.0).Floor
  }

  predicate InRange(a: Ranked) { a.depth <= MAX_DEPTH && 0.0 <= a.confidence <= 1.0 }

  // Layer decides first, then provenance, then depth; depth fails to decide only between
  // adjacent depths when the deeper atom has full confidence and the other less than 0.1.
  lemma RankIsLexicographic(a: Ranked, b: Ranked)
    requires InRange(a) && InRange(b)
    ensures LayerIndex(a.layer) > LayerIndex(b.layer) ==> ComputeSourceRank(a) > ComputeSourceRank(b)
    ensures LayerIndex(a.layer) == LayerIndex(b.layer) && ProvenancePoints(a.kind) > ProvenancePoints(b.kind) ==>
              ComputeSourceRank(a) > ComputeSourceRank(b)
    ensures LayerIndex(a.layer) == LayerIndex(b.layer) && ProvenancePoints(a.kind) == ProvenancePoints(b.kind)
            && a.depth < b.depth ==>
              && ComputeSourceRank(a) >= ComputeSourceRank(b)
              && (ComputeSourceRank(a) == ComputeSourceRank(b) <==>
                    b.depth == a.depth + 1 && a.confidence < 0.1 && b.confidence == 1.0)
  {
    var ca, cb := (a.confidence * 10.0).Floor, (b.confidence * 10.0).Floor;
    assert 0 <= ca <= 10 && 0 <= cb <= 10;
    assert cb == 10 <==> b.confidence == 1.0;
    assert ca == 0 <==> a.confidence < 0.1;
  }

  // Between atoms that tie in layer, provenance and depth, confidence decides by tenths.
  lemma ConfidenceDecidesLast(a: Ranked, b: Ranked)
    requires LayerIndex(a.layer) == LayerIndex(b.layer) && ProvenancePoints(a.kind) == ProvenancePoints(b.kind)
    requires a.depth == b.depth
    ensures ComputeSourceRank(a) >= ComputeSourceRank(b) <==> (a.confidence * 10.0).Floor >= (b.confidence * 10.0).Floor
  {
  }

  // Adjacent depths where confidence makes up the difference.
  predicate Tied(a: Ranked, b: Ranked) { b.depth == a.depth + 1 && a.confidence < 0.1 && b.confidence == 1.0 }

  // Layer, then provenance, then depth, then tenths of confidence.
  predicate Outranks(a: Ranked, b: Ranked) {
    if LayerIndex(a.layer) != LayerIndex(b.layer) then LayerIndex(a.layer) > LayerIndex(b.layer)
    else if ProvenancePoints(a.kind) != ProvenancePoints(b.kind) then ProvenancePoints(a.kind) > ProvenancePoints(b.kind)
    else if a.depth != b.depth then a.depth < b.depth && !Tied(a, b)
    else (a.confidence * 10.0).Floor > (b.confidence * 10.0).Floor
  }

  // The rank sorts atoms as that order does.
  lemma RankOrderExactlyWhen(a: Ranked, b: Ranked)
    requires InRange(a) && InRange(b)
    ensures ComputeSourceRank(a) > ComputeSourceRank(b) <==> Outranks(a, b)
  {
    RankIsLexicographic(a, b);
    RankIsLexicographic(b, a);
    if LayerIndex(a.layer) == LayerIndex(b.layer) && ProvenancePoints(a.kind) == ProvenancePoints(b.kind) && a.depth == b.depth {
      ConfidenceDecidesLast(b, a);
    }
    hide ComputeSourceRank;
  }

  // From the lowest to the highest.
  const KINDS := [OtherKind, LlmDerived, AgentObserved, Bootstrap, UserDirective, OperatorSeeded]

  const LAYERS := [L0, L1, L2, L3]

  // By name: L3 outranks L2, L2 outranks L1 and L1 outranks L0, whatever else the atoms carry; an
  // unlisted layer ranks as L0. Within a layer operator-seeded outranks user-directive, that bootstrap,
  // that agent-observed, that llm-derived, and that any other kind, whatever the depth and confidence.
  lemma LayersAndKindsInOrder(a: Ranked, b: Ranked, i: nat, j: nat)
    requires InRange(a) && InRange(b) && i > j
    ensures i < |LAYERS| ==> ComputeSourceRank(a.(layer := LAYERS[i])) > ComputeSourceRank(b.(layer := LAYERS[j]))
    ensures ComputeSourceRank(a.(layer := OtherLayer)) == ComputeSourceRank(a.(layer := L0))
    ensures i < |KINDS| && a.layer == b.layer ==>
              ComputeSourceRank(a.(kind := KINDS[i])) > ComputeSourceRank(b.(kind := KINDS[j]))
  {
    if i < |LAYERS| { RankIsLexicographic(a.(layer := LAYERS[i]), b.(layer := LAYERS[j])); }
    if i < |KINDS| { RankIsLexicographic(a.(kind := KINDS[i]), b.(kind := KINDS[j])); }
  }

  // The rank of the best and of the worst atom: the figures of the formula.
  lemma RankSpans(a: Ranked)
    requires InRange(a)
    ensures 1000 <= ComputeSourceRank(a) <= 39100
    ensures ComputeSourceRank(a) == 39100 <==> a.layer == L3 && a.kind == OperatorSeeded && a.depth == 0 && a.confidence == 1.0
    ensures ComputeSourceRank(a) == 1000
            <==> a.layer in {L0, OtherLayer} && a.kind == OtherKind && a.depth == 9 && a.confidence < 0.1
  {
    assert (a.confidence * 10.0).Floor == 10 <==> a.confidence == 1.0;
    assert (a.confidence * 10.0).Floor == 0 <==> a.confidence < 0.1;
  }
}
