/**
  Breadth-first search over the knowledge graph's undirected multigraph, up
  to a depth limit (scripts/ppc_lab_knowledge.py).
 */
module KnowledgeGraph {
  import opened Words
  import opened Tallies

  datatype Edge = Edge(source: string, target: string, relation: string, document: string)

  predicate Touches(e: Edge, n: string) { e.source == n || e.target == n }

  /** The end of the edge seen from the other one; a loop leads back. */
  function Other(e: Edge, n: string): string { if e.source == n then e.target else e.source }

  predicate Joins(e: Edge, a: string, b: string) { Touches(e, a) && Other(e, a) == b }

  predicate Adjacent(es: seq<Edge>, a: string, b: string) {
    exists i :: 0 <= i < |es| && Joins(es[i], a, b)
  }

  // ----- distance -----

  /** x can be reached from src in at most k steps. */
  ghost predicate Reach(es: seq<Edge>, src: string, x: string, k: nat)
    decreases k
  {
    if k == 0 then x == src
    else Reach(es, src, x, k - 1) || exists y :: Reach(es, src, y, k - 1) && Adjacent(es, y, x)
  }

  lemma {:induction false} ReachMonotone(es: seq<Edge>, src: string, x: string, k: nat, n: nat)
    requires Reach(es, src, x, k) && k <= n
    ensures Reach(es, src, x, n)
    decreases n
  {
    if k < n { ReachMonotone(es, src, x, k, n - 1); }
  }

  /** d is the distance of x. */
  ghost predicate Distance(es: seq<Edge>, src: string, x: string, d: nat) {
    Reach(es, src, x, d) && (d > 0 ==> !Reach(es, src, x, d - 1))
  }

  ghost predicate Walk(es: seq<Edge>, path: seq<string>) {
    |path| >= 1 && forall i :: 0 <= i < |path| - 1 ==> Adjacent(es, path[i], path[i + 1])
  }

  /** Reaching within k steps is having a walk of at most k steps. */
  lemma {:induction false} ReachIsWalk(es: seq<Edge>, src: string, x: string, k: nat)
    ensures Reach(es, src, x, k) <==> exists path ::
              Walk(es, path) && path[0] == src && path[|path| - 1] == x && |path| <= k + 1
  {
    if Reach(es, src, x, k) {
      var path := WalkOf(es, src, x, k);
    }
    if path :| Walk(es, path) && path[0] == src && path[|path| - 1] == x && |path| <= k + 1 {
      WalkReaches(es, src, path);
      ReachMonotone(es, src, x, |path| - 1, k);
    }
  }

  lemma {:induction false} WalkOf(es: seq<Edge>, src: string, x: string, k: nat) returns (path: seq<string>)
    requires Reach(es, src, x, k)
    ensures Walk(es, path) && path[0] == src && path[|path| - 1] == x && |path| <= k + 1
    decreases k
  {
    if k == 0 {
      path := [src];
    } else if Reach(es, src, x, k - 1) {
      path := WalkOf(es, src, x, k - 1);
    } else {
      var y :| Reach(es, src, y, k - 1) && Adjacent(es, y, x);
      var shorter := WalkOf(es, src, y, k - 1);
      path := shorter + [x];
    }
  }

  lemma {:induction false} WalkReaches(es: seq<Edge>, src: string, path: seq<string>)
    requires Walk(es, path) && path[0] == src
    ensures Reach(es, src, path[|path| - 1], |path| - 1)
    decreases |path|
  {
    if |path| > 1 {
      var n := |path| - 1;
      assert Adjacent(es, path[n - 1], path[n - 1 + 1]);
      WalkReaches(es, src, path[..n]);
    }
  }

  // ----- the state of a search -----

  /**
    Everything found carries its distance, up to the bound; everything found
    that is no longer waiting has had its neighbours found, unless it lies at
    the bound.
   */
  ghost predicate Searched(es: seq<Edge>, src: string, bound: nat, dist: map<string, nat>, waiting: seq<string>) {
    && src in dist
    && (forall x :: x in dist ==> dist[x] <= bound && Distance(es, src, x, dist[x]))
    && (forall x :: x in waiting ==> x in dist)
    && (forall x, y :: x in dist && x !in waiting && dist[x] < bound && Adjacent(es, x, y) ==> y in dist)
  }

  /** Nothing waiting is nearer than n. */
  predicate NotNearer(dist: map<string, nat>, waiting: seq<string>, n: nat) {
    forall x :: x in waiting ==> x in dist && dist[x] >= n
  }

  /** The waiting nodes are ordered by distance and lie on at most two levels. */
  predicate TwoLevels(dist: map<string, nat>, waiting: seq<string>) {
    && (forall i :: 0 <= i < |waiting| ==> waiting[i] in dist)
    && (forall i, j :: 0 <= i < j < |waiting| ==> dist[waiting[i]] <= dist[waiting[j]] <= dist[waiting[0]] + 1)
  }

  /** When nothing nearer than n is waiting, everything within n has been found. */
  lemma {:induction false} FoundWithin(es: seq<Edge>, src: string, bound: nat, dist: map<string, nat>,
      waiting: seq<string>, n: nat, k: nat, x: string)
    requires Searched(es, src, bound, dist, waiting) && NotNearer(dist, waiting, n) && k <= n <= bound
    requires Reach(es, src, x, k)
    ensures x in dist && dist[x] <= k
    decreases k
  {
    hide Distance;
    if k > 0 {
      if Reach(es, src, x, k - 1) {
        FoundWithin(es, src, bound, dist, waiting, n, k - 1, x);
      } else {
        var y :| Reach(es, src, y, k - 1) && Adjacent(es, y, x);
        FoundWithin(es, src, bound, dist, waiting, n, k - 1, y);
        assert y !in waiting;
        assert x in dist;
      }
    }
    DistanceAtMost(es, src, x, dist[x], k);
  }

  lemma DistanceAtMost(es: seq<Edge>, src: string, x: string, d: nat, k: nat)
    requires Distance(es, src, x, d) && Reach(es, src, x, k)
    ensures d <= k
  {
    if d > k { ReachMonotone(es, src, x, k, d - 1); }
  }

  lemma HeadIsNearest(dist: map<string, nat>, waiting: seq<string>)
    requires TwoLevels(dist, waiting) && |waiting| > 0
    ensures NotNearer(dist, waiting, dist[waiting[0]])
  {
    forall x | x in waiting ensures x in dist && dist[x] >= dist[waiting[0]] {
      var i :| 0 <= i < |waiting| && waiting[i] == x;
    }
  }

  /** A neighbour of the node being expanded that was not found before lies one step further. */
  lemma NewNeighbour(es: seq<Edge>, src: string, cur: string, d: nat, x: string, known: map<string, nat>)
    requires Reach(es, src, cur, d) && Adjacent(es, cur, x)
    requires forall y :: Reach(es, src, y, d) ==> y in known
    requires x !in known
    ensures Distance(es, src, x, d + 1)
  {
  }

  // ----- searching -----

  function Nodes(es: seq<Edge>, src: string): set<string> {
    {src} + (set e | e in es :: e.source) + (set e | e in es :: e.target)
  }

  lemma EdgeEnds(es: seq<Edge>, src: string, i: nat, cur: string)
    requires i < |es| && Touches(es[i], cur)
    ensures Other(es[i], cur) in Nodes(es, src)
  {
    assert es[i] in es;
  }

  /** Expanding one node: its unseen neighbours over the edges seen so far are found and wait. */
  ghost predicate Expanding(es: seq<Edge>, src: string, bound: nat, dist: map<string, nat>, waiting: seq<string>,
      cur: string, seen: nat)
    requires seen <= |es|
  {
    && cur in dist
    && Searched(es, src, bound, dist, [cur] + waiting)
    && TwoLevels(dist, [cur] + waiting)
    && (forall i :: 0 <= i < seen && Touches(es[i], cur) ==> Other(es[i], cur) in dist)
    && forall x :: Reach(es, src, x, dist[cur]) ==> x in dist
  }

  lemma BeginExpanding(es: seq<Edge>, src: string, bound: nat, dist: map<string, nat>, waiting: seq<string>)
    requires |waiting| > 0 && Searched(es, src, bound, dist, waiting) && TwoLevels(dist, waiting)
    ensures Expanding(es, src, bound, dist, waiting[1..], waiting[0], 0)
  {
    assert [waiting[0]] + waiting[1..] == waiting;
    HeadIsNearest(dist, waiting);
    forall x | Reach(es, src, x, dist[waiting[0]]) ensures x in dist {
      FoundWithin(es, src, bound, dist, waiting, dist[waiting[0]], dist[waiting[0]], x);
    }
  }

  lemma TwoLevelsSnoc(dist: map<string, nat>, cur: string, waiting: seq<string>, x: string)
    requires cur in dist && TwoLevels(dist, [cur] + waiting) && x !in dist
    ensures TwoLevels(dist[x := dist[cur] + 1], [cur] + (waiting + [x]))
  {
    var w, w' := [cur] + waiting, [cur] + (waiting + [x]);
    var dist' := dist[x := dist[cur] + 1];
    assert w' == w + [x] && w[0] == cur && w'[0] == cur;
    forall i | 0 <= i < |w| ensures w[i] in dist && dist'[w[i]] == dist[w[i]] <= dist[cur] + 1 {
      assert w[i] != x;
      if i > 0 { assert dist[w[0]] <= dist[w[i]]; }
    }
  }

  lemma FindNeighbour(es: seq<Edge>, src: string, bound: nat, dist: map<string, nat>, waiting: seq<string>,
      cur: string, seen: nat)
    requires seen < |es| && Expanding(es, src, bound, dist, waiting, cur, seen) && dist[cur] < bound
    requires Touches(es[seen], cur) && Other(es[seen], cur) !in dist
    ensures var x := Other(es[seen], cur);
            Expanding(es, src, bound, dist[x := dist[cur] + 1], waiting + [x], cur, seen + 1)
  {
    var x := Other(es[seen], cur);
    assert cur in [cur] + waiting;
    assert Joins(es[seen], cur, x) && Adjacent(es, cur, x);
    NewNeighbour(es, src, cur, dist[cur], x, dist);
    TwoLevelsSnoc(dist, cur, waiting, x);
    var w, w' := [cur] + waiting, [cur] + (waiting + [x]);
    assert forall y :: y in w' <==> y in w || y == x;
    hide Reach, Adjacent, TwoLevels, Distance;
  }

  lemma SkipEdge(es: seq<Edge>, src: string, bound: nat, dist: map<string, nat>, waiting: seq<string>, cur: string,
      seen: nat)
    requires seen < |es| && Expanding(es, src, bound, dist, waiting, cur, seen)
    requires Touches(es[seen], cur) ==> Other(es[seen], cur) in dist
    ensures Expanding(es, src, bound, dist, waiting, cur, seen + 1)
  {
    hide Reach, Adjacent, TwoLevels, Searched;
  }

  lemma TwoLevelsTail(dist: map<string, nat>, cur: string, waiting: seq<string>)
    requires TwoLevels(dist, [cur] + waiting)
    ensures TwoLevels(dist, waiting)
  {
    var w := [cur] + waiting;
    assert forall i :: 0 <= i < |waiting| ==> waiting[i] == w[i + 1];
    if |waiting| > 0 { assert w[0] == cur && dist[w[0]] <= dist[w[1]]; }
  }

  /** With all edges seen, or at the bound, the node is done. */
  lemma EndExpanding(es: seq<Edge>, src: string, bound: nat, dist: map<string, nat>, waiting: seq<string>,
      cur: string, seen: nat)
    requires seen <= |es| && Expanding(es, src, bound, dist, waiting, cur, seen)
    requires seen == |es| || dist[cur] >= bound
    ensures Searched(es, src, bound, dist, waiting) && TwoLevels(dist, waiting)
  {
    TwoLevelsTail(dist, cur, waiting);
    hide Reach, TwoLevels, Distance;
    assert forall x :: x in waiting ==> x in [cur] + waiting;
    forall x, y | x in dist && x !in waiting && dist[x] < bound && Adjacent(es, x, y) ensures y in dist {
      if x == cur {
        var i :| 0 <= i < |es| && Joins(es[i], x, y);
      } else {
        assert x !in [cur] + waiting;
      }
    }
  }

  lemma SearchStarts(es: seq<Edge>, src: string, bound: nat)
    ensures Searched(es, src, bound, map[src := 0], [src]) && TwoLevels(map[src := 0], [src])
  {
  }

  /** What has been found when nothing waits. */
  lemma SearchEnds(es: seq<Edge>, src: string, bound: nat, dist: map<string, nat>)
    requires Searched(es, src, bound, dist, [])
    ensures forall x :: x in dist <==> Reach(es, src, x, bound)
  {
    forall x ensures x in dist <==> Reach(es, src, x, bound) {
      if x in dist { ReachMonotone(es, src, x, dist[x], bound); }
      if Reach(es, src, x, bound) { FoundWithin(es, src, bound, dist, [], bound, bound, x); }
    }
  }

  // ----- shortest_path -----

  /** The predecessor tree: every found node but the source was reached over an edge from a node one step nearer. */
  ghost predicate Tree(es: seq<Edge>, src: string, dist: map<string, nat>, prev: map<string, Option<string>>,
      prevEdge: map<string, Edge>) {
    && prev.Keys == dist.Keys && src in dist
    && dist[src] == 0 && prev[src] == None
    && forall x :: x in dist && x != src ==>
         && prev[x].Some? && prev[x].value in dist && dist[x] == dist[prev[x].value] + 1
         && x in prevEdge && prevEdge[x] in es && Joins(prevEdge[x], prev[x].value, x)
  }

  /** Walking the predecessors back to the source counts the distance. */
  method DepthOf(es: seq<Edge>, src: string, ghost dist: map<string, nat>, prev: map<string, Option<string>>,
      ghost prevEdge: map<string, Edge>, cur: string)
    returns (depth: nat)
    requires Tree(es, src, dist, prev, prevEdge) && cur in dist
    ensures depth == dist[cur]
  {
    depth := 0;
    var p := cur;
    while prev[p].Some?
      invariant p in dist && depth + dist[p] == dist[cur]
      decreases dist[p]
    {
      depth := depth + 1;
      p := prev[p].value;
    }
  }

  /** The chain of nodes from the source, with the edges between them. */
  ghost predicate Chain(es: seq<Edge>, nodes: seq<string>, edges: seq<Edge>) {
    && |nodes| == |edges| + 1
    && forall i :: 0 <= i < |edges| ==> edges[i] in es && Joins(edges[i], nodes[i], nodes[i + 1])
  }

  method Unwind(es: seq<Edge>, src: string, ghost dist: map<string, nat>, prev: map<string, Option<string>>,
      prevEdge: map<string, Edge>, dst: string)
    returns (nodes: seq<string>, edges: seq<Edge>)
    requires Tree(es, src, dist, prev, prevEdge) && dst in dist
    ensures Chain(es, nodes, edges) && nodes[0] == src && nodes[|nodes| - 1] == dst && |edges| == dist[dst]
  {
    var cur := dst;
    nodes, edges := [dst], [];
    while prev[cur].Some?
      invariant cur in dist && |edges| + dist[cur] == dist[dst]
      invariant Chain(es, nodes, edges) && nodes[0] == cur && nodes[|nodes| - 1] == dst
      decreases dist[cur]
    {
      var p := prev[cur].value;
      ChainGrows(es, nodes, edges, p, prevEdge[cur]);
      nodes, edges := [p] + nodes, [prevEdge[cur]] + edges;
      cur := p;
    }
  }

  lemma ChainGrows(es: seq<Edge>, nodes: seq<string>, edges: seq<Edge>, p: string, e: Edge)
    requires Chain(es, nodes, edges) && e in es && Joins(e, p, nodes[0])
    ensures Chain(es, [p] + nodes, [e] + edges)
  {
    var ns, fs := [p] + nodes, [e] + edges;
    forall i | 0 <= i < |fs| ensures fs[i] in es && Joins(fs[i], ns[i], ns[i + 1]) {
      if i > 0 { assert fs[i] == edges[i - 1] && ns[i] == nodes[i - 1] && ns[i + 1] == nodes[i]; }
    }
  }

  lemma TreeGrows(es: seq<Edge>, src: string, dist: map<string, nat>, prev: map<string, Option<string>>,
      prevEdge: map<string, Edge>, cur: string, e: Edge)
    requires Tree(es, src, dist, prev, prevEdge) && cur in dist && e in es && Touches(e, cur) && Other(e, cur) !in dist
    ensures var x := Other(e, cur);
            Tree(es, src, dist[x := dist[cur] + 1], prev[x := Some(cur)], prevEdge[x := e])
  {
    var x := Other(e, cur);
    assert dist[x := dist[cur] + 1].Keys == dist.Keys + {x};
    assert prev[x := Some(cur)].Keys == prev.Keys + {x};
  }

  /** Looks at every edge of a node below the bound: the far ends not found before are linked to it and wait. */
  method Discover(es: seq<Edge>, src: string, ghost bound: nat, ghost dist0: map<string, nat>, waiting0: seq<string>,
      prev0: map<string, Option<string>>, prevEdge0: map<string, Edge>, cur: string)
    returns (ghost dist: map<string, nat>, waiting: seq<string>, prev: map<string, Option<string>>,
        prevEdge: map<string, Edge>)
    requires Expanding(es, src, bound, dist0, waiting0, cur, 0) && cur in dist0 && dist0[cur] < bound
    requires Tree(es, src, dist0, prev0, prevEdge0) && prev0.Keys == dist0.Keys <= Nodes(es, src)
    ensures Expanding(es, src, bound, dist, waiting, cur, |es|) && cur in dist
    ensures Tree(es, src, dist, prev, prevEdge) && prev.Keys == dist.Keys <= Nodes(es, src)
    ensures dist0.Keys <= dist.Keys && (dist0.Keys == dist.Keys ==> waiting == waiting0)
    ensures forall i :: 0 <= i < |es| && Touches(es[i], cur) ==> Other(es[i], cur) in prev
    ensures forall x :: x in prev0 ==> x in prev && prev[x] == prev0[x]
    ensures forall x :: x in prev && x !in prev0 ==> prev[x] == Some(cur)
  {
    hide *;
    dist, waiting, prev, prevEdge := dist0, waiting0, prev0, prevEdge0;
    for i := 0 to |es|
      invariant Expanding(es, src, bound, dist, waiting, cur, i) && cur in dist && dist[cur] == dist0[cur]
      invariant Tree(es, src, dist, prev, prevEdge) && prev.Keys == dist.Keys <= Nodes(es, src)
      invariant dist0.Keys <= dist.Keys && (dist0.Keys == dist.Keys ==> waiting == waiting0)
      invariant forall k :: 0 <= k < i && Touches(es[k], cur) ==> Other(es[k], cur) in prev
      invariant forall x :: x in prev0 ==> x in prev && prev[x] == prev0[x]
      invariant forall x :: x in prev && x !in prev0 ==> prev[x] == Some(cur)
    {
      if Touches(es[i], cur) && Other(es[i], cur) !in prev {
        var x := Other(es[i], cur);
        EdgeEnds(es, src, i, cur);
        FindNeighbour(es, src, bound, dist, waiting, cur, i);
        TreeGrows(es, src, dist, prev, prevEdge, cur, es[i]);
        prev, prevEdge, waiting := prev[x := Some(cur)], prevEdge[x := es[i]], waiting + [x];
        dist := dist[x := dist[cur] + 1];
      } else {
        SkipEdge(es, src, bound, dist, waiting, cur, i);
      }
    }
  }

  method ShortestPath(es: seq<Edge>, src: string, dst: string, maxDepth: int)
    returns (found: bool, nodes: seq<string>, edges: seq<Edge>)
    ensures var bound := if maxDepth < 0 then 0 else maxDepth;
            found <==> Reach(es, src, dst, bound)
    ensures found ==>
              Chain(es, nodes, edges) && nodes[0] == src && nodes[|nodes| - 1] == dst
              && Distance(es, src, dst, |edges|)
    ensures !found ==> nodes == [] && edges == []
  {
    hide Reach, Distance, Adjacent, Searched, TwoLevels, Expanding, Tree, Joins;
    ghost var bound: nat := if maxDepth < 0 then 0 else maxDepth;
    var waiting, prev, prevEdge := [src], map[src := None], map[];
    ghost var dist: map<string, nat> := map[src := 0];
    SearchStarts(es, src, bound);
    TreeStarts(es, src);
    assert dist.Keys <= Nodes(es, src);
    while waiting != [] && dst !in prev
      invariant Searched(es, src, bound, dist, waiting) && TwoLevels(dist, waiting)
      invariant Tree(es, src, dist, prev, prevEdge) && prev.Keys == dist.Keys <= Nodes(es, src)
      decreases Nodes(es, src) - dist.Keys, |waiting|
    {
      BeginExpanding(es, src, bound, dist, waiting);
      var cur := waiting[0];
      waiting := waiting[1..];
      CurrentIsFound(es, src, bound, dist, waiting, cur, 0);
      var depth := DepthOf(es, src, dist, prev, prevEdge, cur);
      if depth >= maxDepth {
        EndExpanding(es, src, bound, dist, waiting, cur, 0);
        continue;
      }
      dist, waiting, prev, prevEdge := Discover(es, src, bound, dist, waiting, prev, prevEdge, cur);
      EndExpanding(es, src, bound, dist, waiting, cur, |es|);
    }
    if dst !in prev {
      SearchEnds(es, src, bound, dist);
      return false, [], [];
    }
    FoundDistance(es, src, bound, dist, waiting, dst);
    nodes, edges := Unwind(es, src, dist, prev, prevEdge, dst);
    return true, nodes, edges;
  }

  lemma TreeStarts(es: seq<Edge>, src: string)
    ensures Tree(es, src, map[src := 0], map[src := None], map[])
  {
  }

  lemma CurrentIsFound(es: seq<Edge>, src: string, bound: nat, dist: map<string, nat>, waiting: seq<string>,
      cur: string, seen: nat)
    requires seen <= |es| && Expanding(es, src, bound, dist, waiting, cur, seen)
    ensures cur in dist && dist[cur] <= bound
  {
  }

  lemma FoundDistance(es: seq<Edge>, src: string, bound: nat, dist: map<string, nat>, waiting: seq<string>, x: string)
    requires Searched(es, src, bound, dist, waiting) && x in dist
    ensures Distance(es, src, x, dist[x]) && Reach(es, src, x, bound)
  {
    ReachMonotone(es, src, x, dist[x], bound);
  }

  // ----- related_graph -----

  predicate Selected(e: Edge, relation: Option<string>) {
    relation.None? || relation.value == "" || e.relation == relation.value
  }

  /** The edges the relation filter lets through. */
  function Filter(es: seq<Edge>, relation: Option<string>): seq<Edge> {
    if |es| == 0 then []
    else if Selected(es[0], relation) then [es[0]] + Filter(es[1..], relation)
    else Filter(es[1..], relation)
  }

  /** e belongs to a node nearer than the bound that has been found and no longer waits. */
  ghost predicate OfDone(e: Edge, es: seq<Edge>, bound: nat, dist: map<string, nat>, waiting: seq<string>) {
    e in es && exists n :: n in dist && n !in waiting && dist[n] < bound && Touches(e, n)
  }

  /** The edges met so far: those of the nodes done, and the first few of the one being expanded. */
  ghost predicate EdgesMet(es: seq<Edge>, bound: nat, dist: map<string, nat>, waiting: seq<string>, met: seq<Edge>,
      cur: string, seen: nat)
    requires seen <= |es|
  {
    forall e :: e in met <==> OfDone(e, es, bound, dist, waiting) || exists i ::
        0 <= i < seen && es[i] == e && Touches(e, cur)
  }

  /** All edges of the nodes nearer than the bound, and no others. */
  ghost predicate NearEdges(es: seq<Edge>, src: string, bound: nat, met: seq<Edge>) {
    forall e :: e in met <==>
        e in es && bound > 0 && (Reach(es, src, e.source, bound - 1) || Reach(es, src, e.target, bound - 1))
  }

  lemma MeetEdge(es: seq<Edge>, bound: nat, dist: map<string, nat>, waiting: seq<string>, met: seq<Edge>, cur: string,
      seen: nat)
    requires seen < |es| && EdgesMet(es, bound, dist, waiting, met, cur, seen)
    ensures Touches(es[seen], cur) ==> EdgesMet(es, bound, dist, waiting, met + [es[seen]], cur, seen + 1)
    ensures !Touches(es[seen], cur) ==> EdgesMet(es, bound, dist, waiting, met, cur, seen + 1)
  {
    hide OfDone;
  }

  /** Finding a node does not change which nodes are done. */
  lemma FindKeepsDone(es: seq<Edge>, bound: nat, dist: map<string, nat>, waiting: seq<string>, met: seq<Edge>,
      cur: string, seen: nat, x: string, d: nat)
    requires seen <= |es| && EdgesMet(es, bound, dist, [cur] + waiting, met, cur, seen) && x !in dist
    ensures EdgesMet(es, bound, dist[x := d], [cur] + (waiting + [x]), met, cur, seen)
  {
    var w, w', dist' := [cur] + waiting, [cur] + (waiting + [x]), dist[x := d];
    assert w' == w + [x];
    forall e ensures OfDone(e, es, bound, dist, w) <==> OfDone(e, es, bound, dist', w') {
      assert forall n :: n in dist && n !in w && dist[n] < bound <==> n in dist' && n !in w' && dist'[n] < bound;
    }
    hide OfDone;
  }

  lemma DoneWithNode(es: seq<Edge>, bound: nat, dist: map<string, nat>, waiting: seq<string>, met: seq<Edge>,
      cur: string, seen: nat)
    requires seen <= |es| && EdgesMet(es, bound, dist, [cur] + waiting, met, cur, seen) && cur in dist
    requires if dist[cur] < bound then seen == |es| && cur !in waiting else seen == 0
    ensures EdgesMet(es, bound, dist, waiting, met, cur, 0)
  {
    var w := [cur] + waiting;
    assert forall n :: n in w <==> n == cur || n in waiting;
    forall e
      ensures OfDone(e, es, bound, dist, waiting) <==> OfDone(e, es, bound, dist, w) || exists i ::
                0 <= i < seen && es[i] == e && Touches(e, cur)
    {
      if OfDone(e, es, bound, dist, w) {
        var n :| n in dist && n !in w && dist[n] < bound && Touches(e, n);
        assert n !in waiting;
      } else if OfDone(e, es, bound, dist, waiting) {
        var n :| n in dist && n !in waiting && dist[n] < bound && Touches(e, n);
        assert n == cur;
      }
    }
    hide OfDone;
  }

  lemma EdgesMetAtEnd(es: seq<Edge>, src: string, bound: nat, dist: map<string, nat>, met: seq<Edge>, cur: string)
    requires Searched(es, src, bound, dist, []) && EdgesMet(es, bound, dist, [], met, cur, 0)
    ensures NearEdges(es, src, bound, met)
  {
    forall n | bound > 0 ensures n in dist && dist[n] < bound <==> Reach(es, src, n, bound - 1) {
      if n in dist && dist[n] < bound { ReachMonotone(es, src, n, dist[n], bound - 1); }
      if Reach(es, src, n, bound - 1) { FoundWithin(es, src, bound, dist, [], bound, bound - 1, n); }
    }
    hide Searched, Reach;
    forall e
      ensures e in met <==>
                e in es && bound > 0 && (Reach(es, src, e.source, bound - 1) || Reach(es, src, e.target, bound - 1))
    {
      if e in es && bound > 0 && (Reach(es, src, e.source, bound - 1) || Reach(es, src, e.target, bound - 1)) {
        var n := if Reach(es, src, e.source, bound - 1) then e.source else e.target;
        assert n in dist && Touches(e, n);
        assert OfDone(e, es, bound, dist, []);
      }
    }
  }

  /** Exactly the edges given, each once, in the order they first came. */
  method Unique(met: seq<Edge>) returns (edges: seq<Edge>)
    ensures Distinct(edges) && forall e :: e in edges <==> e in met
  {
    edges := [];
    for i := 0 to |met|
      invariant Distinct(edges) && forall e :: e in edges <==> e in met[..i]
    {
      assert met[..i + 1] == met[..i] + [met[i]];
      if met[i] !in edges { edges := edges + [met[i]]; }
    }
    assert met[..|met|] == met;
  }

  /** Follows every edge of a node below the bound: the far ends not seen before are labelled and wait. */
  method Follow(es: seq<Edge>, start: string, ghost bound: nat, seen0: map<string, nat>, waiting0: seq<string>,
      met0: seq<Edge>, cur: string)
    returns (seen: map<string, nat>, waiting: seq<string>, met: seq<Edge>)
    requires Expanding(es, start, bound, seen0, waiting0, cur, 0) && cur in seen0 && seen0[cur] < bound
    requires EdgesMet(es, bound, seen0, [cur] + waiting0, met0, cur, 0) && Distinct([cur] + waiting0)
            && seen0.Keys <= Nodes(es, start)
    ensures Expanding(es, start, bound, seen, waiting, cur, |es|) && cur in seen && seen[cur] == seen0[cur]
    ensures EdgesMet(es, bound, seen, [cur] + waiting, met, cur, |es|) && Distinct([cur] + waiting)
            && seen.Keys <= Nodes(es, start)
    ensures seen0.Keys <= seen.Keys && (seen0.Keys == seen.Keys ==> waiting == waiting0)
  {
    hide *;
    seen, waiting, met := seen0, waiting0, met0;
    for i := 0 to |es|
      invariant Expanding(es, start, bound, seen, waiting, cur, i) && cur in seen && seen[cur] == seen0[cur] < bound
      invariant EdgesMet(es, bound, seen, [cur] + waiting, met, cur, i) && seen.Keys <= Nodes(es, start)
      invariant Distinct([cur] + waiting)
      invariant seen0.Keys <= seen.Keys && (seen0.Keys == seen.Keys ==> waiting == waiting0)
    {
      MeetEdge(es, bound, seen, [cur] + waiting, met, cur, i);
      if Touches(es[i], cur) {
        var x := Other(es[i], cur);
        met := met + [es[i]];
        if x !in seen {
          EdgeEnds(es, start, i, cur);
          FindNeighbour(es, start, bound, seen, waiting, cur, i);
          FindKeepsDone(es, bound, seen, waiting, met, cur, i + 1, x, seen[cur] + 1);
          DistinctSnoc(es, start, bound, seen, waiting, cur, i, x);
          seen, waiting := seen[x := seen[cur] + 1], waiting + [x];
        } else {
          SkipEdge(es, start, bound, seen, waiting, cur, i);
        }
      } else {
        SkipEdge(es, start, bound, seen, waiting, cur, i);
      }
    }
  }

  /** A node of the answer, with its depth. */
  datatype Node = Node(key: string, depth: nat)

  predicate NodeBefore(x: Node, y: Node) {
    x.depth < y.depth || (x.depth == y.depth && AtMost(x.key, y.key))
  }

  lemma NodeOrder()
    ensures Preorder(NodeBefore)
  {
    hide AtMost;
    forall x: Node, y: Node ensures NodeBefore(x, y) || NodeBefore(y, x) { AtMostIsTotal(x.key, y.key); }
    forall x: Node, y: Node, z: Node | NodeBefore(x, y) && NodeBefore(y, z) ensures NodeBefore(x, z) {
      if x.depth == y.depth == z.depth { AtMostIsTransitive(x.key, y.key, z.key); }
    }
  }

  /** The labelled nodes, by depth and then by key. */
  method SortedNodes(seen: map<string, nat>) returns (nodes: seq<Node>)
    ensures forall n :: n in nodes <==> n.key in seen && n.depth == seen[n.key]
    ensures Distinct(nodes) && Ordered(nodes, NodeBefore)
  {
    hide NodeBefore, Insert, Ordered, Distinct, Preorder;
    NodeOrder();
    nodes := [];
    NoNodes();
    var rest := seen.Keys;
    while rest != {}
      invariant rest <= seen.Keys
      invariant forall n :: n in nodes <==> n.key in seen && n.key !in rest && n.depth == seen[n.key]
      invariant Distinct(nodes) && Ordered(nodes, NodeBefore)
      decreases |rest|
    {
      var key :| key in rest;
      var node := Node(key, seen[key]);
      InsertMembers(node, nodes, NodeBefore);
      InsertDistinct(node, nodes, NodeBefore);
      InsertOrders(node, nodes, NodeBefore);
      nodes := Insert(node, nodes, NodeBefore);
      rest := rest - {key};
    }
  }

  lemma NoNodes()
    ensures Distinct<Node>([]) && Ordered([], NodeBefore)
  {
  }

  /**
    The nodes within the depth limit, each once with its distance over the
    edges the filter lets through, by depth and then by key, and every such
    edge of a node nearer than the limit exactly once.
   */
  method RelatedGraph(all: seq<Edge>, start: string, depth: int, relation: Option<string>)
    returns (nodes: seq<Node>, edges: seq<Edge>)
    ensures var es, bound := Filter(all, relation), if depth < 0 then 0 else depth;
            && (forall n :: n in nodes <==> Reach(es, start, n.key, bound) && Distance(es, start, n.key, n.depth))
            && Distinct(nodes) && Ordered(nodes, NodeBefore)
            && NearEdges(es, start, bound, edges) && Distinct(edges)
  {
    hide Reach, Distance, Adjacent, Searched, TwoLevels, Expanding, EdgesMet, NearEdges;
    var es := Filter(all, relation);
    ghost var bound: nat := if depth < 0 then 0 else depth;
    var waiting, met := [start], [];
    var seen: map<string, nat> := map[start := 0];
    SearchStarts(es, start, bound);
    NothingMet(es, bound, start);
    assert seen.Keys <= Nodes(es, start);
    ghost var last := start;
    while waiting != []
      invariant Searched(es, start, bound, seen, waiting) && TwoLevels(seen, waiting) && Distinct(waiting)
      invariant EdgesMet(es, bound, seen, waiting, met, last, 0) && seen.Keys <= Nodes(es, start)
      decreases Nodes(es, start) - seen.Keys, |waiting|
    {
      BeginExpanding(es, start, bound, seen, waiting);
      var cur := waiting[0];
      MetIgnoresNode(es, bound, seen, waiting, met, last, cur);
      ghost var seen0, waiting0 := seen, waiting;
      waiting := waiting[1..];
      assert waiting0 == [cur] + waiting;
      CurrentIsFound(es, start, bound, seen, waiting, cur, 0);
      last := cur;
      var d := seen[cur];
      if d >= depth {
        EndExpanding(es, start, bound, seen, waiting, cur, 0);
        DistinctTail(cur, waiting);
        DoneWithNode(es, bound, seen, waiting, met, cur, 0);
        continue;
      }
      seen, waiting, met := Follow(es, start, bound, seen, waiting, met, cur);
      EndExpanding(es, start, bound, seen, waiting, cur, |es|);
      DistinctTail(cur, waiting);
      DoneWithNode(es, bound, seen, waiting, met, cur, |es|);
    }
    SearchEnds(es, start, bound, seen);
    EdgesMetAtEnd(es, start, bound, seen, met, last);
    LabelsAreDistances(es, start, bound, seen, waiting);
    edges := Unique(met);
    SameNearEdges(es, start, bound, met, edges);
    nodes := SortedNodes(seen);
    SeenNodes(es, start, bound, seen, nodes);
  }

  /** A labelled node is one found, with its only distance. */
  lemma SeenNodes(es: seq<Edge>, src: string, bound: nat, seen: map<string, nat>, nodes: seq<Node>)
    requires forall x :: x in seen <==> Reach(es, src, x, bound)
    requires forall x :: x in seen ==> Distance(es, src, x, seen[x])
    requires forall n :: n in nodes <==> n.key in seen && n.depth == seen[n.key]
    ensures forall n :: n in nodes <==> Reach(es, src, n.key, bound) && Distance(es, src, n.key, n.depth)
  {
    hide Reach;
    forall n ensures n in nodes <==> Reach(es, src, n.key, bound) && Distance(es, src, n.key, n.depth) {
      if Reach(es, src, n.key, bound) && Distance(es, src, n.key, n.depth) {
        OneDistance(es, src, n.key, n.depth, seen[n.key]);
      }
    }
  }

  lemma OneDistance(es: seq<Edge>, src: string, x: string, c: nat, d: nat)
    requires Distance(es, src, x, c) && Distance(es, src, x, d)
    ensures c == d
  {
    hide Reach;
    DistanceAtMost(es, src, x, c, d);
    DistanceAtMost(es, src, x, d, c);
  }

  lemma NothingMet(es: seq<Edge>, bound: nat, src: string)
    ensures EdgesMet(es, bound, map[src := 0], [src], [], src, 0)
  {
  }

  lemma MetIgnoresNode(es: seq<Edge>, bound: nat, dist: map<string, nat>, waiting: seq<string>, met: seq<Edge>,
      cur: string, other: string)
    requires EdgesMet(es, bound, dist, waiting, met, cur, 0)
    ensures EdgesMet(es, bound, dist, waiting, met, other, 0)
  {
  }

  lemma DistinctSnoc(es: seq<Edge>, src: string, bound: nat, dist: map<string, nat>, waiting: seq<string>,
      cur: string, seen: nat, x: string)
    requires seen <= |es| && Expanding(es, src, bound, dist, waiting, cur, seen) && x !in dist
            && Distinct([cur] + waiting)
    ensures Distinct([cur] + (waiting + [x]))
  {
    var w := [cur] + waiting;
    assert [cur] + (waiting + [x]) == w + [x];
    assert forall y :: y in w ==> y in dist;
  }

  lemma DistinctTail(cur: string, waiting: seq<string>)
    requires Distinct([cur] + waiting)
    ensures Distinct(waiting) && cur !in waiting
  {
    var w := [cur] + waiting;
    assert forall i :: 0 <= i < |waiting| ==> waiting[i] == w[i + 1];
    assert w[0] == cur;
  }

  lemma LabelsAreDistances(es: seq<Edge>, src: string, bound: nat, dist: map<string, nat>, waiting: seq<string>)
    requires Searched(es, src, bound, dist, waiting)
    ensures forall x :: x in dist ==> Distance(es, src, x, dist[x])
  {
  }

  lemma SameNearEdges(es: seq<Edge>, src: string, bound: nat, met: seq<Edge>, edges: seq<Edge>)
    requires NearEdges(es, src, bound, met) && forall e :: e in edges <==> e in met
    ensures NearEdges(es, src, bound, edges)
  {
  }
}
