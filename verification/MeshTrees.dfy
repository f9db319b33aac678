/** Tree extraction and tree accounting on the graph objects. */
module MeshTrees {
  import opened Graphs
  import opened ShortestPaths
  import opened TreeGraphs
  import opened MeshGraphs

  /** The arrays of two graph objects are different objects. */
  ghost predicate Apart(a: Graph, b: Graph) {
    && a.lh != b.lh && a.valid != b.valid && a.valid != b.S && a.S != b.valid && a.S != b.S
    && a.d != b.d && a.d != b.T && a.T != b.d && a.T != b.T
    && a.piOutif != b.piOutif && a.piInif != b.piInif && a.piOutif != b.piInif && a.piInif != b.piOutif
    && a.pi != b.pi && a.pi != b.ch && a.pi != b.L && a.ch != b.pi && a.L != b.pi
    && a.ch != b.ch && a.ch != b.L && a.L != b.ch && a.L != b.L
    && a.gateway != b.gateway && a.gateway != b.valid && a.gateway != b.S && a.valid != b.gateway && a.S != b.gateway
  }

  /** As much of it as the lists and labels need. */
  lemma ApartLists(a: Graph, b: Graph)
    requires Apart(a, b)
    ensures a.lh != b.lh && a.valid != b.valid && a.valid != b.S && a.valid != b.gateway
    ensures a.d != b.T && a.pi != b.ch && a.pi != b.L
  {
  }

  /** One node's walk back to the root, adding a forward link per step. */
  method WalkBackToRoot(g: Graph, metric: Graph, tree: Graph, root: nat, size: nat, i: nat, ghost rank: seq<nat>)
    requires g.Valid() && metric.Valid() && tree.Valid() && Apart(g, tree) && Apart(metric, tree)
    requires size <= MAX_NODES && i < size && |rank| == size
    requires Ready(g.Adj(size), metric.Adj(size), root, g.View(size), rank)
    modifies tree.lh, tree.valid
    ensures tree.Adj(size) == WalkUp(g.Adj(size), metric.Adj(size), root, g.View(size), rank, old(tree.Adj(size)), i)
  {
    hide Ready;
    ghost var x, gs, ms, t0 := g.View(size), g.Adj(size), metric.Adj(size), tree.Adj(size);
    var v: nat := i;
    while g.d[v] < INFLEN && v != root
      invariant v < size && g.View(size) == x && g.Adj(size) == gs && metric.Adj(size) == ms
      invariant Ready(gs, ms, root, x, rank) && |rank| == size
      invariant WalkUp(gs, ms, root, x, rank, tree.Adj(size), v) == WalkUp(gs, ms, root, x, rank, t0, i)
      decreases rank[v]
    {
      InLinkFound(gs, ms, root, x, rank, v);
      assert g.pi[v] == x.pi[v] && metric.lh[g.pi[v]] == ms[x.pi[v]];
      var l := metric.FindLink(g.pi[v], v, g.piOutif[v], g.piInif[v]);
      assert l.Some?;
      ghost var t := tree.Adj(size);
      var added := tree.AddLink(g.pi[v], v, l.value.cost, g.piOutif[v], g.piInif[v], l.value.channel);
      assert tree.Adj(size) == t[x.pi[v] := AddTo(t[x.pi[v]], v, l.value.cost, x.outif[v], x.inif[v], l.value.channel)];
      v := g.pi[v];
    }
  }

  /** One node's fields but for its list and validity flag. */
  datatype NodeData = NodeData(labels: NodeLabels, marks: NodeMarks)

  datatype NodeLabels = NodeLabels(d: real, pi: nat, ch: nat, L: nat, T: real)

  datatype NodeMarks = NodeMarks(outif: int, inif: int, S: bool, gateway: bool)

  const PRISTINE := NodeData(NodeLabels(INFLEN, NIL, 0, 0, 0.0), NodeMarks(NIL, NIL, false, false))

  function LabelsOf(g: Graph, v: nat): NodeLabels
    requires g.Valid() && v < MAX_NODES
    reads g.d, g.pi, g.ch, g.L, g.T
  {
    NodeLabels(g.d[v], g.pi[v], g.ch[v], g.L[v], g.T[v])
  }

  function MarksOf(g: Graph, v: nat): NodeMarks
    requires g.Valid() && v < MAX_NODES
    reads g.piOutif, g.piInif, g.S, g.gateway
  {
    NodeMarks(g.piOutif[v], g.piInif[v], g.S[v], g.gateway[v])
  }

  function NodeOf(g: Graph, v: nat): NodeData
    requires g.Valid() && v < MAX_NODES
    reads g.d, g.pi, g.ch, g.L, g.T, g.piOutif, g.piInif, g.S, g.gateway
  {
    NodeData(LabelsOf(g, v), MarksOf(g, v))
  }

  /** `reset_graph`: empties the lists of nodes 1..NUM_NODES; the fields of the last node keep their values. */
  method ResetGraph(graph: Graph, numNodes: nat)
    requires graph.Valid() && numNodes < MAX_NODES
    modifies graph.lh, graph.valid, graph.d, graph.pi, graph.ch, graph.L, graph.T, graph.piOutif, graph.piInif, graph.S
    modifies graph.gateway
    ensures forall v :: 0 <= v < MAX_NODES ==> graph.lh[v] == if 1 <= v <= numNodes then [] else old(graph.lh[v])
    ensures forall v :: 0 <= v < MAX_NODES ==>
              graph.valid[v] == if 1 <= v < numNodes then false else old(graph.valid[v])
    ensures forall v :: 0 <= v < MAX_NODES ==>
              NodeOf(graph, v) == if 1 <= v < numNodes then PRISTINE else old(NodeOf(graph, v))
  {
    var v := 1;
    while v <= numNodes
      invariant 1 <= v && (v <= numNodes || v == if numNodes == 0 then 1 else numNodes + 1)
      invariant forall w :: 0 <= w < MAX_NODES ==>
                  graph.lh[w] == if 1 <= w < v && w <= numNodes then [] else old(graph.lh[w])
      invariant graph.valid[..] == old(graph.valid[..])
      invariant forall w :: 0 <= w < MAX_NODES ==> NodeOf(graph, w) == old(NodeOf(graph, w))
    {
      graph.lh[v] := [];
      v := v + 1;
    }
    v := 1;
    while v < numNodes
      invariant 1 <= v
      invariant forall w :: 0 <= w < MAX_NODES ==> graph.lh[w] == if 1 <= w <= numNodes then [] else old(graph.lh[w])
      invariant forall w :: 0 <= w < MAX_NODES ==>
                  graph.valid[w] == if 1 <= w < v && w < numNodes then false else old(graph.valid[w])
      invariant forall w :: 0 <= w < MAX_NODES ==>
                  NodeOf(graph, w) == if 1 <= w < v && w < numNodes then PRISTINE else old(NodeOf(graph, w))
    {
      ResetNode(graph, v);
      v := v + 1;
    }
  }

  /** The body of its second loop. */
  method ResetNode(graph: Graph, v: nat)
    requires graph.Valid() && v < MAX_NODES
    modifies graph.valid, graph.d, graph.pi, graph.ch, graph.L, graph.T, graph.piOutif, graph.piInif, graph.S
    modifies graph.gateway
    ensures graph.valid[..] == old(graph.valid[..])[v := false]
    ensures forall w :: 0 <= w < MAX_NODES ==> NodeOf(graph, w) == if w == v then PRISTINE else old(NodeOf(graph, w))
  {
    graph.d[v], graph.T[v] := INFLEN, 0.0;
    graph.pi[v], graph.ch[v], graph.L[v] := NIL, 0, 0;
    graph.piOutif[v], graph.piInif[v] := NIL, NIL;
    graph.S[v], graph.gateway[v], graph.valid[v] := false, false, false;
  }

  /** One round of make_tree_graph's loop. */
  method VisitNode(g: Graph, metric: Graph, tree: Graph, srcAddr: nat, size: nat, i: nat, ghost rank: seq<nat>)
    requires g.Valid() && metric.Valid() && tree.Valid() && Apart(g, tree) && Apart(metric, tree)
    requires size <= MAX_NODES && |rank| == size && i < size
    requires Ready(g.Adj(size), metric.Adj(size), srcAddr + 1, g.View(size), rank)
    modifies g.d, tree.lh, tree.valid
    ensures g.View(size) == old(g.View(size))
    ensures tree.Adj(size) == WalkUp(g.Adj(size), metric.Adj(size), srcAddr + 1, g.View(size), rank,
        old(tree.Adj(size)), i)
  {
    hide Ready;
    RootLabel(g.Adj(size), metric.Adj(size), srcAddr + 1, g.View(size), rank);
    if i == srcAddr + 1 {
      ghost var x := g.View(size);
      g.d[i] := 0.0;
      assert g.d[..size] == x.d;
    } else {
      WalkBackToRoot(g, metric, tree, srcAddr + 1, size, i, rank);
    }
  }

  /** `make_tree_graph`; size is NUM_NODES + 1 and the root is srcAddr + 1. */
  method MakeTreeGraph(g: Graph, metric: Graph, tree: Graph, srcAddr: nat, size: nat, ghost rank: seq<nat>)
    requires g.Valid() && metric.Valid() && tree.Valid() && Apart(g, tree) && Apart(metric, tree)
    requires 1 <= size <= MAX_NODES && |rank| == size
    requires Ready(g.Adj(size), metric.Adj(size), srcAddr + 1, g.View(size), rank)
    requires tree.Adj(size) == EmptyGraph(size)
    modifies g.d, tree.lh, tree.valid, tree.pi, tree.d, tree.piOutif, tree.piInif
    ensures g.View(size) == old(g.View(size))
    ensures tree.Adj(size) == MakeTree(g.Adj(size), metric.Adj(size), srcAddr + 1, g.View(size), rank,
        EmptyGraph(size), 1)
    ensures forall v :: 1 <= v < size ==> tree.pi[v] == g.pi[v] && tree.d[v] == g.d[v]
    ensures forall v :: 1 <= v < size ==> tree.piOutif[v] == g.piOutif[v] && tree.piInif[v] == g.piInif[v]
  {
    hide Ready, WalkUp;
    ghost var x := g.View(size);
    var i := 1;
    while i < size
      invariant 1 <= i <= size && g.View(size) == x
      invariant Ready(g.Adj(size), metric.Adj(size), srcAddr + 1, x, rank)
      invariant MakeTree(g.Adj(size), metric.Adj(size), srcAddr + 1, x, rank, tree.Adj(size), i)
             == MakeTree(g.Adj(size), metric.Adj(size), srcAddr + 1, x, rank, EmptyGraph(size), 1)
    {
      VisitNode(g, metric, tree, srcAddr, size, i, rank);
      i := i + 1;
    }
    CopyLabels(g, tree, size);
  }

  /** The last loop of make_tree_graph. */
  method CopyLabels(g: Graph, tree: Graph, size: nat)
    requires g.Valid() && tree.Valid() && Apart(g, tree) && 1 <= size <= MAX_NODES
    modifies tree.pi, tree.d, tree.piOutif, tree.piInif
    ensures forall v :: 1 <= v < size ==> tree.pi[v] == g.pi[v] && tree.d[v] == g.d[v]
    ensures forall v :: 1 <= v < size ==> tree.piOutif[v] == g.piOutif[v] && tree.piInif[v] == g.piInif[v]
  {
    var v := 1;
    while v < size
      invariant 1 <= v <= size
      invariant forall w :: 1 <= w < v ==> tree.pi[w] == g.pi[w] && tree.d[w] == g.d[w]
      invariant forall w :: 1 <= w < v ==> tree.piOutif[w] == g.piOutif[w] && tree.piInif[w] == g.piInif[w]
    {
      tree.pi[v], tree.d[v] := g.pi[v], g.d[v];
      tree.piOutif[v], tree.piInif[v] := g.piOutif[v], g.piInif[v];
      v := v + 1;
    }
  }

  lemma RootLabel(g: Adjacency, metric: Adjacency, root: nat, x: Labels, rank: seq<nat>)
    requires Ready(g, metric, root, x, rank)
    ensures |g| == |metric| == |x.d| == |rank| && Shaped(x, |g|) && 0 < root < |g| && x.d[root] == 0.0
    ensures x.pi[root] == NIL
  {
  }

  /** `disconnected`: is a valid node out of reach? */
  method Disconnected(g: Graph, numNodes: nat) returns (r: bool)
    requires g.Valid() && numNodes < MAX_NODES
    ensures r <==> exists v :: 1 <= v <= numNodes && g.valid[v] && g.d[v] == INFLEN
  {
    var v := 1;
    while v <= numNodes
      invariant 1 <= v && forall w :: 1 <= w < v && w <= numNodes ==> !(g.valid[w] && g.d[w] == INFLEN)
    {
      if g.valid[v] && g.d[v] == INFLEN {
        return true;
      }
      v := v + 1;
    }
    return false;
  }

  lemma {:induction false} FindCleared(links: seq<Link>, to: nat, o: int, i: int)
    ensures FindIn(links, to, o, i).None? <==> FindIn(Cleared(links), to, o, i).None?
    ensures FindIn(links, to, o, i).Some? ==>
              FindIn(Cleared(links), to, o, i).value == FindIn(links, to, o, i).value.(flow := 0)
  {
    if links != [] {
      assert Cleared(links)[1..] == Cleared(links[1..]);
      FindCleared(links[1..], to, o, i);
    }
  }

  /** Clearing flows changes neither the search nor the look-ups. */
  lemma ClearedReady(g: Adjacency, metric: Adjacency)
    requires Embedded(g, metric) && Sound(g) && IdsFromOne(g)
    ensures Embedded(ClearedAll(g), metric) && Embedded(ClearedAll(g), ClearedAll(metric))
    ensures Sound(ClearedAll(g)) && IdsFromOne(ClearedAll(g))
  {
    forall u, l | 0 <= u < |g| && l in ClearedAll(g)[u]
      ensures FindIn(metric[u], l.dst, l.outif, l.inif).Some?
      ensures FindIn(metric[u], l.dst, l.outif, l.inif).value.cost == l.cost
      ensures FindIn(ClearedAll(metric)[u], l.dst, l.outif, l.inif).Some?
      ensures FindIn(ClearedAll(metric)[u], l.dst, l.outif, l.inif).value.cost == l.cost
    {
      var k :| 0 <= k < |g[u]| && Cleared(g[u])[k] == l;
      assert g[u][k] in g[u];
      FindCleared(metric[u], l.dst, l.outif, l.inif);
    }
  }

  lemma MakeReady(g: Adjacency, metric: Adjacency, root: nat, x: Labels, rank: seq<nat>)
    requires Finished(g, root, x, rank) && Embedded(g, metric) && 0 < root < |g| && IdsFromOne(g)
    ensures Ready(g, metric, root, x, rank) && |rank| == |g| == |x.d| && forall v :: 0 <= v < |g| ==> x.d[v] <= INFLEN
  {
  }

  /** The search of construct_tree; what make_tree_graph needs holds afterwards. */
  method SearchFromGateway(g: Graph, metric: Graph, root: nat, size: nat) returns (ghost rank: seq<nat>)
    requires g.Valid() && metric.Valid() && (g == metric || g.lh != metric.lh) && 0 < root < size <= MAX_NODES
    requires Sound(g.Adj(size)) && Embedded(g.Adj(size), metric.Adj(size)) && IdsFromOne(g.Adj(size))
    modifies g.lh, g.d, g.pi, g.piOutif, g.piInif, g.S, g.ch, g.L, g.T
    ensures g.Adj(size) == ClearedAll(old(g.Adj(size))) && Sound(g.Adj(size))
    ensures g.View(size) == Dijkstra(g.Adj(size), root)
    ensures |rank| == size && Ready(g.Adj(size), metric.Adj(size), root, g.View(size), rank)
    ensures forall v :: 0 <= v < size ==> g.d[v] <= INFLEN
  {
    hide Ready, Finished, Embedded, Dijkstra, IdsFromOne, Sound;
    ClearedReady(g.Adj(size), metric.Adj(size));
    g.DijkstraFrom(root, size);
    rank := DijkstraFinished(g.Adj(size), root);
    MakeReady(g.Adj(size), metric.Adj(size), root, g.View(size), rank);
    assert forall v :: 0 <= v < size ==> g.d[v] == g.View(size).d[v];
  }

  /** The tree object holds the shortest-path tree of the search on g, with its predecessors and labels. */
  ghost predicate Extracted(g: Graph, metric: Graph, tree: Graph, root: nat, size: nat, rank: seq<nat>)
    requires g.Valid() && metric.Valid() && tree.Valid() && size <= MAX_NODES
    reads g.lh, g.d, g.pi, g.piOutif, g.piInif, g.S, metric.lh, tree.lh, tree.pi, tree.d
  {
    && 0 < root < size == |rank|
    && Ready(g.Adj(size), metric.Adj(size), root, g.View(size), rank)
    && IsTree(metric.Adj(size), root, g.View(size), tree.Adj(size))
    && forall v :: 1 <= v < size ==> tree.pi[v] == g.pi[v] && tree.d[v] == g.d[v]
  }

  /** The end of construct_tree: give up on a disconnected graph, extract the tree otherwise. */
  method ExtractIfConnected(g: Graph, metric: Graph, tree: Graph, gatewayId: nat, size: nat, ghost rank: seq<nat>)
    returns (ok: bool)
    requires g.Valid() && metric.Valid() && tree.Valid() && Apart(g, tree) && Apart(metric, tree)
    requires 1 <= size <= MAX_NODES && |rank| == size && tree.Adj(size) == EmptyGraph(size)
    requires Ready(g.Adj(size), metric.Adj(size), gatewayId + 1, g.View(size), rank)
    requires forall v :: 0 <= v < size ==> g.d[v] <= INFLEN
    modifies g.d, tree.lh, tree.valid, tree.pi, tree.d, tree.piOutif, tree.piInif
    ensures g.View(size) == old(g.View(size)) && g.Adj(size) == old(g.Adj(size))
    ensures ok <==> forall v :: 1 <= v < size && g.valid[v] ==> g.View(size).d[v] < INFLEN
    ensures if ok then Extracted(g, metric, tree, gatewayId + 1, size, rank) else tree.Adj(size) == EmptyGraph(size)
  {
    hide Ready, IsTree, MakeTree;
    RootLabel(g.Adj(size), metric.Adj(size), gatewayId + 1, g.View(size), rank);
    var cut := Disconnected(g, size - 1);
    ok := !cut;
    if ok {
      MakeTreeExact(g.Adj(size), metric.Adj(size), gatewayId + 1, g.View(size), rank);
      MakeTreeGraph(g, metric, tree, gatewayId, size, rank);
    }
  }

  /** The start of construct_tree: empty the tree graph, then search. */
  method ResetAndSearch(g: Graph, metric: Graph, tree: Graph, root: nat, size: nat) returns (ghost rank: seq<nat>)
    requires g.Valid() && metric.Valid() && tree.Valid() && Apart(g, tree) && Apart(metric, tree)
    requires g == metric || g.lh != metric.lh
    requires 0 < root < size <= MAX_NODES && tree.lh[0] == []
    requires Sound(g.Adj(size)) && Embedded(g.Adj(size), metric.Adj(size)) && IdsFromOne(g.Adj(size))
    modifies g.lh, g.d, g.pi, g.piOutif, g.piInif, g.S, g.ch, g.L, g.T
    modifies tree.lh, tree.valid, tree.d, tree.pi, tree.ch, tree.L, tree.T, tree.piOutif, tree.piInif, tree.S
    modifies tree.gateway
    ensures tree.Adj(size) == EmptyGraph(size)
    ensures g.Adj(size) == ClearedAll(old(g.Adj(size))) && Sound(g.Adj(size))
    ensures g.View(size) == Dijkstra(g.Adj(size), root)
    ensures |rank| == size && Ready(g.Adj(size), metric.Adj(size), root, g.View(size), rank)
    ensures forall v :: 0 <= v < size ==> g.d[v] <= INFLEN
  {
    hide Ready, Embedded, Dijkstra, IdsFromOne, Sound, ClearedAll;
    ResetGraph(tree, size - 1);
    ghost var lists := tree.lh[..];
    assert lists[..size] == EmptyGraph(size);
    rank := SearchFromGateway(g, metric, root, size);
    assert tree.lh[..] == lists;
    assert tree.Adj(size) == lists[..size];
  }

  /** `construct_tree` in shortest-path mode: fails exactly when a valid node is out of reach. */
  method ConstructShortestPathTree(g: Graph, metric: Graph, tree: Graph, gatewayId: nat, size: nat)
    returns (ok: bool, ghost rank: seq<nat>)
    requires g.Valid() && metric.Valid() && tree.Valid() && Apart(g, tree) && Apart(metric, tree)
    requires g == metric || g.lh != metric.lh
    requires gatewayId + 1 < size <= MAX_NODES && tree.lh[0] == []
    requires Sound(g.Adj(size)) && Embedded(g.Adj(size), metric.Adj(size)) && IdsFromOne(g.Adj(size))
    modifies g.lh, g.d, g.pi, g.piOutif, g.piInif, g.S, g.ch, g.L, g.T
    modifies tree.lh, tree.valid, tree.d, tree.pi, tree.ch, tree.L, tree.T, tree.piOutif, tree.piInif, tree.S
    modifies tree.gateway
    ensures g.Adj(size) == ClearedAll(old(g.Adj(size))) && g.View(size) == Dijkstra(g.Adj(size), gatewayId + 1)
    ensures ok <==> forall v :: 1 <= v < size && g.valid[v] ==> g.View(size).d[v] < INFLEN
    ensures if ok then Extracted(g, metric, tree, gatewayId + 1, size, rank) else tree.Adj(size) == EmptyGraph(size)
  {
    hide Ready, IsTree, Embedded, Dijkstra, IdsFromOne, Sound, ClearedAll, EmptyGraph, Extracted, Apart;
    rank := ResetAndSearch(g, metric, tree, gatewayId + 1, size);
    ok := ExtractIfConnected(g, metric, tree, gatewayId, size, rank);
  }
}
