/** One gateway's part of a configuration: its subgraph, that graph's shortest-path tree, and the tree's accounts. */
module MeshConfigurations {
  import opened Graphs
  import opened ShortestPaths
  import opened TreeGraphs
  import opened TreeCounts
  import opened Sums
  import opened MeshGraphs
  import opened MeshTrees
  import opened MeshCounts
  import opened MeshSubgraphs

  /** Row by row what construct_graph_for_a_subconfiguration makes of g. */
  ghost predicate Induced(g: Adjacency, sub: Adjacency, config: seq<int>, gwid: nat, numNodes: nat) {
    && |g| == |sub| == numNodes + 1 && sub[0] == []
    && forall v :: 1 <= v <= numNodes ==>
                     && DistinctTargets(sub[v])
                     && forall l :: l in sub[v] <==>
                                      && LastCost(g[v], l.dst).Some?
                                      && l == Link(l.dst, LastCost(g[v], l.dst).value, 0, 0, 0, 0)
                                      && !Dropped(config, gwid, numNodes, v) && !Dropped(config, gwid, numNodes, l.dst)
  }

  /** Where every link sits at pair (0, 0) and keys are unique, the last link to a node is the one find_link finds. */
  lemma {:induction false} LastIsFound(links: seq<Link>, to: nat)
    requires Keyed(links) && forall l :: l in links ==> l.Is(l.dst, 0, 0)
    requires LastCost(links, to).Some?
    ensures FindIn(links, to, 0, 0).Some? && FindIn(links, to, 0, 0).value.cost == LastCost(links, to).value
    ensures exists l :: l in links && l.dst == to && l.cost == LastCost(links, to).value
    decreases |links|
  {
    var k := |links| - 1;
    if links[k].dst == to {
      assert links[k] in links;
      FindKeyed(links, k);
    } else {
      var init := links[..k];
      LastIsFound(init, to);
      var l :| l in init && l.dst == to && l.cost == LastCost(init, to).value;
      var j :| 0 <= j < |init| && init[j] == l;
      assert links[j] == l && l.Is(to, 0, 0);
      FindKeyed(links, j);
    }
  }

  lemma RowOfInduced(g: Adjacency, sub: Adjacency, config: seq<int>, gwid: nat, numNodes: nat, u: nat, l: Link)
    requires Induced(g, sub, config, gwid, numNodes) && AllKeyed(g) && AtZero(g) && Sound(g) && IdsFromOne(g)
    requires u < |sub| && l in sub[u]
    ensures var m := FindIn(g[u], l.dst, l.outif, l.inif); m.Some? && m.value.cost == l.cost
    ensures 0 < l.dst < |sub| && l.cost >= 0.0 && l.flow == 0
  {
    hide LastCost, Dropped;
    assert u > 0;
    forall m | m in g[u]
      ensures m.Is(m.dst, 0, 0) && 0 < m.dst < |g| && m.cost >= 0.0
    {
      var k :| 0 <= k < |g[u]| && g[u][k] == m;
    }
    LastIsFound(g[u], l.dst);
  }

  /** The subgraph of a graph whose links sit at pair (0, 0) is embedded in it. */
  lemma InducedEmbedded(g: Adjacency, sub: Adjacency, config: seq<int>, gwid: nat, numNodes: nat)
    requires Induced(g, sub, config, gwid, numNodes) && AllKeyed(g) && AtZero(g) && Sound(g) && IdsFromOne(g)
    ensures Embedded(sub, g) && Sound(sub) && IdsFromOne(sub) && ClearedAll(sub) == sub
  {
    hide Induced, AtZero, AllKeyed;
    InducedSize(g, sub, config, gwid, numNodes);
    forall u, l | 0 <= u < |sub| && l in sub[u]
      ensures var m := FindIn(g[u], l.dst, l.outif, l.inif); m.Some? && m.value.cost == l.cost
      ensures 0 < l.dst < |sub| && l.cost >= 0.0 && l.flow == 0
    {
      RowOfInduced(g, sub, config, gwid, numNodes, u, l);
    }
    forall u | 0 <= u < |sub|
      ensures Cleared(sub[u]) == sub[u]
    {
      forall k | 0 <= k < |sub[u]|
        ensures sub[u][k].(flow := 0) == sub[u][k]
      {
        assert sub[u][k] in sub[u];
      }
    }
  }

  lemma InducedSize(g: Adjacency, sub: Adjacency, config: seq<int>, gwid: nat, numNodes: nat)
    requires Induced(g, sub, config, gwid, numNodes)
    ensures |g| == |sub| == numNodes + 1 && sub[0] == []
  {
  }

  /** The links of a tree extracted from such a graph sit at pair (0, 0) again. */
  lemma TreeAtZero(g: Adjacency, metric: Adjacency, root: nat, x: Labels, rank: seq<nat>, tree: Adjacency)
    requires Ready(g, metric, root, x, rank) && IsTree(metric, root, x, tree) && AtZero(metric)
    ensures AtZero(tree)
  {
    hide Ready, Keyed;
    forall u, k | 0 <= u < |tree| && 0 <= k < |tree[u]|
      ensures tree[u][k].Is(tree[u][k].dst, 0, 0)
    {
      var v := tree[u][k].dst;
      assert tree[u][k] in tree[u] && v in ReachedNodes(x, root);
      InLinkFound(g, metric, root, x, rank, v);
      var m := FindIn(metric[x.pi[v]], v, x.outif[v], x.inif[v]).value;
      var j :| 0 <= j < |metric[x.pi[v]]| && metric[x.pi[v]][j] == m;
    }
  }

  /** What the flags of a gateway's subgraph are made of. */
  ghost predicate FlagsOf(g: Adjacency, valid: seq<bool>, flags: seq<bool>,
                          config: seq<int>, gwid: nat, numNodes: nat) {
    && |valid| == |flags| == numNodes + 1
    && forall v :: 1 <= v <= numNodes ==>
                     flags[v] == ((valid[v] || Revived(g, v, numNodes + 1)) && !Dropped(config, gwid, numNodes, v))
  }

  /** The subgraph of one gateway. */
  method SubgraphOf(metric: Graph, sub: Graph, config: seq<int>, gwid: nat, numNodes: nat) returns (count: nat)
    requires metric.Valid() && sub.Valid() && Apart(metric, sub) && |config| <= numNodes < MAX_NODES && sub.lh[0] == []
    requires var m := metric.Adj(numNodes + 1); Sound(m) && IdsFromOne(m) && AllKeyed(m) && AtZero(m)
    modifies sub.lh, sub.valid, sub.d, sub.pi, sub.ch, sub.L, sub.T, sub.piOutif, sub.piInif, sub.S
    modifies sub.gateway
    ensures count == |Assigned(config, gwid - |config|)|
    ensures var m, g := metric.Adj(numNodes + 1), sub.Adj(numNodes + 1);
            && m == old(metric.Adj(numNodes + 1)) && Induced(m, g, config, gwid, numNodes)
            && Embedded(g, m) && Sound(g) && IdsFromOne(g) && ClearedAll(g) == g
            && FlagsOf(m, metric.valid[..numNodes + 1], sub.valid[..numNodes + 1], config, gwid, numNodes)
    ensures metric.valid[..] == old(metric.valid[..])
  {
    hide LastCost, Dropped, Sound, Embedded, IdsFromOne, AllKeyed, AtZero, ClearedAll, Revived;
    count := ConstructSubconfiguration(metric, sub, config, gwid, numNodes);
    InducedEmbedded(metric.Adj(numNodes + 1), sub.Adj(numNodes + 1), config, gwid, numNodes);
  }

  /** The accounts of a tree that construct_tree has extracted. */
  method AccountFor(tree: Graph, root: nat, size: nat, ghost g: Adjacency,
                    ghost metric: Adjacency, ghost x: Labels, ghost rank: seq<nat>)
    returns (ghost t: Adjacency)
    requires tree.Valid() && 0 < root < size <= MAX_NODES && AtZero(metric)
    requires Ready(g, metric, root, x, rank) && |rank| == |x.pi| == |x.d| == size
    requires IsTree(metric, root, x, tree.Adj(size))
    requires forall v :: 1 <= v < size ==> tree.pi[v] == x.pi[v]
    modifies tree.lh, tree.ch, tree.L, tree.T
    ensures t == old(tree.Adj(size)) && SameShape(t, tree.Adj(size))
    ensures forall u, k :: 0 <= u < size && 0 <= k < |tree.lh[u]| ==>
              tree.lh[u][k].flow == |Subtree(x, root, rank, tree.lh[u][k].dst)|
    ensures Sum(Totals(tree.T[..size]), size) == Sum(Distances(x), size)
  {
    hide Ready, IsTree, AtZero, SameShape, Subtree, Sum, Chains;
    TreeAtZero(g, metric, root, x, rank, tree.Adj(size));
    t := CountAndMark(tree, root, size, g, metric, x, rank);
  }

  /** t is the shortest-path tree of the labels, now is t with its flows, and T sums the loads. */
  ghost predicate Accounted(g: Adjacency, metric: Adjacency, root: nat, x: Labels,
                            rank: seq<nat>, t: Adjacency, now: Adjacency, T: seq<real>)
  {
    && |rank| == |x.d| == |x.pi| == |T| && Ready(g, metric, root, x, rank) && IsTree(metric, root, x, t)
    && SameShape(t, now)
    && (forall u, k :: 0 <= u < |now| && 0 <= k < |now[u]| ==>
            now[u][k].flow == |Subtree(x, root, rank, now[u][k].dst)|)
    && Sum(Totals(T), |rank|) == Sum(Distances(x), |rank|)
  }

  /** construct_tree and model_tree's accounts, one after the other. */
  method BuildAndAccount(g: Graph, metric: Graph, tree: Graph, gwid: nat, size: nat)
    returns (ok: bool, ghost rank: seq<nat>, ghost t: Adjacency)
    requires g.Valid() && metric.Valid() && tree.Valid() && Apart(g, tree) && Apart(metric, tree) && Apart(metric, g)
    requires gwid + 1 < size <= MAX_NODES && tree.lh[0] == []
    requires Sound(g.Adj(size)) && Embedded(g.Adj(size), metric.Adj(size)) && IdsFromOne(g.Adj(size))
    requires ClearedAll(g.Adj(size)) == g.Adj(size)
    requires AtZero(metric.Adj(size))
    modifies g.lh, g.d, g.pi, g.piOutif, g.piInif, g.S, g.ch, g.L, g.T
    modifies tree.lh, tree.valid, tree.d, tree.pi, tree.ch, tree.L, tree.T, tree.piOutif, tree.piInif, tree.S
    modifies tree.gateway
    ensures g.Adj(size) == old(g.Adj(size)) && metric.Adj(size) == old(metric.Adj(size))
    ensures g.valid[..] == old(g.valid[..]) && metric.valid[..] == old(metric.valid[..])
    ensures Sound(g.Adj(size)) && g.View(size) == Dijkstra(g.Adj(size), gwid + 1)
    ensures ok <==> forall v :: 1 <= v < size && g.valid[v] ==> g.View(size).d[v] < INFLEN
    ensures tree.lh[0] == []
    ensures ok ==> Accounted(g.Adj(size), metric.Adj(size), gwid + 1, g.View(size), rank, t, tree.Adj(size),
        tree.T[..size])
  {
    hide Dijkstra, Sound, IdsFromOne, AtZero, Embedded, ClearedAll, Accounted, Extracted, Apart;
    ApartLists(g, tree);
    ApartLists(metric, tree);
    ApartLists(metric, g);
    ghost var m := metric.Adj(size);
    ok, rank := ConstructShortestPathTree(g, metric, tree, gwid, size);
    assert metric.Adj(size) == m;
    t := [];
    if ok {
      t := AccountForObjects(g, metric, tree, gwid + 1, size, rank);
    } else {
      assert tree.Adj(size)[0] == [];
    }
  }

  /** The accounts of the tree that construct_tree has left in the tree object. */
  method AccountForObjects(g: Graph, metric: Graph, tree: Graph, root: nat, size: nat, ghost rank: seq<nat>)
    returns (ghost t: Adjacency)
    requires g.Valid() && metric.Valid() && tree.Valid() && Apart(g, tree) && Apart(metric, tree)
    requires 0 < size <= MAX_NODES && Extracted(g, metric, tree, root, size, rank) && AtZero(metric.Adj(size))
    modifies tree.lh, tree.ch, tree.L, tree.T
    ensures g.Adj(size) == old(g.Adj(size)) && metric.Adj(size) == old(metric.Adj(size))
    ensures g.View(size) == old(g.View(size)) && tree.lh[0] == []
    ensures Accounted(g.Adj(size), metric.Adj(size), root, g.View(size), rank, t, tree.Adj(size), tree.T[..size])
  {
    hide Ready, IsTree, AtZero, SameShape, Subtree, Sum, Totals, Chains, Apart;
    ApartLists(g, tree);
    ApartLists(metric, tree);
    ghost var m, x, adj := metric.Adj(size), g.View(size), g.Adj(size);
    assert forall v :: 1 <= v < size ==> tree.pi[v] == x.pi[v];
    t := AccountFor(tree, root, size, adj, m, x, rank);
    AreAccounts(adj, m, root, x, rank, t, tree.Adj(size), tree.T[..size], tree);
    NothingAtZero(adj, m, root, x, rank, t, tree.Adj(size), tree.T[..size]);
    assert tree.lh[0] == tree.Adj(size)[0];
    assert g.View(size) == x && g.Adj(size) == adj && metric.Adj(size) == m;
  }

  /** No tree link leaves node 0. */
  lemma NothingAtZero(g: Adjacency, metric: Adjacency, root: nat, x: Labels,
                      rank: seq<nat>, t: Adjacency, now: Adjacency, T: seq<real>)
    requires Accounted(g, metric, root, x, rank, t, now, T) && root > 0
    ensures |now| > 0 && now[0] == []
  {
    hide Ready, Subtree, Sum;
    RootLabel(g, metric, root, x, rank);
    if t[0] != [] {
      var v := t[0][0].dst;
      assert t[0][0] in t[0] && v in ReachedNodes(x, root);
      InLinkFound(g, metric, root, x, rank, v);
      InLinkFound(g, metric, root, x, rank, 0);
    }
  }

  lemma AreAccounts(g: Adjacency, metric: Adjacency, root: nat, x: Labels, rank: seq<nat>,
                    t: Adjacency, now: Adjacency, T: seq<real>, tree: Graph)
    requires tree.Valid() && |rank| <= MAX_NODES && now == tree.Adj(|rank|) && T == tree.T[..|rank|]
    requires |rank| == |x.d| == |x.pi| && Ready(g, metric, root, x, rank) && IsTree(metric, root, x, t)
    requires SameShape(t, now)
    requires forall u, k :: 0 <= u < |rank| && 0 <= k < |tree.lh[u]| ==>
               tree.lh[u][k].flow == |Subtree(x, root, rank, tree.lh[u][k].dst)|
    requires Sum(Totals(tree.T[..|rank|]), |rank|) == Sum(Distances(x), |rank|)
    ensures Accounted(g, metric, root, x, rank, t, now, T)
  {
    assert forall u :: 0 <= u < |now| ==> now[u] == tree.lh[u];
  }

  /**
   * The loop body of execute_configuration in shortest-path mode: the gateway's tree spans its part of the network
   * exactly if every valid node of that part can be reached; then each link's flow is the size of the subtree behind it
   * and all T add up to all shortest distances.
   */
  method EvaluateGateway(metric: Graph, sub: Graph, tree: Graph, config: seq<int>, gwid: nat, numNodes: nat)
    returns (ok: bool, count: nat, ghost rank: seq<nat>, ghost t: Adjacency)
    requires metric.Valid() && sub.Valid() && tree.Valid() && Apart(metric, sub) && Apart(sub, tree)
    requires Apart(metric, tree)
    requires |config| <= numNodes < MAX_NODES && gwid < numNodes && sub.lh[0] == [] && tree.lh[0] == []
    requires var m := metric.Adj(numNodes + 1); Sound(m) && IdsFromOne(m) && AllKeyed(m) && AtZero(m)
    modifies sub.lh, sub.valid, sub.d, sub.pi, sub.ch, sub.L, sub.T, sub.piOutif, sub.piInif, sub.S
    modifies sub.gateway
    modifies tree.lh, tree.valid, tree.d, tree.pi, tree.ch, tree.L, tree.T, tree.piOutif, tree.piInif, tree.S
    modifies tree.gateway
    ensures metric.Adj(numNodes + 1) == old(metric.Adj(numNodes + 1)) && metric.valid[..] == old(metric.valid[..])
    ensures sub.lh[0] == [] && tree.lh[0] == [] && count == |Assigned(config, gwid - |config|)|
    ensures FlagsOf(metric.Adj(numNodes + 1), metric.valid[..numNodes + 1], sub.valid[..numNodes + 1], config, gwid,
                    numNodes)
    ensures Induced(metric.Adj(numNodes + 1), sub.Adj(numNodes + 1), config, gwid, numNodes)
    ensures Sound(sub.Adj(numNodes + 1)) && sub.View(numNodes + 1) == Dijkstra(sub.Adj(numNodes + 1), gwid + 1)
    ensures ok <==> forall v :: 1 <= v < numNodes + 1 && sub.valid[v] ==> sub.View(numNodes + 1).d[v] < INFLEN
    ensures ok ==> Accounted(sub.Adj(numNodes + 1), metric.Adj(numNodes + 1), gwid + 1, sub.View(numNodes + 1), rank, t,
                             tree.Adj(numNodes + 1), tree.T[..numNodes + 1])
  {
    hide Accounted, Induced, Dijkstra, Sound, IdsFromOne, AllKeyed, AtZero, Embedded, ClearedAll, FlagsOf, Assigned,
         Apart;
    ApartLists(sub, tree);
    count := SubgraphOf(metric, sub, config, gwid, numNodes);
    InducedSize(metric.Adj(numNodes + 1), sub.Adj(numNodes + 1), config, gwid, numNodes);
    ok, rank, t := BuildAndAccount(sub, metric, tree, gwid, numNodes + 1);
    assert sub.lh[0] == sub.Adj(numNodes + 1)[0];
  }

  // ---------- a whole configuration ----------

  /**
   * What one gateway's round starts from: its subgraph, that graph's flags and labels, and the nodes assigned to it.
   */
  datatype Part = Part(sub: Adjacency, flags: seq<bool>, x: Labels, count: nat)

  /** A tree with its flows, and the totals of its nodes. */
  datatype Marked = Marked(links: Adjacency, T: seq<real>)

  datatype Outcome = Outcome(parts: seq<Part>, trees: seq<Marked>, rank: real)

  ghost predicate IsPart(m: Adjacency, valid: seq<bool>, config: seq<int>, gwid: nat, numNodes: nat, p: Part) {
    && gwid < numNodes && Induced(m, p.sub, config, gwid, numNodes) && Sound(p.sub)
    && FlagsOf(m, valid, p.flags, config, gwid, numNodes)
    && p.x == Dijkstra(p.sub, gwid + 1) && p.count == |Assigned(config, gwid - |config|)|
  }

  /** Every valid node of the part is in reach of its gateway. */
  ghost predicate Connected(p: Part) {
    forall v :: 1 <= v < |p.flags| && v < |p.x.d| && p.flags[v] ==> p.x.d[v] < INFLEN
  }

  ghost predicate IsMarked(m: Adjacency, root: nat, p: Part, t: Marked) {
    exists rank, tree :: Accounted(p.sub, m, root, p.x, rank, tree, t.links, t.T)
  }

  /** A gateway's score: its share of the nodes times the cycle time of its tree. */
  function Score(count: nat, nodes: nat, cycle: real): real
    requires nodes > 0
  {
    count as real / nodes as real * cycle
  }

  ghost function RankOf(parts: seq<Part>, trees: seq<Marked>, nodes: nat, cycle: (Adjacency, seq<real>) -> real): real
    requires |trees| <= |parts| && nodes > 0
    decreases |trees|
  {
    if trees == [] then 0.0
    else
      var k := |trees| - 1;
      RankOf(parts, trees[..k], nodes, cycle) + Score(parts[k].count, nodes, cycle(trees[k].links, trees[k].T))
  }

  /** The gateways evaluated so far have these parts, and the first of them these trees. */
  ghost predicate Visited(m: Adjacency, valid: seq<bool>, config: seq<int>,
                          numNodes: nat, parts: seq<Part>, trees: seq<Marked>)
  {
    && |trees| <= |parts|
    && (forall k :: 0 <= k < |parts| ==> IsPart(m, valid, config, |config| + k, numNodes, parts[k]))
    && (forall k :: 0 <= k < |trees| ==> Connected(parts[k]) && IsMarked(m, |config| + k + 1, parts[k], trees[k]))
  }

  /** All gateways have their trees and the rank adds up their scores; or the first one without a tree ends it at 0. */
  ghost predicate Executed(m: Adjacency, valid: seq<bool>, config: seq<int>, numNodes: nat,
                           cycle: (Adjacency, seq<real>) -> real, o: Outcome)
  {
    && 0 < |config| <= numNodes && Visited(m, valid, config, numNodes, o.parts, o.trees)
    && if |o.trees| == numNodes - |config| then
         |o.parts| == |o.trees| && o.rank == RankOf(o.parts, o.trees, |config|, cycle)
       else
         |o.parts| == |o.trees| + 1 <= numNodes - |config| && !Connected(o.parts[|o.trees|]) && o.rank == 0.0
  }

  lemma VisitedPart(m: Adjacency, valid: seq<bool>, config: seq<int>,
                    numNodes: nat, parts: seq<Part>, trees: seq<Marked>, p: Part)
    requires Visited(m, valid, config, numNodes, parts, trees)
    requires IsPart(m, valid, config, |config| + |parts|, numNodes, p)
    ensures Visited(m, valid, config, numNodes, parts + [p], trees)
  {
    hide IsPart, Connected, IsMarked;
  }

  /** The next gateway has its tree. */
  lemma VisitedTree(m: Adjacency, valid: seq<bool>, config: seq<int>,
                    numNodes: nat, parts: seq<Part>, trees: seq<Marked>, t: Marked)
    requires Visited(m, valid, config, numNodes, parts, trees) && |parts| == |trees| + 1
    requires Connected(parts[|trees|]) && IsMarked(m, |config| + |trees| + 1, parts[|trees|], t)
    ensures Visited(m, valid, config, numNodes, parts, trees + [t])
  {
    hide IsPart, Connected, IsMarked;
  }

  lemma RankNext(parts: seq<Part>, trees: seq<Marked>, p: Part, t: Marked,
                 nodes: nat, cycle: (Adjacency, seq<real>) -> real)
    requires |parts| == |trees| && nodes > 0
    ensures RankOf(parts + [p], trees + [t], nodes, cycle)
         == RankOf(parts, trees, nodes, cycle) + Score(p.count, nodes, cycle(t.links, t.T))
  {
    hide Score;
    assert (trees + [t])[..|trees|] == trees;
    RankPrefix(parts, [p], trees, nodes, cycle);
  }

  lemma {:induction false} RankPrefix(parts: seq<Part>, more: seq<Part>, trees: seq<Marked>,
                                      nodes: nat, cycle: (Adjacency, seq<real>) -> real)
    requires |trees| <= |parts| && nodes > 0
    ensures RankOf(parts + more, trees, nodes, cycle) == RankOf(parts, trees, nodes, cycle)
    decreases |trees|
  {
    if trees != [] {
      RankPrefix(parts, more, trees[..|trees| - 1], nodes, cycle);
    }
  }

  /** `execute_configuration` in shortest-path mode; the interference model gives each marked tree a cycle time. */
  method ExecuteConfiguration(metric: Graph, sub: Graph, tree: Graph, config: seq<int>,
                              numNodes: nat, cycle: (Adjacency, seq<real>) -> real)
    returns (rank: real, ghost o: Outcome)
    requires metric.Valid() && sub.Valid() && tree.Valid() && Apart(metric, sub) && Apart(sub, tree)
    requires Apart(metric, tree)
    requires 0 < |config| <= numNodes < MAX_NODES && sub.lh[0] == [] && tree.lh[0] == []
    requires var m := metric.Adj(numNodes + 1); Sound(m) && IdsFromOne(m) && AllKeyed(m) && AtZero(m)
    modifies sub.lh, sub.valid, sub.d, sub.pi, sub.ch, sub.L, sub.T, sub.piOutif, sub.piInif, sub.S
    modifies sub.gateway
    modifies tree.lh, tree.valid, tree.d, tree.pi, tree.ch, tree.L, tree.T, tree.piOutif, tree.piInif, tree.S
    modifies tree.gateway
    ensures metric.Adj(numNodes + 1) == old(metric.Adj(numNodes + 1)) && metric.valid[..] == old(metric.valid[..])
    ensures sub.lh[0] == [] && tree.lh[0] == []
    ensures rank == o.rank
    ensures Executed(metric.Adj(numNodes + 1), metric.valid[..numNodes + 1], config, numNodes, cycle, o)
  {
    hide IsPart, Connected, IsMarked, Score, Sound, IdsFromOne, AllKeyed, AtZero, Apart, Visited, RankOf;
    ghost var m, valid := metric.Adj(numNodes + 1), metric.valid[..numNodes + 1];
    ghost var parts: seq<Part>, trees: seq<Marked> := [], [];
    NoneVisited(m, valid, config, numNodes, cycle);
    rank := 0.0;
    var i := |config|;
    while i < numNodes
      invariant |config| <= i <= numNodes && |parts| == |trees| == i - |config|
      invariant metric.Adj(numNodes + 1) == m && metric.valid[..] == old(metric.valid[..])
      invariant sub.lh[0] == [] && tree.lh[0] == []
      invariant Visited(m, valid, config, numNodes, parts, trees)
      invariant rank == RankOf(parts, trees, |config|, cycle)
    {
      assert metric.valid[..numNodes + 1] == valid;
      var ok, count;
      ghost var p, t;
      ok, count, p, t := EvaluatePart(metric, sub, tree, config, i, numNodes);
      VisitedPart(m, valid, config, numNodes, parts, trees, p);
      RankNext(parts, trees, p, t, |config|, cycle);
      parts := parts + [p];
      if !ok {
        return 0.0, Outcome(parts, trees, 0.0);
      }
      rank := rank + Score(count, |config|, cycle(tree.lh[..numNodes + 1], tree.T[..numNodes + 1]));
      VisitedTree(m, valid, config, numNodes, parts, trees, t);
      trees := trees + [t];
      i := i + 1;
    }
    o := Outcome(parts, trees, rank);
  }

  lemma NoneVisited(m: Adjacency, valid: seq<bool>, config: seq<int>,
                    numNodes: nat, cycle: (Adjacency, seq<real>) -> real)
    ensures Visited(m, valid, config, numNodes, [], [])
    ensures |config| > 0 ==> RankOf([], [], |config|, cycle) == 0.0
  {
  }

  /** One round of it, as values. */
  method EvaluatePart(metric: Graph, sub: Graph, tree: Graph, config: seq<int>, gwid: nat, numNodes: nat)
    returns (ok: bool, count: nat, ghost p: Part, ghost t: Marked)
    requires metric.Valid() && sub.Valid() && tree.Valid() && Apart(metric, sub) && Apart(sub, tree)
    requires Apart(metric, tree)
    requires |config| <= numNodes < MAX_NODES && gwid < numNodes && sub.lh[0] == [] && tree.lh[0] == []
    requires var m := metric.Adj(numNodes + 1); Sound(m) && IdsFromOne(m) && AllKeyed(m) && AtZero(m)
    modifies sub.lh, sub.valid, sub.d, sub.pi, sub.ch, sub.L, sub.T, sub.piOutif, sub.piInif, sub.S
    modifies sub.gateway
    modifies tree.lh, tree.valid, tree.d, tree.pi, tree.ch, tree.L, tree.T, tree.piOutif, tree.piInif, tree.S
    modifies tree.gateway
    ensures metric.Adj(numNodes + 1) == old(metric.Adj(numNodes + 1)) && metric.valid[..] == old(metric.valid[..])
    ensures sub.lh[0] == [] && tree.lh[0] == []
    ensures IsPart(metric.Adj(numNodes + 1), metric.valid[..numNodes + 1], config, gwid, numNodes, p)
    ensures count == p.count && (ok <==> Connected(p))
    ensures t == Marked(tree.lh[..numNodes + 1], tree.T[..numNodes + 1])
    ensures ok ==> IsMarked(metric.Adj(numNodes + 1), gwid + 1, p, t)
  {
    hide Accounted, Induced, Dijkstra, Sound, IdsFromOne, AllKeyed, AtZero, FlagsOf, Assigned, Apart;
    ghost var rank, built;
    ok, count, rank, built := EvaluateGateway(metric, sub, tree, config, gwid, numNodes);
    p := Part(sub.Adj(numNodes + 1), sub.valid[..numNodes + 1], sub.View(numNodes + 1), count);
    t := Marked(tree.lh[..numNodes + 1], tree.T[..numNodes + 1]);
  }

  const WORST_RANK: real := 1000000.0

  /** The search counts a configuration only if its rank lies between these bounds. */
  predicate Eligible(o: Outcome) {
    0.0 < o.rank < WORST_RANK
  }

  /** The first of the least eligible ranks, or -1 if there is none. */
  predicate IsBestOf(outcomes: seq<Outcome>, best: int) {
    if best == -1 then forall i :: 0 <= i < |outcomes| ==> !Eligible(outcomes[i])
    else
      && 0 <= best < |outcomes| && Eligible(outcomes[best])
      && (forall i :: 0 <= i < |outcomes| && Eligible(outcomes[i]) ==> outcomes[best].rank <= outcomes[i].rank)
      && (forall i :: 0 <= i < best && Eligible(outcomes[i]) ==> outcomes[best].rank < outcomes[i].rank)
  }

  /** In plain words: the least rank above 0 and below a million, the first of equal ones; -1 if there is none. */
  lemma BestOfMeans(outcomes: seq<Outcome>, best: int, i: nat)
    requires IsBestOf(outcomes, best) && i < |outcomes| && 0.0 < outcomes[i].rank < 1000000.0
    ensures 0 <= best < |outcomes| && 0.0 < outcomes[best].rank <= outcomes[i].rank
    ensures outcomes[best].rank == outcomes[i].rank ==> best <= i
  {
    assert Eligible(outcomes[i]);
  }

  ghost predicate AllExecuted(m: Adjacency, valid: seq<bool>, configs: seq<seq<int>>, numNodes: nat,
                              cycle: (Adjacency, seq<real>) -> real, outcomes: seq<Outcome>) {
    && |outcomes| <= |configs|
    && forall k :: 0 <= k < |outcomes| ==> Executed(m, valid, configs[k], numNodes, cycle, outcomes[k])
  }

  /** `perform_exhaustive_search` over the configurations. */
  method PerformExhaustiveSearch(metric: Graph, sub: Graph, tree: Graph, configs: seq<seq<int>>,
                                 numNodes: nat, cycle: (Adjacency, seq<real>) -> real)
    returns (best: int, ghost outcomes: seq<Outcome>)
    requires metric.Valid() && sub.Valid() && tree.Valid() && Apart(metric, sub) && Apart(sub, tree)
    requires Apart(metric, tree)
    requires forall i :: 0 <= i < |configs| ==> 0 < |configs[i]| <= numNodes
    requires numNodes < MAX_NODES && sub.lh[0] == [] && tree.lh[0] == []
    requires var m := metric.Adj(numNodes + 1); Sound(m) && IdsFromOne(m) && AllKeyed(m) && AtZero(m)
    modifies sub.lh, sub.valid, sub.d, sub.pi, sub.ch, sub.L, sub.T, sub.piOutif, sub.piInif, sub.S
    modifies sub.gateway
    modifies tree.lh, tree.valid, tree.d, tree.pi, tree.ch, tree.L, tree.T, tree.piOutif, tree.piInif, tree.S
    modifies tree.gateway
    ensures |outcomes| == |configs| && IsBestOf(outcomes, best)
    ensures AllExecuted(metric.Adj(numNodes + 1), metric.valid[..numNodes + 1], configs, numNodes, cycle, outcomes)
  {
    hide Executed, Sound, IdsFromOne, AllKeyed, AtZero, Apart, IsBestOf, AllExecuted;
    ghost var m, valid := metric.Adj(numNodes + 1), metric.valid[..numNodes + 1];
    var bestRank := WORST_RANK;
    best, outcomes := -1, [];
    NoBest(m, valid, configs, numNodes, cycle);
    var i := 0;
    while i < |configs|
      invariant 0 <= i <= |configs| && |outcomes| == i
      invariant metric.Adj(numNodes + 1) == m && metric.valid[..numNodes + 1] == valid
      invariant sub.lh[0] == [] && tree.lh[0] == []
      invariant IsBestOf(outcomes, best) && bestRank == RankAt(outcomes, best)
      invariant AllExecuted(m, valid, configs, numNodes, cycle, outcomes)
    {
      ghost var o;
      var rank;
      rank, o := ExecuteConfiguration(metric, sub, tree, configs[i], numNodes, cycle);
      assert metric.valid[..numNodes + 1] == valid;
      BestNext(m, valid, configs, numNodes, cycle, outcomes, best, o);
      outcomes := outcomes + [o];
      if rank > 0.0 && rank < bestRank {
        best, bestRank := i, rank;
      }
      i := i + 1;
    }
  }

  /** The rank that the next configuration has to beat. */
  function RankAt(outcomes: seq<Outcome>, best: int): real {
    if 0 <= best < |outcomes| then outcomes[best].rank else WORST_RANK
  }

  lemma NoBest(m: Adjacency, valid: seq<bool>, configs: seq<seq<int>>,
               numNodes: nat, cycle: (Adjacency, seq<real>) -> real)
    ensures IsBestOf([], -1) && AllExecuted(m, valid, configs, numNodes, cycle, [])
  {
  }

  lemma BestNext(m: Adjacency, valid: seq<bool>, configs: seq<seq<int>>, numNodes: nat,
                 cycle: (Adjacency, seq<real>) -> real, outcomes: seq<Outcome>, best: int, o: Outcome)
    requires IsBestOf(outcomes, best) && AllExecuted(m, valid, configs, numNodes, cycle, outcomes)
    requires |outcomes| < |configs| && Executed(m, valid, configs[|outcomes|], numNodes, cycle, o)
    ensures IsBestOf(outcomes + [o], if 0.0 < o.rank < RankAt(outcomes, best) then |outcomes| else best)
    ensures RankAt(outcomes + [o], best) == RankAt(outcomes, best)
    ensures AllExecuted(m, valid, configs, numNodes, cycle, outcomes + [o])
  {
    hide Executed;
  }

  // ---------- what the outcome depends on ----------

  /** The same links in every row, in any order. */
  ghost predicate SameLinks(g: Adjacency, h: Adjacency) {
    |g| == |h| && forall u, l :: 0 <= u < |g| ==> (l in g[u] <==> l in h[u])
  }

  lemma {:induction false} SamePath(g: Adjacency, h: Adjacency, u: nat, p: seq<Link>, v: nat)
    requires SameLinks(g, h) && Path(g, u, p, v)
    ensures Path(h, u, p, v)
    decreases |p|
  {
    if p != [] {
      SamePath(g, h, p[0].dst, p[1..], v);
    }
  }

  /** Distances do not depend on the order of the lists. */
  lemma SameDistance(g: Adjacency, h: Adjacency, s: nat, v: nat)
    requires SameLinks(g, h) && Sound(g) && Sound(h) && s < |g| && v < |g|
    ensures Dijkstra(g, s).d[v] == Dijkstra(h, s).d[v]
  {
    hide Dijkstra, Sound;
    DijkstraExact(g, s, v);
    DijkstraExact(h, s, v);
    var x := Dijkstra(h, s).d[v];
    forall p | Path(g, s, p, v)
      ensures x <= Cost(p) || INFLEN <= Cost(p)
    {
      SamePath(g, h, s, p, v);
    }
    if x < INFLEN {
      var p :| Path(h, s, p, v) && Cost(p) == x;
      SamePath(h, g, s, p, v);
    }
    DistanceUnique(g, s, v, Dijkstra(g, s).d[v], x);
  }

  /**
   * The links, flags and node count of a part are determined, up to the order of its lists, and with them its labels.
   */
  lemma PartUnique(m: Adjacency, valid: seq<bool>, config: seq<int>, gwid: nat, numNodes: nat, p: Part, q: Part)
    requires IsPart(m, valid, config, gwid, numNodes, p) && IsPart(m, valid, config, gwid, numNodes, q)
    ensures SameLinks(p.sub, q.sub) && p.count == q.count && p.x.d == q.x.d && (Connected(p) <==> Connected(q))
  {
    hide LastCost, Dropped, Sound, Dijkstra;
    SameRows(m, config, gwid, numNodes, p.sub, q.sub);
    forall v | 0 <= v < |p.sub|
      ensures p.x.d[v] == q.x.d[v]
    {
      SameDistance(p.sub, q.sub, gwid + 1, v);
    }
  }

  lemma SameRows(m: Adjacency, config: seq<int>, gwid: nat, numNodes: nat, g: Adjacency, h: Adjacency)
    requires Induced(m, g, config, gwid, numNodes) && Induced(m, h, config, gwid, numNodes)
    ensures SameLinks(g, h)
  {
    hide LastCost, Dropped;
    forall u, l | 0 <= u < |g|
      ensures l in g[u] <==> l in h[u]
    {
      if u > 0 {
        assert 1 <= u <= numNodes;
      }
    }
  }

  /** The configuration is ranked if and only if no gateway has a valid node of its part out of reach. */
  lemma RankedIff(m: Adjacency, valid: seq<bool>, config: seq<int>, numNodes: nat,
                  cycle: (Adjacency, seq<real>) -> real, o: Outcome)
    requires Executed(m, valid, config, numNodes, cycle, o)
    ensures |o.trees| == numNodes - |config| <==>
            forall gwid: nat, p :: |config| <= gwid < numNodes && IsPart(m, valid, config, gwid, numNodes, p) ==>
                                     Connected(p)
  {
    hide IsPart, Connected, IsMarked, Score;
    if |o.trees| == numNodes - |config| {
      forall gwid: nat, p | |config| <= gwid < numNodes && IsPart(m, valid, config, gwid, numNodes, p)
        ensures Connected(p)
      {
        PartUnique(m, valid, config, gwid, numNodes, p, o.parts[gwid - |config|]);
      }
    } else {
      var k := |o.trees|;
      assert IsPart(m, valid, config, |config| + k, numNodes, o.parts[k]);
    }
  }

  /** How many nodes are assigned to each gateway. */
  ghost function Loads(config: seq<int>): nat -> real {
    (i: nat) => |Assigned(config, i)| as real
  }

  lemma AssignedNext(init: seq<int>, a: int, i: nat)
    ensures Loads(init + [a])(i) == Loads(init)(i) + if a == i then 1.0 else 0.0
  {
    var k := |init|;
    assert Assigned(init + [a], i) == Assigned(init, i) + if a == i then {k} else {};
    assert k !in Assigned(init, i);
  }

  /** Every node is assigned to one gateway. */
  lemma {:induction false} LoadsAddUp(config: seq<int>, gateways: nat)
    requires forall k :: 0 <= k < |config| ==> 0 <= config[k] < gateways
    ensures Sum(Loads(config), gateways) == |config| as real
    decreases |config|
  {
    hide Loads, Sum;
    if config == [] {
      forall i: nat
        ensures Loads([])(i) == 0.0
      {
        NoLoad(i);
      }
      SumZero(Loads(config), gateways);
    } else {
      var k := |config| - 1;
      var init := config[..k];
      LoadsAddUp(init, gateways);
      forall i: nat
        ensures Loads(config)(i) == Loads(init)(i) + if config[k] == i then 1.0 else 0.0
      {
        assert init + [config[k]] == config;
        AssignedNext(init, config[k], i);
      }
      SumPoint(Loads(config), Loads(init), gateways, config[k]);
    }
  }

  lemma NoLoad(i: nat)
    ensures Loads([])(i) == 0.0
  {
    assert Assigned([], i) == {};
  }

  lemma LoadOfPart(m: Adjacency, valid: seq<bool>, config: seq<int>, numNodes: nat, k: nat, p: Part)
    requires IsPart(m, valid, config, |config| + k, numNodes, p)
    ensures Loads(config)(k) == p.count as real
  {
    hide Induced, FlagsOf, Sound, Dijkstra;
  }

  /** The sum of the first scores against the loads, for cycle times between lo and hi. */
  lemma {:induction false} RankBounds(m: Adjacency, valid: seq<bool>, config: seq<int>,
                                      numNodes: nat, cycle: (Adjacency, seq<real>) -> real,
                                      parts: seq<Part>, trees: seq<Marked>, lo: real, hi: real)
    requires Visited(m, valid, config, numNodes, parts, trees) && |config| > 0
    requires forall t :: t in trees ==> lo <= cycle(t.links, t.T) <= hi
    ensures var s := Sum(Loads(config), |trees|) / |config| as real;
            s * lo <= RankOf(parts, trees, |config|, cycle) <= s * hi
    decreases |trees|
  {
    hide Score, Connected, IsMarked, IsPart, Loads;
    if trees != [] {
      var k := |trees| - 1;
      var init, c := trees[..k], cycle(trees[k].links, trees[k].T);
      RankBounds(m, valid, config, numNodes, cycle, parts, init, lo, hi);
      LoadOfPart(m, valid, config, numNodes, k, parts[k]);
      ShareBounds(Sum(Loads(config), k), parts[k].count, |config|, c, lo, hi);
    }
  }

  lemma ShareBounds(s: real, count: nat, nodes: nat, c: real, lo: real, hi: real)
    requires nodes > 0 && lo <= c <= hi
    ensures var n, all := nodes as real, s + count as real;
            all / n * lo <= s / n * lo + Score(count, nodes, c) && s / n * hi + Score(count, nodes, c) <= all / n * hi
  {
    var n := nodes as real;
    var a, b := s / n, count as real / n;
    assert (s + count as real) / n == a + b && b >= 0.0;
    assert (a + b) * lo == a * lo + b * lo && (a + b) * hi == a * hi + b * hi;
    assert b * lo <= b * c <= b * hi;
  }

  /** The rank is a weighted mean of the cycle times: it lies between any bounds on them. */
  lemma RankIsMean(m: Adjacency, valid: seq<bool>, config: seq<int>, numNodes: nat,
                   cycle: (Adjacency, seq<real>) -> real, o: Outcome, lo: real, hi: real)
    requires Executed(m, valid, config, numNodes, cycle, o) && |o.trees| == numNodes - |config|
    requires forall k :: 0 <= k < |config| ==> 0 <= config[k] < numNodes - |config|
    requires forall t :: t in o.trees ==> lo <= cycle(t.links, t.T) <= hi
    ensures lo <= o.rank <= hi
  {
    hide Visited, RankOf, Sum;
    LoadsAddUp(config, numNodes - |config|);
    RankBounds(m, valid, config, numNodes, cycle, o.parts, o.trees, lo, hi);
    assert |config| as real / |config| as real == 1.0;
  }
}
