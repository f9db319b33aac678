/** The shortest-path tree that `make_tree_graph` extracts by walking predecessors, on values. */
module TreeGraphs {
  import opened Graphs
  import opened ShortestPaths

  /** `add_link` along one list: a new link goes to the head, a known one gets the new cost and channel. */
  function AddTo(links: seq<Link>, to: nat, cost: real, o: int, i: int, channel: int): seq<Link> {
    if FindIn(links, to, o, i).None? then [Link(to, cost, o, i, channel, 0)] + links
    else Refresh(links, to, cost, o, i, channel)
  }

  /** Update the first link with the key. */
  function Refresh(links: seq<Link>, to: nat, cost: real, o: int, i: int, channel: int): (r: seq<Link>)
    ensures |r| == |links|
  {
    if links == [] then []
    else if links[0].Is(to, o, i) then [links[0].(cost := cost, channel := channel)] + links[1..]
    else [links[0]] + Refresh(links[1..], to, cost, o, i, channel)
  }

  /** Afterwards the key is there with the new cost and channel, every other key as before; a new link comes first. */
  lemma {:induction false} AddToExact(links: seq<Link>, to: nat, cost: real, o: int, i: int, channel: int)
    ensures var r, l := AddTo(links, to, cost, o, i, channel), FindIn(links, to, o, i);
            && FindIn(r, to, o, i) == Some(Link(to, cost, o, i, channel, if l.Some? then l.value.flow else 0))
            && (l.None? ==> r != [] && r[1..] == links)
            && (l.Some? ==>
                  && |r| == |links|
                  && forall k :: 0 <= k < |r| && !links[k].Is(to, o, i) ==> r[k] == links[k])
  {
    if links != [] && !links[0].Is(to, o, i) {
      AddToExact(links[1..], to, cost, o, i, channel);
      var r, t := AddTo(links, to, cost, o, i, channel), AddTo(links[1..], to, cost, o, i, channel);
      if FindIn(links, to, o, i).Some? {
        assert r == [links[0]] + t && r[1..] == t;
        forall k | 0 <= k < |r| && !links[k].Is(to, o, i)
          ensures r[k] == links[k]
        {
          assert k > 0 ==> r[k] == t[k - 1] && links[k] == links[1..][k - 1];
        }
      }
    }
  }

  lemma {:induction false} RefreshSame(links: seq<Link>, l: Link)
    requires Keyed(links) && FindIn(links, l.dst, l.outif, l.inif) == Some(l)
    ensures Refresh(links, l.dst, l.cost, l.outif, l.inif, l.channel) == links
  {
    if links[0] != l {
      RefreshSame(links[1..], l);
      assert [links[0]] + links[1..] == links;
    } else {
      assert [l] + links[1..] == links;
    }
  }

  /** Every link of g is also in metric, with the same cost. */
  ghost predicate Embedded(g: Adjacency, metric: Adjacency) {
    && |g| == |metric|
    && forall u, l :: 0 <= u < |g| && l in g[u] ==>
                        var m := FindIn(metric[u], l.dst, l.outif, l.inif); m.Some? && m.value.cost == l.cost
  }

  lemma SelfEmbedded(g: Adjacency)
    requires AllKeyed(g)
    ensures Embedded(g, g)
  {
    forall u, l | 0 <= u < |g| && l in g[u]
      ensures FindIn(g[u], l.dst, l.outif, l.inif) == Some(l)
    {
      var k :| 0 <= k < |g[u]| && g[u][k] == l;
      FindKeyed(g[u], k);
    }
  }

  /** A finished search over g from root, with node ids from 1, whose links metric knows. */
  ghost predicate Ready(g: Adjacency, metric: Adjacency, root: nat, x: Labels, rank: seq<nat>) {
    && Finished(g, root, x, rank) && Embedded(g, metric)
    && 0 < root < |g| && IdsFromOne(g)
  }

  predicate Reached(x: Labels, v: nat) {
    v < |x.d| && x.d[v] < INFLEN
  }

  /** The tree link into v. */
  function InLink(metric: Adjacency, x: Labels, v: nat): Link
    requires v < |x.d| && Shaped(x, |x.d|)
  {
    if x.pi[v] < |metric| && FindIn(metric[x.pi[v]], v, x.outif[v], x.inif[v]).Some? then
      FindIn(metric[x.pi[v]], v, x.outif[v], x.inif[v]).value.(flow := 0)
    else Link(v, 0.0, x.outif[v], x.inif[v], 0, 0)
  }

  /** A reached node has its link in metric, and the link accounts for the label. */
  lemma InLinkFound(g: Adjacency, metric: Adjacency, root: nat, x: Labels, rank: seq<nat>, v: nat)
    requires Ready(g, metric, root, x, rank) && Reached(x, v) && v != root
    ensures v > 0 && |rank| == |g| == |metric| == |x.d| && Shaped(x, |x.d|)
    ensures x.pi[v] < |g| && Reached(x, x.pi[v]) && rank[x.pi[v]] < rank[v]
    ensures FindIn(metric[x.pi[v]], v, x.outif[v], x.inif[v]).Some?
    ensures InLink(metric, x, v).Is(v, x.outif[v], x.inif[v])
    ensures x.d[v] == x.d[x.pi[v]] + InLink(metric, x, v).cost
  {
    var u, l := LastLink(g, root, x, rank, v);
    assert l.Is(l.dst, l.outif, l.inif);
  }

  /** The tree holds exactly the in-links of the nodes in done, each once. */
  ghost predicate Holds(metric: Adjacency, x: Labels, tree: Adjacency, done: set<nat>) {
    && |tree| == |metric| == |x.d| && Shaped(x, |x.d|)
    && (forall v :: v in done ==> v < |x.d|)
    && (forall u :: 0 <= u < |tree| ==> Keyed(tree[u]))
    && (forall u, l :: 0 <= u < |tree| && l in tree[u] ==>
            l.dst in done && x.pi[l.dst] == u && l == InLink(metric, x, l.dst))
    && (forall v :: v in done ==> x.pi[v] < |tree| && InLink(metric, x, v) in tree[x.pi[v]])
  }

  /** The walk from v back to the root: each step adds the link into v. */
  ghost function WalkUp(g: Adjacency, metric: Adjacency, root: nat, x: Labels,
                        rank: seq<nat>, tree: Adjacency, v: nat): (t: Adjacency)
    requires Ready(g, metric, root, x, rank) && |tree| == |g|
    requires v < |x.d|
    ensures |t| == |tree|
    decreases if v < |rank| then rank[v] else 0
  {
    if x.d[v] >= INFLEN || v == root then tree
    else
      InLinkFound(g, metric, root, x, rank, v);
      var l := FindIn(metric[x.pi[v]], v, x.outif[v], x.inif[v]).value;
      var t := tree[x.pi[v] := AddTo(tree[x.pi[v]], v, l.cost, x.outif[v], x.inif[v], l.channel)];
      WalkUp(g, metric, root, x, rank, t, x.pi[v])
  }

  /** `make_tree_graph` for the nodes from i on. */
  ghost function MakeTree(g: Adjacency, metric: Adjacency, root: nat, x: Labels,
                          rank: seq<nat>, tree: Adjacency, i: nat): Adjacency
    requires Ready(g, metric, root, x, rank) && |tree| == |g| == |x.d|
    decreases |g| - i
  {
    if i >= |g| then tree
    else MakeTree(g, metric, root, x, rank, WalkUp(g, metric, root, x, rank, tree, i), i + 1)
  }

  /** Adding a link that is new, or there already, adds just that link. */
  lemma AddToKeyed(links: seq<Link>, l: Link)
    requires Keyed(links) && l.flow == 0
    requires FindIn(links, l.dst, l.outif, l.inif) == None || FindIn(links, l.dst, l.outif, l.inif) == Some(l)
    ensures var r := AddTo(links, l.dst, l.cost, l.outif, l.inif, l.channel);
            Keyed(r) && forall m :: m in r <==> m in links || m == l
  {
    if FindIn(links, l.dst, l.outif, l.inif).Some? {
      RefreshSame(links, l);
    } else {
      var r := [l] + links;
      forall i, j | 0 <= i < j < |r|
        ensures !r[j].Is(r[i].dst, r[i].outif, r[i].inif)
      {
        assert r[j] == links[j - 1] && r[j] in links;
      }
    }
  }

  lemma AddOne(g: Adjacency, metric: Adjacency, root: nat, x: Labels,
               rank: seq<nat>, tree: Adjacency, done: set<nat>, v: nat)
    requires Ready(g, metric, root, x, rank) && Holds(metric, x, tree, done) && Reached(x, v) && v != root
    requires |metric| == |g| && Shaped(x, |x.d|) && x.pi[v] < |metric|
    requires FindIn(metric[x.pi[v]], v, x.outif[v], x.inif[v]).Some?
    ensures var l := FindIn(metric[x.pi[v]], v, x.outif[v], x.inif[v]).value;
            Holds(metric, x, tree[x.pi[v] := AddTo(tree[x.pi[v]], v, l.cost, x.outif[v], x.inif[v], l.channel)],
                done + {v})
  {
    hide Keyed, AddTo, Ready;
    var u := x.pi[v];
    var l := InLink(metric, x, v);
    assert l.Is(v, x.outif[v], x.inif[v]);
    AddToKeyed(tree[u], l);
    var t := tree[u := AddTo(tree[u], v, l.cost, x.outif[v], x.inif[v], l.channel)];
    assert forall w :: 0 <= w < |tree| && w != u ==> t[w] == tree[w];
  }

  lemma {:induction false} WalkHolds(g: Adjacency, metric: Adjacency, root: nat, x: Labels,
                                     rank: seq<nat>, tree: Adjacency, done: set<nat>, v: nat)
    returns (more: set<nat>)
    requires Ready(g, metric, root, x, rank) && Holds(metric, x, tree, done) && v < |x.d| && |tree| == |g|
    requires forall w :: w in done ==> Reached(x, w) && w != root
    ensures Holds(metric, x, WalkUp(g, metric, root, x, rank, tree, v), more)
    ensures done <= more && (forall w :: w in more ==> Reached(x, w) && w != root)
    ensures Reached(x, v) && v != root ==> v in more
    decreases if v < |rank| then rank[v] else 0
  {
    if x.d[v] >= INFLEN || v == root {
      more := done;
    } else {
      InLinkFound(g, metric, root, x, rank, v);
      AddOne(g, metric, root, x, rank, tree, done, v);
      var l := FindIn(metric[x.pi[v]], v, x.outif[v], x.inif[v]).value;
      var t := tree[x.pi[v] := AddTo(tree[x.pi[v]], v, l.cost, x.outif[v], x.inif[v], l.channel)];
      more := WalkHolds(g, metric, root, x, rank, t, done + {v}, x.pi[v]);
    }
  }

  lemma {:induction false} TreeHolds(g: Adjacency, metric: Adjacency, root: nat, x: Labels,
                                     rank: seq<nat>, tree: Adjacency, done: set<nat>, i: nat)
    returns (more: set<nat>)
    requires Ready(g, metric, root, x, rank) && Holds(metric, x, tree, done) && |tree| == |g| == |x.d| && i <= |g|
    requires forall w :: w in done ==> Reached(x, w) && w != root
    requires forall w :: 1 <= w < i && Reached(x, w) && w != root ==> w in done
    ensures Holds(metric, x, MakeTree(g, metric, root, x, rank, tree, i), more)
    ensures forall w :: 1 <= w && Reached(x, w) && w != root ==> w in more
    ensures forall w :: w in more ==> Reached(x, w) && w != root
    decreases |g| - i
  {
    hide Ready, Holds;
    if i >= |g| {
      more := done;
    } else {
      more := WalkHolds(g, metric, root, x, rank, tree, done, i);
      more := TreeHolds(g, metric, root, x, rank, WalkUp(g, metric, root, x, rank, tree, i), more, i + 1);
    }
  }

  ghost function ReachedNodes(x: Labels, root: nat): set<nat> {
    set v | 0 <= v < |x.d| && x.d[v] < INFLEN && v != root
  }

  /** The tree of labels x: exactly one link into every reached node but the root, from its predecessor. */
  ghost predicate IsTree(metric: Adjacency, root: nat, x: Labels, tree: Adjacency) {
    Holds(metric, x, tree, ReachedNodes(x, root))
  }

  ghost function EmptyGraph(n: nat): Adjacency {
    seq(n, _ => [])
  }

  /**
   * The extraction yields the tree of the labels; its assertions hold on the way, because every link it looks up is
   * found.
   */
  lemma MakeTreeExact(g: Adjacency, metric: Adjacency, root: nat, x: Labels, rank: seq<nat>)
    requires Ready(g, metric, root, x, rank) && |g| == |x.d|
    ensures IsTree(metric, root, x, MakeTree(g, metric, root, x, rank, EmptyGraph(|g|), 1))
  {
    var done := TreeHolds(g, metric, root, x, rank, EmptyGraph(|g|), {}, 1);
    forall v
      ensures v in done <==> v in ReachedNodes(x, root)
    {
      if v in ReachedNodes(x, root) {
        InLinkFound(g, metric, root, x, rank, v);
      }
    }
    assert done == ReachedNodes(x, root);
  }

  /** No node has two in-links. */
  lemma OneInLink(metric: Adjacency, root: nat, x: Labels, tree: Adjacency, u: nat, i: nat, w: nat, j: nat)
    requires IsTree(metric, root, x, tree)
    requires u < |tree| && i < |tree[u]| && w < |tree| && j < |tree[w]| && tree[u][i].dst == tree[w][j].dst
    ensures u == w && i == j
  {
    assert tree[u][i] in tree[u] && tree[w][j] in tree[w];
    SameKey(tree[u], i, if j < |tree[u]| then j else i);
  }

  lemma SameKey(links: seq<Link>, i: nat, j: nat)
    requires Keyed(links) && i < |links| && j < |links| && links[j].Is(links[i].dst, links[i].outif, links[i].inif)
    ensures i == j
  {
    assert links[i].Is(links[j].dst, links[j].outif, links[j].inif);
  }

  /** Splitting off a path's last link. */
  lemma {:induction false} PathLast(adj: Adjacency, u: nat, p: seq<Link>, v: nat) returns (w: nat)
    requires Path(adj, u, p, v) && p != []
    ensures w < |adj| && Path(adj, u, p[..|p| - 1], w) && p[|p| - 1] in adj[w] && p[|p| - 1].dst == v
    ensures Cost(p) == Cost(p[..|p| - 1]) + p[|p| - 1].cost
    decreases |p|
  {
    if |p| == 1 {
      w := u;
    } else {
      w := PathLast(adj, p[0].dst, p[1..], v);
      assert p[..|p| - 1][1..] == p[1..][..|p| - 2];
      assert p[1..][|p| - 2] == p[|p| - 1];
    }
  }

  /** A tree path that is not empty ends at a reached node other than the root. */
  lemma TreePathEnds(metric: Adjacency, root: nat, x: Labels, tree: Adjacency, p: seq<Link>, v: nat)
    requires IsTree(metric, root, x, tree) && Path(tree, root, p, v) && p != []
    ensures v != root && Reached(x, v)
  {
    var w := PathLast(tree, root, p, v);
  }

  /** The root has no way back, every other node a unique path from the root. */
  lemma {:induction false} TreePathUnique(metric: Adjacency, root: nat, x: Labels,
                                          tree: Adjacency, p: seq<Link>, q: seq<Link>, v: nat)
    requires IsTree(metric, root, x, tree) && Path(tree, root, p, v) && Path(tree, root, q, v)
    ensures p == q
    decreases |p|
  {
    if p != [] {
      TreePathEnds(metric, root, x, tree, p, v);
    }
    if q != [] {
      TreePathEnds(metric, root, x, tree, q, v);
    }
    if p != [] && q != [] {
      var w := PathLast(tree, root, p, v);
      var w' := PathLast(tree, root, q, v);
      assert p[|p| - 1] == q[|q| - 1] && w == w';
      TreePathUnique(metric, root, x, tree, p[..|p| - 1], q[..|q| - 1], w);
      assert p == p[..|p| - 1] + [p[|p| - 1]] && q == q[..|q| - 1] + [q[|q| - 1]];
    }
  }

  /** The tree path to a reached node costs exactly its label. */
  lemma {:induction false} TreePath(g: Adjacency, metric: Adjacency, root: nat,
                                    x: Labels, rank: seq<nat>, tree: Adjacency, v: nat)
    returns (p: seq<Link>)
    requires Ready(g, metric, root, x, rank) && IsTree(metric, root, x, tree) && Reached(x, v)
    ensures Path(tree, root, p, v) && Cost(p) == x.d[v]
    decreases if v < |rank| then rank[v] else 0
  {
    if v == root {
      p := [];
    } else {
      InLinkFound(g, metric, root, x, rank, v);
      assert v in ReachedNodes(x, root);
      p := TreePath(g, metric, root, x, rank, tree, x.pi[v]);
      PathSnoc(tree, root, p, x.pi[v], InLink(metric, x, v));
      p := p + [InLink(metric, x, v)];
    }
  }

  /** A node is on some tree path from the root exactly when the search reached it. */
  lemma TreeSpansReached(g: Adjacency, metric: Adjacency, root: nat, x: Labels, rank: seq<nat>, tree: Adjacency, v: nat)
    requires Ready(g, metric, root, x, rank) && IsTree(metric, root, x, tree)
    ensures Reached(x, v) <==> exists p :: Path(tree, root, p, v)
  {
    if Reached(x, v) {
      var p := TreePath(g, metric, root, x, rank, tree, v);
      assert Path(tree, root, p, v);
      assert exists p :: Path(tree, root, p, v);
    }
    forall p | Path(tree, root, p, v)
      ensures Reached(x, v)
    {
      PathReached(g, metric, root, x, rank, tree, p, v);
    }
  }

  lemma PathReached(g: Adjacency, metric: Adjacency, root: nat, x: Labels,
                    rank: seq<nat>, tree: Adjacency, p: seq<Link>, v: nat)
    requires Ready(g, metric, root, x, rank) && IsTree(metric, root, x, tree) && Path(tree, root, p, v)
    ensures Reached(x, v)
  {
    if p != [] {
      TreePathEnds(metric, root, x, tree, p, v);
    }
  }

  /**
   * Dijkstra followed by the extraction: every node's root path in the tree is unique and a shortest path of the graph.
   */
  lemma ShortestPathTree(g: Adjacency, root: nat) returns (tree: Adjacency, rank: seq<nat>)
    requires Sound(g) && AllKeyed(g) && 0 < root < |g|
    requires IdsFromOne(g)
    ensures Ready(g, g, root, Dijkstra(g, root), rank)
    ensures tree == MakeTree(g, g, root, Dijkstra(g, root), rank, EmptyGraph(|g|), 1)
    ensures IsTree(g, root, Dijkstra(g, root), tree)
    ensures forall v, p :: Path(tree, root, p, v) ==> IsDistance(g, root, v, Cost(p))
    ensures forall v, p, q :: Path(tree, root, p, v) && Path(tree, root, q, v) ==> p == q
  {
    var x := Dijkstra(g, root);
    rank := DijkstraFinished(g, root);
    SelfEmbedded(g);
    MakeTreeExact(g, g, root, x, rank);
    tree := MakeTree(g, g, root, x, rank, EmptyGraph(|g|), 1);
    forall v, p | Path(tree, root, p, v)
      ensures IsDistance(g, root, v, Cost(p))
    {
      PathReached(g, g, root, x, rank, tree, p, v);
      var q := TreePath(g, g, root, x, rank, tree, v);
      TreePathUnique(g, root, x, tree, p, q, v);
      DijkstraExact(g, root, v);
    }
    forall v, p, q | Path(tree, root, p, v) && Path(tree, root, q, v)
      ensures p == q
    {
      TreePathUnique(g, root, x, tree, p, q, v);
    }
  }
}
