/** What the traffic loader adds, said of the traffic graph's own links. */
module TrafficLoads {
  import opened Graphs
  import opened ShortestPaths
  import opened TreeCounts
  import opened Routes
  import opened Traffic
  import opened Sums

  /** The demands that the first k links of node i stand for. */
  function DemandsFrom(i: nat, links: seq<Link>): (r: seq<Demand>)
    ensures |r| == |links| && forall k :: 0 <= k < |r| ==> r[k] == Demand(i, links[k].dst, links[k].cost)
  {
    seq(|links|, k requires 0 <= k < |links| => Demand(i, links[k].dst, links[k].cost))
  }

  /** The demands of the nodes from 1 to below n, in the order of the loops. */
  function Demands(traffic: Adjacency, n: nat): seq<Demand>
    requires n <= |traffic|
  {
    if n <= 1 then [] else Demands(traffic, n - 1) + DemandsFrom(n - 1, traffic[n - 1])
  }

  // ---------- sums over the links of a graph ----------

  /** A figure for each link, with the node it leaves. */
  type Figure = (nat, Link) -> real

  function LinkFigures(links: seq<Link>, u: nat, w: Figure): nat -> real {
    (k: nat) => if k < |links| then w(u, links[k]) else 0.0
  }

  function NodeFigures(adj: Adjacency, w: Figure): nat -> real {
    (u: nat) => if 1 <= u < |adj| then Sum(LinkFigures(adj[u], u, w), |adj[u]|) else 0.0
  }

  /** The sum over all links of all nodes from 1 on. */
  function OverLinks(adj: Adjacency, w: Figure): real {
    Sum(NodeFigures(adj, w), |adj|)
  }

  /** What leaves node v. */
  function From(v: nat): Figure {
    (u: nat, l: Link) => At(u == v, l.cost)
  }

  /** What goes to node v. */
  function To(v: nat): Figure {
    (u: nat, l: Link) => At(l.dst == v, l.cost)
  }

  function AllCosts(): Figure {
    (u: nat, l: Link) => l.cost
  }

  lemma FromAt(v: nat, u: nat, l: Link)
    ensures From(v)(u, l) == At(u == v, l.cost) && AllCosts()(u, l) == l.cost
  {
  }

  /** The costs in a node's own list; node 0 is not visited. */
  function OwnCosts(adj: Adjacency, v: nat): real {
    if 1 <= v < |adj| then Sum(LinkFigures(adj[v], v, AllCosts()), |adj[v]|) else 0.0
  }

  /** What leaves a node are the costs in its own list. */
  lemma FromIsOwnList(adj: Adjacency, v: nat)
    requires v < |adj|
    ensures OverLinks(adj, From(v)) == OwnCosts(adj, v)
  {
    var none: nat -> real := (u: nat) => 0.0;
    forall u: nat | u < |adj| && u != v
      ensures NodeFigures(adj, From(v))(u) == none(u)
    {
      if u >= 1 {
        forall k: nat | k < |adj[u]|
          ensures LinkFigures(adj[u], u, From(v))(k) == 0.0
        {
          FromAt(v, u, adj[u][k]);
        }
        SumZero(LinkFigures(adj[u], u, From(v)), |adj[u]|);
      }
    }
    SumPoint(NodeFigures(adj, From(v)), none, |adj|, v);
    SumZero(none, |adj|);
    forall k: nat | k < |adj[v]|
      ensures LinkFigures(adj[v], v, From(v))(k) == LinkFigures(adj[v], v, AllCosts())(k)
    {
      FromAt(v, v, adj[v][k]);
    }
    SumSame(LinkFigures(adj[v], v, From(v)), LinkFigures(adj[v], v, AllCosts()), |adj[v]|);
  }

  // ---------- sums over the demands ----------

  function Total(ds: seq<Demand>, w: Demand -> real): real {
    if ds == [] then 0.0 else Total(ds[..|ds| - 1], w) + w(ds[|ds| - 1])
  }

  function OfDemand(w: Figure): Demand -> real {
    (d: Demand) => w(d.src, Link(d.dst, d.cost, 0, 0, 0, 0))
  }

  /** The figure looks at a link's target and cost only. */
  ghost predicate Plain(w: Figure) {
    forall u, l: Link :: w(u, l) == w(u, Link(l.dst, l.cost, 0, 0, 0, 0))
  }

  lemma {:induction false} TotalOfNode(before: seq<Demand>, i: nat, links: seq<Link>, k: nat, w: Figure)
    requires Plain(w) && k <= |links|
    ensures Total(before + DemandsFrom(i, links)[..k], OfDemand(w))
         == Total(before, OfDemand(w)) + Sum(LinkFigures(links, i, w), k)
  {
    var ds := DemandsFrom(i, links);
    if k == 0 {
      assert before + ds[..0] == before;
    } else {
      TotalOfNode(before, i, links, k - 1, w);
      var part := before + ds[..k];
      assert part[..|part| - 1] == before + ds[..k - 1] && part[|part| - 1] == ds[k - 1];
    }
  }

  /** Every link of every node from 1 on stands for exactly one demand. */
  lemma {:induction false} TotalIsOverLinks(adj: Adjacency, n: nat, w: Figure)
    requires Plain(w) && n <= |adj|
    ensures Total(Demands(adj, n), OfDemand(w)) == Sum(NodeFigures(adj, w), n)
  {
    hide LinkFigures, DemandsFrom, Total, OfDemand, Plain, NodeFigures;
    if n > 0 {
      TotalIsOverLinks(adj, n - 1, w);
      NodeFigure(adj, w, n - 1);
      if n > 1 {
        var links := adj[n - 1];
        TotalOfNode(Demands(adj, n - 1), n - 1, links, |links|, w);
        assert DemandsFrom(n - 1, links)[..|links|] == DemandsFrom(n - 1, links);
      }
    } else {
      TotalOfNone(w);
    }
  }

  lemma TotalOfNone(w: Figure)
    ensures Total([], OfDemand(w)) == 0.0
  {
  }

  lemma NodeFigure(adj: Adjacency, w: Figure, u: nat)
    requires u < |adj|
    ensures NodeFigures(adj, w)(u) == if u >= 1 then Sum(LinkFigures(adj[u], u, w), |adj[u]|) else 0.0
  {
  }

  lemma {:induction false} WantedIsTotals(ds: seq<Demand>, v: nat)
    ensures Wanted(ds, v) == Total(ds, OfDemand(From(v))) - Total(ds, OfDemand(To(v)))
  {
    if ds != [] {
      WantedIsTotals(ds[..|ds| - 1], v);
    }
  }

  /** At each node the net load changes by the costs in its own list, less the costs of all links to it. */
  lemma GraphConservation(g: Adjacency, m: Matrix, traffic: Adjacency, v: nat)
    requires Sound(g) && Square(m, |g|) && v < |traffic| && Routable(g, Demands(traffic, |traffic|))
    ensures Net(LoadAll(g, m, Demands(traffic, |traffic|)), v)
         == Net(m, v) + OwnCosts(traffic, v) - OverLinks(traffic, To(v))
  {
    hide Net, LoadAll, Wanted, Demands, Routable;
    var ds := Demands(traffic, |traffic|);
    FlowConservation(g, m, ds, v);
    WantedIsTotals(ds, v);
    TotalIsOverLinks(traffic, |traffic|, From(v));
    TotalIsOverLinks(traffic, |traffic|, To(v));
    FromIsOwnList(traffic, v);
  }

  // ---------- what each pair of nodes carries ----------

  ghost predicate NoRepeat(nodes: seq<nat>) {
    forall i, j :: 0 <= i < j < |nodes| ==> nodes[i] != nodes[j]
  }

  /** The route goes from a straight to b. */
  ghost predicate Hops(nodes: seq<nat>, a: nat, b: nat) {
    exists i :: 0 <= i < |nodes| - 1 && nodes[i] == a && nodes[i + 1] == b
  }

  /** Loading a route adds its cost to the hops on it, once each, and to nothing else. */
  lemma {:induction false} RouteEntry(m: Matrix, nodes: seq<nat>, c: real, a: nat, b: nat)
    requires Square(m, |m|) && InRange(nodes, |m|) && NoRepeat(nodes)
    ensures Entry(LoadRoute(m, nodes, c), a, b) == Entry(m, a, b) + At(Hops(nodes, a, b), c)
    decreases |nodes|
  {
    if |nodes| >= 2 {
      var rest := nodes[1..];
      RouteEntry(AddLoad(m, nodes[0], nodes[1], c), rest, c, a, b);
      HopsCons(nodes, a, b);
    }
  }

  lemma HopsCons(nodes: seq<nat>, a: nat, b: nat)
    requires |nodes| >= 2 && NoRepeat(nodes)
    ensures Hops(nodes, a, b) <==> (a == nodes[0] && b == nodes[1]) || Hops(nodes[1..], a, b)
    ensures a == nodes[0] ==> !Hops(nodes[1..], a, b)
  {
    var rest := nodes[1..];
    if Hops(nodes, a, b) {
      var i :| 0 <= i < |nodes| - 1 && nodes[i] == a && nodes[i + 1] == b;
      assert i > 0 ==> rest[i - 1] == a && rest[i - 1 + 1] == b;
    }
    if Hops(rest, a, b) {
      var i :| 0 <= i < |rest| - 1 && rest[i] == a && rest[i + 1] == b;
      assert nodes[i + 1] == a && nodes[i + 1 + 1] == b;
    }
  }

  lemma {:induction false} ChainNoRepeat(x: Labels, s: nat, rank: seq<nat>, v: nat)
    requires Chains(x, s, rank) && v < |rank| && x.d[v] < INFLEN
    ensures NoRepeat(Chain(x, s, rank, v))
    decreases rank[v]
  {
    var c := Chain(x, s, rank, v);
    if v != s {
      ChainNoRepeat(x, s, rank, x.pi[v]);
      assert c[1..] == Chain(x, s, rank, x.pi[v]);
      forall i, j | 0 <= i < j < |c|
        ensures c[i] != c[j]
      {
        if i == 0 {
          ChainDescends(x, s, rank, v, j);
        } else {
          assert c[1..][i - 1] != c[1..][j - 1];
        }
      }
    }
  }

  /** No route visits a node twice. */
  lemma RouteNoRepeat(g: Adjacency, s: nat, t: nat)
    requires Sound(g) && s < |g| && t < |g| && RouteNodes(Dijkstra(g, s), s, t).Some?
    ensures NoRepeat(RouteNodes(Dijkstra(g, s), s, t).value)
  {
    hide Chains, Finished, Chain, RouteNodes;
    var x := Dijkstra(g, s);
    var rank := DijkstraFinished(g, s);
    FinishedChains(g, s, x, rank);
    RouteMissing(x, s, rank, t);
    ChainNoRepeat(x, s, rank, t);
    var c := Chain(x, s, rank, t);
    forall i, j | 0 <= i < j < |c|
      ensures Reverse(c)[i] != Reverse(c)[j]
    {
      assert c[|c| - 1 - j] != c[|c| - 1 - i];
    }
  }

  /** The shortest route from u to v goes from a straight to b. */
  ghost predicate OnRoute(g: Adjacency, u: nat, v: nat, a: nat, b: nat) {
    && Sound(g) && u < |g| && v < |g| && RouteNodes(Dijkstra(g, u), u, v).Some?
    && Hops(RouteNodes(Dijkstra(g, u), u, v).value, a, b)
  }

  /** What a link's demand puts on the hop from a to b. */
  ghost function Through(g: Adjacency, a: nat, b: nat): Figure {
    (u: nat, l: Link) => At(OnRoute(g, u, l.dst, a, b), l.cost)
  }

  lemma {:induction false} EntryIsTotal(g: Adjacency, m: Matrix, ds: seq<Demand>, a: nat, b: nat)
    requires Sound(g) && Routable(g, ds) && Square(m, |g|)
    ensures Entry(LoadAll(g, m, ds), a, b) == Entry(m, a, b) + Total(ds, OfDemand(Through(g, a, b)))
  {
    hide Dijkstra, Sound, RouteNodes, Entry, LoadRoute, Hops;
    if ds != [] {
      var init, d := ds[..|ds| - 1], ds[|ds| - 1];
      EntryIsTotal(g, m, init, a, b);
      RouteEnds(g, d.src, d.dst);
      RouteNoRepeat(g, d.src, d.dst);
      RouteEntry(LoadAll(g, m, init), RouteNodes(Dijkstra(g, d.src), d.src, d.dst).value, d.cost, a, b);
    }
  }

  /**
   * The load of every pair of nodes grows by the costs of exactly those links of the traffic graph, from node 1 on,
   * whose shortest route goes over the pair.
   */
  lemma GraphLoads(g: Adjacency, m: Matrix, traffic: Adjacency, a: nat, b: nat)
    requires Sound(g) && Square(m, |g|) && Routable(g, Demands(traffic, |traffic|))
    ensures Entry(LoadAll(g, m, Demands(traffic, |traffic|)), a, b)
         == Entry(m, a, b) + OverLinks(traffic, Through(g, a, b))
  {
    hide OnRoute, LoadAll, Entry, Demands, Routable, Sound;
    EntryIsTotal(g, m, Demands(traffic, |traffic|), a, b);
    TotalIsOverLinks(traffic, |traffic|, Through(g, a, b));
  }

  /** Each traffic link of the nodes from 1 on can be routed: all that get_route is asked for. */
  ghost predicate LinksRoutable(g: Adjacency, traffic: Adjacency)
    requires Sound(g)
  {
    forall u, k :: 1 <= u < |traffic| && 0 <= k < |traffic[u]| ==>
                     && u < |g| && traffic[u][k].dst < |g|
                     && RouteNodes(Dijkstra(g, u), u, traffic[u][k].dst).Some?
  }

  lemma {:induction false} LinksAreDemands(g: Adjacency, traffic: Adjacency, n: nat)
    requires Sound(g) && n <= |traffic| && LinksRoutable(g, traffic)
    ensures Routable(g, Demands(traffic, n))
  {
    hide Dijkstra, Sound, RouteNodes;
    if n > 1 {
      LinksAreDemands(g, traffic, n - 1);
    }
  }
}
