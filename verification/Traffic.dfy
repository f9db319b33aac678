/** The traffic loader (`gen_traffic_per_link`), on values. */
module Traffic {
  import opened Graphs
  import opened ShortestPaths
  import opened TreeCounts
  import opened Routes
  import opened Sums

  /** traffic_cost: what each ordered pair of nodes carries. */
  type Matrix = seq<seq<real>>

  datatype Demand = Demand(src: nat, dst: nat, cost: real)

  ghost predicate Square(m: Matrix, n: nat) {
    |m| == n && forall i :: 0 <= i < n ==> |m[i]| == n
  }

  function AddLoad(m: Matrix, u: nat, v: nat, c: real): Matrix
    requires u < |m| && v < |m[u]|
  {
    m[u := m[u][v := m[u][v] + c]]
  }

  ghost predicate InRange(nodes: seq<nat>, n: nat) {
    forall i :: 0 <= i < |nodes| ==> nodes[i] < n
  }

  /** Load every hop of a route. */
  function LoadRoute(m: Matrix, nodes: seq<nat>, c: real): (r: Matrix)
    requires Square(m, |m|) && InRange(nodes, |m|)
    ensures Square(r, |m|)
    decreases |nodes|
  {
    if |nodes| < 2 then m else LoadRoute(AddLoad(m, nodes[0], nodes[1], c), nodes[1..], c)
  }

  function Entry(m: Matrix, i: nat, j: nat): real {
    if i < |m| && j < |m[i]| then m[i][j] else 0.0
  }

  function Entries(m: Matrix): (nat, nat) -> real {
    (i: nat, j: nat) => Entry(m, i, j)
  }

  /** What node v sends minus what it receives. */
  function Net(m: Matrix, v: nat): real {
    Sum(Row(Entries(m), v), |m|) - Sum(Column(Entries(m), v), |m|)
  }

  function At(here: bool, c: real): real {
    if here then c else 0.0
  }

  lemma LoadChangesNet(m: Matrix, u: nat, w: nat, c: real, v: nat)
    requires Square(m, |m|) && u < |m| && w < |m|
    ensures Net(AddLoad(m, u, w, c), v) == Net(m, v) + At(v == u, c) - At(v == w, c)
  {
    var n, k := |m|, AddLoad(m, u, w, c);
    if v == u {
      SumPoint(Row(Entries(k), v), Row(Entries(m), v), n, w);
    } else {
      SumSame(Row(Entries(k), v), Row(Entries(m), v), n);
    }
    if v == w {
      SumPoint(Column(Entries(k), v), Column(Entries(m), v), n, u);
    } else {
      SumSame(Column(Entries(k), v), Column(Entries(m), v), n);
    }
  }

  /** A route is load-neutral at every node but its ends. */
  lemma {:induction false} RouteConserves(m: Matrix, nodes: seq<nat>, c: real, v: nat)
    requires Square(m, |m|) && InRange(nodes, |m|) && nodes != []
    ensures Net(LoadRoute(m, nodes, c), v) == Net(m, v) + At(v == nodes[0], c) - At(v == nodes[|nodes| - 1], c)
    decreases |nodes|
  {
    if |nodes| >= 2 {
      LoadChangesNet(m, nodes[0], nodes[1], c, v);
      RouteConserves(AddLoad(m, nodes[0], nodes[1], c), nodes[1..], c, v);
    }
  }

  /** Every demand joins two nodes of the graph that get_route can connect. */
  ghost predicate Routable(g: Adjacency, ds: seq<Demand>)
    requires Sound(g)
  {
    forall i :: 0 <= i < |ds| ==>
                  && ds[i].src < |g| && ds[i].dst < |g|
                  && RouteNodes(Dijkstra(g, ds[i].src), ds[i].src, ds[i].dst).Some?
  }

  /** The ends of a route are its source and destination, and all its nodes are in the graph. */
  lemma RouteEnds(g: Adjacency, s: nat, t: nat)
    requires Sound(g) && s < |g| && t < |g| && RouteNodes(Dijkstra(g, s), s, t).Some?
    ensures var nodes := RouteNodes(Dijkstra(g, s), s, t).value;
            |nodes| >= 2 && nodes[0] == s && nodes[|nodes| - 1] == t && InRange(nodes, |g|)
            && forall i :: 0 <= i < |nodes| - 1 ==> nodes[i] != t
  {
    hide Chains, Finished, Chain, RouteNodes, Reverse;
    var x := Dijkstra(g, s);
    var rank := DijkstraFinished(g, s);
    FinishedChains(g, s, x, rank);
    RouteMissing(x, s, rank, t);
    ChainEnds(x, s, rank, t);
  }

  lemma ChainEnds(x: Labels, s: nat, rank: seq<nat>, t: nat)
    requires Chains(x, s, rank) && t < |rank| && x.d[t] < INFLEN && s != t
    ensures var nodes := Reverse(Chain(x, s, rank, t));
            |nodes| >= 2 && nodes[0] == s && nodes[|nodes| - 1] == t && InRange(nodes, |rank|)
            && forall i :: 0 <= i < |nodes| - 1 ==> nodes[i] != t
  {
    var c := Chain(x, s, rank, t);
    forall i | 0 < i < |c|
      ensures c[i] != t
    {
      ChainDescends(x, s, rank, t, i);
    }
  }

  /** All demands, in the order they are listed. */
  function LoadAll(g: Adjacency, m: Matrix, ds: seq<Demand>): (r: Matrix)
    requires Sound(g) && Routable(g, ds) && Square(m, |g|)
    ensures Square(r, |g|)
  {
    if ds == [] then m
    else
      var before := LoadAll(g, m, ds[..|ds| - 1]);
      var d := ds[|ds| - 1];
      RouteEnds(g, d.src, d.dst);
      LoadRoute(before, RouteNodes(Dijkstra(g, d.src), d.src, d.dst).value, d.cost)
  }

  /** Demand sourced at v minus demand sunk at v. */
  function Wanted(ds: seq<Demand>, v: nat): real {
    if ds == [] then 0.0
    else
      var d := ds[|ds| - 1];
      Wanted(ds[..|ds| - 1], v) + At(v == d.src, d.cost) - At(v == d.dst, d.cost)
  }

  /**
   * Flow conservation: at each node the net load changes by exactly the demand sourced there minus the demand sunk
   * there.
   */
  lemma {:induction false} FlowConservation(g: Adjacency, m: Matrix, ds: seq<Demand>, v: nat)
    requires Sound(g) && Routable(g, ds) && Square(m, |g|)
    ensures Net(LoadAll(g, m, ds), v) == Net(m, v) + Wanted(ds, v)
  {
    if ds != [] {
      var init, d := ds[..|ds| - 1], ds[|ds| - 1];
      FlowConservation(g, m, init, v);
      RouteEnds(g, d.src, d.dst);
      RouteConserves(LoadAll(g, m, init), RouteNodes(Dijkstra(g, d.src), d.src, d.dst).value, d.cost, v);
    }
  }
}
