/** gen_traffic_per_link: every demand of the traffic graph is loaded onto its route. */
module MeshTraffic {
  import opened Graphs
  import opened ShortestPaths
  import opened Routes
  import opened Sums
  import opened Traffic
  import opened TrafficLoads
  import opened MeshGraphs
  import opened MeshRoutes

  /** The contents of the traffic_cost array. */
  ghost function Contents(a: array2<real>): (m: Matrix)
    requires a.Length0 == a.Length1
    reads a
    ensures Square(m, a.Length0) && forall i, j :: 0 <= i < a.Length0 && 0 <= j < a.Length0 ==> m[i][j] == a[i, j]
  {
    seq(a.Length0, i requires 0 <= i < a.Length0 reads a =>
      seq(a.Length0, j requires 0 <= i < a.Length0 && 0 <= j < a.Length0 reads a => a[i, j]))
  }

  /** What one hop adds. */
  method AddHop(trafficCost: array2<real>, u: nat, v: nat, cost: real)
    requires trafficCost.Length0 == trafficCost.Length1 && u < trafficCost.Length0 && v < trafficCost.Length0
    modifies trafficCost
    ensures Contents(trafficCost) == AddLoad(old(Contents(trafficCost)), u, v, cost)
  {
    ghost var m := Contents(trafficCost);
    trafficCost[u, v] := trafficCost[u, v] + cost;
    ghost var r := AddLoad(m, u, v, cost);
    forall i | 0 <= i < trafficCost.Length0
      ensures Contents(trafficCost)[i] == r[i]
    {
      assert forall j :: 0 <= j < trafficCost.Length0 && (i != u || j != v) ==> r[i][j] == m[i][j];
    }
  }

  /** The do-while loop: follow the route until the destination shows up. */
  method LoadHops(trafficCost: array2<real>, route: array<int>, src: nat, dst: nat, cost: real, ghost nodes: seq<nat>)
    requires trafficCost.Length0 == trafficCost.Length1 && route.Length == MAX_SR_LEN
    requires 2 <= |nodes| < MAX_SR_LEN && nodes[0] == src && nodes[|nodes| - 1] == dst
    requires InRange(nodes, trafficCost.Length0)
    requires (forall i :: 0 <= i < |nodes| - 1 ==> nodes[i] != dst) && route[..] == Padded(nodes)
    modifies trafficCost
    ensures Contents(trafficCost) == LoadRoute(old(Contents(trafficCost)), nodes, cost)
  {
    var source, hop, next := src, 1, -1;
    ghost var m := Contents(trafficCost);
    assert nodes[0..] == nodes && forall i :: 0 <= i < |nodes| ==> route[i] == route[..][i] == nodes[i];
    while next != dst
      invariant 1 <= hop <= |nodes| && source == nodes[hop - 1] && (next == -1 || next == source)
      invariant (next == -1 ==> hop == 1)
      invariant LoadRoute(Contents(trafficCost), nodes[hop - 1..], cost) == LoadRoute(m, nodes, cost)
      decreases |nodes| - hop
    {
      next := route[hop];
      assert nodes[hop - 1..][1..] == nodes[hop..];
      AddHop(trafficCost, source, next, cost);
      source := next;
      hop := hop + 1;
    }
  }

  /** One demand. */
  method LoadDemand(metric: Graph, trafficCost: array2<real>, src: nat,
                    dst: nat, cost: real, size: nat, ghost g: Adjacency)
    requires metric.Valid() && size <= MAX_NODES && trafficCost.Length0 == trafficCost.Length1 == size
    requires Sound(metric.Adj(size)) && ClearedAll(metric.Adj(size)) == g && Sound(g) && src < size && dst < size
    requires RouteNodes(Dijkstra(g, src), src, dst).Some?
    modifies trafficCost, metric.lh, metric.d, metric.pi, metric.piOutif, metric.piInif, metric.S, metric.ch,
         metric.L, metric.T
    ensures metric.Adj(size) == g
    ensures var nodes := RouteNodes(Dijkstra(g, src), src, dst).value;
            InRange(nodes, size) && Contents(trafficCost) == LoadRoute(old(Contents(trafficCost)), nodes, cost)
  {
    hide Dijkstra, ClearedAll, Sound, LoadRoute, RouteNodes, Contents;
    var temproute := new int[MAX_SR_LEN](_ => ANY_DEST);
    var ok := GetRoute(metric, src, dst, temproute, size);
    RouteEnds(g, src, dst);
    LoadHops(trafficCost, temproute, src, dst, cost, RouteNodes(Dijkstra(g, src), src, dst).value);
  }

  lemma ClearedTwice(adj: Adjacency)
    ensures ClearedAll(ClearedAll(adj)) == ClearedAll(adj)
  {
    forall u | 0 <= u < |adj|
      ensures Cleared(Cleared(adj[u])) == Cleared(adj[u])
    {
    }
  }

  lemma RoutablePrefix(g: Adjacency, part: seq<Demand>, all: seq<Demand>)
    requires Sound(g) && Routable(g, all) && part <= all
    ensures Routable(g, part)
  {
    hide Dijkstra, RouteNodes, Sound;
    forall i | 0 <= i < |part|
      ensures part[i].src < |g| && part[i].dst < |g|
      ensures RouteNodes(Dijkstra(g, part[i].src), part[i].src, part[i].dst).Some?
    {
      assert part[i] == all[i];
    }
  }

  lemma {:induction false} DemandsPrefix(traffic: Adjacency, i: nat, n: nat)
    requires i <= n <= |traffic|
    ensures Demands(traffic, i) <= Demands(traffic, n)
  {
    if i < n {
      DemandsPrefix(traffic, i, n - 1);
    }
  }

  lemma LoadSnoc(g: Adjacency, m: Matrix, part: seq<Demand>, d: Demand)
    requires Sound(g) && Routable(g, part + [d]) && Square(m, |g|)
    ensures Routable(g, part) && d.src < |g| && d.dst < |g| && RouteNodes(Dijkstra(g, d.src), d.src, d.dst).Some?
    ensures var nodes := RouteNodes(Dijkstra(g, d.src), d.src, d.dst).value;
            InRange(nodes, |g|) && LoadAll(g, m, part + [d]) == LoadRoute(LoadAll(g, m, part), nodes, d.cost)
  {
    RoutablePrefix(g, part, part + [d]);
    assert (part + [d])[|part|] == d && (part + [d])[..|part|] == part;
    RouteEnds(g, d.src, d.dst);
  }

  /** The inner loop of gen_traffic_per_link: the demands of one node. */
  method LoadNode(metric: Graph, trafficCost: array2<real>, i: nat, links: seq<Link>,
                  size: nat, ghost g: Adjacency, ghost m: Matrix, ghost before: seq<Demand>)
    requires metric.Valid() && i < size <= MAX_NODES && trafficCost.Length0 == trafficCost.Length1 == size
    requires Sound(metric.Adj(size)) && ClearedAll(metric.Adj(size)) == g && Sound(g) && Square(m, size)
    requires Routable(g, before) && Routable(g, before + DemandsFrom(i, links))
    requires Contents(trafficCost) == LoadAll(g, m, before)
    modifies trafficCost, metric.lh, metric.d, metric.pi, metric.piOutif, metric.piInif, metric.S, metric.ch,
         metric.L, metric.T
    ensures Sound(metric.Adj(size)) && ClearedAll(metric.Adj(size)) == g
    ensures Contents(trafficCost) == LoadAll(g, m, before + DemandsFrom(i, links))
  {
    hide Dijkstra, ClearedAll, Sound, LoadRoute, RouteNodes, Contents, Routable, LoadAll;
    ghost var ds := DemandsFrom(i, links);
    var k := 0;
    assert before + ds[..0] == before;
    while k < |links|
      invariant k <= |links| && Sound(metric.Adj(size)) && ClearedAll(metric.Adj(size)) == g
      invariant Routable(g, before + ds[..k]) && Contents(trafficCost) == LoadAll(g, m, before + ds[..k])
    {
      assert before + ds[..k + 1] == before + ds[..k] + [ds[k]];
      RoutablePrefix(g, before + ds[..k + 1], before + ds);
      LoadSnoc(g, m, before + ds[..k], ds[k]);
      ClearedTwice(metric.Adj(size));
      LoadDemand(metric, trafficCost, i, links[k].dst, links[k].cost, size, g);
      k := k + 1;
    }
    assert ds[..k] == ds;
  }

  /** `gen_traffic_per_link`, for demands that get_route can connect. */
  method GenTrafficPerLink(traffic: Graph, metric: Graph, trafficCost: array2<real>, size: nat)
    requires traffic.Valid() && metric.Valid() && traffic.lh != metric.lh && 1 <= size <= MAX_NODES
    requires trafficCost.Length0 == trafficCost.Length1 == size
    requires Sound(metric.Adj(size)) && Sound(ClearedAll(metric.Adj(size)))
    requires LinksRoutable(ClearedAll(metric.Adj(size)), traffic.Adj(size))
    modifies trafficCost, metric.lh, metric.d, metric.pi, metric.piOutif, metric.piInif, metric.S, metric.ch,
         metric.L, metric.T
    ensures traffic.Adj(size) == old(traffic.Adj(size))
    ensures forall v :: 0 <= v < size ==>
              Net(Contents(trafficCost), v)
              == Net(old(Contents(trafficCost)), v)
                 + OwnCosts(traffic.Adj(size), v) - OverLinks(traffic.Adj(size), To(v))
    ensures forall a, b :: 0 <= a < size && 0 <= b < size ==>
              trafficCost[a, b] == old(trafficCost[a, b])
                                   + OverLinks(traffic.Adj(size), Through(ClearedAll(old(metric.Adj(size))), a, b))
    ensures Routable(ClearedAll(old(metric.Adj(size))), Demands(traffic.Adj(size), size))
    ensures Contents(trafficCost)
         == LoadAll(ClearedAll(old(metric.Adj(size))), old(Contents(trafficCost)), Demands(traffic.Adj(size), size))
  {
    hide ClearedAll, Sound, Contents, Routable, LoadAll, DemandsFrom, Net, OverLinks, OwnCosts, LinksRoutable;
    ghost var g, m, t := ClearedAll(metric.Adj(size)), Contents(trafficCost), traffic.Adj(size);
    LinksAreDemands(g, t, size);
    var i := 1;
    DemandsPrefix(t, 1, size);
    RoutablePrefix(g, Demands(t, 1), Demands(t, size));
    LoadNone(g, m);
    while i < size
      invariant 1 <= i <= size && traffic.Adj(size) == t
      invariant Sound(metric.Adj(size)) && ClearedAll(metric.Adj(size)) == g
      invariant Routable(g, Demands(t, i)) && Contents(trafficCost) == LoadAll(g, m, Demands(t, i))
    {
      assert Demands(t, i + 1) == Demands(t, i) + DemandsFrom(i, t[i]);
      DemandsPrefix(t, i + 1, size);
      RoutablePrefix(g, Demands(t, i + 1), Demands(t, size));
      assert traffic.lh[i] == t[i];
      LoadNode(metric, trafficCost, i, traffic.lh[i], size, g, m, Demands(t, i));
      i := i + 1;
    }
    forall v | 0 <= v < size
      ensures Net(Contents(trafficCost), v) == Net(m, v) + OwnCosts(t, v) - OverLinks(t, To(v))
    {
      GraphConservation(g, m, t, v);
    }
    forall a, b | 0 <= a < size && 0 <= b < size
      ensures trafficCost[a, b] == old(trafficCost[a, b]) + OverLinks(t, Through(g, a, b))
    {
      GraphLoads(g, m, t, a, b);
    }
  }

  lemma LoadNone(g: Adjacency, m: Matrix)
    requires Sound(g) && Square(m, |g|)
    ensures Routable(g, []) && LoadAll(g, m, []) == m
  {
  }
}
