/** get_route and gen_traffic_per_link on graph objects. */
module MeshRoutes {
  import opened Graphs
  import opened ShortestPaths
  import opened TreeCounts
  import opened Routes
  import opened MeshGraphs

  /** Consecutive nodes of a chain are joined by the recorded links. */
  lemma {:induction false} ChainLinks(g: Adjacency, s: nat, x: Labels, rank: seq<nat>, v: nat, i: nat)
    requires Finished(g, s, x, rank) && Chains(x, s, rank) && v < |rank| == |g| == |x.d| && x.d[v] < INFLEN
    requires i + 1 < |Chain(x, s, rank, v)|
    ensures var c := Chain(x, s, rank, v);
            && c[i] < |g| && c[i + 1] == x.pi[c[i]] < |g|
            && FindIn(g[c[i + 1]], c[i], x.outif[c[i]], x.inif[c[i]]).Some?
    decreases rank[v]
  {
    hide Finished, Chains;
    var u, l := LastLink(g, s, x, rank, v);
    assert Chain(x, s, rank, v)[1..] == Chain(x, s, rank, u);
    if i == 0 {
      assert l.Is(v, x.outif[v], x.inif[v]);
    } else {
      ChainLinks(g, s, x, rank, u, i - 1);
    }
  }

  /** One step of the backward walk. */
  lemma WalkStep(x: Labels, s: nat, rank: seq<nat>, v: nat, room: nat)
    requires Chains(x, s, rank) && |x.d| == |rank| && v < |rank| && x.d[v] < INFLEN
    ensures WalkBack(x, s, v, 0) == []
    ensures room > 0 && v == s ==> WalkBack(x, s, v, room) == [v]
    ensures room > 0 && v != s ==> x.pi[v] < |rank| && rank[x.pi[v]] < rank[v]
                                   && WalkBack(x, s, v, room) == [v] + WalkBack(x, s, x.pi[v], room - 1)
  {
  }

  /** The graph's arrays show the labels x. */
  ghost predicate Shows(g: Graph, x: Labels, size: nat)
    requires g.Valid() && size <= MAX_NODES
    reads g.d, g.pi, g.piOutif, g.piInif
  {
    && Shaped(x, size)
    && forall v :: 0 <= v < size ==>
                     g.d[v] == x.d[v] && g.pi[v] == x.pi[v] && g.piOutif[v] == x.outif[v] && g.piInif[v] == x.inif[v]
  }

  /** One entry of get_route's path buffers rpath, outif and inif. */
  datatype Hop = Hop(node: nat, outif: int, inif: int)

  /** The buffer's entries are the nodes, each with its recorded interfaces. */
  ghost predicate Recorded(x: Labels, hops: seq<Hop>, nodes: seq<nat>) {
    && |hops| == |nodes| && |x.outif| == |x.inif|
    && forall i :: 0 <= i < |nodes| ==>
            nodes[i] < |x.outif| && hops[i] == Hop(nodes[i], x.outif[nodes[i]], x.inif[nodes[i]])
  }

  lemma RecordedAt(x: Labels, hops: seq<Hop>, nodes: seq<nat>, i: nat)
    requires Recorded(x, hops, nodes) && i < |nodes|
    ensures |hops| == |nodes| && nodes[i] < |x.outif| == |x.inif|
    ensures hops[i] == Hop(nodes[i], x.outif[nodes[i]], x.inif[nodes[i]])
  {
  }

  /** The backward walk of get_route: fills the path buffers from the destination on. */
  method TraceBack(g: Graph, srcAddr: nat, destAddr: nat, size: nat,
                   hops: array<Hop>, ghost x: Labels, ghost rank: seq<nat>)
    returns (roff: nat)
    requires g.Valid() && size <= MAX_NODES && srcAddr < size && destAddr < size && |rank| == size
    requires Chains(x, srcAddr, rank) && Shows(g, x, size) && hops.Length == MAX_SR_LEN
    modifies hops
    ensures roff <= MAX_SR_LEN && Recorded(x, hops[..roff], WalkBack(x, srcAddr, destAddr, MAX_SR_LEN))
  {
    hide Chains, WalkBack;
    roff := 0;
    var v: nat := destAddr;
    ghost var nodes: seq<nat> := [];
    WalkStop(x, srcAddr, destAddr);
    while g.d[v] < INFLEN
      invariant v < size && roff == |nodes| <= MAX_SR_LEN && Shows(g, x, size)
      invariant nodes + WalkBack(x, srcAddr, v, MAX_SR_LEN - roff) == WalkBack(x, srcAddr, destAddr, MAX_SR_LEN)
      invariant Recorded(x, hops[..roff], nodes)
      decreases rank[v]
    {
      WalkStep(x, srcAddr, rank, v, MAX_SR_LEN - roff);
      if roff >= MAX_SR_LEN {
        break;
      }
      hops[roff] := Hop(v, g.piOutif[v], g.piInif[v]);
      roff := roff + 1;
      nodes := nodes + [v];
      if v == srcAddr {
        return;
      }
      v := g.pi[v];
    }
    WalkStop(x, srcAddr, v);
  }

  lemma WalkStop(x: Labels, s: nat, v: nat)
    requires Shaped(x, |x.d|) && v < |x.d|
    ensures x.d[v] >= INFLEN ==> forall room: nat :: WalkBack(x, s, v, room) == []
    ensures WalkBack(x, s, v, 0) == []
  {
  }

  function Padded(nodes: seq<nat>): (r: seq<int>)
    requires |nodes| <= MAX_SR_LEN
    ensures |r| == MAX_SR_LEN && forall i :: 0 <= i < |nodes| ==> r[i] == nodes[i]
    ensures forall i :: |nodes| <= i < MAX_SR_LEN ==> r[i] == 0xffffffff
  {
    seq(MAX_SR_LEN, i requires 0 <= i < MAX_SR_LEN => if i < |nodes| then nodes[i] else ANY_DEST)
  }

  /** The forward pass of get_route: every link it looks up is found. */
  method Forwards(g: Graph, srcAddr: nat, destAddr: nat, size: nat, hops: array<Hop>,
                  roff: nat, ghost x: Labels, ghost rank: seq<nat>)
    returns (temproute: array<int>)
    requires g.Valid() && size <= MAX_NODES && srcAddr < size && destAddr < size && |rank| == |x.d| == size
    requires Finished(g.Adj(size), srcAddr, x, rank) && Chains(x, srcAddr, rank) && x.d[destAddr] < INFLEN
    requires hops.Length == MAX_SR_LEN && 2 <= roff < MAX_SR_LEN
    requires Recorded(x, hops[..roff], Chain(x, srcAddr, rank, destAddr))
    ensures fresh(temproute) && temproute.Length == MAX_SR_LEN && roff == |Chain(x, srcAddr, rank, destAddr)|
    ensures temproute[..] == Padded(Reverse(Chain(x, srcAddr, rank, destAddr)))
  {
    hide Finished, Chains, Chain, Recorded;
    ghost var c := Chain(x, srcAddr, rank, destAddr);
    RecordedAt(x, hops[..roff], c, 0);
    temproute := new int[MAX_SR_LEN](_ => ANY_DEST);
    temproute[0] := srcAddr;
    var v := 1;
    while v < roff
      invariant 1 <= v <= roff
      invariant forall i :: 0 <= i < MAX_SR_LEN ==> temproute[i] == if i < v then c[roff - 1 - i] else ANY_DEST
    {
      var h := hops[roff - v - 1];
      ChainLinks(g.Adj(size), srcAddr, x, rank, destAddr, roff - v - 1);
      RecordedAt(x, hops[..roff], c, roff - v - 1);
      var from: nat := temproute[v - 1] % 256;
      assert from == c[roff - v] == temproute[v - 1];
      var l := g.FindLink(from, h.node, h.outif, h.inif);
      assert l == FindIn(g.Adj(size)[from], h.node, h.outif, h.inif);
      temproute[v] := l.value.dst;
      v := v + 1;
    }
  }

  /** The last loop of get_route. */
  method CopyRoute(temproute: array<int>, route: array<int>)
    requires temproute.Length == route.Length == MAX_SR_LEN
    modifies route
    ensures route[..] == old(temproute[..])
  {
    var z := 0;
    while z < MAX_SR_LEN
      invariant z <= MAX_SR_LEN && route[..z] == old(temproute[..z]) && temproute[z..] == old(temproute[z..])
    {
      route[z] := temproute[z];
      z := z + 1;
    }
  }

  lemma ViewShows(g: Graph, x: Labels, size: nat)
    requires g.Valid() && size <= MAX_NODES && g.View(size) == x
    ensures Shows(g, x, size)
  {
  }

  /** `get_route`: false stands for the null result. */
  method GetRoute(g: Graph, srcAddr: nat, destAddr: nat, route: array<int>, size: nat) returns (ok: bool)
    requires g.Valid() && size <= MAX_NODES && srcAddr < size && destAddr < size && Sound(g.Adj(size))
    requires route.Length == MAX_SR_LEN && route != g.piOutif && route != g.piInif
    modifies route, g.lh, g.d, g.pi, g.piOutif, g.piInif, g.S, g.ch, g.L, g.T
    ensures g.Adj(size) == ClearedAll(old(g.Adj(size))) && Sound(g.Adj(size))
    ensures ok <==> RouteNodes(Dijkstra(g.Adj(size), srcAddr), srcAddr, destAddr).Some?
    ensures ok ==> var nodes := RouteNodes(Dijkstra(g.Adj(size), srcAddr), srcAddr, destAddr).value;
                   |nodes| < MAX_SR_LEN && route[..] == Padded(nodes)
    ensures !ok ==> route[..] == old(route[..])
  {
    hide Dijkstra, Finished, Chains, Chain, Sound, ClearedAll, Shows, WalkBack, Reverse, Padded;
    g.DijkstraFrom(srcAddr, size);
    ghost var adj, x := g.Adj(size), g.View(size);
    ghost var rank := DijkstraFinished(adj, srcAddr);
    FinishedChains(adj, srcAddr, x, rank);
    RouteMissing(x, srcAddr, rank, destAddr);
    ViewShows(g, x, size);
    var hops := new Hop[MAX_SR_LEN](_ => Hop(0, 0, 0));
    var roff := TraceBack(g, srcAddr, destAddr, size, hops, x, rank);
    if roff < 2 || roff >= MAX_SR_LEN {
      return false;
    }
    BackIsChain(x, srcAddr, rank, destAddr);
    var temproute := Forwards(g, srcAddr, destAddr, size, hops, roff, x, rank);
    CopyRoute(temproute, route);
    return true;
  }

  lemma BackIsChain(x: Labels, s: nat, rank: seq<nat>, t: nat)
    requires Chains(x, s, rank) && |x.d| == |rank| && t < |rank|
    requires 2 <= |WalkBack(x, s, t, MAX_SR_LEN)| < MAX_SR_LEN
    ensures x.d[t] < INFLEN && WalkBack(x, s, t, MAX_SR_LEN) == Chain(x, s, rank, t)
  {
    if x.d[t] < INFLEN {
      WalkIsChain(x, s, rank, t, MAX_SR_LEN);
    }
  }
}
