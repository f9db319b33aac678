/** Route extraction (`get_route`) and the traffic loader, on values. */
module Routes {
  import opened Graphs
  import opened ShortestPaths
  import opened TreeCounts

  /** The predecessor chain from v back to the source. */
  ghost function Chain(x: Labels, s: nat, rank: seq<nat>, v: nat): (c: seq<nat>)
    requires Chains(x, s, rank) && v < |rank| && x.d[v] < INFLEN
    ensures c != [] && c[0] == v && c[|c| - 1] == s
    ensures forall i :: 0 <= i < |c| ==> c[i] < |rank|
    decreases rank[v]
  {
    if v == s then [v] else [v] + Chain(x, s, rank, x.pi[v])
  }

  /** The backward walk of get_route: at most room more nodes are recorded. */
  function WalkBack(x: Labels, s: nat, v: nat, room: nat): (r: seq<nat>)
    requires Shaped(x, |x.d|)
    ensures |r| <= room
    decreases room
  {
    if v >= |x.d| || x.d[v] >= INFLEN || room == 0 then []
    else if v == s then [v]
    else [v] + WalkBack(x, s, x.pi[v], room - 1)
  }

  function Reverse(q: seq<nat>): (r: seq<nat>)
    ensures |r| == |q| && forall i :: 0 <= i < |r| ==> r[i] == q[|q| - 1 - i]
  {
    if q == [] then [] else Reverse(q[1..]) + [q[0]]
  }

  /** The nodes of the route from s to t, or None where get_route returns NULL. */
  function RouteNodes(x: Labels, s: nat, t: nat): Option<seq<nat>>
    requires Shaped(x, |x.d|)
  {
    var back := WalkBack(x, s, t, MAX_SR_LEN);
    if |back| < 2 || |back| >= MAX_SR_LEN then None else Some(Reverse(back))
  }

  lemma {:induction false} WalkIsChain(x: Labels, s: nat, rank: seq<nat>, v: nat, room: nat)
    requires Chains(x, s, rank) && |x.d| == |rank| && v < |rank| && x.d[v] < INFLEN
    ensures var c := Chain(x, s, rank, v);
            WalkBack(x, s, v, room) == if |c| <= room then c else c[..room]
    decreases rank[v]
  {
    if v != s && room > 0 {
      WalkIsChain(x, s, rank, x.pi[v], room - 1);
    }
  }

  /** get_route fails in exactly three cases: no hop to go, out of reach, or 25 or more nodes on the way. */
  lemma RouteMissing(x: Labels, s: nat, rank: seq<nat>, t: nat)
    requires Chains(x, s, rank) && |x.d| == |rank| && t < |rank| && x.d[s] < INFLEN
    ensures RouteNodes(x, s, t).None? <==>
              s == t || x.d[t] >= INFLEN || |Chain(x, s, rank, t)| >= MAX_SR_LEN
    ensures RouteNodes(x, s, t).Some? ==> RouteNodes(x, s, t).value == Reverse(Chain(x, s, rank, t))
  {
    if x.d[t] < INFLEN {
      WalkIsChain(x, s, rank, t, MAX_SR_LEN);
    }
  }

  /** p walks exactly through the nodes. */
  ghost predicate Visits(p: seq<Link>, nodes: seq<nat>) {
    |nodes| == |p| + 1 && forall i :: 0 <= i < |p| ==> p[i].dst == nodes[i + 1]
  }

  lemma ReverseChain(x: Labels, s: nat, rank: seq<nat>, v: nat)
    requires Chains(x, s, rank) && v < |rank| && x.d[v] < INFLEN && v != s
    ensures Reverse(Chain(x, s, rank, v)) == Reverse(Chain(x, s, rank, x.pi[v])) + [v]
  {
    assert Chain(x, s, rank, v)[1..] == Chain(x, s, rank, x.pi[v]);
  }

  lemma VisitsSnoc(p: seq<Link>, nodes: seq<nat>, l: Link)
    requires Visits(p, nodes)
    ensures Visits(p + [l], nodes + [l.dst])
  {
  }

  /** The chain, read forwards, is a path of real links whose cost is the label. */
  lemma {:induction false} ChainPath(g: Adjacency, s: nat, x: Labels, rank: seq<nat>, v: nat) returns (p: seq<Link>)
    requires Finished(g, s, x, rank) && Chains(x, s, rank) && |g| == |rank| == |x.d| && x.d[s] == 0.0
    requires v < |rank| && x.d[v] < INFLEN
    ensures Path(g, s, p, v) && Cost(p) == x.d[v] && Visits(p, Reverse(Chain(x, s, rank, v)))
    decreases rank[v]
  {
    hide Finished, Reverse, Visits;
    if v == s {
      p := [];
      ChainOfSource(x, s, rank);
    } else {
      var u, l := LastLink(g, s, x, rank, v);
      p := ChainPath(g, s, x, rank, u);
      PathSnoc(g, s, p, u, l);
      ReverseChain(x, s, rank, v);
      VisitsSnoc(p, Reverse(Chain(x, s, rank, u)), l);
      p := p + [l];
    }
  }

  lemma ChainOfSource(x: Labels, s: nat, rank: seq<nat>)
    requires Chains(x, s, rank) && x.d[s] < INFLEN
    ensures Visits([], Reverse(Chain(x, s, rank, s)))
  {
  }

  lemma FinishedChains(g: Adjacency, s: nat, x: Labels, rank: seq<nat>)
    requires Finished(g, s, x, rank)
    ensures Chains(x, s, rank) && |x.d| == |rank| == |g| && x.d[s] == 0.0 && s < |g|
  {
  }

  /** get_route is sound and complete up to its length cap: what it returns is a shortest path of real links. */
  lemma RouteExact(g: Adjacency, s: nat, t: nat) returns (rank: seq<nat>, p: seq<Link>)
    requires Sound(g) && s < |g| && t < |g|
    ensures Chains(Dijkstra(g, s), s, rank)
    ensures var x := Dijkstra(g, s);
            && (RouteNodes(x, s, t).None? <==> s == t || x.d[t] >= INFLEN || |Chain(x, s, rank, t)| >= MAX_SR_LEN)
            && (RouteNodes(x, s, t).Some? ==>
                  && Path(g, s, p, t) && Visits(p, RouteNodes(x, s, t).value)
                  && IsDistance(g, s, t, Cost(p)) && |p| + 1 < MAX_SR_LEN)
  {
    var x := Dijkstra(g, s);
    rank := DijkstraFinished(g, s);
    FinishedChains(g, s, x, rank);
    RouteMissing(x, s, rank, t);
    p := [];
    if RouteNodes(x, s, t).Some? {
      p := ChainPath(g, s, x, rank, t);
      DijkstraExact(g, s, t);
    }
  }

  /** The nodes before the last on a chain are not the source: a route reaches its destination once. */
  lemma {:induction false} ChainDescends(x: Labels, s: nat, rank: seq<nat>, v: nat, i: nat)
    requires Chains(x, s, rank) && v < |rank| && x.d[v] < INFLEN && 0 < i < |Chain(x, s, rank, v)|
    ensures rank[Chain(x, s, rank, v)[i]] < rank[v]
    decreases rank[v]
  {
    var c := Chain(x, s, rank, v);
    assert c[1..] == Chain(x, s, rank, x.pi[v]);
    if i > 1 {
      ChainDescends(x, s, rank, x.pi[v], i - 1);
    }
  }
}
