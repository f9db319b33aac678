/** Weighted link lists and paths (the link cache of swarm.c and rpp.c), on values. */
module Graphs {
  datatype Option<+T> = None | Some(value: T)

  const MAX_NODES: nat := 100
  const NIL: nat := 10000
  const INFLEN: real := 2147483647.0
  const MAX_SR_LEN: nat := 25
  const ANY_DEST: int := 0xffffffff

  /** One outgoing link; its key is (dst, outif, inif). */
  datatype Link = Link(dst: nat, cost: real, outif: int, inif: int, channel: int, flow: nat) {
    predicate Is(to: nat, o: int, i: int) {
      dst == to && outif == o && inif == i
    }
  }

  /** adj[u] lists the links that leave u. */
  type Adjacency = seq<seq<Link>>

  /** Links stay inside the graph and cost nothing negative. */
  ghost predicate Sound(adj: Adjacency) {
    forall u, k :: 0 <= u < |adj| && 0 <= k < |adj[u]| ==> adj[u][k].dst < |adj| && adj[u][k].cost >= 0.0
  }

  /** Node ids run from 1: no link leads to node 0. */
  ghost predicate IdsFromOne(adj: Adjacency) {
    forall u, k :: 0 <= u < |adj| && 0 <= k < |adj[u]| ==> adj[u][k].dst > 0
  }

  /** No node has two links with the same key: add_link keeps it so. */
  ghost predicate Keyed(links: seq<Link>) {
    forall i, j :: 0 <= i < j < |links| ==> !links[j].Is(links[i].dst, links[i].outif, links[i].inif)
  }

  ghost predicate AllKeyed(adj: Adjacency) {
    forall u :: 0 <= u < |adj| ==> Keyed(adj[u])
  }

  /** `find_link` along one list: the first link with the key. */
  function FindIn(links: seq<Link>, to: nat, o: int, i: int): (r: Option<Link>)
    ensures r.Some? ==> r.value in links && r.value.Is(to, o, i)
    ensures r.None? ==> forall l :: l in links ==> !l.Is(to, o, i)
  {
    if links == [] then None
    else if links[0].Is(to, o, i) then Some(links[0])
    else FindIn(links[1..], to, o, i)
  }

  lemma {:induction false} FindKeyed(links: seq<Link>, k: nat)
    requires Keyed(links) && k < |links|
    ensures FindIn(links, links[k].dst, links[k].outif, links[k].inif) == Some(links[k])
  {
    if k > 0 {
      FindKeyed(links[1..], k - 1);
    }
  }

  // ---------- paths ----------

  /** p leads from u to v along links of the graph. */
  ghost predicate Path(adj: Adjacency, u: nat, p: seq<Link>, v: nat)
    decreases |p|
  {
    if p == [] then u == v && u < |adj|
    else u < |adj| && p[0] in adj[u] && Path(adj, p[0].dst, p[1..], v)
  }

  function Cost(p: seq<Link>): real {
    if p == [] then 0.0 else p[0].cost + Cost(p[1..])
  }

  lemma {:induction false} PathSnoc(adj: Adjacency, u: nat, p: seq<Link>, v: nat, l: Link)
    requires v < |adj| && Path(adj, u, p, v) && l in adj[v] && l.dst < |adj|
    ensures Path(adj, u, p + [l], l.dst) && Cost(p + [l]) == Cost(p) + l.cost
    decreases |p|
  {
    if p == [] {
      assert p + [l] == [l] && [l][1..] == [];
    } else {
      PathSnoc(adj, p[0].dst, p[1..], v, l);
      assert (p + [l])[1..] == p[1..] + [l];
    }
  }

  lemma {:induction false} PathEnd(adj: Adjacency, u: nat, p: seq<Link>, v: nat)
    requires Path(adj, u, p, v)
    ensures u < |adj| && v < |adj|
    decreases |p|
  {
    if p != [] {
      PathEnd(adj, p[0].dst, p[1..], v);
    }
  }

  lemma {:induction false} CostNonNegative(adj: Adjacency, u: nat, p: seq<Link>, v: nat)
    requires Sound(adj) && Path(adj, u, p, v)
    ensures Cost(p) >= 0.0
    decreases |p|
  {
    if p != [] {
      CostNonNegative(adj, p[0].dst, p[1..], v);
    }
  }

  /** x is the shortest distance from s to v, cut off at INFLEN. */
  ghost predicate IsDistance(adj: Adjacency, s: nat, v: nat, x: real) {
    && x <= INFLEN
    && (forall p :: Path(adj, s, p, v) ==> x <= Cost(p) || INFLEN <= Cost(p))
    && (x < INFLEN ==> exists p :: Path(adj, s, p, v) && Cost(p) == x)
  }

  /** The cut-off distance is unique. */
  lemma DistanceUnique(adj: Adjacency, s: nat, v: nat, x: real, y: real)
    requires IsDistance(adj, s, v, x) && IsDistance(adj, s, v, y)
    ensures x == y
  {
    if x < INFLEN {
      var p :| Path(adj, s, p, v) && Cost(p) == x;
    }
    if y < INFLEN {
      var p :| Path(adj, s, p, v) && Cost(p) == y;
    }
  }
}
