/** count_children and mark_l_and_t on a tree graph object. */
module MeshCounts {
  import opened Graphs
  import opened ShortestPaths
  import opened TreeGraphs
  import opened TreeCounts
  import opened Sums
  import opened MeshGraphs

  /** v and every node that tree links lead to from v. */
  ghost function Under(tree: Adjacency, rank: seq<nat>, v: nat): set<nat>
    requires Climbs(tree, rank) && v < |tree|
    decreases Top(rank) - rank[v], |tree[v]| + 1
  {
    {v} + UnderList(tree, rank, v, tree[v])
  }

  ghost function UnderList(tree: Adjacency, rank: seq<nat>, v: nat, links: seq<Link>): set<nat>
    requires Climbs(tree, rank) && v < |tree| && |links| <= |tree[v]| && forall l :: l in links ==> l in tree[v]
    decreases Top(rank) - rank[v], |links|
  {
    if links == [] then {} else Under(tree, rank, links[0].dst) + UnderList(tree, rank, v, links[1..])
  }

  /**
   * Every link of the tree leads to a node other than the root whose recorded parent is the link's origin. The root's
   * own parent entry may hold anything but the one id that find_link would look up behind the array.
   */
  ghost predicate Rooted(tree: Adjacency, pi: seq<nat>, rank: seq<nat>, root: nat) {
    && |tree| == |pi| && Climbs(tree, rank) && root < |tree| && pi[root] != MAX_NODES
    && AllKeyed(tree)
    && forall u, l :: 0 <= u < |tree| && l in tree[u] ==> l.dst < |tree| && l.dst != root && pi[l.dst] == u
  }

  /** tree is what whole has within part, and no link of whole leads into part or out of it. */
  ghost predicate PartOf(tree: Adjacency, whole: Adjacency, part: set<nat>) {
    && |whole| == |tree|
    && (forall u :: 0 <= u < |tree| ==> tree[u] == if u in part then whole[u] else [])
    && forall u, l :: 0 <= u < |tree| && l in whole[u] ==> (u in part <==> l.dst in part)
  }

  /** adj is tree but for the flows. */
  ghost predicate SameShape(tree: Adjacency, adj: Adjacency) {
    && |adj| == |tree|
    && forall u :: 0 <= u < |tree| ==> SameList(tree[u], adj[u])
  }

  ghost predicate SameList(links: seq<Link>, now: seq<Link>) {
    && |now| == |links|
    && forall k :: 0 <= k < |links| ==> now[k] == links[k].(flow := now[k].flow)
  }

  /** The link once the nodes in done are counted: find_link looks for it at interface pair (0, 0). */
  ghost function FlowTo(tree: Adjacency, rank: seq<nat>, l: Link, done: set<nat>): Link
    requires Climbs(tree, rank)
  {
    if l.dst < |tree| && l.dst in done && l.Is(l.dst, 0, 0) then l.(flow := Count(tree, rank, l.dst) + 1) else l
  }

  ghost predicate FlowedList(tree: Adjacency, rank: seq<nat>, before: seq<Link>, after: seq<Link>, done: set<nat>)
    requires Climbs(tree, rank)
  {
    && |after| == |before|
    && forall k :: 0 <= k < |before| ==> after[k] == FlowTo(tree, rank, before[k], done)
  }

  /** after is before with the flows into the nodes in done set. */
  ghost predicate Flowed(tree: Adjacency, rank: seq<nat>, before: Adjacency, after: Adjacency, done: set<nat>)
    requires Climbs(tree, rank)
  {
    && |before| == |after| == |tree|
    && forall u :: 0 <= u < |tree| ==> FlowedList(tree, rank, before[u], after[u], done)
  }

  lemma FlowedJoin(tree: Adjacency, rank: seq<nat>, a: Adjacency, b: Adjacency, c: Adjacency, m: set<nat>, n: set<nat>)
    requires Climbs(tree, rank) && Flowed(tree, rank, a, b, m) && Flowed(tree, rank, b, c, n)
    ensures Flowed(tree, rank, a, c, m + n)
  {
    hide Climbs, Count;
    forall u | 0 <= u < |tree|
      ensures FlowedList(tree, rank, a[u], c[u], m + n)
    {
      assert FlowedList(tree, rank, a[u], b[u], m) && FlowedList(tree, rank, b[u], c[u], n);
    }
  }

  lemma FlowedNone(tree: Adjacency, rank: seq<nat>, a: Adjacency)
    requires Climbs(tree, rank) && |a| == |tree|
    ensures Flowed(tree, rank, a, a, {})
  {
  }

  lemma FlowedShape(tree: Adjacency, whole: Adjacency, rank: seq<nat>, a: Adjacency, b: Adjacency, done: set<nat>)
    requires Climbs(tree, rank) && |whole| == |tree| && SameShape(whole, a) && Flowed(tree, rank, a, b, done)
    ensures SameShape(whole, b)
  {
    hide Climbs, Count;
    forall u | 0 <= u < |whole|
      ensures SameList(whole[u], b[u])
    {
      assert SameList(whole[u], a[u]) && FlowedList(tree, rank, a[u], b[u], done);
    }
  }

  /** Setting the flow of v's link at pair (0, 0), where the search for it finds one. */
  function MarkLink(links: seq<Link>, v: nat, f: nat): (r: seq<Link>)
    ensures |r| == |links|
    ensures forall k :: 0 <= k < |r| ==> r[k] == if links[k].Is(v, 0, 0) then links[k].(flow := f) else links[k]
  {
    seq(|links|, k requires 0 <= k < |links| => if links[k].Is(v, 0, 0) then links[k].(flow := f) else links[k])
  }

  /** Setting the flow of the first link that find_link finds. */
  function MarkFirst(links: seq<Link>, v: nat, f: nat): (r: seq<Link>) {
    if links == [] then []
    else if links[0].Is(v, 0, 0) then [links[0].(flow := f)] + links[1..]
    else [links[0]] + MarkFirst(links[1..], v, f)
  }

  lemma {:induction false} MarkFirstOnly(links: seq<Link>, v: nat, f: nat)
    requires Keyed(links)
    ensures MarkFirst(links, v, f) == MarkLink(links, v, f)
  {
    if links != [] {
      assert Keyed(links[1..]);
      MarkFirstOnly(links[1..], v, f);
      assert links == [links[0]] + links[1..];
      if links[0].Is(v, 0, 0) {
        forall k | 0 < k < |links|
          ensures !links[k].Is(v, 0, 0)
        {
          assert !links[k].Is(links[0].dst, links[0].outif, links[0].inif);
        }
      }
    }
  }

  lemma {:induction false} MarkFirstNone(links: seq<Link>, v: nat, f: nat)
    requires forall l :: l in links ==> l.dst != v
    ensures MarkFirst(links, v, f) == links
  {
    if links != [] {
      assert links[0] in links;
      MarkFirstNone(links[1..], v, f);
    }
  }

  /** The row that find_link searches for the link into v. */
  lemma MarkedRow(tree: Adjacency, whole: Adjacency, part: set<nat>, pi: seq<nat>,
                  rank: seq<nat>, root: nat, a: Adjacency, v: nat, f: nat)
    requires Rooted(tree, pi, rank, root) && PartOf(tree, whole, part) && SameShape(whole, a)
    requires v in part && v < |tree| && pi[v] < |tree|
    ensures |a| == |tree| && MarkFirst(a[pi[v]], v, f) == MarkLink(a[pi[v]], v, f)
  {
    var u := pi[v];
    assert SameList(whole[u], a[u]);
    if u in part {
      MarkedKeyed(tree[u], a[u]);
      MarkFirstOnly(a[u], v, f);
    } else {
      forall l | l in a[u]
        ensures l.dst != v
      {
        var k :| 0 <= k < |a[u]| && a[u][k] == l;
        assert whole[u][k] in whole[u];
      }
      MarkFirstNone(a[u], v, f);
    }
  }

  /** A link into v leaves from v's parent. */
  lemma FromParent(tree: Adjacency, whole: Adjacency, part: set<nat>, pi: seq<nat>,
                   rank: seq<nat>, root: nat, a: Adjacency, v: nat, u: nat, k: nat)
    requires Rooted(tree, pi, rank, root) && PartOf(tree, whole, part) && SameShape(whole, a) && v in part && v < |tree|
    requires u < |tree| && u < |a| && k < |a[u]| && a[u][k].dst == v
    ensures pi[v] == u
  {
    hide Climbs, AllKeyed;
    assert SameList(whole[u], a[u]);
    assert whole[u][k] in whole[u] && whole[u][k] in tree[u];
  }

  lemma MarkOne(tree: Adjacency, whole: Adjacency, part: set<nat>, pi: seq<nat>,
                rank: seq<nat>, root: nat, a: Adjacency, b: Adjacency, v: nat)
    requires Rooted(tree, pi, rank, root) && PartOf(tree, whole, part) && SameShape(whole, a) && v in part && v < |tree|
    requires pi[v] >= |tree| ==> b == a
    requires pi[v] < |tree| ==> b == a[pi[v] := MarkLink(a[pi[v]], v, Count(tree, rank, v) + 1)]
    ensures |whole| == |tree| && Flowed(tree, rank, a, b, {v})
  {
    hide Count, Climbs, AllKeyed, SameList;
    forall u | 0 <= u < |tree|
      ensures FlowedList(tree, rank, a[u], b[u], {v})
    {
      forall k | 0 <= k < |a[u]|
        ensures b[u][k] == FlowTo(tree, rank, a[u][k], {v})
      {
        if a[u][k].dst == v {
          FromParent(tree, whole, part, pi, rank, root, a, v, u, k);
        }
      }
    }
  }

  lemma MarkedKeyed(links: seq<Link>, now: seq<Link>)
    requires Keyed(links) && SameList(links, now)
    ensures Keyed(now)
  {
    forall i, j | 0 <= i < j < |now|
      ensures !now[j].Is(now[i].dst, now[i].outif, now[i].inif)
    {
      assert !links[j].Is(links[i].dst, links[i].outif, links[i].inif);
    }
  }

  /** The end of count_children: find_link(pi[v], v, 0, 0), then write the flow through the pointer. */
  method MarkInLink(g: Graph, v: nat, f: nat)
    requires g.Valid() && v < MAX_NODES && g.pi[v] != MAX_NODES
    modifies g.lh
    ensures g.lh[..] == old(if g.pi[v] < MAX_NODES then g.lh[..][g.pi[v] := MarkFirst(g.lh[g.pi[v]], v, f)]
              else g.lh[..])
  {
    var from := g.pi[v];
    if from > MAX_NODES {
      return;
    }
    var k, links := 0, g.lh[from];
    while k < |links|
      invariant k <= |links| && g.lh[..] == old(g.lh[..]) && links == g.lh[from]
      invariant MarkFirst(links, v, f) == links[..k] + MarkFirst(links[k..], v, f)
    {
      assert links[k..][0] == links[k] && links[k..][1..] == links[k + 1..];
      if links[k].Is(v, 0, 0) {
        g.lh[from] := links[k := links[k].(flow := f)];
        assert MarkFirst(links, v, f) == links[..k] + ([links[k].(flow := f)] + links[k + 1..]) == g.lh[from];
        return;
      }
      assert links[..k] + ([links[k]] + MarkFirst(links[k + 1..], v, f))
          == links[..k + 1] + MarkFirst(links[k + 1..], v, f);
      k := k + 1;
    }
    assert MarkFirst(links, v, f) == links;
  }

  /** What count_children does after its loop: record the count, then set the flow into the vertex. */
  method FinishVertex(g: Graph, vertex: nat, count: nat, size: nat, ghost tree: Adjacency,
                      ghost rank: seq<nat>, ghost root: nat, ghost whole: Adjacency, ghost part: set<nat>)
    requires g.Valid() && vertex < size <= MAX_NODES && |rank| == |tree| == size && vertex in part
    requires Rooted(tree, g.pi[..size], rank, root) && PartOf(tree, whole, part) && SameShape(whole, g.Adj(size))
    requires vertex == root || g.pi[vertex] < size
    requires count == Count(tree, rank, vertex)
    modifies g.lh, g.ch
    ensures Flowed(tree, rank, old(g.Adj(size)), g.Adj(size), {vertex}) && SameShape(whole, g.Adj(size))
    ensures g.ch[..] == old(g.ch[..])[vertex := count]
  {
    hide Flowed, FlowTo, Keyed, Count, MarkLink, PartOf, SameShape;
    g.ch[vertex] := count;
    ghost var b := g.Adj(size);
    if g.pi[vertex] < size {
      MarkedRow(tree, whole, part, g.pi[..size], rank, root, b, vertex, count + 1);
    }
    MarkInLink(g, vertex, count + 1);
    MarkOne(tree, whole, part, g.pi[..size], rank, root, b, g.Adj(size), vertex);
    FlowedShape(tree, whole, rank, b, g.Adj(size), {vertex});
  }

  lemma NextChild(tree: Adjacency, whole: Adjacency, part: set<nat>, pi: seq<nat>,
                  rank: seq<nat>, root: nat, adj: Adjacency, v: nat, k: nat)
    requires Rooted(tree, pi, rank, root) && PartOf(tree, whole, part) && SameShape(whole, adj) && v in part
    requires v < |tree| && k < |tree[v]|
    ensures |adj| == |tree| == |rank| == |pi| && |adj[v]| == |tree[v]| && adj[v][k].dst == tree[v][k].dst < |tree|
    ensures pi[tree[v][k].dst] == v && rank[v] < rank[tree[v][k].dst] && tree[v][k].dst in part
  {
    assert SameList(whole[v], adj[v]) && tree[v][k] in tree[v];
  }

  lemma PartLength(tree: Adjacency, whole: Adjacency, part: set<nat>, adj: Adjacency, v: nat)
    requires PartOf(tree, whole, part) && SameShape(whole, adj) && v < |tree| && v in part
    ensures |adj| == |tree| && |adj[v]| == |tree[v]|
  {
    assert SameList(whole[v], adj[v]);
  }

  lemma ShapeLength(tree: Adjacency, adj: Adjacency, v: nat)
    requires SameShape(tree, adj) && v < |tree|
    ensures |adj| == |tree| && |adj[v]| == |tree[v]|
  {
    assert SameList(tree[v], adj[v]);
  }

  /** `count_children` from a vertex of the part of the graph that tree describes. */
  method CountChildren(g: Graph, vertex: nat, size: nat, ghost tree: Adjacency, ghost rank: seq<nat>,
                       ghost root: nat, ghost whole: Adjacency, ghost part: set<nat>)
    returns (count: nat)
    requires g.Valid() && vertex < size <= MAX_NODES && |rank| == |tree| == size && vertex in part
    requires Rooted(tree, g.pi[..size], rank, root) && PartOf(tree, whole, part) && SameShape(whole, g.Adj(size))
    requires vertex == root || g.pi[vertex] < size
    modifies g.lh, g.ch
    ensures count == Count(tree, rank, vertex)
    ensures Flowed(tree, rank, old(g.Adj(size)), g.Adj(size), Under(tree, rank, vertex))
    ensures SameShape(whole, g.Adj(size))
    ensures forall w :: 0 <= w < size ==>
              g.ch[w] == if w in Under(tree, rank, vertex) then Count(tree, rank, w) else old(g.ch[w])
    decreases Top(rank) - rank[vertex]
  {
    hide Flowed, Keyed, SameShape, PartOf, AllKeyed;
    assert Climbs(tree, rank);
    ghost var links, a := tree[vertex], g.Adj(size);
    ghost var done: set<nat> := {};
    FlowedNone(tree, rank, a);
    assert links[0..] == links;
    count := 0;
    var k := 0;
    PartLength(tree, whole, part, a, vertex);
    while k < |g.lh[vertex]|
      invariant k <= |links| == |g.lh[vertex]| && SameShape(whole, g.Adj(size))
      invariant CountList(tree, rank, vertex, links) == count + CountList(tree, rank, vertex, links[k..])
      invariant UnderList(tree, rank, vertex, links) == done + UnderList(tree, rank, vertex, links[k..])
      invariant Flowed(tree, rank, a, g.Adj(size), done)
      invariant forall w :: 0 <= w < size ==> g.ch[w] == if w in done then Count(tree, rank, w) else old(g.ch[w])
      decreases |links| - k
    {
      ghost var b := g.Adj(size);
      NextChild(tree, whole, part, g.pi[..size], rank, root, b, vertex, k);
      assert links[k..][0] == links[k] && links[k..][1..] == links[k + 1..];
      var c := CountChildren(g, g.lh[vertex][k].dst, size, tree, rank, root, whole, part);
      count := count + (1 + c);
      FlowedJoin(tree, rank, a, b, g.Adj(size), done, Under(tree, rank, links[k].dst));
      done := done + Under(tree, rank, links[k].dst);
      PartLength(tree, whole, part, g.Adj(size), vertex);
      k := k + 1;
    }
    assert links[k..] == [];
    ghost var b := g.Adj(size);
    FinishVertex(g, vertex, count, size, tree, rank, root, whole, part);
    FlowedJoin(tree, rank, a, b, g.Adj(size), done, {vertex});
    assert done + {vertex} == Under(tree, rank, vertex);
  }

  // ---------- counting from the root ----------

  lemma {:induction false} UnderChild(tree: Adjacency, rank: seq<nat>, v: nat, u: nat, l: Link)
    requires Climbs(tree, rank) && v < |tree| && u < |tree| && u in Under(tree, rank, v) && l in tree[u]
    ensures l.dst in Under(tree, rank, v)
    decreases Top(rank) - rank[v], |tree[v]| + 1
  {
    if u == v {
      UnderMember(tree, rank, v, tree[v], l);
    } else {
      UnderChildList(tree, rank, v, tree[v], u, l);
    }
  }

  lemma {:induction false} UnderChildList(tree: Adjacency, rank: seq<nat>, v: nat, links: seq<Link>, u: nat, l: Link)
    requires Climbs(tree, rank) && v < |tree| && |links| <= |tree[v]| && forall m :: m in links ==> m in tree[v]
    requires u < |tree| && u in UnderList(tree, rank, v, links) && l in tree[u]
    ensures l.dst in UnderList(tree, rank, v, links)
    decreases Top(rank) - rank[v], |links|
  {
    if u in Under(tree, rank, links[0].dst) {
      UnderChild(tree, rank, links[0].dst, u, l);
    } else {
      UnderChildList(tree, rank, v, links[1..], u, l);
    }
  }

  lemma {:induction false} UnderMember(tree: Adjacency, rank: seq<nat>, v: nat, links: seq<Link>, l: Link)
    requires Climbs(tree, rank) && v < |tree| && |links| <= |tree[v]| && forall m :: m in links ==> m in tree[v]
    requires l in links
    ensures l.dst in UnderList(tree, rank, v, links)
    decreases |links|
  {
    if l != links[0] {
      UnderMember(tree, rank, v, links[1..], l);
    }
  }

  /** Counting from the root visits every node the search reached. */
  lemma {:induction false} ReachedUnderRoot(g: Adjacency, metric: Adjacency, root: nat,
                                            x: Labels, rank: seq<nat>, tree: Adjacency, v: nat)
    requires Ready(g, metric, root, x, rank) && IsTree(metric, root, x, tree) && Climbs(tree, rank) && root < |tree|
    requires Reached(x, v)
    ensures v in Under(tree, rank, root)
    decreases if v < |rank| then rank[v] else 0
  {
    if v != root {
      InLinkFound(g, metric, root, x, rank, v);
      ReachedUnderRoot(g, metric, root, x, rank, tree, x.pi[v]);
      assert v in ReachedNodes(x, root);
      UnderChild(tree, rank, root, x.pi[v], InLink(metric, x, v));
    }
  }

  function AllBelow(n: nat): (all: set<nat>)
    ensures forall v: nat :: v in all <==> v < n
  {
    if n == 0 then {} else AllBelow(n - 1) + {n - 1}
  }

  lemma TreeRooted(g: Adjacency, metric: Adjacency, root: nat, x: Labels, rank: seq<nat>, tree: Adjacency, pi: seq<nat>)
    requires Ready(g, metric, root, x, rank) && IsTree(metric, root, x, tree) && Climbs(tree, rank)
    requires |pi| == |tree| && |x.pi| == |tree| && forall v :: 1 <= v < |pi| ==> pi[v] == x.pi[v]
    ensures Rooted(tree, pi, rank, root) && PartOf(tree, tree, AllBelow(|tree|))
  {
    forall u, l | 0 <= u < |tree| && l in tree[u]
      ensures l.dst < |tree| && l.dst != root && pi[l.dst] == u
    {
      assert l.dst in ReachedNodes(x, root);
      InLinkFound(g, metric, root, x, rank, l.dst);
    }
  }

  /** Every link sits at interface pair (0, 0). */
  ghost predicate AtZero(tree: Adjacency) {
    forall u, k :: 0 <= u < |tree| && 0 <= k < |tree[u]| ==> tree[u][k].Is(tree[u][k].dst, 0, 0)
  }

  /** count_children sets every link's flow exactly when all links sit at pair (0, 0), the only one it looks at. */
  lemma FlowingIffAtZero(g: Adjacency, metric: Adjacency, root: nat, x: Labels,
                         rank: seq<nat>, tree: Adjacency, marked: Adjacency)
    requires Ready(g, metric, root, x, rank) && IsTree(metric, root, x, tree) && Climbs(tree, rank) && root < |tree|
    requires Flowed(tree, rank, tree, marked, Under(tree, rank, root))
    ensures Flowing(tree, rank, marked) <==> AtZero(tree)
  {
    forall u, k | 0 <= u < |tree| && 0 <= k < |tree[u]|
      ensures |marked[u]| == |tree[u]|
      ensures marked[u][k] == tree[u][k].(flow := Count(tree, rank, tree[u][k].dst) + 1) <==>
                tree[u][k].Is(tree[u][k].dst, 0, 0)
    {
      var l := tree[u][k];
      assert FlowedList(tree, rank, tree[u], marked[u], Under(tree, rank, root));
      assert l in tree[u] && l.dst in ReachedNodes(x, root);
      ReachedUnderRoot(g, metric, root, x, rank, tree, l.dst);
      assert l == InLink(metric, x, l.dst) && l.flow == 0;
    }
    if AtZero(tree) {
      forall u | 0 <= u < |tree|
        ensures FlowingList(tree, rank, u, tree[u], marked[u])
      {
      }
    }
    if Flowing(tree, rank, marked) {
      forall u, k | 0 <= u < |tree| && 0 <= k < |tree[u]|
        ensures tree[u][k].Is(tree[u][k].dst, 0, 0)
      {
        assert FlowingList(tree, rank, u, tree[u], marked[u]);
      }
    }
  }

  // ---------- mark_l_and_t ----------

  /** `mark_l_and_t`. */
  method MarkLAndT(g: Graph, size: nat)
    requires g.Valid() && 1 <= size <= MAX_NODES
    modifies g.L, g.T
    ensures forall v :: 1 <= v < size ==> g.L[v] == FlowSum(g.lh[v]) && g.T[v] == LoadSum(g.lh[v])
    ensures g.L[0] == old(g.L[0]) && g.T[0] == old(g.T[0])
  {
    var v := 1;
    while v < size
      invariant 1 <= v <= size && g.L[0] == old(g.L[0]) && g.T[0] == old(g.T[0])
      invariant forall w :: 1 <= w < v ==> g.L[w] == FlowSum(g.lh[w]) && g.T[w] == LoadSum(g.lh[w])
    {
      var flows, loads := SumFlows(g.lh[v]);
      g.L[v] := flows;
      g.T[v] := loads;
      v := v + 1;
    }
  }

  /** The inner loop of mark_l_and_t. */
  method SumFlows(links: seq<Link>) returns (flows: nat, loads: real)
    ensures flows == FlowSum(links) && loads == LoadSum(links)
  {
    flows, loads := 0, 0.0;
    var k := 0;
    assert links[0..] == links;
    while k < |links|
      invariant k <= |links|
      invariant FlowSum(links) == flows + FlowSum(links[k..]) && LoadSum(links) == loads + LoadSum(links[k..])
    {
      assert links[k..][0] == links[k] && links[k..][1..] == links[k + 1..];
      flows := flows + links[k].flow;
      loads := loads + Times(links[k].flow as real, links[k].cost);
      k := k + 1;
    }
  }

  /** T of the nodes from 1 on. */
  ghost function Totals(T: seq<real>): nat -> real {
    (v: nat) => if 1 <= v < |T| then T[v] else 0.0
  }

  /** No link leaves node 0, so leaving it out changes no total. */
  lemma NoLoadAtZero(g: Adjacency, metric: Adjacency, root: nat, x: Labels,
                     rank: seq<nat>, tree: Adjacency, marked: Adjacency)
    requires Ready(g, metric, root, x, rank) && IsTree(metric, root, x, tree) && Climbs(tree, rank)
    requires Flowing(tree, rank, marked)
    ensures |marked| > 0 && marked[0] == []
  {
    ReadyCounted(g, metric, root, x, rank, tree);
    LinksAreChildren(metric, root, x, rank, tree, 0);
    assert FlowingList(tree, rank, 0, tree[0], marked[0]);
    if tree[0] != [] {
      assert Child(x, root, tree[0][0].dst, 0);
      InLinkFound(g, metric, root, x, rank, tree[0][0].dst);
      InLinkFound(g, metric, root, x, rank, 0);
    }
  }

  lemma TotalsAreLoads(g: Adjacency, metric: Adjacency, root: nat, x: Labels,
                       rank: seq<nat>, tree: Adjacency, marked: Adjacency, T: seq<real>)
    requires Ready(g, metric, root, x, rank) && IsTree(metric, root, x, tree) && Climbs(tree, rank)
    requires Flowing(tree, rank, marked)
    requires |T| == |marked| == |rank| && forall v :: 1 <= v < |T| ==> T[v] == LoadSum(marked[v])
    ensures Sum(Totals(T), |rank|) == Sum(Distances(x), |rank|)
  {
    NoLoadAtZero(g, metric, root, x, rank, tree, marked);
    forall v: nat | v < |rank|
      ensures Totals(T)(v) == Loads(marked)(v)
    {
      if v == 0 {
        assert LoadSum([]) == 0.0;
      }
    }
    SumSame(Totals(T), Loads(marked), |rank|);
    ReadyCounted(g, metric, root, x, rank, tree);
    TotalLoadIsTotalDistance(metric, root, x, rank, tree, marked);
  }

  /**
   * The accounting of model_tree on an extracted tree: every link's flow is the size of the subtree it leads to,
   * ch and L hold the number of proper descendants, and the T of all nodes add up to all shortest distances.
   */
  method CountAndMark(g: Graph, root: nat, size: nat, ghost searched: Adjacency,
                      ghost metric: Adjacency, ghost x: Labels, ghost rank: seq<nat>)
    returns (ghost tree: Adjacency)
    requires g.Valid() && root < size <= MAX_NODES
    requires Ready(searched, metric, root, x, rank) && |rank| == |x.pi| == |x.d| == size
    requires IsTree(metric, root, x, g.Adj(size)) && AtZero(g.Adj(size))
    requires forall v :: 1 <= v < size ==> g.pi[v] == x.pi[v]
    modifies g.lh, g.ch, g.L, g.T
    ensures tree == old(g.Adj(size)) && SameShape(tree, g.Adj(size))
    ensures forall u, k :: 0 <= u < size && 0 <= k < |g.lh[u]| ==>
              g.lh[u][k].flow == |Subtree(x, root, rank, g.lh[u][k].dst)|
    ensures forall v :: 1 <= v < size && x.d[v] < INFLEN ==>
              g.ch[v] == g.L[v] == |Subtree(x, root, rank, v) - {v}|
    ensures Sum(Totals(g.T[..size]), size) == Sum(Distances(x), size)
  {
    hide Ready, IsTree, AtZero, Chains, Flowed, Flowing, Subtree, Rooted, Counted, Climbs, FlowSum, LoadSum,
         SameShape, Count;
    tree := g.Adj(size);
    ReadyChains(searched, metric, root, x, rank);
    ReadyCounted(searched, metric, root, x, rank, tree);
    TreeClimbs(metric, root, x, rank, tree);
    TreeRooted(searched, metric, root, x, rank, tree, g.pi[..size]);
    SameItself(tree);
    var count := CountChildren(g, root, size, tree, rank, root, tree, AllBelow(size));
    ghost var marked := g.Adj(size);
    FlowingIffAtZero(searched, metric, root, x, rank, tree, marked);
    MarkLAndT(g, size);
    assert forall v :: 0 <= v < size ==> g.lh[v] == marked[v];
    TotalsAreLoads(searched, metric, root, x, rank, tree, marked, g.T[..size]);
    forall u, k | 0 <= u < size && 0 <= k < |g.lh[u]|
      ensures g.lh[u][k].flow == |Subtree(x, root, rank, g.lh[u][k].dst)|
    {
      ShapeLength(tree, marked, u);
      FlowIsSubtree(metric, root, x, rank, tree, marked, u, k);
    }
    forall v | 1 <= v < size && x.d[v] < INFLEN
      ensures g.ch[v] == g.L[v] == |Subtree(x, root, rank, v) - {v}|
    {
      ReachedUnderRoot(searched, metric, root, x, rank, tree, v);
      LIsDescendants(metric, root, x, rank, tree, marked, v);
    }
  }

  lemma ReadyChains(g: Adjacency, metric: Adjacency, root: nat, x: Labels, rank: seq<nat>)
    requires Ready(g, metric, root, x, rank) && |rank| == |x.d|
    ensures Chains(x, root, rank)
  {
  }

  lemma SameItself(tree: Adjacency)
    ensures SameShape(tree, tree)
  {
  }
}
