/** The greedy iterative mode of construct_tree. */
module IterativeTrees {
  import opened Graphs
  import opened TreeGraphs
  import opened TreeCounts
  import opened MeshGraphs
  import opened MeshTrees
  import opened MeshCounts
  import opened GreedyStages

  /** The link that attaching v to u adds, but for its flow. */
  function TreeLink(metric: Adjacency, u: nat, v: nat): Link {
    Link(v, if Joins(metric, u, v) then FindIn(metric[u], v, 0, 0).value.cost else 0.0, 0, 0, 0, 0)
  }

  /** nodes hang together as a tree below root: each but the root has exactly one link into it, from its parent. */
  ghost predicate Arbor(metric: Adjacency, tree: Adjacency, pi: seq<nat>, rank: seq<nat>, root: nat, nodes: set<nat>) {
    && Rooted(tree, pi, rank, root) && root in nodes && |metric| == |tree|
    && (forall v :: v in nodes ==> 0 < v < |tree|)
    && (forall u, l :: 0 <= u < |tree| && l in tree[u] ==>
            u in nodes && l.dst in nodes && l == TreeLink(metric, u, l.dst))
    && (forall v :: v in nodes && v != root ==>
                      pi[v] in nodes && Joins(metric, pi[v], v) && TreeLink(metric, pi[v], v) in tree[pi[v]])
  }

  /** The links of the tree graph but for their flows; the gateway's component, and ranks that climb along its links. */
  datatype Shape = Shape(links: Adjacency, rank: seq<nat>, part: set<nat>)

  /** The links are those of the recorded parents, and none leads into the gateway's component or out of it. */
  ghost predicate Linked(m: Adjacency, sh: Shape, pi: seq<nat>, root: nat, s: Stage) {
    && (forall u, l :: 0 <= u < |sh.links| && l in sh.links[u] ==>
                         && l.dst < |sh.links| && l.dst != root && l == TreeLink(m, u, l.dst)
                         && l.dst in s.parent && s.parent[l.dst] == u && l.dst < |pi| && pi[l.dst] == u
                         && (u in sh.part <==> l.dst in sh.part))
    && (forall v :: v in s.parent ==>
                      && 0 < v < |sh.links| && Joins(m, s.parent[v], v) && s.parent[v] < |sh.links|
                      && TreeLink(m, s.parent[v], v) in sh.links[s.parent[v]])
  }

  /** The ranks climb inside the gateway's component, and everywhere as long as the stale node waits. */
  ghost predicate Climbing(sh: Shape, stale: nat, s: Stage) {
    && |sh.rank| == |sh.links|
    && forall u, l :: 0 <= u < |sh.links| && l in sh.links[u] && (u in sh.part || stale in s.waiting) ==>
                        l.dst < |sh.links| && sh.rank[u] < sh.rank[l.dst]
  }

  /** The tree graph at a stage of the loop. Only the stale node can have children while it waits. */
  ghost predicate Grove(m: Adjacency, sh: Shape, pi: seq<nat>, root: nat, stale: nat, s: Stage) {
    && |sh.links| == |pi| == |m| && 0 < root < |m| && root in sh.part && pi[root] != MAX_NODES
    && root !in s.waiting && root !in s.parent && s.waiting !! s.parent.Keys
    && (forall v :: v in s.waiting ==> 0 < v < |m| && v !in sh.part && (v != stale ==> sh.links[v] == []))
    && AllKeyed(sh.links) && Linked(m, sh, pi, root, s) && Climbing(sh, stale, s)
  }

  ghost function Attached(metric: Adjacency, tree: Adjacency, u: nat, v: nat): (t: Adjacency)
    requires u < |tree|
    ensures |t| == |tree|
  {
    tree[u := [TreeLink(metric, u, v)] + tree[u]]
  }

  /** v, with what hangs from it, joins u's component. */
  ghost function Joined(m: Adjacency, sh: Shape, s: Stage, u: nat, v: nat): (r: Shape)
    requires u < |sh.links| == |sh.rank| && v < |sh.links|
    ensures |r.links| == |r.rank| == |sh.links|
  {
    var t, next := Attached(m, sh.links, u, v), sh.rank[u] + 1;
    if u in sh.part && sh.links[v] != [] then
      Shape(t, seq(|sh.rank|, w requires 0 <= w < |sh.rank| => if w in sh.part then sh.rank[w] else sh.rank[w] + next),
            AllBelow(|sh.links|) - (s.waiting - {v}))
    else Shape(t, sh.rank[v := next], if u in sh.part then sh.part + {v} else sh.part)
  }

  lemma AttachKeyed(metric: Adjacency, tree: Adjacency, u: nat, v: nat)
    requires AllKeyed(tree) && u < |tree| && forall l :: l in tree[u] ==> l.dst != v
    ensures AllKeyed(Attached(metric, tree, u, v))
  {
    var t := Attached(metric, tree, u, v);
    forall w | 0 <= w < |t|
      ensures Keyed(t[w])
    {
      assert Keyed(tree[w]);
      if w == u {
        forall i, j | 0 <= i < j < |t[w]|
          ensures !t[w][j].Is(t[w][i].dst, t[w][i].outif, t[w][i].inif)
        {
          assert t[w][j] == tree[u][j - 1] && tree[u][j - 1] in tree[u];
        }
      }
    }
  }

  lemma AttachedRows(metric: Adjacency, tree: Adjacency, u: nat, v: nat)
    requires u < |tree|
    ensures var t := Attached(metric, tree, u, v);
            && |t| == |tree| && TreeLink(metric, u, v) in t[u]
            && (forall w, l :: 0 <= w < |tree| && l in tree[w] ==> l in t[w])
            && forall w, l: Link :: 0 <= w < |tree| && l in t[w] ==>
                    l in tree[w] || (w == u && l == TreeLink(metric, u, v))
  {
    assert Attached(metric, tree, u, v)[u][0] == TreeLink(metric, u, v);
  }

  /** An attachment the loop may make: v waits, and u is in the tree or is the stale node. */
  ghost predicate CanAttach(m: Adjacency, stale: nat, s: Stage, u: nat, v: nat) {
    v in s.waiting && u < |m| && u != v && Joins(m, u, v) && (u in s.waiting ==> u == stale)
  }

  lemma JoinedLink(m: Adjacency, sh: Shape, pi: seq<nat>, root: nat,
                   stale: nat, s: Stage, u: nat, v: nat, w: nat, l: Link)
    requires Grove(m, sh, pi, root, stale, s) && CanAttach(m, stale, s, u, v)
    requires w < |sh.links| && l in Joined(m, sh, s, u, v).links[w]
    ensures var next, part := Next(s, Pick(v, u)), Joined(m, sh, s, u, v).part;
            && l.dst < |sh.links| && l.dst != root && l == TreeLink(m, w, l.dst) && l.dst in next.parent
            && next.parent[l.dst] == w && pi[v := u][l.dst] == w && (w in part <==> l.dst in part)
  {
    hide Joins, Keyed, Climbing;
    if l in sh.links[w] {
      assert l.dst in s.parent && (w in s.waiting ==> w == stale);
    } else {
      assert w == u && l == TreeLink(m, u, v);
    }
  }

  lemma JoinedParent(m: Adjacency, sh: Shape, pi: seq<nat>, root: nat, stale: nat, s: Stage, u: nat, v: nat, w: nat)
    requires Grove(m, sh, pi, root, stale, s) && CanAttach(m, stale, s, u, v) && w in Next(s, Pick(v, u)).parent
    ensures var t, x := Joined(m, sh, s, u, v).links, Next(s, Pick(v, u)).parent[w];
            0 < w < |t| && Joins(m, x, w) && x < |t| && TreeLink(m, x, w) in t[x]
  {
    hide Joins, TreeLink, Keyed, Attached, Climbing;
    GroveSizes(m, sh, pi, root, stale, s);
    AttachedRows(m, sh.links, u, v);
    JoinedLinks(m, sh, s, u, v);
    if w != v {
      assert TreeLink(m, s.parent[w], w) in sh.links[s.parent[w]];
    }
  }

  lemma JoinedLinked(m: Adjacency, sh: Shape, pi: seq<nat>, root: nat, stale: nat, s: Stage, u: nat, v: nat)
    requires Grove(m, sh, pi, root, stale, s) && CanAttach(m, stale, s, u, v)
    ensures u < |sh.links| == |sh.rank| && v < |sh.links|
    ensures Linked(m, Joined(m, sh, s, u, v), pi[v := u], root, Next(s, Pick(v, u)))
  {
    hide Joins, Grove, Next, Joined, TreeLink;
    GroveSizes(m, sh, pi, root, stale, s);
    var next, r := Next(s, Pick(v, u)), Joined(m, sh, s, u, v);
    forall w, l | 0 <= w < |r.links| && l in r.links[w]
      ensures l.dst < |r.links| && l.dst != root && l == TreeLink(m, w, l.dst) && l.dst in next.parent
      ensures next.parent[l.dst] == w && pi[v := u][l.dst] == w && (w in r.part <==> l.dst in r.part)
    {
      JoinedLink(m, sh, pi, root, stale, s, u, v, w, l);
    }
    forall w | w in next.parent
      ensures 0 < w < |r.links| && Joins(m, next.parent[w], w) && next.parent[w] < |r.links|
      ensures TreeLink(m, next.parent[w], w) in r.links[next.parent[w]]
    {
      JoinedParent(m, sh, pi, root, stale, s, u, v, w);
    }
  }

  lemma JoinedClimbing(m: Adjacency, sh: Shape, pi: seq<nat>, root: nat, stale: nat, s: Stage, u: nat, v: nat)
    requires Grove(m, sh, pi, root, stale, s) && CanAttach(m, stale, s, u, v)
    ensures Climbing(Joined(m, sh, s, u, v), stale, Next(s, Pick(v, u)))
  {
    hide Joins, AllKeyed, Attached;
    AttachedRows(m, sh.links, u, v);
  }

  /** Attaching a node that waits gives the next stage's tree graph. */
  lemma AttachGrove(m: Adjacency, sh: Shape, pi: seq<nat>, root: nat, stale: nat, s: Stage, u: nat, v: nat)
    requires Grove(m, sh, pi, root, stale, s) && CanAttach(m, stale, s, u, v)
    ensures Grove(m, Joined(m, sh, s, u, v), pi[v := u], root, stale, Next(s, Pick(v, u)))
    ensures forall l :: l in sh.links[u] ==> l.dst != v
  {
    hide Joins, TreeLink, Linked, Climbing, Keyed;
    WaitingUnlinked(m, sh, pi, root, s, v);
    AttachKeyed(m, sh.links, u, v);
    JoinedLinked(m, sh, pi, root, stale, s, u, v);
    JoinedClimbing(m, sh, pi, root, stale, s, u, v);
  }

  lemma WaitingUnlinked(m: Adjacency, sh: Shape, pi: seq<nat>, root: nat, s: Stage, v: nat)
    requires Linked(m, sh, pi, root, s) && v !in s.parent
    ensures forall u, l :: 0 <= u < |sh.links| && l in sh.links[u] ==> l.dst != v
  {
    hide TreeLink, Joins;
  }

  /** The parent entry of a node that waits does not matter. */
  lemma ParentOutside(m: Adjacency, sh: Shape, pi: seq<nat>, root: nat, stale: nat, s: Stage, v: nat, x: nat)
    requires Grove(m, sh, pi, root, stale, s) && v in s.waiting
    ensures Grove(m, sh, pi[v := x], root, stale, s)
  {
    hide Joins, TreeLink, AllKeyed, Climbing;
  }

  /** The links of the gateway's component. */
  ghost function Inner(sh: Shape): (t: Adjacency)
    ensures |t| == |sh.links|
  {
    seq(|sh.links|, u requires 0 <= u < |sh.links| => if u in sh.part then sh.links[u] else [])
  }

  lemma InnerRooted(m: Adjacency, sh: Shape, pi: seq<nat>, root: nat, stale: nat, s: Stage)
    requires Grove(m, sh, pi, root, stale, s)
    ensures Rooted(Inner(sh), pi, sh.rank, root) && PartOf(Inner(sh), sh.links, sh.part)
  {
    hide Joins, TreeLink;
    forall u | 0 <= u < |sh.links|
      ensures Keyed(Inner(sh)[u])
    {
      assert Keyed(sh.links[u]);
    }
  }

  // ---------- one trial ----------

  /** A list without the first link that has the key. */
  function RemoveFirst(links: seq<Link>, to: nat, o: int, i: int): seq<Link> {
    if links == [] then []
    else if links[0].Is(to, o, i) then links[1..]
    else [links[0]] + RemoveFirst(links[1..], to, o, i)
  }

  /** `del_link`. */
  method DelLink(g: Graph, from: nat, to: nat, o: int, i: int) returns (deleted: bool)
    requires g.Valid() && from != MAX_NODES
    modifies g.lh
    ensures g.lh[..] == if from > MAX_NODES then old(g.lh[..])
                        else old(g.lh[..])[from := RemoveFirst(old(g.lh[from]), to, o, i)]
    ensures deleted == (from < MAX_NODES && FindIn(old(g.lh[from]), to, o, i).Some?)
  {
    if from > MAX_NODES {
      return false;
    }
    var k, links := 0, g.lh[from];
    while k < |links|
      invariant k <= |links| && FindIn(links, to, o, i) == FindIn(links[k..], to, o, i)
      invariant RemoveFirst(links, to, o, i) == links[..k] + RemoveFirst(links[k..], to, o, i)
    {
      assert links[k..][1..] == links[k + 1..];
      if links[k].Is(to, o, i) {
        g.lh[from] := links[..k] + links[k + 1..];
        return true;
      }
      assert links[..k] + ([links[k]] + RemoveFirst(links[k + 1..], to, o, i))
          == links[..k + 1] + RemoveFirst(links[k + 1..], to, o, i);
      k := k + 1;
    }
    assert RemoveFirst(links, to, o, i) == links;
    return false;
  }

  /** model_tree up to its rank: the counts are taken, the interference model stands for any score. */
  method ModelTree(g: Graph, root: nat, size: nat, score: real, ghost m: Adjacency,
                   ghost sh: Shape, ghost stale: nat, ghost s: Stage)
    returns (r: real)
    requires g.Valid() && root < size == |m| <= MAX_NODES
    requires Grove(m, sh, g.pi[..size], root, stale, s) && SameShape(sh.links, g.Adj(size))
    modifies g.lh, g.ch, g.L, g.T
    ensures SameShape(sh.links, g.Adj(size)) && r == score
    ensures |Inner(sh)| == |sh.rank| && Climbs(Inner(sh), sh.rank) && root < |Inner(sh)|
    ensures forall w :: 0 <= w < size ==>
              g.ch[w] == if w in Under(Inner(sh), sh.rank, root) then Count(Inner(sh), sh.rank, w) else old(g.ch[w])
  {
    hide Grove, SameShape, Count, Under, Flowed, PartOf, Inner;
    InnerRooted(m, sh, g.pi[..size], root, stale, s);
    GroveSizes(m, sh, g.pi[..size], root, stale, s);
    var count := CountChildren(g, root, size, Inner(sh), sh.rank, root, sh.links, sh.part);
    MarkLAndT(g, size);
    return score;
  }

  lemma GroveSizes(m: Adjacency, sh: Shape, pi: seq<nat>, root: nat, stale: nat, s: Stage)
    requires Grove(m, sh, pi, root, stale, s)
    ensures |sh.links| == |sh.rank| == |pi| == |m| && 0 < root < |m| && root in sh.part && root !in s.waiting
    ensures forall v :: v in s.waiting ==> 0 < v < |m|
  {
  }

  /** Putting the trial link in front. */
  lemma AddShape(metric: Adjacency, tree: Adjacency, adj: Adjacency, u: nat, v: nat)
    requires SameShape(tree, adj) && u < |tree| && Joins(metric, u, v) && forall l :: l in tree[u] ==> l.dst != v
    ensures |adj| == |tree| && u < |metric| && FindIn(metric[u], v, 0, 0).Some?
    ensures SameShape(Attached(metric, tree, u, v),
        adj[u := AddTo(adj[u], v, FindIn(metric[u], v, 0, 0).value.cost, 0, 0, 0)])
  {
    assert SameList(tree[u], adj[u]);
    var cost := FindIn(metric[u], v, 0, 0).value.cost;
    var t, a := Attached(metric, tree, u, v), adj[u := AddTo(adj[u], v, cost, 0, 0, 0)];
    forall w | 0 <= w < |t|
      ensures SameList(t[w], a[w])
    {
      assert SameList(tree[w], adj[w]);
    }
  }

  /** Taking it away again. */
  lemma RemoveShape(metric: Adjacency, tree: Adjacency, adj: Adjacency, u: nat, v: nat)
    requires u < |tree| && SameShape(Attached(metric, tree, u, v), adj)
    ensures |adj| == |tree| && SameShape(tree, adj[u := RemoveFirst(adj[u], v, 0, 0)])
  {
    var t, a := Attached(metric, tree, u, v), adj[u := RemoveFirst(adj[u], v, 0, 0)];
    assert SameList(t[u], adj[u]) && t[u][0] == TreeLink(metric, u, v);
    forall w | 0 <= w < |tree|
      ensures SameList(tree[w], a[w])
    {
      assert SameList(t[w], adj[w]);
    }
  }

  /**
   * Adding a link to the tree and recording the parent: a trial's first half, and what the chosen node gets for good.
   */
  method Attach(tree: Graph, newNode: nat, attachPoint: nat, cost: real,
                size: nat, ghost m: Adjacency, ghost t: Adjacency)
    requires tree.Valid() && size <= MAX_NODES && 0 < newNode < size && attachPoint < size == |t|
    requires SameShape(t, tree.Adj(size))
    requires Joins(m, attachPoint, newNode) && cost == FindIn(m[attachPoint], newNode, 0, 0).value.cost
    requires forall l :: l in t[attachPoint] ==> l.dst != newNode
    modifies tree.lh, tree.valid, tree.pi
    ensures SameShape(Attached(m, t, attachPoint, newNode), tree.Adj(size))
    ensures tree.pi[..] == old(tree.pi[..])[newNode := attachPoint]
    ensures tree.valid[..] == old(tree.valid[..])[attachPoint := true][newNode := true]
  {
    hide SameShape, Attached, AddTo;
    ghost var adj := tree.Adj(size);
    AddShape(m, t, adj, attachPoint, newNode);
    var added := tree.AddLink(attachPoint, newNode, cost, 0, 0, 0);
    tree.pi[newNode] := attachPoint;
    assert tree.Adj(size) == adj[attachPoint := AddTo(adj[attachPoint], newNode, cost, 0, 0, 0)];
  }

  /** A trial's second half. */
  method Detach(tree: Graph, newNode: nat, attachPoint: nat, size: nat, ghost m: Adjacency, ghost t: Adjacency)
    requires tree.Valid() && size <= MAX_NODES && 0 < newNode < size && attachPoint < size == |t|
    requires SameShape(Attached(m, t, attachPoint, newNode), tree.Adj(size))
    modifies tree.lh, tree.pi
    ensures SameShape(t, tree.Adj(size)) && tree.pi[..] == old(tree.pi[..])[newNode := NIL]
  {
    hide SameShape, Attached, RemoveFirst;
    ghost var adj := tree.Adj(size);
    RemoveShape(m, t, adj, attachPoint, newNode);
    var deleted := DelLink(tree, attachPoint, newNode, 0, 0);
    tree.pi[newNode] := NIL;
    assert tree.Adj(size) == adj[attachPoint := RemoveFirst(adj[attachPoint], newNode, 0, 0)];
  }

  /**
   * `model_performance`: the trial link, the parent entry and the list order are all as before; only flows and counts
   * differ.
   */
  method ModelPerformance(tree: Graph, metric: Graph, newNode: nat, attachPoint: nat, root: nat,
                          size: nat, score: real, ghost sh: Shape, ghost stale: nat, ghost s: Stage)
    returns (r: real)
    requires tree.Valid() && metric.Valid() && tree.lh != metric.lh && root < size <= MAX_NODES && attachPoint < size
    requires Grove(metric.Adj(size), sh, tree.pi[..size], root, stale, s) && SameShape(sh.links, tree.Adj(size))
    requires newNode in s.waiting && attachPoint != newNode && (attachPoint in s.waiting ==> attachPoint == stale)
    modifies tree.lh, tree.valid, tree.pi, tree.ch, tree.L, tree.T
    ensures SameShape(sh.links, tree.Adj(size)) && Grove(metric.Adj(size), sh, tree.pi[..size], root, stale, s)
    ensures r == if Joins(metric.Adj(size), attachPoint, newNode) then score else -1.0
    ensures newNode < size
    ensures if Joins(metric.Adj(size), attachPoint, newNode)
            then tree.pi[..] == old(tree.pi[..])[newNode := NIL]
                 && tree.valid[..] == old(tree.valid[..])[attachPoint := true][newNode := true]
            else tree.pi[..] == old(tree.pi[..]) && tree.valid[..] == old(tree.valid[..])
  {
    hide Grove, SameShape, Attached, AddTo, RemoveFirst, Joins;
    GroveSizes(metric.Adj(size), sh, tree.pi[..size], root, stale, s);
    JoinsExact(metric, attachPoint, newNode, size);
    ghost var m, pi := metric.Adj(size), tree.pi[..size];
    var l := metric.FindLink(attachPoint, newNode, 0, 0);
    assert metric.lh[attachPoint] == m[attachPoint];
    if l.None? {
      return -1.0;
    }
    r := Trial(tree, newNode, attachPoint, l.value.cost, root, size, score, m, sh, stale, s);
  }

  /** A trial: the link goes in, the counts are taken, the link comes out again. */
  method Trial(tree: Graph, newNode: nat, attachPoint: nat, cost: real, root: nat, size: nat,
               score: real, ghost m: Adjacency, ghost sh: Shape, ghost stale: nat, ghost s: Stage)
    returns (r: real)
    requires tree.Valid() && root < size == |m| <= MAX_NODES && newNode < size && attachPoint < size
    requires Grove(m, sh, tree.pi[..size], root, stale, s) && SameShape(sh.links, tree.Adj(size))
    requires CanAttach(m, stale, s, attachPoint, newNode)
    requires FindIn(m[attachPoint], newNode, 0, 0).Some? && cost == FindIn(m[attachPoint], newNode, 0, 0).value.cost
    modifies tree.lh, tree.valid, tree.pi, tree.ch, tree.L, tree.T
    ensures SameShape(sh.links, tree.Adj(size)) && Grove(m, sh, tree.pi[..size], root, stale, s) && r == score
    ensures tree.pi[..] == old(tree.pi[..])[newNode := NIL]
    ensures tree.valid[..] == old(tree.valid[..])[attachPoint := true][newNode := true]
  {
    hide Grove, SameShape, Attached, AddTo, RemoveFirst, Joins;
    ghost var pi := tree.pi[..size];
    GroveSizes(m, sh, pi, root, stale, s);
    AttachGrove(m, sh, pi, root, stale, s, attachPoint, newNode);
    JoinedLinks(m, sh, s, attachPoint, newNode);
    Attach(tree, newNode, attachPoint, cost, size, m, sh.links);
    assert tree.pi[..size] == pi[newNode := attachPoint];
    r := ModelTree(tree, root, size, score, m, Joined(m, sh, s, attachPoint, newNode), stale,
        Next(s, Pick(newNode, attachPoint)));
    Detach(tree, newNode, attachPoint, size, m, sh.links);
    assert tree.pi[..size] == pi[newNode := NIL];
    ParentOutside(m, sh, pi, root, stale, s, newNode, NIL);
  }

  lemma JoinedLinks(m: Adjacency, sh: Shape, s: Stage, u: nat, v: nat)
    requires u < |sh.links| == |sh.rank| && v < |sh.links|
    ensures Joined(m, sh, s, u, v).links == Attached(m, sh.links, u, v)
  {
  }

  lemma JoinsExact(metric: Graph, u: nat, v: nat, size: nat)
    requires metric.Valid() && u < size <= MAX_NODES
    ensures Joins(metric.Adj(size), u, v) <==> FindIn(metric.lh[u], v, 0, 0).Some?
  {
  }

  // ---------- one round ----------

  /** best_node, attach_point and best_xput, over the pairs tried so far. */
  datatype Best = Best(pick: Pick, xput: real, disc: bool)

  /** The best of the pairs in front of next, the first of equals. */
  ghost predicate BestBefore(m: Adjacency, s: Stage, score: (nat, nat) -> real, b: Best, next: Pick) {
    && (b.disc ==> b.xput == -1.0)
    && (!b.disc ==> Candidate(m, s, b.pick) && Before(b.pick, next)
                    && b.xput == score(b.pick.node, b.pick.attachPoint) >= 0.0)
    && (forall q :: Candidate(m, s, q) && Before(q, next) ==>
                      && !b.disc && score(q.node, q.attachPoint) <= b.xput
                      && (score(q.node, q.attachPoint) == b.xput ==> !Before(q, b.pick)))
  }

  /** Flags are on nodes of the graph; of the nodes that wait only the last can have one. */
  ghost predicate Orderly(s: Stage, root: nat, stale: nat, size: nat) {
    && root in s.flags && root !in s.waiting && 0 < root < size && (stale == root || stale + 1 == size)
    && (forall v :: v in s.flags ==> 0 < v < size) && (forall v :: v in s.waiting ==> 0 < v < size)
    && forall v :: v in s.flags && v in s.waiting ==> v == stale
  }

  /** The state of the tree graph object between trials. */
  ghost predicate Between(tree: Graph, m: Adjacency, size: nat, sh: Shape,
                          root: nat, stale: nat, s: Stage, flags: set<nat>)
    requires tree.Valid() && size <= MAX_NODES
    reads tree.lh, tree.pi, tree.valid
  {
    && |m| == size && root < size && Grove(m, sh, tree.pi[..size], root, stale, s)
    && SameShape(sh.links, tree.Adj(size))
    && forall v :: 1 <= v < size ==> (tree.valid[v] <==> v in flags)
  }

  /** What a trial of pair p changes about the best so far. */
  function Better(b: Best, p: Pick, xput: real): Best {
    var disc := if xput > -1.0 then false else b.disc;
    if xput > b.xput then Best(p, xput, disc) else b.(disc := disc)
  }

  lemma BestStep(m: Adjacency, s: Stage, score: (nat, nat) -> real, b: Best, i: nat, j: nat)
    requires BestBefore(m, s, score, b, Pick(i, j)) && i in s.waiting && score(i, j) >= 0.0
    ensures j in s.flags && i != j ==>
              BestBefore(m, s, score, Better(b, Pick(i, j), if Joins(m, j, i) then score(i, j) else -1.0),
                  Pick(i, j + 1))
    ensures j !in s.flags || i == j ==> BestBefore(m, s, score, b, Pick(i, j + 1))
  {
    hide Joins;
  }

  lemma BestNextNode(m: Adjacency, s: Stage, score: (nat, nat) -> real, b: Best, i: nat, size: nat)
    requires BestBefore(m, s, score, b, Pick(i, size)) && forall u :: u in s.flags ==> 0 < u < size
    ensures BestBefore(m, s, score, b, Pick(i + 1, 1))
  {
    hide Joins;
    forall q | Candidate(m, s, q) && Before(q, Pick(i + 1, 1))
      ensures Before(q, Pick(i, size))
    {
    }
  }

  lemma BestSkip(m: Adjacency, s: Stage, score: (nat, nat) -> real, b: Best, i: nat)
    requires BestBefore(m, s, score, b, Pick(i, 1)) && i !in s.waiting && forall u :: u in s.flags ==> 0 < u
    ensures BestBefore(m, s, score, b, Pick(i + 1, 1))
  {
    hide Joins;
    forall q | Candidate(m, s, q) && Before(q, Pick(i + 1, 1))
      ensures Before(q, Pick(i, 1))
    {
    }
  }

  lemma BestDone(m: Adjacency, s: Stage, score: (nat, nat) -> real, b: Best, size: nat)
    requires BestBefore(m, s, score, b, Pick(size, 1)) && forall v :: v in s.waiting ==> v < size
    ensures b.disc <==> Ended(m, s)
    ensures !b.disc ==> IsBest(m, s, score, b.pick)
  {
    hide Joins;
    forall q | Candidate(m, s, q)
      ensures Before(q, Pick(size, 1))
    {
    }
  }

  /** One trial, if j is flagged. */
  method TryPair(tree: Graph, metric: Graph, i: nat, j: nat, root: nat, size: nat, score: real,
                 best: Best, ghost sh: Shape, ghost stale: nat, ghost s: Stage, ghost flags: set<nat>)
    returns (b: Best)
    requires tree.Valid() && metric.Valid() && tree.lh != metric.lh && size <= MAX_NODES && 0 < j < size
    requires i in s.waiting
    requires Between(tree, metric.Adj(size), size, sh, root, stale, s, flags) && Orderly(s, root, stale, size)
    requires flags <= s.flags
    modifies tree.lh, tree.valid, tree.pi, tree.ch, tree.L, tree.T
    ensures Between(tree, metric.Adj(size), size, sh, root, stale, s,
                    if j in flags && i != j then flags - {i} else flags)
    ensures b == if j in flags && i != j
                 then Better(best, Pick(i, j), if Joins(metric.Adj(size), j, i) then score else -1.0) else best
    ensures metric.Adj(size) == old(metric.Adj(size))
  {
    hide Grove, SameShape, Joins, Better;
    b := best;
    if tree.valid[j] && i != j {
      ghost var before := tree.valid[..];
      var xput := ModelPerformance(tree, metric, i, j, root, size, score, sh, stale, s);
      tree.valid[i] := false;
      assert forall v :: 1 <= v < size && v != i ==> tree.valid[v] == before[v];
      b := Better(b, Pick(i, j), xput);
    }
  }

  /** The inner loop of a round: node i against every flagged node. At its end i's own flag is clear. */
  method TryNode(tree: Graph, metric: Graph, i: nat, root: nat, size: nat, score: (nat, nat) -> real,
                 best: Best, ghost sh: Shape, ghost stale: nat, ghost s: Stage)
    returns (b: Best)
    requires tree.Valid() && metric.Valid() && tree.lh != metric.lh && size <= MAX_NODES && 0 < i < size
    requires Between(tree, metric.Adj(size), size, sh, root, stale, s, s.flags) && Orderly(s, root, stale, size)
    requires i in s.waiting && (forall v, u :: score(v, u) >= 0.0)
    requires BestBefore(metric.Adj(size), s, score, best, Pick(i, 1))
    modifies tree.lh, tree.valid, tree.pi, tree.ch, tree.L, tree.T
    ensures Between(tree, metric.Adj(size), size, sh, root, stale, s, s.flags - {i})
    ensures BestBefore(metric.Adj(size), s, score, b, Pick(i, size))
    ensures metric.Adj(size) == old(metric.Adj(size))
  {
    hide Between, BestBefore, Better, Candidate, Joins;
    b := best;
    ghost var m, flags := metric.Adj(size), s.flags;
    var j := 1;
    while j < size
      invariant 1 <= j <= size && metric.Adj(size) == m
      invariant Between(tree, m, size, sh, root, stale, s, flags)
      invariant flags == s.flags - {i} || (flags == s.flags && j <= root)
      invariant BestBefore(m, s, score, b, Pick(i, j))
    {
      BestStep(m, s, score, b, i, j);
      b := TryPair(tree, metric, i, j, root, size, score(i, j), b, sh, stale, s, flags);
      flags := if j in flags && i != j then flags - {i} else flags;
      j := j + 1;
    }
  }

  /** One round of trials: finds the first of the pairs with the highest score, or that there is none. */
  method BestAttachment(tree: Graph, metric: Graph, Q: array<bool>, root: nat, size: nat,
                        score: (nat, nat) -> real, ghost sh: Shape, ghost stale: nat, ghost s: Stage)
    returns (b: Best)
    requires tree.Valid() && metric.Valid() && tree.lh != metric.lh && size <= MAX_NODES && Q.Length == size
    requires Q != tree.valid
    requires Between(tree, metric.Adj(size), size, sh, root, stale, s, s.flags) && Orderly(s, root, stale, size)
    requires Waiting(Q[..]) == s.waiting && forall v, u :: score(v, u) >= 0.0
    modifies tree.lh, tree.valid, tree.pi, tree.ch, tree.L, tree.T
    ensures Between(tree, metric.Adj(size), size, sh, root, stale, s, s.flags - s.waiting)
    ensures metric.Adj(size) == old(metric.Adj(size)) && Q[..] == old(Q[..])
    ensures b.disc <==> Ended(metric.Adj(size), s)
    ensures !b.disc ==> IsBest(metric.Adj(size), s, score, b.pick)
  {
    hide Grove, SameShape, BestBefore, Candidate, Ended, IsBest;
    b := Best(Pick(0, 0), -1.0, true);
    ghost var m, q := metric.Adj(size), Q[..];
    BestStart(m, s, score, size);
    var i := 1;
    while i < size
      invariant 1 <= i <= size && metric.Adj(size) == m && Q[..] == q
      invariant Between(tree, m, size, sh, root, stale, s, s.flags - set v | v in s.waiting && v < i)
      invariant BestBefore(m, s, score, b, Pick(i, 1))
    {
      assert Q[i] <==> i in Waiting(q);
      assert s.flags - (set v | v in s.waiting && v < i) == s.flags;
      if Q[i] {
        b := TryNode(tree, metric, i, root, size, score, b, sh, stale, s);
        BestNextNode(m, s, score, b, i, size);
      } else {
        BestSkip(m, s, score, b, i);
      }
      i := i + 1;
    }
    assert (set v | v in s.waiting && v < size) == s.waiting;
    BestDone(m, s, score, b, size);
  }

  lemma BestStart(m: Adjacency, s: Stage, score: (nat, nat) -> real, size: nat)
    requires forall v :: v in s.waiting ==> 0 < v
    requires forall v :: v in s.flags ==> 0 < v
    ensures BestBefore(m, s, score, Best(Pick(0, 0), -1.0, true), Pick(1, 1))
  {
    hide Joins;
  }

  // ---------- the greedy loop ----------

  ghost function Waiting(Q: seq<bool>): set<nat> {
    set v: nat | v < |Q| && Q[v]
  }

  /** The nodes of the graph: those flagged valid. */
  ghost function ValidNodes(flags: seq<bool>): set<nat> {
    set v: nat | 0 < v < |flags| && flags[v]
  }

  lemma SwitchOne(q: seq<bool>, i: nat)
    requires i < |q|
    ensures !q[i] ==> |Waiting(q[i := true])| == |Waiting(q)| + 1
    ensures q[i] ==> |Waiting(q[i := false])| == |Waiting(q)| - 1 && Waiting(q[i := false]) == Waiting(q) - {i}
  {
    if q[i] {
      assert i in Waiting(q) && Waiting(q[i := false]) == Waiting(q) - {i};
    } else {
      assert i !in Waiting(q) && Waiting(q[i := true]) == Waiting(q) + {i};
    }
  }

  lemma SwitchWaiting(q: seq<bool>, v: nat)
    requires v in Waiting(q)
    ensures v < |q| && Waiting(q[v := false]) == Waiting(q) - {v}
  {
    SwitchOne(q, v);
  }

  /** Taking the root out of Q, where it may not be. */
  lemma DropRoot(q: seq<bool>, flags: seq<bool>, root: nat)
    requires 0 < root < |q| <= |flags| && Waiting(q) == ValidNodes(flags)
    ensures Waiting(q[root := false]) == ValidNodes(flags) - {root}
    ensures |Waiting(q[root := false])| == |Waiting(q)| - if flags[root] then 1 else 0
  {
    assert flags[root] <==> root in ValidNodes(flags);
    assert q[root] <==> root in Waiting(q);
    if q[root] {
      SwitchOne(q, root);
    } else {
      assert q[root := false] == q;
    }
  }

  lemma WaitingNone(q: seq<bool>)
    requires forall i :: 0 <= i < |q| ==> !q[i]
    ensures |Waiting(q)| == 0
  {
    assert Waiting(q) == {};
  }

  lemma WaitingValid(q: seq<bool>, flags: seq<bool>, n: nat)
    requires |q| <= |flags| && forall v :: 0 <= v < |q| ==> (q[v] <==> 1 <= v && flags[v])
    requires forall v :: |q| <= v < |flags| ==> !flags[v]
    ensures Waiting(q) == ValidNodes(flags)
  {
  }

  /** The set-up of Q: the valid nodes but the gateway. */
  method FillQ(G: Graph, root: nat, size: nat) returns (Q: array<bool>, numNodes: int)
    requires G.Valid() && 0 < root < size <= MAX_NODES
    requires forall v :: size <= v < MAX_NODES ==> !G.valid[v]
    ensures fresh(Q) && Q.Length == size && Waiting(Q[..]) == ValidNodes(G.valid[..]) - {root}
    ensures numNodes == |Waiting(Q[..])| - if G.valid[root] then 0 else 1
  {
    hide Waiting, ValidNodes;
    Q := new bool[size](_ => false);
    numNodes := 0;
    var i := 1;
    WaitingNone(Q[..]);
    while i < MAX_NODES
      invariant 1 <= i <= MAX_NODES && numNodes == |Waiting(Q[..])|
      invariant forall v :: 0 <= v < size ==> (Q[v] <==> 1 <= v < i && G.valid[v])
    {
      if G.valid[i] {
        SwitchOne(Q[..], i);
        ghost var q := Q[..];
        Q[i] := true;
        assert Q[..] == q[i := true];
        numNodes := numNodes + 1;
      }
      i := i + 1;
    }
    WaitingValid(Q[..], G.valid[..], size);
    ghost var q := Q[..];
    DropRoot(q, G.valid[..], root);
    Q[root] := false;
    assert Q[..] == q[root := false];
    numNodes := numNodes - 1;
  }

  /** The chosen node is attached for good. */
  method AttachBest(tree: Graph, metric: Graph, p: Pick, size: nat, ghost sh: Shape,
                    ghost root: nat, ghost stale: nat, ghost s: Stage)
    requires tree.Valid() && metric.Valid() && tree.lh != metric.lh && size <= MAX_NODES
    requires Orderly(s, root, stale, size)
    requires Between(tree, metric.Adj(size), size, sh, root, stale, s, s.flags - s.waiting)
    requires Candidate(metric.Adj(size), s, p)
    modifies tree.lh, tree.valid, tree.pi
    ensures p.node < |sh.links| && p.attachPoint < |sh.links| == |sh.rank|
    ensures Between(tree, metric.Adj(size), size, Joined(metric.Adj(size), sh, s, p.attachPoint, p.node), root, stale,
                    Next(s, p), Next(s, p).flags)
    ensures metric.Adj(size) == old(metric.Adj(size))
  {
    hide Grove, SameShape, Joins, Attached;
    ghost var m, pi := metric.Adj(size), tree.pi[..size];
    assert p.attachPoint in s.flags;
    var v, u := p.node, p.attachPoint;
    GroveSizes(m, sh, pi, root, stale, s);
    JoinsExact(metric, u, v, size);
    AttachGrove(m, sh, pi, root, stale, s, u, v);
    JoinedLinks(m, sh, s, u, v);
    var l := metric.FindLink(u, v, 0, 0);
    assert metric.lh[u] == m[u];
    Attach(tree, v, u, l.value.cost, size, m, sh.links);
    assert tree.pi[..size] == pi[v := u];
  }

  lemma StartGrove(m: Adjacency, pi: seq<nat>, valid: set<nat>, root: nat, stale: nat)
    requires 0 < root < |m| == |pi| && pi[root] != MAX_NODES && forall v :: v in valid ==> 0 < v < |m|
    ensures Grove(m, Shape(EmptyGraph(|m|), seq(|m|, _ => 0), {root}), pi, root, stale, Start(valid, root, stale))
    ensures SameShape(EmptyGraph(|m|), EmptyGraph(|m|))
  {
  }

  lemma ValidInside(flags: seq<bool>, root: nat, size: nat)
    requires 0 < root < size <= |flags| && forall v :: size <= v < |flags| ==> !flags[v]
    ensures (root in ValidNodes(flags) <==> flags[root]) && forall v :: v in ValidNodes(flags) ==> 0 < v < size
  {
  }

  /** A gateway that is not valid is taken off the count of the valid nodes all the same. */
  ghost function Uncounted(valid: set<nat>, root: nat): nat {
    if root in valid then 0 else 1
  }

  ghost function StartShape(size: nat, root: nat): Shape {
    Shape(EmptyGraph(size), seq(size, _ => 0), {root})
  }

  /** The empty tree: of the flags, only the last node's may be left. */
  method ResetTree(tree: Graph, root: nat, size: nat) returns (ghost stale: nat)
    requires tree.Valid() && 0 < root < size <= MAX_NODES
    requires tree.lh[0] == [] && (root == size - 1 ==> tree.pi[size - 1] != MAX_NODES)
    modifies tree.lh, tree.valid, tree.d, tree.pi, tree.ch, tree.L, tree.T, tree.piOutif, tree.piInif, tree.S
    modifies tree.gateway
    ensures tree.Adj(size) == EmptyGraph(size) && tree.pi[root] != MAX_NODES
    ensures stale == if old(tree.valid[size - 1]) then size - 1 else root
    ensures forall v :: 1 <= v < size && v != root ==> (tree.valid[v] <==> v == stale)
  {
    stale := if tree.valid[size - 1] then size - 1 else root;
    ResetGraph(tree, size - 1);
    assert NodeOf(tree, root).labels.pi == tree.pi[root];
    assert tree.Adj(size) == EmptyGraph(size);
  }

  /**
   * The start of the iterative mode: an empty tree but for the gateway, and for a flag that reset_graph left on the
   * last node.
   */
  method StartTree(G: Graph, tree: Graph, root: nat, size: nat, ghost m: Adjacency, ghost nodes: set<nat>)
    returns (Q: array<bool>, numNodes: int, ghost stale: nat)
    requires G.Valid() && tree.Valid() && Apart(G, tree)
    requires 0 < root < size <= MAX_NODES && |m| == size && nodes == ValidNodes(G.valid[..])
    requires forall v :: size <= v < MAX_NODES ==> !G.valid[v]
    requires tree.lh[0] == [] && (root == size - 1 ==> tree.pi[size - 1] != MAX_NODES)
    modifies tree.lh, tree.valid, tree.d, tree.pi, tree.ch, tree.L, tree.T, tree.piOutif, tree.piInif, tree.S
    modifies tree.gateway
    ensures fresh(Q) && Q.Length == size && numNodes == |Waiting(Q[..])| - Uncounted(nodes, root)
    ensures stale == if old(tree.valid[size - 1]) then size - 1 else root
    ensures var s := Start(nodes, root, stale);
            && Waiting(Q[..]) == s.waiting && Orderly(s, root, stale, size)
            && Between(tree, m, size, StartShape(size, root), root, stale, s, s.flags)
    ensures G.valid[..] == old(G.valid[..])
  {
    hide Grove, SameShape, Waiting, ValidNodes, EmptyGraph;
    ghost var flags := G.valid[..];
    stale := ResetTree(tree, root, size);
    assert G.valid[..] == flags;
    Q, numNodes := FillQ(G, root, size);
    tree.valid[root] := true;
    assert G.valid[..] == flags;
    ValidInside(flags, root, size);
    StartGrove(m, tree.pi[..size], ValidNodes(flags), root, stale);
  }

  /** The greedy loop. */
  method GrowTree(metric: Graph, tree: Graph, Q: array<bool>, start: int, root: nat, size: nat,
                  score: (nat, nat, nat) -> real, ghost stale: nat, ghost first: Stage, ghost spare: nat)
    returns (ok: bool, ghost sh: Shape, ghost picks: seq<Pick>)
    requires metric.Valid() && tree.Valid() && metric.lh != tree.lh && 0 < root < size <= MAX_NODES
    requires Q.Length == size && Q != tree.valid && start == |Waiting(Q[..])| - spare && Waiting(Q[..]) == first.waiting
    requires Between(tree, metric.Adj(size), size, StartShape(size, root), root, stale, first, first.flags)
    requires Orderly(first, root, stale, size) && NonNegative(score)
    modifies Q, tree.lh, tree.valid, tree.pi, tree.ch, tree.L, tree.T
    ensures metric.Adj(size) == old(metric.Adj(size)) && Greedy(metric.Adj(size), first, score, spare, picks)
    ensures ok <==> |After(first, picks).waiting| <= spare
    ensures ok ==> Between(tree, metric.Adj(size), size, sh, root, stale, After(first, picks),
        After(first, picks).flags)
  {
    hide Between, Joins, Candidate, Waiting, After, Greedy, Ended, Orderly, IsBest;
    ghost var m, s := metric.Adj(size), first;
    var numNodes := start;
    sh, picks := StartShape(size, root), [];
    AfterNone(first);
    while numNodes > 0
      invariant numNodes == |s.waiting| - spare && Waiting(Q[..]) == s.waiting && metric.Adj(size) == m
      invariant Between(tree, m, size, sh, root, stale, s, s.flags) && Orderly(s, root, stale, size)
      invariant s == After(first, picks) && AllBest(m, first, score, spare, picks)
      decreases numNodes
    {
      ghost var q := Q[..];
      var n := numNodes;
      var b := BestAttachment(tree, metric, Q, root, size, OfRound(score, n), sh, stale, s);
      if b.disc {
        GreedyEnds(m, first, score, spare, picks);
        return false, sh, picks;
      }
      PickInside(m, s, OfRound(score, n), b.pick, root, stale, size);
      numNodes := numNodes - 1;
      SwitchWaiting(q, b.pick.node);
      Q[b.pick.node] := false;
      assert Q[..] == q[b.pick.node := false];
      AttachBest(tree, metric, b.pick, size, sh, root, stale, s);
      AllBestMore(m, first, score, spare, picks, b.pick);
      sh := Joined(m, sh, s, b.pick.attachPoint, b.pick.node);
      picks, s := picks + [b.pick], Next(s, b.pick);
    }
    GreedyEnds(m, first, score, spare, picks);
    return true, sh, picks;
  }

  ghost predicate AllBest(m: Adjacency, s: Stage, score: (nat, nat, nat) -> real, spare: nat, picks: seq<Pick>) {
    forall k :: 0 <= k < |picks| ==> Chosen(m, After(s, picks[..k]), score, spare, picks[k])
  }

  lemma AfterNone(s: Stage)
    ensures After(s, []) == s
  {
  }

  lemma GreedyEnds(m: Adjacency, s: Stage, score: (nat, nat, nat) -> real, spare: nat, picks: seq<Pick>)
    requires AllBest(m, s, score, spare, picks) && (|After(s, picks).waiting| <= spare || Ended(m, After(s, picks)))
    ensures Greedy(m, s, score, spare, picks)
  {
  }

  lemma AllBestMore(m: Adjacency, s: Stage, score: (nat, nat, nat) -> real, spare: nat, picks: seq<Pick>, p: Pick)
    requires AllBest(m, s, score, spare, picks) && |After(s, picks).waiting| > spare
    requires IsBest(m, After(s, picks), OfRound(score, |After(s, picks).waiting| - spare), p)
    ensures AllBest(m, s, score, spare, picks + [p]) && After(s, picks + [p]) == Next(After(s, picks), p)
  {
    hide After, IsBest, AllBest;
    AfterMore(s, picks, p);
    ChosenLast(m, s, score, spare, picks, p);
  }

  lemma ChosenLast(m: Adjacency, s: Stage, score: (nat, nat, nat) -> real, spare: nat, picks: seq<Pick>, p: Pick)
    requires AllBest(m, s, score, spare, picks) && Chosen(m, After(s, picks), score, spare, p)
    ensures AllBest(m, s, score, spare, picks + [p])
  {
    hide After, Chosen;
    var more := picks + [p];
    forall k | 0 <= k < |more|
      ensures Chosen(m, After(s, more[..k]), score, spare, more[k])
    {
      if k < |picks| {
        assert more[..k] == picks[..k];
      } else {
        assert more[..k] == picks;
      }
    }
  }

  lemma AfterMore(s: Stage, picks: seq<Pick>, p: Pick)
    ensures After(s, picks + [p]) == Next(After(s, picks), p)
  {
    assert (picks + [p])[..|picks|] == picks;
  }

  lemma PickInside(m: Adjacency, s: Stage, score: (nat, nat) -> real, p: Pick, root: nat, stale: nat, size: nat)
    requires IsBest(m, s, score, p) && Orderly(s, root, stale, size)
    ensures Candidate(m, s, p) && p.node < size && p.attachPoint < size && p.node in s.waiting
    ensures |Next(s, p).waiting| == |s.waiting| - 1 && Next(s, p).waiting == s.waiting - {p.node} && s.waiting != {}
    ensures Orderly(Next(s, p), root, stale, size)
  {
    hide Joins;
    assert p.node in s.waiting && p.attachPoint in s.flags;
  }

  // ---------- the tree at the end ----------

  lemma {:induction false} ChainInPart(m: Adjacency, sh: Shape, pi: seq<nat>, root: nat,
                                       stale: nat, s: Stage, p: seq<nat>, v: nat)
    requires Grove(m, sh, pi, root, stale, s) && Chain(s.parent, p, root, v)
    ensures v in sh.part
    decreases |p|
  {
    hide Joins, Keyed, Climbing;
    var u := p[|p| - 2];
    assert p[|p| - 1] in s.parent && s.parent[p[|p| - 1]] == p[|p| - 1 - 1];
    if |p| > 2 {
      ChainInPart(m, sh, pi, root, stale, s, p[..|p| - 1], u);
    }
    assert TreeLink(m, u, v) in sh.links[u];
  }

  /** Recorded parents that span the graph make the tree graph an arborescence. */
  lemma SpansArbor(m: Adjacency, sh: Shape, pi: seq<nat>, root: nat, stale: nat, s: Stage, valid: set<nat>)
    requires Grove(m, sh, pi, root, stale, s) && Spans(m, valid, root, s.parent) && root in valid
    ensures Arbor(m, sh.links, pi, sh.rank, root, valid)
  {
    hide Joins, Keyed, Hangs;
    forall v | v in s.parent.Keys
      ensures v in sh.part && s.parent[v] in valid
    {
      HangsInPart(m, sh, pi, root, stale, s, v);
    }
    forall u, l | 0 <= u < |sh.links| && l in sh.links[u]
      ensures u in sh.part && u in valid && l.dst in valid && l == TreeLink(m, u, l.dst)
    {
      assert l.dst in s.parent.Keys && s.parent[l.dst] == u;
    }
    forall v | v in valid && v != root
      ensures 0 < v < |sh.links| && pi[v] == s.parent[v]
    {
      assert TreeLink(m, s.parent[v], v) in sh.links[s.parent[v]];
    }
  }

  lemma HangsInPart(m: Adjacency, sh: Shape, pi: seq<nat>, root: nat, stale: nat, s: Stage, v: nat)
    requires Grove(m, sh, pi, root, stale, s) && Hangs(s.parent, root, v)
    ensures v in sh.part
  {
    hide Grove;
    var p :| Chain(s.parent, p, root, v);
    ChainInPart(m, sh, pi, root, stale, s, p, v);
  }

  /** The picks are those the scores decide; what the answer ok is worth, for a valid gateway and for another. */
  ghost predicate Answered(m: Adjacency, sh: Shape, pi: seq<nat>, valid: set<nat>, root: nat,
                           stale: nat, score: (nat, nat, nat) -> real, picks: seq<Pick>, ok: bool) {
    var spare, end := Uncounted(valid, root), After(Start(valid, root, stale), picks);
    && Greedy(m, Start(valid, root, stale), score, spare, picks)
    && (ok <==> |end.waiting| <= spare)
    && (root in valid && Harmless(m, valid, root, stale) ==>
          (ok <==> AllReachable(m, valid, root)) && (ok ==> Arbor(m, sh.links, pi, sh.rank, root, valid)))
    && (root !in valid && valid != {} ==> end.waiting != {} && !Spans(m, valid, root, end.parent))
  }

  /**
   * `construct_tree` in iterative mode, for any non-negative scores of the trials, in any call: it attaches node by
   * node the first of the best candidates. reset_graph leaves the last node's flag alone; wherever that does no harm,
   * and the gateway is valid, the answer is a spanning arborescence of the valid nodes if and only if each of them is
   * reachable from the gateway through valid nodes. With a gateway that is not valid a node is left over, unless there
   * are none.
   */
  method ConstructIterativeTree(G: Graph, metric: Graph, tree: Graph, gatewayId: nat,
                                size: nat, score: (nat, nat, nat) -> real)
    returns (ok: bool, ghost sh: Shape, ghost picks: seq<Pick>)
    requires G.Valid() && metric.Valid() && tree.Valid() && metric.lh != tree.lh
    requires Apart(G, tree) && G.valid != tree.valid && G.valid != tree.S
    requires gatewayId + 1 < size <= MAX_NODES && forall v :: size <= v < MAX_NODES ==> !G.valid[v]
    requires tree.lh[0] == [] && (gatewayId + 2 == size ==> tree.pi[size - 1] != MAX_NODES)
    requires NonNegative(score)
    modifies tree.lh, tree.valid, tree.d, tree.pi, tree.ch, tree.L, tree.T, tree.piOutif, tree.piInif, tree.S
    modifies tree.gateway
    ensures var nodes, stale := ValidNodes(G.valid[..]), if old(tree.valid[size - 1]) then size - 1 else gatewayId + 1;
            var end := After(Start(nodes, gatewayId + 1, stale), picks);
            && Answered(metric.Adj(size), sh, tree.pi[..size], nodes, gatewayId + 1, stale, score, picks, ok)
            && (ok ==> Between(tree, metric.Adj(size), size, sh, gatewayId + 1, stale, end, end.flags))
    ensures metric.Adj(size) == old(metric.Adj(size)) && G.valid[..] == old(G.valid[..])
  {
    hide Between, Orderly, Waiting, ValidNodes, Uncounted, After, Start, Answered, Apart;
    ghost var m, nodes := metric.Adj(size), ValidNodes(G.valid[..]);
    var Q, numNodes;
    ghost var stale;
    Q, numNodes, stale := StartTree(G, tree, gatewayId + 1, size, m, nodes);
    assert metric.Adj(size) == m;
    ok, sh, picks := GrowAndAnswer(metric, tree, Q, numNodes, gatewayId + 1, size, score, stale, nodes);
  }

  /** The loop, and what its answer is worth. */
  method GrowAndAnswer(metric: Graph, tree: Graph, Q: array<bool>, start: int, root: nat, size: nat,
                       score: (nat, nat, nat) -> real, ghost stale: nat, ghost nodes: set<nat>)
    returns (ok: bool, ghost sh: Shape, ghost picks: seq<Pick>)
    requires metric.Valid() && tree.Valid() && metric.lh != tree.lh && 0 < root < size <= MAX_NODES
    requires Q.Length == size && Q != tree.valid && start == |Waiting(Q[..])| - Uncounted(nodes, root)
    requires var s := Start(nodes, root, stale);
             && Waiting(Q[..]) == s.waiting && Orderly(s, root, stale, size)
             && Between(tree, metric.Adj(size), size, StartShape(size, root), root, stale, s, s.flags)
    requires NonNegative(score)
    modifies Q, tree.lh, tree.valid, tree.pi, tree.ch, tree.L, tree.T
    ensures metric.Adj(size) == old(metric.Adj(size))
    ensures Answered(metric.Adj(size), sh, tree.pi[..size], nodes, root, stale, score, picks, ok)
    ensures var end := After(Start(nodes, root, stale), picks);
            ok ==> Between(tree, metric.Adj(size), size, sh, root, stale, end, end.flags)
  {
    hide Between, Orderly, Waiting, Uncounted, After, Start, Answered, Greedy;
    ghost var first := Start(nodes, root, stale);
    ok, sh, picks := GrowTree(metric, tree, Q, start, root, size, score, stale, first, Uncounted(nodes, root));
    BetweenGrove(tree, metric.Adj(size), size, sh, root, stale, After(first, picks), ok);
    RightAnswer(metric.Adj(size), sh, tree.pi[..size], nodes, root, stale, score, picks, ok);
  }

  lemma BetweenGrove(tree: Graph, m: Adjacency, size: nat, sh: Shape, root: nat, stale: nat, s: Stage, ok: bool)
    requires tree.Valid() && size <= MAX_NODES && (ok ==> Between(tree, m, size, sh, root, stale, s, s.flags))
    ensures ok ==> Grove(m, sh, tree.pi[..size], root, stale, s)
  {
  }

  lemma RightAnswer(m: Adjacency, sh: Shape, pi: seq<nat>, valid: set<nat>, root: nat,
                    stale: nat, score: (nat, nat, nat) -> real, picks: seq<Pick>, ok: bool)
    requires Greedy(m, Start(valid, root, stale), score, Uncounted(valid, root), picks)
    requires ok <==> |After(Start(valid, root, stale), picks).waiting| <= Uncounted(valid, root)
    requires ok ==> Grove(m, sh, pi, root, stale, After(Start(valid, root, stale), picks))
    ensures Answered(m, sh, pi, valid, root, stale, score, picks, ok)
  {
    hide Greedy, Harmless, AllReachable, Spans, Arbor, Ended, After, Grove;
    var s := After(Start(valid, root, stale), picks);
    if root in valid && Harmless(m, valid, root, stale) {
      GreedyIsRun(m, Start(valid, root, stale), score, 0, picks);
      RunSensible(m, valid, root, stale, picks);
      HarmlessRight(m, valid, root, stale, s);
      if ok {
        SpansArbor(m, sh, pi, root, stale, s, valid);
      }
    } else if root !in valid && valid != {} {
      InvalidGatewayMisses(m, valid, root, stale, score, picks);
    }
  }
}
