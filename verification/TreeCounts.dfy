/** Subtree sizes, link flows and the double counting behind mark_l_and_t, on values. */
module TreeCounts {
  import opened Graphs
  import opened ShortestPaths
  import opened TreeGraphs
  import opened Sums

  /** Predecessor chains of reached nodes stay reached and climb in rank. */
  ghost predicate Chains(x: Labels, root: nat, rank: seq<nat>) {
    && Shaped(x, |rank|) && root < |rank|
    && forall v :: 0 <= v < |rank| && x.d[v] < INFLEN && v != root ==>
                     x.pi[v] < |rank| && x.d[x.pi[v]] < INFLEN && rank[x.pi[v]] < rank[v]
  }

  /** v lies on w's predecessor chain (w itself included). */
  ghost predicate Above(x: Labels, root: nat, rank: seq<nat>, w: nat, v: nat)
    requires Chains(x, root, rank)
    decreases if w < |rank| then rank[w] else 0
  {
    w < |rank| && x.d[w] < INFLEN && (w == v || (w != root && Above(x, root, rank, x.pi[w], v)))
  }

  /** The nodes of the subtree below v, v included. */
  ghost function Subtree(x: Labels, root: nat, rank: seq<nat>, v: nat): set<nat>
    requires Chains(x, root, rank)
  {
    set w: nat | w < |rank| && Above(x, root, rank, w, v)
  }

  lemma {:induction false} AboveRank(x: Labels, root: nat, rank: seq<nat>, w: nat, v: nat)
    requires Chains(x, root, rank) && Above(x, root, rank, w, v)
    ensures v < |rank| && x.d[v] < INFLEN && rank[v] <= rank[w] && (rank[v] == rank[w] ==> v == w)
    decreases rank[w]
  {
    if w != v {
      AboveRank(x, root, rank, x.pi[w], v);
    }
  }

  /** c is a child of v in the tree. */
  ghost predicate Child(x: Labels, root: nat, c: nat, v: nat) {
    c < |x.d| && |x.pi| == |x.d| && x.d[c] < INFLEN && c != root && x.pi[c] == v
  }

  /** Everything properly below v is below exactly one of v's children. */
  lemma {:induction false} AboveChild(x: Labels, root: nat, rank: seq<nat>, w: nat, v: nat) returns (c: nat)
    requires Chains(x, root, rank) && Above(x, root, rank, w, v) && w != v
    ensures Child(x, root, c, v) && Above(x, root, rank, w, c)
    decreases rank[w]
  {
    if x.pi[w] == v {
      c := w;
    } else {
      c := AboveChild(x, root, rank, x.pi[w], v);
    }
  }

  lemma {:induction false} ChildAbove(x: Labels, root: nat, rank: seq<nat>, w: nat, c: nat, v: nat)
    requires Chains(x, root, rank) && Child(x, root, c, v) && Above(x, root, rank, w, c)
    ensures Above(x, root, rank, w, v) && w != v
    decreases rank[w]
  {
    AboveRank(x, root, rank, w, c);
    if w != c {
      ChildAbove(x, root, rank, x.pi[w], c, v);
    } else {
      assert Above(x, root, rank, v, v);
    }
  }

  lemma {:induction false} OneChild(x: Labels, root: nat, rank: seq<nat>, w: nat, b: nat, c: nat, v: nat)
    requires Chains(x, root, rank) && Child(x, root, b, v) && Child(x, root, c, v)
    requires Above(x, root, rank, w, b) && Above(x, root, rank, w, c)
    ensures b == c
    decreases rank[w]
  {
    if w == b && w != c {
      AboveRank(x, root, rank, x.pi[w], c);
    } else if w == c && w != b {
      AboveRank(x, root, rank, x.pi[w], b);
    } else if w != b {
      OneChild(x, root, rank, x.pi[w], b, c, v);
    }
  }

  // ---------- sizes as sums ----------

  ghost function AboveTest(x: Labels, root: nat, rank: seq<nat>, v: nat): nat -> bool
    requires Chains(x, root, rank)
  {
    (w: nat) => w < |rank| && Above(x, root, rank, w, v)
  }

  ghost function Weight(x: Labels, root: nat, rank: seq<nat>, v: nat): real
    requires Chains(x, root, rank)
  {
    Sum(Indicator(AboveTest(x, root, rank, v)), |rank|)
  }

  lemma WeightIsSize(x: Labels, root: nat, rank: seq<nat>, v: nat)
    requires Chains(x, root, rank)
    ensures Weight(x, root, rank, v) == |Subtree(x, root, rank, v)| as real
  {
    CountIsSum(AboveTest(x, root, rank, v), |rank|);
    assert Sums.Below(AboveTest(x, root, rank, v), |rank|) == Subtree(x, root, rank, v);
  }

  /** c is the child of v whose subtree holds w. */
  ghost predicate Through(x: Labels, root: nat, rank: seq<nat>, v: nat, c: nat, w: nat)
    requires Chains(x, root, rank)
  {
    Child(x, root, c, v) && AboveTest(x, root, rank, c)(w)
  }

  ghost function ChildGrid(x: Labels, root: nat, rank: seq<nat>, v: nat): (nat, nat) -> real
    requires Chains(x, root, rank)
  {
    (c: nat, w: nat) => if Through(x, root, rank, v, c, w) then 1.0 else 0.0
  }

  ghost function ChildWeights(x: Labels, root: nat, rank: seq<nat>, v: nat): nat -> real
    requires Chains(x, root, rank)
  {
    (c: nat) => if Child(x, root, c, v) then Weight(x, root, rank, c) else 0.0
  }

  lemma ThroughExact(x: Labels, root: nat, rank: seq<nat>, v: nat, w: nat) returns (c: nat)
    requires Chains(x, root, rank) && w < |rank|
    ensures AboveTest(x, root, rank, v)(w) && w != v ==> c < |rank| && Through(x, root, rank, v, c, w)
    ensures forall i: nat :: Through(x, root, rank, v, i, w) ==> i == c && AboveTest(x, root, rank, v)(w) && w != v
  {
    c := 0;
    if Above(x, root, rank, w, v) && w != v {
      c := AboveChild(x, root, rank, w, v);
    }
    forall i: nat | Through(x, root, rank, v, i, w)
      ensures i == c && Above(x, root, rank, w, v) && w != v
    {
      ChildAbove(x, root, rank, w, i, v);
      OneChild(x, root, rank, w, i, c, v);
    }
  }

  lemma ChildColumn(x: Labels, root: nat, rank: seq<nat>, v: nat, w: nat)
    requires Chains(x, root, rank) && w < |rank|
    ensures Sum(Column(ChildGrid(x, root, rank, v), w), |rank|)
         == if AboveTest(x, root, rank, v)(w) && w != v then 1.0 else 0.0
  {
    hide Chains, Through;
    var col := Column(ChildGrid(x, root, rank, v), w);
    var zero := (i: nat) => 0.0;
    SumZero(zero, |rank|);
    var c := ThroughExact(x, root, rank, v, w);
    if AboveTest(x, root, rank, v)(w) && w != v {
      SumPoint(col, zero, |rank|, c);
    } else {
      SumZero(col, |rank|);
    }
  }

  /** A reached node's subtree is itself and its children's subtrees. */
  lemma WeightOfChildren(x: Labels, root: nat, rank: seq<nat>, v: nat)
    requires Chains(x, root, rank) && v < |rank| && x.d[v] < INFLEN
    ensures Weight(x, root, rank, v) == 1.0 + Sum(ChildWeights(x, root, rank, v), |rank|)
  {
    var n, grid := |rank|, ChildGrid(x, root, rank, v);
    forall c: nat | c < n
      ensures RowSums(grid, n)(c) == ChildWeights(x, root, rank, v)(c)
    {
      if Child(x, root, c, v) {
        SumSame(Row(grid, c), Indicator(AboveTest(x, root, rank, c)), n);
      } else {
        SumZero(Row(grid, c), n);
      }
    }
    SumSame(RowSums(grid, n), ChildWeights(x, root, rank, v), n);
    SumSwap(grid, n, n);
    forall w: nat | w < n
      ensures ColumnSums(grid, n)(w) == if AboveTest(x, root, rank, v)(w) && w != v then 1.0 else 0.0
    {
      ChildColumn(x, root, rank, v, w);
    }
    assert AboveTest(x, root, rank, v)(v);
    SumPoint(Indicator(AboveTest(x, root, rank, v)), ColumnSums(grid, n), n, v);
  }

  // ---------- distances as sums ----------

  /** The label's increase along the link into v. */
  ghost function StepCost(x: Labels, v: nat): real {
    if v < |x.d| == |x.pi| && x.pi[v] < |x.d| then x.d[v] - x.d[x.pi[v]] else 0.0
  }

  /** The cost of the link into v, where v lies on w's root path. */
  ghost function PathGrid(x: Labels, root: nat, rank: seq<nat>): (nat, nat) -> real
    requires Chains(x, root, rank)
  {
    (w: nat, v: nat) => if v != root && AboveTest(x, root, rank, v)(w) then StepCost(x, v) else 0.0
  }

  ghost function Distances(x: Labels): nat -> real {
    (w: nat) => if Reached(x, w) then x.d[w] else 0.0
  }

  /** The chain of a reached node is itself in front of its predecessor's chain; the root's is just the root. */
  lemma ChainStep(x: Labels, root: nat, rank: seq<nat>, w: nat, v: nat)
    requires Chains(x, root, rank) && w < |rank|
    ensures var on := AboveTest(x, root, rank, v)(w);
            && (x.d[w] >= INFLEN ==> !on)
            && (x.d[w] < INFLEN && w == root ==> (on <==> v == root))
            && (x.d[w] < INFLEN && w != root ==>
                  && x.pi[w] < |rank| && rank[x.pi[w]] < rank[w]
                  && (v == w ==> on && !AboveTest(x, root, rank, v)(x.pi[w]))
                  && (v != w ==> (on <==> AboveTest(x, root, rank, v)(x.pi[w]))))
  {
    if x.d[w] < INFLEN && w != root && Above(x, root, rank, x.pi[w], w) {
      AboveRank(x, root, rank, x.pi[w], w);
    }
  }

  lemma {:induction false} DistanceIsChain(x: Labels, root: nat, rank: seq<nat>, w: nat)
    requires Chains(x, root, rank) && |rank| == |x.d| && x.d[root] == 0.0 && w < |rank|
    ensures Sum(Row(PathGrid(x, root, rank), w), |rank|) == Distances(x)(w)
    decreases rank[w]
  {
    hide Above, AboveTest;
    var row := Row(PathGrid(x, root, rank), w);
    forall v: nat
      ensures x.d[w] >= INFLEN || w == root ==> row(v) == 0.0
    {
      ChainStep(x, root, rank, w, v);
    }
    if x.d[w] >= INFLEN || w == root {
      SumZero(row, |rank|);
    } else {
      var u := x.pi[w];
      DistanceIsChain(x, root, rank, u);
      var up := Row(PathGrid(x, root, rank), u);
      forall v: nat
        ensures if v == w then row(v) == StepCost(x, w) && up(v) == 0.0 else row(v) == up(v)
      {
        ChainStep(x, root, rank, w, v);
      }
      SumPoint(row, up, |rank|, w);
    }
  }

  function Times(a: real, b: real): real {
    a * b
  }

  /** Subtree weight times the cost of the link into the subtree. */
  ghost function WeightedSteps(x: Labels, root: nat, rank: seq<nat>): nat -> real
    requires Chains(x, root, rank)
  {
    (v: nat) => if v != root && Reached(x, v) then Times(Weight(x, root, rank, v), StepCost(x, v)) else 0.0
  }

  /** Double counting: all distances together are all links, each weighted by the subtree below it. */
  lemma DistancesByLinks(x: Labels, root: nat, rank: seq<nat>)
    requires Chains(x, root, rank) && x.d[root] == 0.0
    ensures Sum(Distances(x), |rank|) == Sum(WeightedSteps(x, root, rank), |rank|)
  {
    var n, grid := |rank|, PathGrid(x, root, rank);
    forall w: nat | w < n
      ensures RowSums(grid, n)(w) == Distances(x)(w)
    {
      DistanceIsChain(x, root, rank, w);
    }
    SumSame(RowSums(grid, n), Distances(x), n);
    SumSwap(grid, n, n);
    forall v: nat | v < n
      ensures ColumnSums(grid, n)(v) == WeightedSteps(x, root, rank)(v)
    {
      PathColumn(x, root, rank, v);
    }
    SumSame(ColumnSums(grid, n), WeightedSteps(x, root, rank), n);
  }

  /** Nothing hangs below a node that was not reached. */
  lemma UnreachedEmpty(x: Labels, root: nat, rank: seq<nat>, v: nat, w: nat)
    requires Chains(x, root, rank) && !Reached(x, v)
    ensures !AboveTest(x, root, rank, v)(w)
  {
    if w < |rank| && Above(x, root, rank, w, v) {
      AboveRank(x, root, rank, w, v);
    }
  }

  lemma PathColumn(x: Labels, root: nat, rank: seq<nat>, v: nat)
    requires Chains(x, root, rank) && v < |rank|
    ensures Sum(Column(PathGrid(x, root, rank), v), |rank|) == WeightedSteps(x, root, rank)(v)
  {
    hide Above, AboveTest, Chains;
    var col := Column(PathGrid(x, root, rank), v);
    if v != root && Reached(x, v) {
      SumScaled(Indicator(AboveTest(x, root, rank, v)), col, StepCost(x, v), |rank|);
    } else {
      forall w: nat | w < |rank|
        ensures col(w) == 0.0
      {
        if v != root {
          UnreachedEmpty(x, root, rank, v, w);
        }
      }
      SumZero(col, |rank|);
    }
  }

  // ---------- sums over link lists ----------

  /** Sum of g over the targets of a link list. */
  ghost function ListSum(links: seq<Link>, g: nat -> real): real {
    if links == [] then 0.0 else g(links[0].dst) + ListSum(links[1..], g)
  }

  ghost predicate Leads(links: seq<Link>, c: nat) {
    exists l :: l in links && l.dst == c
  }

  ghost function Targets(links: seq<Link>, g: nat -> real): nat -> real {
    (c: nat) => if Leads(links, c) then g(c) else 0.0
  }

  /** No two links of the list lead to the same node. */
  ghost predicate DistinctTargets(links: seq<Link>) {
    forall i, j :: 0 <= i < j < |links| ==> links[i].dst != links[j].dst
  }

  lemma {:induction false} ListSumByNode(links: seq<Link>, g: nat -> real, n: nat)
    requires DistinctTargets(links) && forall l :: l in links ==> l.dst < n
    ensures ListSum(links, g) == Sum(Targets(links, g), n)
  {
    if links == [] {
      assert forall c: nat :: !Leads(links, c);
      SumZero(Targets(links, g), n);
    } else {
      var l, rest := links[0], links[1..];
      ListSumByNode(rest, g, n);
      assert !Leads(rest, l.dst);
      assert forall c: nat :: c != l.dst ==> (Leads(links, c) <==> Leads(rest, c)) by {
        assert links == [l] + rest;
      }
      assert l in links;
      SumPoint(Targets(links, g), Targets(rest, g), n, l.dst);
    }
  }

  // ---------- count_children ----------

  /** One above the largest rank. */
  function Top(rank: seq<nat>): (t: nat)
    ensures forall i :: 0 <= i < |rank| ==> rank[i] < t
  {
    if rank == [] then 0
    else
      var rest := Top(rank[1..]);
      assert forall i :: 1 <= i < |rank| ==> rank[i] == rank[1..][i - 1];
      if rank[0] < rest then rest else rank[0] + 1
  }

  /** Links lead to nodes of higher rank, so counting down the tree ends. */
  ghost predicate Climbs(tree: Adjacency, rank: seq<nat>) {
    && |tree| == |rank|
    && forall u, l :: 0 <= u < |tree| && l in tree[u] ==> l.dst < |tree| && rank[u] < rank[l.dst]
  }

  /** `count_children`: a child counts one, and what it counts itself. */
  ghost function Count(tree: Adjacency, rank: seq<nat>, v: nat): nat
    requires Climbs(tree, rank) && v < |tree|
    decreases Top(rank) - rank[v], |tree[v]| + 1
  {
    CountList(tree, rank, v, tree[v])
  }

  ghost function CountList(tree: Adjacency, rank: seq<nat>, v: nat, links: seq<Link>): nat
    requires Climbs(tree, rank) && v < |tree| && |links| <= |tree[v]| && forall l :: l in links ==> l in tree[v]
    decreases Top(rank) - rank[v], |links|
  {
    if links == [] then 0
    else 1 + Count(tree, rank, links[0].dst) + CountList(tree, rank, v, links[1..])
  }

  ghost function Weights(x: Labels, root: nat, rank: seq<nat>): nat -> real
    requires Chains(x, root, rank)
  {
    (c: nat) => Weight(x, root, rank, c)
  }

  /** What the counting theorems need of a tree and its labels. */
  ghost predicate Counted(metric: Adjacency, root: nat, x: Labels, rank: seq<nat>, tree: Adjacency) {
    && IsTree(metric, root, x, tree) && Chains(x, root, rank) && |tree| == |rank| && x.d[root] == 0.0
    && forall v :: 0 <= v < |rank| && x.d[v] < INFLEN && v != root ==>
                     InLink(metric, x, v).dst == v && InLink(metric, x, v).cost == x.d[v] - x.d[x.pi[v]]
  }

  lemma ReadyCounted(g: Adjacency, metric: Adjacency, root: nat, x: Labels, rank: seq<nat>, tree: Adjacency)
    requires Ready(g, metric, root, x, rank) && IsTree(metric, root, x, tree)
    ensures Counted(metric, root, x, rank, tree)
  {
    hide IsTree;
    forall v | 0 <= v < |rank| && x.d[v] < INFLEN && v != root
      ensures x.pi[v] < |rank| && x.d[x.pi[v]] < INFLEN && rank[x.pi[v]] < rank[v]
      ensures InLink(metric, x, v).dst == v && InLink(metric, x, v).cost == x.d[v] - x.d[x.pi[v]]
    {
      InLinkFound(g, metric, root, x, rank, v);
    }
    TreeLength(metric, root, x, tree);
  }

  lemma TreeLength(metric: Adjacency, root: nat, x: Labels, tree: Adjacency)
    requires IsTree(metric, root, x, tree)
    ensures |tree| == |metric| == |x.d|
  {
  }

  /** The links of v lead to exactly its children, each once. */
  lemma LinksAreChildren(metric: Adjacency, root: nat, x: Labels, rank: seq<nat>, tree: Adjacency, v: nat)
    requires Counted(metric, root, x, rank, tree) && v < |tree|
    ensures DistinctTargets(tree[v])
    ensures forall l :: l in tree[v] ==> Child(x, root, l.dst, v) && l.dst < |tree| && rank[v] < rank[l.dst]
                                         && l.cost == StepCost(x, l.dst)
    ensures forall c: nat :: Leads(tree[v], c) <==> Child(x, root, c, v)
  {
    forall l | l in tree[v]
      ensures Child(x, root, l.dst, v) && l.cost == StepCost(x, l.dst)
    {
      assert l.dst in ReachedNodes(x, root);
    }
    forall c: nat | Child(x, root, c, v)
      ensures Leads(tree[v], c)
    {
      assert c in ReachedNodes(x, root);
      assert InLink(metric, x, c) in tree[v];
    }
    forall i, j | 0 <= i < j < |tree[v]|
      ensures tree[v][i].dst != tree[v][j].dst
    {
      if tree[v][i].dst == tree[v][j].dst {
        OneInLink(metric, root, x, tree, v, i, v, j);
      }
    }
  }

  lemma TreeClimbs(metric: Adjacency, root: nat, x: Labels, rank: seq<nat>, tree: Adjacency)
    requires Counted(metric, root, x, rank, tree)
    ensures Climbs(tree, rank)
  {
    forall u, l | 0 <= u < |tree| && l in tree[u]
      ensures l.dst < |tree| && rank[u] < rank[l.dst]
    {
      LinksAreChildren(metric, root, x, rank, tree, u);
    }
  }

  lemma {:induction false} CountIsWeight(metric: Adjacency, root: nat, x: Labels,
                                         rank: seq<nat>, tree: Adjacency, v: nat)
    requires Counted(metric, root, x, rank, tree) && Climbs(tree, rank) && v < |tree| && x.d[v] < INFLEN
    ensures (Count(tree, rank, v) + 1) as real == Weight(x, root, rank, v)
    decreases Top(rank) - rank[v], |tree[v]| + 1
  {
    var n := |rank|;
    LinksAreChildren(metric, root, x, rank, tree, v);
    CountListIsSum(metric, root, x, rank, tree, v, tree[v]);
    ListSumByNode(tree[v], Weights(x, root, rank), n);
    SumSame(Targets(tree[v], Weights(x, root, rank)), ChildWeights(x, root, rank, v), n);
    WeightOfChildren(x, root, rank, v);
  }

  lemma {:induction false} CountListIsSum(metric: Adjacency, root: nat, x: Labels, rank: seq<nat>,
                                          tree: Adjacency, v: nat, links: seq<Link>)
    requires Counted(metric, root, x, rank, tree) && Climbs(tree, rank) && v < |tree|
    requires |links| <= |tree[v]| && forall l :: l in links ==> l in tree[v]
    ensures CountList(tree, rank, v, links) as real == ListSum(links, Weights(x, root, rank))
    decreases Top(rank) - rank[v], |links|
  {
    if links != [] {
      LinksAreChildren(metric, root, x, rank, tree, v);
      assert links[0] in tree[v];
      CountIsWeight(metric, root, x, rank, tree, links[0].dst);
      CountListIsSum(metric, root, x, rank, tree, v, links[1..]);
    }
  }

  /** `count_children` counts the proper descendants. */
  lemma CountIsDescendants(metric: Adjacency, root: nat, x: Labels, rank: seq<nat>, tree: Adjacency, v: nat)
    requires Counted(metric, root, x, rank, tree) && Climbs(tree, rank) && v < |tree| && x.d[v] < INFLEN
    ensures v in Subtree(x, root, rank, v)
    ensures Count(tree, rank, v) == |Subtree(x, root, rank, v) - {v}|
  {
    CountIsWeight(metric, root, x, rank, tree, v);
    WeightIsSize(x, root, rank, v);
    assert |Subtree(x, root, rank, v)| == Count(tree, rank, v) + 1;
    assert |Subtree(x, root, rank, v) - {v}| == |Subtree(x, root, rank, v)| - 1;
  }

  // ---------- flows, L and T ----------

  /** L of a node: the flow over its links. */
  function FlowSum(links: seq<Link>): nat {
    if links == [] then 0 else links[0].flow + FlowSum(links[1..])
  }

  /** T of a node: the flow over its links, each weighted by the link's cost. */
  function LoadSum(links: seq<Link>): real {
    if links == [] then 0.0 else Times(links[0].flow as real, links[0].cost) + LoadSum(links[1..])
  }

  /** The tree with every link's flow set by count_children. */
  ghost predicate Flowing(tree: Adjacency, rank: seq<nat>, marked: Adjacency)
    requires Climbs(tree, rank)
  {
    && |marked| == |tree|
    && forall u :: 0 <= u < |tree| ==> FlowingList(tree, rank, u, tree[u], marked[u])
  }

  ghost predicate FlowingList(tree: Adjacency, rank: seq<nat>, u: nat, links: seq<Link>, marked: seq<Link>)
    requires Climbs(tree, rank) && u < |tree| && forall l :: l in links ==> l in tree[u]
  {
    && |marked| == |links|
    && forall k :: 0 <= k < |links| ==>
                     (assert links[k] in links; marked[k] == links[k].(flow := Count(tree, rank, links[k].dst) + 1))
  }

  /** A link's flow is the size of the subtree below it. */
  lemma FlowIsSubtree(metric: Adjacency, root: nat, x: Labels, rank: seq<nat>,
                      tree: Adjacency, marked: Adjacency, u: nat, k: nat)
    requires Counted(metric, root, x, rank, tree) && Climbs(tree, rank) && Flowing(tree, rank, marked)
    requires u < |tree| && k < |tree[u]|
    ensures |marked| == |tree| && |marked[u]| == |tree[u]| && marked[u][k].dst == tree[u][k].dst
    ensures marked[u][k].flow == |Subtree(x, root, rank, tree[u][k].dst)|
  {
    assert FlowingList(tree, rank, u, tree[u], marked[u]);
    assert tree[u][k] in tree[u];
    var v := tree[u][k].dst;
    LinksAreChildren(metric, root, x, rank, tree, u);
    CountIsWeight(metric, root, x, rank, tree, v);
    WeightIsSize(x, root, rank, v);
  }

  lemma {:induction false} FlowSumIsCount(tree: Adjacency, rank: seq<nat>, v: nat, links: seq<Link>, marked: seq<Link>)
    requires Climbs(tree, rank) && v < |tree| && |links| <= |tree[v]| && forall l :: l in links ==> l in tree[v]
    requires FlowingList(tree, rank, v, links, marked)
    ensures FlowSum(marked) == CountList(tree, rank, v, links)
    decreases |links|
  {
    if links != [] {
      assert FlowingList(tree, rank, v, links[1..], marked[1..]);
      FlowSumIsCount(tree, rank, v, links[1..], marked[1..]);
    }
  }

  /** L[v] is ch[v]: both count the proper descendants of v. */
  lemma LIsDescendants(metric: Adjacency, root: nat, x: Labels, rank: seq<nat>,
                       tree: Adjacency, marked: Adjacency, v: nat)
    requires Counted(metric, root, x, rank, tree) && Climbs(tree, rank) && Flowing(tree, rank, marked)
    requires v < |tree| && x.d[v] < INFLEN
    ensures |marked| == |tree| && FlowSum(marked[v]) == Count(tree, rank, v) == |Subtree(x, root, rank, v) - {v}|
  {
    FlowSumIsCount(tree, rank, v, tree[v], marked[v]);
    CountIsDescendants(metric, root, x, rank, tree, v);
  }

  ghost function Loads(marked: Adjacency): nat -> real {
    (v: nat) => if v < |marked| then LoadSum(marked[v]) else 0.0
  }

  /** Weighted step of each child of v. */
  ghost function ChildSteps(x: Labels, root: nat, rank: seq<nat>, v: nat): nat -> real
    requires Chains(x, root, rank)
  {
    (c: nat) => if Child(x, root, c, v) then WeightedSteps(x, root, rank)(c) else 0.0
  }

  lemma LinkLoad(metric: Adjacency, root: nat, x: Labels, rank: seq<nat>, tree: Adjacency, v: nat, l: Link, flow: nat)
    requires Counted(metric, root, x, rank, tree) && Climbs(tree, rank) && v < |tree| && l in tree[v]
    requires flow == Count(tree, rank, l.dst) + 1
    ensures Times(flow as real, l.cost) == WeightedSteps(x, root, rank)(l.dst)
  {
    hide Weight, StepCost, Count, Above, WeightedSteps, Times;
    LinksAreChildren(metric, root, x, rank, tree, v);
    CountIsWeight(metric, root, x, rank, tree, l.dst);
    assert l.cost == StepCost(x, l.dst) && l.dst != root && Reached(x, l.dst);
    WeightedStep(x, root, rank, l.dst, flow as real, l.cost);
  }

  lemma WeightedStep(x: Labels, root: nat, rank: seq<nat>, v: nat, weight: real, cost: real)
    requires Chains(x, root, rank) && v != root && Reached(x, v)
    requires weight == Weight(x, root, rank, v) && cost == StepCost(x, v)
    ensures WeightedSteps(x, root, rank)(v) == Times(weight, cost)
  {
    hide Weight, StepCost, Chains, Times;
  }

  lemma {:induction false} LoadIsList(metric: Adjacency, root: nat, x: Labels, rank: seq<nat>,
                                      tree: Adjacency, v: nat, links: seq<Link>, marked: seq<Link>)
    requires Counted(metric, root, x, rank, tree) && Climbs(tree, rank) && v < |tree|
    requires (forall l :: l in links ==> l in tree[v]) && FlowingList(tree, rank, v, links, marked)
    ensures LoadSum(marked) == ListSum(links, WeightedSteps(x, root, rank))
    decreases |links|
  {
    hide Counted, Count, WeightedSteps, Chains, Times;
    if links != [] {
      assert links[0] in tree[v];
      assert marked[0] == links[0].(flow := Count(tree, rank, links[0].dst) + 1);
      LinkLoad(metric, root, x, rank, tree, v, links[0], marked[0].flow);
      assert FlowingList(tree, rank, v, links[1..], marked[1..]);
      LoadIsList(metric, root, x, rank, tree, v, links[1..], marked[1..]);
    }
  }

  lemma LoadIsChildSteps(metric: Adjacency, root: nat, x: Labels, rank: seq<nat>,
                         tree: Adjacency, marked: Adjacency, v: nat)
    requires Counted(metric, root, x, rank, tree) && Climbs(tree, rank) && Flowing(tree, rank, marked) && v < |rank|
    ensures Loads(marked)(v) == Sum(ChildSteps(x, root, rank, v), |rank|)
  {
    LinksAreChildren(metric, root, x, rank, tree, v);
    LoadIsList(metric, root, x, rank, tree, v, tree[v], marked[v]);
    ListSumByNode(tree[v], WeightedSteps(x, root, rank), |rank|);
    SumSame(Targets(tree[v], WeightedSteps(x, root, rank)), ChildSteps(x, root, rank, v), |rank|);
  }

  ghost function ParentGrid(x: Labels, root: nat, rank: seq<nat>): (nat, nat) -> real
    requires Chains(x, root, rank)
  {
    (v: nat, c: nat) => ChildSteps(x, root, rank, v)(c)
  }

  lemma ParentColumn(x: Labels, root: nat, rank: seq<nat>, c: nat)
    requires Chains(x, root, rank) && |rank| == |x.d| && c < |rank|
    ensures Sum(Column(ParentGrid(x, root, rank), c), |rank|) == WeightedSteps(x, root, rank)(c)
  {
    hide Weight;
    var col := Column(ParentGrid(x, root, rank), c);
    forall v: nat
      ensures col(v) == if Child(x, root, c, v) then WeightedSteps(x, root, rank)(c) else 0.0
    {
      assert ChildSteps(x, root, rank, v)(c) == if Child(x, root, c, v) then WeightedSteps(x, root, rank)(c) else 0.0;
    }
    if c != root && x.d[c] < INFLEN {
      var zero := (i: nat) => 0.0;
      SumZero(zero, |rank|);
      assert forall v: nat :: Child(x, root, c, v) <==> v == x.pi[c];
      SumPoint(col, zero, |rank|, x.pi[c]);
    } else {
      assert forall v: nat :: !Child(x, root, c, v);
      SumZero(col, |rank|);
    }
  }

  /** The accounting identity: T summed over all nodes is the sum of all shortest distances. */
  lemma TotalLoadIsTotalDistance(metric: Adjacency, root: nat, x: Labels,
                                 rank: seq<nat>, tree: Adjacency, marked: Adjacency)
    requires Counted(metric, root, x, rank, tree) && Climbs(tree, rank) && Flowing(tree, rank, marked)
    ensures Sum(Loads(marked), |rank|) == Sum(Distances(x), |rank|)
  {
    var n, grid := |rank|, ParentGrid(x, root, rank);
    TreeLength(metric, root, x, tree);
    forall v: nat | v < n
      ensures Loads(marked)(v) == RowSums(grid, n)(v)
    {
      LoadIsChildSteps(metric, root, x, rank, tree, marked, v);
      SumSame(Row(grid, v), ChildSteps(x, root, rank, v), n);
    }
    SumSame(Loads(marked), RowSums(grid, n), n);
    SumSwap(grid, n, n);
    forall c: nat | c < n
      ensures ColumnSums(grid, n)(c) == WeightedSteps(x, root, rank)(c)
    {
      ParentColumn(x, root, rank, c);
    }
    SumSame(ColumnSums(grid, n), WeightedSteps(x, root, rank), n);
    DistancesByLinks(x, root, rank);
  }
}
