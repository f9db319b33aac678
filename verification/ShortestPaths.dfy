/** Dijkstra's algorithm as the loops of `dijkstra` compute it, on values. */
module ShortestPaths {
  import opened Graphs

  /** The arrays d, pi, pi_outif, pi_inif and S. */
  datatype Labels = Labels(d: seq<real>, pi: seq<nat>, outif: seq<int>, inif: seq<int>, S: seq<bool>)

  ghost predicate Shaped(x: Labels, n: nat) {
    |x.d| == |x.pi| == |x.outif| == |x.inif| == |x.S| == n
  }

  /** `init_single_source`. */
  function Initial(s: nat, n: nat): (x: Labels)
    requires s < n
    ensures Shaped(x, n)
  {
    Labels(seq(n, _ => INFLEN)[s := 0.0], seq(n, _ => NIL), seq(n, _ => NIL), seq(n, _ => NIL), seq(n, _ => false))
  }

  /** `relax` along one link of u. */
  function Relax(x: Labels, u: nat, l: Link): (y: Labels)
    requires Shaped(x, |x.d|) && u < |x.d| && l.dst < |x.d|
    ensures Shaped(y, |x.d|)
  {
    if x.d[l.dst] > x.d[u] + l.cost then
      Labels(x.d[l.dst := x.d[u] + l.cost], x.pi[l.dst := u], x.outif[l.dst := l.outif], x.inif[l.dst := l.inif], x.S)
    else x
  }

  /** The inner loop: relax the links of u that lead to unsettled nodes. */
  function RelaxFrom(x: Labels, u: nat, links: seq<Link>): (y: Labels)
    requires Shaped(x, |x.d|) && u < |x.d| && forall l :: l in links ==> l.dst < |x.d|
    ensures Shaped(y, |x.d|)
    decreases |links|
  {
    if links == [] then x
    else RelaxFrom(if x.S[links[0].dst] then x else Relax(x, u, links[0]), u, links[1..])
  }

  /** `extract_min_q` over the nodes below n: the first unsettled node of least label below INFLEN. */
  function ExtractMin(x: Labels, n: nat): (r: Option<nat>)
    requires Shaped(x, |x.d|) && n <= |x.d|
    ensures r.Some? ==> r.value < n && !x.S[r.value] && x.d[r.value] < INFLEN
    ensures r.Some? ==> forall v :: 0 <= v < n && !x.S[v] ==> x.d[r.value] <= x.d[v]
    ensures r.None? ==> forall v :: 0 <= v < n && !x.S[v] ==> x.d[v] >= INFLEN
  {
    if n == 0 then None
    else
      var best := ExtractMin(x, n - 1);
      if !x.S[n - 1] && x.d[n - 1] < INFLEN && (best.None? || x.d[n - 1] < x.d[best.value]) then Some(n - 1) else best
  }

  /** Among equal labels the first node is taken. */
  lemma {:induction false} ExtractMinFirst(x: Labels, n: nat, v: nat)
    requires Shaped(x, |x.d|) && n <= |x.d| && ExtractMin(x, n).Some?
    ensures v < ExtractMin(x, n).value && !x.S[v] ==> x.d[ExtractMin(x, n).value] < x.d[v]
  {
    if n > 0 && ExtractMin(x, n) == ExtractMin(x, n - 1) {
      ExtractMinFirst(x, n - 1, v);
    }
  }

  function Unsettled(S: seq<bool>): nat {
    if S == [] then 0 else (if S[0] then 0 else 1) + Unsettled(S[1..])
  }

  lemma {:induction false} SettlingShrinks(S: seq<bool>, u: nat)
    requires u < |S| && !S[u]
    ensures Unsettled(S[u := true]) < Unsettled(S)
  {
    if u > 0 {
      SettlingShrinks(S[1..], u - 1);
      assert S[u := true][1..] == S[1..][u - 1 := true];
    } else {
      assert S[u := true][1..] == S[1..];
    }
  }

  lemma {:induction false} RelaxKeepsS(x: Labels, u: nat, links: seq<Link>)
    requires Shaped(x, |x.d|) && u < |x.d| && forall l :: l in links ==> l.dst < |x.d|
    ensures RelaxFrom(x, u, links).S == x.S
    decreases |links|
  {
    if links != [] {
      RelaxKeepsS(if x.S[links[0].dst] then x else Relax(x, u, links[0]), u, links[1..]);
    }
  }

  /** Settle u and relax its links. */
  function Settle(adj: Adjacency, x: Labels, u: nat): (y: Labels)
    requires Sound(adj) && Shaped(x, |adj|) && u < |adj|
    ensures Shaped(y, |adj|)
  {
    RelaxFrom(x.(S := x.S[u := true]), u, adj[u])
  }

  /** The main loop: every round settles one more node, so it ends. */
  function Search(adj: Adjacency, x: Labels): (y: Labels)
    requires Sound(adj) && Shaped(x, |adj|)
    ensures Shaped(y, |adj|)
    decreases Unsettled(x.S)
  {
    var u := ExtractMin(x, |adj|);
    if u.None? then x
    else
      SettlingShrinks(x.S, u.value);
      RelaxKeepsS(x.(S := x.S[u.value := true]), u.value, adj[u.value]);
      Search(adj, Settle(adj, x, u.value))
  }

  /** `dijkstra`. */
  function Dijkstra(adj: Adjacency, s: nat): (y: Labels)
    requires Sound(adj) && s < |adj|
    ensures Shaped(y, |adj|)
  {
    Search(adj, Initial(s, |adj|))
  }

  // ---------- the invariant ----------

  ghost predicate Bounded(x: Labels, s: nat) {
    && s < |x.d| && x.d[s] == 0.0 && |x.pi| == |x.d| && x.pi[s] == NIL
    && forall v :: 0 <= v < |x.d| ==> 0.0 <= x.d[v] <= INFLEN
  }

  /** Settled labels are at most unsettled ones. */
  ghost predicate Frontier(x: Labels) {
    && |x.S| == |x.d|
    && forall u, v :: 0 <= u < |x.d| && 0 <= v < |x.d| && x.S[u] && !x.S[v] ==> x.d[u] <= x.d[v]
  }

  /** The first k links of u can no longer improve a label. */
  ghost predicate RelaxedUpTo(adj: Adjacency, x: Labels, u: nat, k: nat) {
    && u < |adj| == |x.d| && k <= |adj[u]|
    && forall i :: 0 <= i < k ==> adj[u][i].dst < |x.d| && x.d[adj[u][i].dst] <= x.d[u] + adj[u][i].cost
  }

  ghost predicate RelaxedExcept(adj: Adjacency, x: Labels, e: nat) {
    && |x.S| == |x.d| == |adj|
    && forall u :: 0 <= u < |adj| && x.S[u] && u != e ==> RelaxedUpTo(adj, x, u, |adj[u]|)
  }

  /** v's predecessor is settled, and the recorded link from it accounts for v's label. */
  ghost predicate Explained(adj: Adjacency, x: Labels, v: nat) {
    && v < |x.d| == |adj| && Shaped(x, |x.d|)
    && x.pi[v] < |adj| && x.S[x.pi[v]]
    && exists l :: l in adj[x.pi[v]] && l.Is(v, x.outif[v], x.inif[v]) && x.d[v] == x.d[x.pi[v]] + l.cost
  }

  ghost predicate AllExplained(adj: Adjacency, x: Labels, s: nat) {
    forall v :: 0 <= v < |x.d| && v != s && x.d[v] < INFLEN ==> Explained(adj, x, v)
  }

  /** rank numbers the settled nodes in settling order, below t: each but the source comes after its predecessor. */
  ghost predicate Ranked(x: Labels, s: nat, rank: seq<nat>, t: nat) {
    && Shaped(x, |rank|)
    && forall v :: 0 <= v < |rank| && x.S[v] ==>
                     && rank[v] < t && x.d[v] < INFLEN
                     && (v != s ==> x.pi[v] < |rank| && x.S[x.pi[v]] && rank[x.pi[v]] < rank[v])
  }

  /** The invariant of the loops; e is a settled node whose links are still being relaxed (|adj| if none). */
  ghost predicate Inv(adj: Adjacency, s: nat, x: Labels, rank: seq<nat>, t: nat, e: nat) {
    && |rank| == |adj| && Shaped(x, |adj|) && Bounded(x, s) && Ranked(x, s, rank, t) && Frontier(x)
    && RelaxedExcept(adj, x, e) && AllExplained(adj, x, s)
  }

  lemma InitialInv(adj: Adjacency, s: nat)
    requires Sound(adj) && s < |adj|
    ensures Inv(adj, s, Initial(s, |adj|), seq(|adj|, _ => 0), 0, |adj|)
  {
  }

  /** Marking the extracted node gives it the next rank. */
  lemma SettleRank(adj: Adjacency, s: nat, x: Labels, rank: seq<nat>, t: nat, u: nat)
    requires Ranked(x, s, rank, t) && Frontier(x) && AllExplained(adj, x, s) && |adj| == |rank|
    requires ExtractMin(x, |x.d|) == Some(u)
    ensures var y := x.(S := x.S[u := true]); Ranked(y, s, rank[u := t], t + 1) && Frontier(y)
  {
    var y, more := x.(S := x.S[u := true]), rank[u := t];
    forall v | 0 <= v < |rank| && y.S[v]
      ensures more[v] < t + 1 && y.d[v] < INFLEN
      ensures v != s ==> y.pi[v] < |rank| && y.S[y.pi[v]] && more[y.pi[v]] < more[v]
    {
      if v == u && v != s {
        assert Explained(adj, x, u);
        assert x.pi[u] != u && rank[x.pi[u]] < t;
      } else if v != u && v != s {
        assert x.pi[v] != u;
      }
    }
  }

  lemma SettleRest(adj: Adjacency, s: nat, x: Labels, u: nat)
    requires Shaped(x, |adj|) && AllExplained(adj, x, s) && RelaxedExcept(adj, x, |adj|) && u < |adj| && Bounded(x, s)
    ensures var y := x.(S := x.S[u := true]);
            Shaped(y, |adj|) && Bounded(y, s) && AllExplained(adj, y, s) && RelaxedExcept(adj, y, u)
  {
    var y := x.(S := x.S[u := true]);
    forall v | 0 <= v < |y.d| && v != s && y.d[v] < INFLEN
      ensures Explained(adj, y, v)
    {
      assert Explained(adj, x, v);
    }
    forall w | 0 <= w < |adj| && y.S[w] && w != u
      ensures RelaxedUpTo(adj, y, w, |adj[w]|)
    {
      assert RelaxedUpTo(adj, x, w, |adj[w]|);
    }
  }

  lemma InvShaped(adj: Adjacency, s: nat, x: Labels, rank: seq<nat>, t: nat, e: nat)
    requires Inv(adj, s, x, rank, t, e)
    ensures Shaped(x, |adj|) && Shaped(x, |x.d|) && |x.d| == |adj| == |rank|
  {
  }

  lemma SettleInv(adj: Adjacency, s: nat, x: Labels, rank: seq<nat>, t: nat, u: nat)
    requires Sound(adj) && Inv(adj, s, x, rank, t, |adj|) && ExtractMin(x, |adj|) == Some(u)
    ensures Inv(adj, s, x.(S := x.S[u := true]), rank[u := t], t + 1, u)
  {
    hide Ranked, Frontier, AllExplained, RelaxedExcept, Sound, Bounded, ExtractMin, Shaped;
    InvShaped(adj, s, x, rank, t, |adj|);
    SettleRank(adj, s, x, rank, t, u);
    SettleRest(adj, s, x, u);
  }

  /** A relaxed label only falls, stays above all settled ones, and is never the source's or a settled node's. */
  lemma RelaxLabels(adj: Adjacency, s: nat, x: Labels, u: nat, l: Link)
    requires Sound(adj) && u < |adj| && Shaped(x, |adj|) && Bounded(x, s) && Frontier(x) && l in adj[u]
    requires !x.S[l.dst] && x.S[u] && (forall w :: 0 <= w < |adj| && x.S[w] ==> x.d[w] <= x.d[u])
    ensures l.dst < |adj| && l.cost >= 0.0
    ensures var y := Relax(x, u, l);
            && y.S == x.S && Bounded(y, s) && Frontier(y)
            && (forall v :: 0 <= v < |adj| ==>
                    y.d[v] <= x.d[v] && (v != l.dst ==> y.d[v] == x.d[v] && y.pi[v] == x.pi[v]))
  {
  }

  /** Lowering an unsettled label keeps the settled part. */
  lemma RelaxRanked(s: nat, x: Labels, rank: seq<nat>, t: nat, u: nat, l: Link)
    requires Ranked(x, s, rank, t) && u < |rank| && l.dst < |rank| && !x.S[l.dst]
    ensures Ranked(Relax(x, u, l), s, rank, t)
  {
  }

  lemma RelaxRest(adj: Adjacency, s: nat, x: Labels, u: nat, l: Link)
    requires Shaped(x, |adj|) && AllExplained(adj, x, s) && RelaxedExcept(adj, x, u)
    requires u < |adj| && l in adj[u] && l.dst < |adj| && !x.S[l.dst] && x.S[u]
    ensures AllExplained(adj, Relax(x, u, l), s) && RelaxedExcept(adj, Relax(x, u, l), u)
  {
    var y := Relax(x, u, l);
    forall w | 0 <= w < |adj| && y.S[w] && w != u
      ensures RelaxedUpTo(adj, y, w, |adj[w]|)
    {
      assert RelaxedUpTo(adj, x, w, |adj[w]|);
    }
    forall v | 0 <= v < |y.d| && v != s && y.d[v] < INFLEN
      ensures Explained(adj, y, v)
    {
      if y.d[v] == x.d[v] && y.pi[v] == x.pi[v] && y.outif[v] == x.outif[v] && y.inif[v] == x.inif[v] {
        ExplainedStays(adj, x, u, l, v);
      } else {
        assert v == l.dst && l.Is(v, y.outif[v], y.inif[v]);
      }
    }
  }

  lemma ExplainedStays(adj: Adjacency, x: Labels, u: nat, l: Link, v: nat)
    requires Shaped(x, |adj|) && u < |adj| && l.dst < |adj| && !x.S[l.dst] && Explained(adj, x, v)
    requires var y := Relax(x, u, l);
             y.d[v] == x.d[v] && y.pi[v] == x.pi[v] && y.outif[v] == x.outif[v] && y.inif[v] == x.inif[v]
    ensures Explained(adj, Relax(x, u, l), v)
  {
  }

  ghost predicate Latest(x: Labels, u: nat) {
    && u < |x.d| == |x.S|
    && forall w :: 0 <= w < |x.d| && x.S[w] ==> x.d[w] <= x.d[u]
  }

  lemma RelaxUnsettled(adj: Adjacency, s: nat, x: Labels, rank: seq<nat>, t: nat, u: nat, l: Link)
    requires Sound(adj) && Inv(adj, s, x, rank, t, u) && u < |adj| && x.S[u] && Latest(x, u)
    requires l in adj[u] && l.dst < |adj| && l.cost >= 0.0 && !x.S[l.dst]
    ensures Inv(adj, s, Relax(x, u, l), rank, t, u)
  {
    hide Ranked, AllExplained, RelaxedExcept, Frontier, Bounded, Sound, Relax;
    InvShaped(adj, s, x, rank, t, u);
    RelaxLabels(adj, s, x, u, l);
    RelaxRanked(s, x, rank, t, u, l);
    RelaxRest(adj, s, x, u, l);
  }

  lemma RelaxReach(adj: Adjacency, x: Labels, u: nat, k: nat)
    requires Shaped(x, |adj|) && u < |adj| && x.S[u] && k < |adj[u]| && RelaxedUpTo(adj, x, u, k) && Latest(x, u)
    requires adj[u][k].dst < |adj| && adj[u][k].cost >= 0.0
    ensures var y := if x.S[adj[u][k].dst] then x else Relax(x, u, adj[u][k]);
            y.d[u] == x.d[u] && y.S == x.S && RelaxedUpTo(adj, y, u, k + 1) && Latest(y, u)
  {
  }

  lemma RelaxInv(adj: Adjacency, s: nat, x: Labels, rank: seq<nat>, t: nat, u: nat, k: nat)
    requires Sound(adj) && Inv(adj, s, x, rank, t, u) && u < |adj| && x.S[u] && k < |adj[u]|
    requires RelaxedUpTo(adj, x, u, k) && Latest(x, u)
    ensures var y := if x.S[adj[u][k].dst] then x else Relax(x, u, adj[u][k]);
            Inv(adj, s, y, rank, t, u) && y.d[u] == x.d[u] && y.S == x.S && RelaxedUpTo(adj, y, u, k + 1)
                && Latest(y, u)
  {
    hide Inv, Relax, Latest, RelaxedUpTo;
    InvShaped(adj, s, x, rank, t, u);
    RelaxReach(adj, x, u, k);
    if !x.S[adj[u][k].dst] {
      RelaxUnsettled(adj, s, x, rank, t, u, adj[u][k]);
    }
  }

  lemma {:induction false} RelaxFromInv(adj: Adjacency, s: nat, x: Labels, rank: seq<nat>, t: nat, u: nat, k: nat)
    requires Sound(adj) && Inv(adj, s, x, rank, t, u) && u < |adj| && x.S[u] && x.d[u] < INFLEN && k <= |adj[u]|
    requires RelaxedUpTo(adj, x, u, k) && Latest(x, u)
    requires forall l :: l in adj[u][k..] ==> l.dst < |adj|
    ensures Inv(adj, s, RelaxFrom(x, u, adj[u][k..]), rank, t, |adj|)
    decreases |adj[u]| - k
  {
    if k == |adj[u]| {
      assert adj[u][k..] == [];
      assert RelaxedExcept(adj, x, |adj|);
    } else {
      RelaxInv(adj, s, x, rank, t, u, k);
      var y := if x.S[adj[u][k].dst] then x else Relax(x, u, adj[u][k]);
      assert adj[u][k..][0] == adj[u][k] && adj[u][k..][1..] == adj[u][k + 1..];
      RelaxFromInv(adj, s, y, rank, t, u, k + 1);
    }
  }

  lemma {:induction false} SearchInv(adj: Adjacency, s: nat, x: Labels, rank: seq<nat>, t: nat)
    returns (final: seq<nat>, end: nat)
    requires Sound(adj) && Inv(adj, s, x, rank, t, |adj|)
    ensures Inv(adj, s, Search(adj, x), final, end, |adj|) && ExtractMin(Search(adj, x), |adj|) == None
    decreases Unsettled(x.S)
  {
    var u := ExtractMin(x, |adj|);
    if u.None? {
      final, end := rank, t;
    } else {
      var y := x.(S := x.S[u.value := true]);
      SettlingShrinks(x.S, u.value);
      RelaxKeepsS(y, u.value, adj[u.value]);
      SettleInv(adj, s, x, rank, t, u.value);
      assert adj[u.value][0..] == adj[u.value];
      RelaxFromInv(adj, s, y, rank[u.value := t], t + 1, u.value, 0);
      final, end := SearchInv(adj, s, Settle(adj, x, u.value), rank[u.value := t], t + 1);
    }
  }

  // ---------- what the labels mean ----------

  /**
   * What a finished search leaves: reached nodes are ranked behind their predecessors, and no link improves a label.
   */
  ghost predicate Finished(adj: Adjacency, s: nat, x: Labels, rank: seq<nat>) {
    && |rank| == |adj| && Shaped(x, |adj|) && Bounded(x, s) && AllExplained(adj, x, s)
    && (forall u, k :: 0 <= u < |adj| && x.d[u] < INFLEN && 0 <= k < |adj[u]| ==>
                         adj[u][k].dst < |adj| && x.d[adj[u][k].dst] <= x.d[u] + adj[u][k].cost)
    && (forall v :: 0 <= v < |adj| && v != s && x.d[v] < INFLEN ==>
                      x.pi[v] < |adj| && x.d[x.pi[v]] < INFLEN && rank[x.pi[v]] < rank[v])
  }

  lemma DijkstraFinished(adj: Adjacency, s: nat) returns (rank: seq<nat>)
    requires Sound(adj) && s < |adj|
    ensures Finished(adj, s, Dijkstra(adj, s), rank)
  {
    InitialInv(adj, s);
    var t;
    rank, t := SearchInv(adj, s, Initial(s, |adj|), seq(|adj|, _ => 0), 0);
    SearchDone(adj, s, Dijkstra(adj, s), rank, t);
  }

  lemma SearchDone(adj: Adjacency, s: nat, x: Labels, rank: seq<nat>, t: nat)
    requires Sound(adj) && Inv(adj, s, x, rank, t, |adj|) && ExtractMin(x, |adj|) == None
    ensures Finished(adj, s, x, rank)
  {
    forall u, k | 0 <= u < |adj| && x.d[u] < INFLEN && 0 <= k < |adj[u]|
      ensures adj[u][k].dst < |adj| && x.d[adj[u][k].dst] <= x.d[u] + adj[u][k].cost
    {
      assert RelaxedUpTo(adj, x, u, |adj[u]|);
    }
  }

  /** No path beats a label. */
  lemma {:induction false} NoShorterPath(adj: Adjacency, s: nat, x: Labels,
                                         rank: seq<nat>, u: nat, p: seq<Link>, v: nat)
    requires Sound(adj) && Finished(adj, s, x, rank) && Path(adj, u, p, v) && x.d[u] + Cost(p) < INFLEN
    ensures v < |adj| && x.d[v] <= x.d[u] + Cost(p)
    decreases |p|
  {
    if p != [] {
      CostNonNegative(adj, p[0].dst, p[1..], v);
      var k :| 0 <= k < |adj[u]| && adj[u][k] == p[0];
      NoShorterPath(adj, s, x, rank, p[0].dst, p[1..], v);
    }
  }

  /** The last link of a reached node's path. */
  lemma LastLink(adj: Adjacency, s: nat, x: Labels, rank: seq<nat>, v: nat) returns (u: nat, l: Link)
    requires Finished(adj, s, x, rank) && v < |adj| && v != s && x.d[v] < INFLEN
    ensures u < |adj| && |rank| == |adj| && Shaped(x, |adj|) && u == x.pi[v] && rank[u] < rank[v] && x.d[u] < INFLEN
    ensures l in adj[u] && l.Is(v, x.outif[v], x.inif[v]) && x.d[v] == x.d[u] + l.cost
  {
    assert Explained(adj, x, v);
    u := x.pi[v];
    l :| l in adj[u] && l.Is(v, x.outif[v], x.inif[v]) && x.d[v] == x.d[u] + l.cost;
  }

  /** The predecessors of a reached node, read from the source, are a path of exactly its label. */
  lemma {:induction false} LabelPath(adj: Adjacency, s: nat, x: Labels, rank: seq<nat>, v: nat) returns (p: seq<Link>)
    requires Finished(adj, s, x, rank) && s < |adj| && v < |rank| == |adj| && Shaped(x, |adj|)
    requires x.d[s] == 0.0 && x.d[v] < INFLEN
    ensures Path(adj, s, p, v) && Cost(p) == x.d[v]
    decreases rank[v]
  {
    hide Finished;
    if v == s {
      p := [];
    } else {
      var u, l := LastLink(adj, s, x, rank, v);
      p := LabelPath(adj, s, x, rank, u);
      PathSnoc(adj, s, p, u, l);
      p := p + [l];
    }
  }

  /** Dijkstra is exact under the finite infinity: every final label is the shortest distance, cut off at INFLEN. */
  lemma DijkstraExact(adj: Adjacency, s: nat, v: nat)
    requires Sound(adj) && s < |adj| && v < |adj|
    ensures IsDistance(adj, s, v, Dijkstra(adj, s).d[v])
  {
    var rank := DijkstraFinished(adj, s);
    var x := Dijkstra(adj, s);
    forall p | Path(adj, s, p, v)
      ensures x.d[v] <= Cost(p) || INFLEN <= Cost(p)
    {
      if Cost(p) < INFLEN {
        NoShorterPath(adj, s, x, rank, s, p, v);
      }
    }
    if x.d[v] < INFLEN {
      var p := LabelPath(adj, s, x, rank, v);
    }
  }
}
