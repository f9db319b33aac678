/** Sub-configuration graphs: reset_graph, copy_graph and the del_vertex loops. */
module MeshSubgraphs {
  import opened Graphs
  import opened TreeGraphs
  import opened TreeCounts
  import opened MeshGraphs
  import opened MeshTrees

  /** What copy_graph makes of a link list: every link is added at interface pair (0, 0). */
  function CopyList(links: seq<Link>): seq<Link> {
    if links == [] then []
    else
      var l := links[|links| - 1];
      AddTo(CopyList(links[..|links| - 1]), l.dst, l.cost, 0, 0, 0)
  }

  /** The cost of the last link to a node. */
  function LastCost(links: seq<Link>, to: nat): Option<real> {
    if links == [] then None
    else if links[|links| - 1].dst == to then Some(links[|links| - 1].cost)
    else LastCost(links[..|links| - 1], to)
  }

  /** One plain link to each target, with the cost of the last link that led there. */
  ghost predicate IsCopy(links: seq<Link>, copy: seq<Link>) {
    && DistinctTargets(copy)
    && forall l :: l in copy <==>
            LastCost(links, l.dst).Some? && l == Link(l.dst, LastCost(links, l.dst).value, 0, 0, 0, 0)
  }

  /** Links at pair (0, 0) that were added without channel and flow. */
  ghost predicate AllPlain(links: seq<Link>) {
    forall i :: 0 <= i < |links| ==> links[i].Is(links[i].dst, 0, 0) && links[i].channel == 0 && links[i].flow == 0
  }

  lemma {:induction false} RefreshMembers(links: seq<Link>, to: nat, cost: real)
    requires DistinctTargets(links) && AllPlain(links)
    ensures var r := Refresh(links, to, cost, 0, 0, 0);
            forall i :: 0 <= i < |links| ==> r[i] == if links[i].dst == to then Link(to, cost, 0, 0, 0, 0) else links[i]
  {
    if links != [] && links[0].dst != to {
      var t := links[1..];
      assert forall i :: 0 <= i < |t| ==> t[i] == links[i + 1];
      RefreshMembers(t, to, cost);
    }
  }

  lemma {:induction false} CopyExact(links: seq<Link>)
    ensures IsCopy(links, CopyList(links))
    decreases |links|
  {
    if links != [] {
      var init, m := links[..|links| - 1], links[|links| - 1];
      CopyExact(init);
      CopyOne(init, m, CopyList(init));
    }
  }

  lemma CopyOne(init: seq<Link>, m: Link, copy: seq<Link>)
    requires IsCopy(init, copy)
    ensures IsCopy(init + [m], AddTo(copy, m.dst, m.cost, 0, 0, 0))
  {
    var links, r := init + [m], AddTo(copy, m.dst, m.cost, 0, 0, 0);
    assert links[..|init|] == init;
    assert forall c: nat :: LastCost(links, c) == if c == m.dst then Some(m.cost) else LastCost(init, c);
    if FindIn(copy, m.dst, 0, 0).Some? {
      forall i | 0 <= i < |copy|
        ensures copy[i].Is(copy[i].dst, 0, 0) && copy[i].channel == 0 && copy[i].flow == 0
      {
        assert copy[i] in copy;
      }
      RefreshMembers(copy, m.dst, m.cost);
      forall l | l in r
        ensures LastCost(links, l.dst).Some? && l == Link(l.dst, LastCost(links, l.dst).value, 0, 0, 0, 0)
      {
        var i :| 0 <= i < |r| && r[i] == l;
        assert copy[i] in copy;
      }
      forall l: Link | LastCost(links, l.dst).Some? && l == Link(l.dst, LastCost(links, l.dst).value, 0, 0, 0, 0)
        ensures l in r
      {
        var was := if l.dst == m.dst then FindIn(copy, m.dst, 0, 0).value else l;
        assert was in copy;
        var i :| 0 <= i < |copy| && copy[i] == was;
        assert r[i] == l;
      }
    } else {
      assert forall l :: l in copy ==> l.Is(l.dst, 0, 0) && l.dst != m.dst;
    }
  }

  /** Without parallel links the copy has exactly the original's targets and costs. */
  lemma {:induction false} DistinctCosts(links: seq<Link>, k: nat)
    requires DistinctTargets(links) && k < |links|
    ensures LastCost(links, links[k].dst) == Some(links[k].cost)
    decreases |links|
  {
    if k < |links| - 1 {
      DistinctCosts(links[..|links| - 1], k);
    }
  }

  /** Deleting the links to a node from a list. */
  function Without(links: seq<Link>, v: nat): (r: seq<Link>)
    ensures forall l :: l in r <==> l in links && l.dst != v
    ensures |r| <= |links|
  {
    if links == [] then []
    else
      var rest := Without(links[1..], v);
      assert forall l :: l in links <==> l == links[0] || l in links[1..];
      if links[0].dst == v then rest else [links[0]] + rest
  }

  /** `del_vertex`: the links of v and all links to v go, and v is no longer valid. */
  method DelVertex(g: Graph, vertex: nat, numNodes: nat)
    requires g.Valid() && numNodes < MAX_NODES
    modifies g.lh, g.valid
    ensures forall v :: 0 <= v < MAX_NODES ==>
              g.lh[v] == if !(1 <= v <= numNodes) then old(g.lh[v]) else if v == vertex then []
                  else Without(old(g.lh[v]), vertex)
    ensures forall v :: 0 <= v < MAX_NODES ==> g.valid[v] == (old(g.valid[v]) && !(v == vertex && 1 <= v <= numNodes))
  {
    var v := 1;
    while v <= numNodes
      invariant 1 <= v <= numNodes + 1
      invariant forall w :: 0 <= w < MAX_NODES ==>
                  g.lh[w] == if !(1 <= w < v) then old(g.lh[w]) else if w == vertex then []
                      else Without(old(g.lh[w]), vertex)
      invariant forall w :: 0 <= w < MAX_NODES ==> g.valid[w] == (old(g.valid[w]) && !(w == vertex && 1 <= w < v))
    {
      var removeAll := v == vertex;
      if removeAll {
        g.valid[v] := false;
      }
      g.lh[v] := Sweep(g.lh[v], vertex, removeAll);
      v := v + 1;
    }
  }

  /** The inner loop of del_vertex. */
  method Sweep(links: seq<Link>, vertex: nat, removeAll: bool) returns (kept: seq<Link>)
    ensures kept == if removeAll then [] else Without(links, vertex)
  {
    kept := [];
    var k := 0;
    assert links[0..] == links;
    while k < |links|
      invariant k <= |links|
      invariant if removeAll then kept == [] else kept + Without(links[k..], vertex) == Without(links, vertex)
    {
      assert links[k..][0] == links[k] && links[k..][1..] == links[k + 1..];
      if links[k].dst == vertex || removeAll {
      } else {
        kept := kept + [links[k]];
      }
      k := k + 1;
    }
    assert links[k..] == [];
  }

  /** A later node's copy marks its targets valid again. */
  ghost predicate Revived(src: Adjacency, w: nat, v: nat) {
    exists u :: w < u < v && u < |src| && Leads(src[u], w)
  }

  /** One node of copy_graph. */
  method CopyNode(src: Graph, dst: Graph, v: nat)
    requires src.Valid() && dst.Valid() && Apart(src, dst) && v < MAX_NODES && dst.lh[v] == []
    requires forall l :: l in src.lh[v] ==> l.dst < MAX_NODES
    modifies dst.lh, dst.valid
    ensures dst.lh[..] == old(dst.lh[..])[v := CopyList(src.lh[v])]
    ensures forall w :: 0 <= w < MAX_NODES ==>
              dst.valid[w] == if w == v then src.valid[v] else (old(dst.valid[w]) || Leads(src.lh[v], w))
  {
    var k, links := 0, src.lh[v];
    assert links[..0] == [];
    ghost var lists := dst.lh[..];
    while k < |links|
      invariant k <= |links| && links == src.lh[v] && src.valid[..] == old(src.valid[..])
      invariant dst.lh[..] == lists[v := CopyList(links[..k])]
      invariant forall w :: 0 <= w < MAX_NODES && w != v ==> dst.valid[w] == (old(dst.valid[w]) || Leads(links[..k], w))
    {
      assert links[..k + 1][..k] == links[..k] && links[..k + 1] == links[..k] + [links[k]];
      assert links[k] in src.lh[v] && dst.lh[v] == CopyList(links[..k]);
      LeadsSnoc(links[..k], links[k]);
      var added := dst.AddLink(v, links[k].dst, links[k].cost, 0, 0, 0);
      k := k + 1;
    }
    assert links[..k] == links;
    dst.valid[v] := src.valid[v];
  }

  lemma LeadsSnoc(links: seq<Link>, l: Link)
    ensures forall c: nat :: Leads(links + [l], c) <==> Leads(links, c) || c == l.dst
  {
    forall c: nat
      ensures Leads(links + [l], c) <==> Leads(links, c) || c == l.dst
    {
      assert l in links + [l];
    }
  }

  /** The copy of one node's fields. */
  method CopyNodeData(src: Graph, dst: Graph, v: nat)
    requires src.Valid() && dst.Valid() && Apart(src, dst) && v < MAX_NODES
    modifies dst.d, dst.pi, dst.ch, dst.L, dst.T, dst.piOutif, dst.piInif, dst.S
    modifies dst.gateway
    ensures forall w :: 0 <= w < MAX_NODES ==> NodeOf(dst, w) == if w == v then NodeOf(src, v) else old(NodeOf(dst, w))
  {
    hide LabelsOf, MarksOf;
    CopyNodeLabels(src, dst, v);
    CopyNodeMarks(src, dst, v);
  }

  method CopyNodeLabels(src: Graph, dst: Graph, v: nat)
    requires src.Valid() && dst.Valid() && Apart(src, dst) && v < MAX_NODES
    modifies dst.d, dst.pi, dst.ch, dst.L, dst.T
    ensures forall w :: 0 <= w < MAX_NODES ==>
              LabelsOf(dst, w) == if w == v then LabelsOf(src, v) else old(LabelsOf(dst, w))
  {
    dst.d[v], dst.T[v] := src.d[v], src.T[v];
    dst.pi[v], dst.ch[v], dst.L[v] := src.pi[v], src.ch[v], src.L[v];
  }

  method CopyNodeMarks(src: Graph, dst: Graph, v: nat)
    requires src.Valid() && dst.Valid() && Apart(src, dst) && v < MAX_NODES
    modifies dst.piOutif, dst.piInif, dst.S, dst.gateway
    ensures forall w :: 0 <= w < MAX_NODES ==>
              MarksOf(dst, w) == if w == v then MarksOf(src, v) else old(MarksOf(dst, w))
  {
    dst.piOutif[v], dst.piInif[v] := src.piOutif[v], src.piInif[v];
    dst.S[v], dst.gateway[v] := src.S[v], src.gateway[v];
  }

  /** One round of copy_graph. */
  method CopyWhole(src: Graph, dst: Graph, v: nat)
    requires src.Valid() && dst.Valid() && Apart(src, dst) && v < MAX_NODES && dst.lh[v] == []
    requires forall l :: l in src.lh[v] ==> l.dst < MAX_NODES
    modifies dst.lh, dst.valid, dst.d, dst.pi, dst.ch, dst.L, dst.T, dst.piOutif, dst.piInif, dst.S
    modifies dst.gateway
    ensures dst.lh[..] == old(dst.lh[..])[v := CopyList(src.lh[v])]
    ensures forall w :: 0 <= w < MAX_NODES ==>
              dst.valid[w] == if w == v then src.valid[v] else (old(dst.valid[w]) || Leads(src.lh[v], w))
    ensures forall w :: 0 <= w < MAX_NODES ==> NodeOf(dst, w) == if w == v then NodeOf(src, v) else old(NodeOf(dst, w))
    ensures forall w :: 0 <= w < MAX_NODES ==> NodeOf(src, w) == old(NodeOf(src, w))
    ensures src.lh[..] == old(src.lh[..]) && src.valid[..] == old(src.valid[..])
  {
    hide NodeOf, CopyList;
    CopyNode(src, dst, v);
    CopyNodeData(src, dst, v);
  }

  /** `copy_graph`. */
  method CopyGraph(src: Graph, dst: Graph, numNodes: nat)
    requires src.Valid() && dst.Valid() && Apart(src, dst) && numNodes < MAX_NODES
    requires forall v :: 1 <= v <= numNodes ==> dst.lh[v] == []
    requires Sound(src.Adj(numNodes + 1))
    modifies dst.lh, dst.valid, dst.d, dst.pi, dst.ch, dst.L, dst.T, dst.piOutif, dst.piInif, dst.S
    modifies dst.gateway
    ensures forall v :: 0 <= v < MAX_NODES ==>
              dst.lh[v] == if 1 <= v <= numNodes then CopyList(src.lh[v]) else old(dst.lh[v])
    ensures forall v :: 0 <= v < MAX_NODES ==>
              NodeOf(dst, v) == if 1 <= v <= numNodes then NodeOf(src, v) else old(NodeOf(dst, v))
    ensures forall v :: 1 <= v <= numNodes ==>
              dst.valid[v] == (src.valid[v] || Revived(src.Adj(numNodes + 1), v, numNodes + 1))
    ensures src.lh[..] == old(src.lh[..]) && src.valid[..] == old(src.valid[..])
  {
    hide NodeOf, CopyList, Revived, Apart;
    ghost var adj := src.Adj(numNodes + 1);
    var v := 1;
    while v <= numNodes
      invariant 1 <= v <= numNodes + 1 && src.lh[..] == old(src.lh[..]) && src.valid[..] == old(src.valid[..])
      invariant forall w :: 0 <= w < MAX_NODES ==> NodeOf(src, w) == old(NodeOf(src, w))
      invariant forall w :: 0 <= w < MAX_NODES ==>
                  dst.lh[w] == if 1 <= w < v then CopyList(src.lh[w]) else old(dst.lh[w])
      invariant forall w :: 0 <= w < MAX_NODES ==>
                  NodeOf(dst, w) == if 1 <= w < v then NodeOf(src, w) else old(NodeOf(dst, w))
      invariant forall w :: 1 <= w < v ==> dst.valid[w] == (src.valid[w] || Revived(adj, w, v))
    {
      SoundRow(adj, v);
      assert adj[v] == src.lh[v];
      CopyWhole(src, dst, v);
      RevivedNext(adj, v);
      v := v + 1;
    }
  }

  lemma SoundRow(adj: Adjacency, v: nat)
    requires Sound(adj) && v < |adj| <= MAX_NODES
    ensures forall l :: l in adj[v] ==> l.dst < MAX_NODES
  {
  }

  lemma RevivedNext(adj: Adjacency, v: nat)
    requires v < |adj|
    ensures forall w: nat :: w < v ==> (Revived(adj, w, v + 1) <==> Revived(adj, w, v) || Leads(adj[v], w))
    ensures !Revived(adj, v, v + 1)
  {
    forall w: nat | w < v
      ensures Revived(adj, w, v + 1) <==> Revived(adj, w, v) || Leads(adj[v], w)
    {
      if Leads(adj[v], w) {
        assert w < v < v + 1 && Leads(adj[v], w);
      }
      if Revived(adj, w, v) {
        var u :| w < u < v && u < |adj| && Leads(adj[u], w);
        assert w < u < v + 1;
      }
    }
  }

  // ---------- the induced subgraph ----------

  /** A node that a sub-configuration leaves out: unassigned nodes, and gateways other than its own. */
  predicate Dropped(config: seq<int>, gwid: nat, numNodes: nat, v: nat) {
    1 <= v <= numNodes && if v <= |config| then config[v - 1] != gwid - |config| else v - 1 != gwid
  }

  /** Row v of the subgraph once the dropped nodes up to n are deleted. */
  ghost predicate Row(links: seq<Link>, now: seq<Link>, config: seq<int>, gwid: nat, numNodes: nat, n: nat, v: nat) {
    && DistinctTargets(now)
    && forall l :: l in now <==>
                   && LastCost(links, l.dst).Some? && l == Link(l.dst, LastCost(links, l.dst).value, 0, 0, 0, 0)
                   && !(Dropped(config, gwid, numNodes, v) && v <= n)
                   && !(Dropped(config, gwid, numNodes, l.dst) && l.dst <= n)
  }

  lemma RowStart(links: seq<Link>, config: seq<int>, gwid: nat, numNodes: nat, v: nat)
    requires v > 0
    ensures Row(links, CopyList(links), config, gwid, numNodes, 0, v)
  {
    CopyExact(links);
  }

  lemma {:induction false} WithoutDistinct(links: seq<Link>, v: nat)
    requires DistinctTargets(links)
    ensures DistinctTargets(Without(links, v))
  {
    if links != [] {
      WithoutDistinct(links[1..], v);
      assert forall l :: l in links[1..] ==> l.dst != links[0].dst;
      var rest := Without(links[1..], v);
      if links[0].dst != v {
        assert forall i :: 0 <= i < |rest| ==> rest[i] in links[1..];
      }
    }
  }

  /** Deleting node n + 1, if it is dropped, takes row v one step further. */
  lemma RowNext(links: seq<Link>, now: seq<Link>, config: seq<int>, gwid: nat, numNodes: nat, n: nat, v: nat)
    requires Row(links, now, config, gwid, numNodes, n, v) && n < numNodes
    ensures var next := if !Dropped(config, gwid, numNodes, n + 1) then now
                        else if v == n + 1 then [] else Without(now, n + 1);
            Row(links, next, config, gwid, numNodes, n + 1, v)
  {
    hide Dropped, LastCost;
    WithoutDistinct(now, n + 1);
  }

  ghost predicate Rows(src: seq<seq<Link>>, now: seq<seq<Link>>, config: seq<int>, gwid: nat, numNodes: nat, n: nat) {
    && |src| == |now| == MAX_NODES && numNodes < MAX_NODES
    && forall v :: 1 <= v <= numNodes ==> Row(src[v], now[v], config, gwid, numNodes, n, v)
  }

  /** Deleting a node that is left out. */
  method DropNode(sub: Graph, n: nat, config: seq<int>, gwid: nat, numNodes: nat,
                  ghost src: seq<seq<Link>>, ghost flags: seq<bool>)
    requires sub.Valid() && n < numNodes < MAX_NODES && Rows(src, sub.lh[..], config, gwid, numNodes, n)
    requires |flags| == MAX_NODES
    requires Dropped(config, gwid, numNodes, n + 1)
    requires forall v :: 1 <= v <= numNodes ==>
               sub.valid[v] == (flags[v] && !(Dropped(config, gwid, numNodes, v) && v <= n))
    modifies sub.lh, sub.valid
    ensures Rows(src, sub.lh[..], config, gwid, numNodes, n + 1) && sub.lh[0] == old(sub.lh[0])
    ensures forall v :: 1 <= v <= numNodes ==>
              sub.valid[v] == (flags[v] && !(Dropped(config, gwid, numNodes, v) && v <= n + 1))
  {
    hide Row, Dropped;
    ghost var now := sub.lh[..];
    forall v | 1 <= v <= numNodes
      ensures Row(src[v], if v == n + 1 then [] else Without(now[v], n + 1), config, gwid, numNodes, n + 1, v)
    {
      RowNext(src[v], now[v], config, gwid, numNodes, n, v);
    }
    DelVertex(sub, n + 1, numNodes);
  }

  /** Keeping one. */
  lemma KeepNode(now: seq<seq<Link>>, n: nat, config: seq<int>, gwid: nat, numNodes: nat, src: seq<seq<Link>>)
    requires n < numNodes < MAX_NODES && Rows(src, now, config, gwid, numNodes, n)
    requires !Dropped(config, gwid, numNodes, n + 1)
    ensures Rows(src, now, config, gwid, numNodes, n + 1)
  {
    hide Row, Dropped;
    forall v | 1 <= v <= numNodes
      ensures Row(src[v], now[v], config, gwid, numNodes, n + 1, v)
    {
      RowNext(src[v], now[v], config, gwid, numNodes, n, v);
    }
  }

  lemma DroppedExact(config: seq<int>, gwid: nat, numNodes: nat, i: nat)
    requires i < numNodes
    ensures Dropped(config, gwid, numNodes, i + 1) <==> if i < |config| then config[i] != gwid - |config| else i != gwid
  {
  }

  /** The nodes assigned to gateway index gwindex. */
  function Assigned(config: seq<int>, gwindex: int): set<nat> {
    set i: nat | i < |config| && config[i] == gwindex
  }

  /** A gateway keeps itself and the nodes assigned to it. */
  lemma KeptNodes(config: seq<int>, gwid: nat, numNodes: nat, v: nat)
    requires |config| <= gwid < numNodes && 1 <= v <= numNodes
    ensures !Dropped(config, gwid, numNodes, v) <==> v - 1 in Assigned(config, gwid - |config|) || v == gwid + 1
  {
  }

  /** If the assignment names gateways only, every node is kept by exactly one of them. */
  lemma KeptOnce(config: seq<int>, numNodes: nat, v: nat) returns (owner: nat)
    requires forall k :: 0 <= k < |config| ==> 0 <= config[k] < numNodes - |config|
    requires 1 <= v <= numNodes
    ensures |config| <= owner < numNodes
    ensures forall gwid: nat :: |config| <= gwid < numNodes ==> (!Dropped(config, gwid, numNodes, v) <==> gwid == owner)
  {
    owner := if v <= |config| then |config| + config[v - 1] else v - 1;
  }

  /**
   * `construct_graph_for_a_subconfiguration`; config lists the gateway index of each of the first |config| nodes. The
   * subgraph is the induced one: between nodes that are kept, exactly the links of g, moved to interface pair (0, 0).
   */
  method ConstructSubconfiguration(g: Graph, sub: Graph, config: seq<int>, gwid: nat, numNodes: nat)
    returns (count: nat)
    requires g.Valid() && sub.Valid() && Apart(g, sub) && |config| <= numNodes < MAX_NODES && Sound(g.Adj(numNodes + 1))
    modifies sub.lh, sub.valid, sub.d, sub.pi, sub.ch, sub.L, sub.T, sub.piOutif, sub.piInif, sub.S
    modifies sub.gateway
    ensures count == |Assigned(config, gwid - |config|)|
    ensures forall v :: 1 <= v <= numNodes ==>
              && DistinctTargets(sub.lh[v])
              && forall l :: l in sub.lh[v] <==>
                   && LastCost(g.lh[v], l.dst).Some? && l == Link(l.dst, LastCost(g.lh[v], l.dst).value, 0, 0, 0, 0)
                   && !Dropped(config, gwid, numNodes, v) && !Dropped(config, gwid, numNodes, l.dst)
    ensures forall v :: 1 <= v <= numNodes ==>
              sub.valid[v] == ((g.valid[v] || Revived(g.Adj(numNodes + 1), v, numNodes + 1))
                  && !Dropped(config, gwid, numNodes, v))
    ensures g.lh[..] == old(g.lh[..]) && g.valid[..] == old(g.valid[..]) && sub.lh[0] == old(sub.lh[0])
  {
    hide NodeOf, Dropped, LastCost, Row, Revived, CopyList;
    ghost var src := g.lh[..];
    ResetGraph(sub, numNodes);
    CopyGraph(g, sub, numNodes);
    ghost var flags := sub.valid[..];
    forall v | 1 <= v <= numNodes
      ensures Row(src[v], sub.lh[v], config, gwid, numNodes, 0, v)
    {
      RowStart(src[v], config, gwid, numNodes, v);
    }
    var gwindex := gwid - |config|;
    count := 0;
    var i := 0;
    while i < |config|
      invariant i <= |config| && Rows(src, sub.lh[..], config, gwid, numNodes, i) && sub.lh[0] == old(sub.lh[0])
      invariant forall v :: 1 <= v <= numNodes ==>
                  sub.valid[v] == (flags[v] && !(Dropped(config, gwid, numNodes, v) && v <= i))
      invariant count == |set k: nat | k < i && config[k] == gwindex|
    {
      CountOne(config, gwindex, i);
      DroppedExact(config, gwid, numNodes, i);
      if config[i] != gwindex {
        DropNode(sub, i, config, gwid, numNodes, src, flags);
      } else {
        KeepNode(sub.lh[..], i, config, gwid, numNodes, src);
        count := count + 1;
      }
      i := i + 1;
    }
    while i < numNodes
      invariant |config| <= i <= numNodes && Rows(src, sub.lh[..], config, gwid, numNodes, i)
      invariant sub.lh[0] == old(sub.lh[0])
      invariant forall v :: 1 <= v <= numNodes ==>
                  sub.valid[v] == (flags[v] && !(Dropped(config, gwid, numNodes, v) && v <= i))
    {
      DroppedExact(config, gwid, numNodes, i);
      if i != gwid {
        DropNode(sub, i, config, gwid, numNodes, src, flags);
      } else {
        KeepNode(sub.lh[..], i, config, gwid, numNodes, src);
      }
      i := i + 1;
    }
    assert src == g.lh[..];
    forall v | 1 <= v <= numNodes
      ensures DistinctTargets(sub.lh[v])
      ensures forall l :: l in sub.lh[v] <==>
                   && LastCost(g.lh[v], l.dst).Some? && l == Link(l.dst, LastCost(g.lh[v], l.dst).value, 0, 0, 0, 0)
                   && !Dropped(config, gwid, numNodes, v) && !Dropped(config, gwid, numNodes, l.dst)
    {
      RowEnd(src[v], sub.lh[v], config, gwid, numNodes, v);
    }
  }

  lemma CountOne(config: seq<int>, gwindex: int, i: nat)
    requires i < |config|
    ensures |set k: nat | k < i + 1 && config[k] == gwindex|
         == |set k: nat | k < i && config[k] == gwindex| + if config[i] == gwindex then 1 else 0
  {
    var before := set k: nat | k < i && config[k] == gwindex;
    assert (set k: nat | k < i + 1 && config[k] == gwindex) == before + if config[i] == gwindex then {i} else {};
  }

  lemma RowEnd(links: seq<Link>, now: seq<Link>, config: seq<int>, gwid: nat, numNodes: nat, v: nat)
    requires Row(links, now, config, gwid, numNodes, numNodes, v) && 1 <= v <= numNodes
    ensures DistinctTargets(now)
    ensures forall l :: l in now <==>
              && LastCost(links, l.dst).Some? && l == Link(l.dst, LastCost(links, l.dst).value, 0, 0, 0, 0)
              && !Dropped(config, gwid, numNodes, v) && !Dropped(config, gwid, numNodes, l.dst)
  {
    hide LastCost;
  }
}
