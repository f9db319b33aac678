/** The graph object of swarm.c and rpp.c: link lists and label arrays updated in place. */
module MeshGraphs {
  import opened Graphs
  import opened ShortestPaths
  import opened TreeGraphs

  /** A list with its flows cleared. */
  function Cleared(links: seq<Link>): (r: seq<Link>)
    ensures |r| == |links| && forall k :: 0 <= k < |r| ==> r[k] == links[k].(flow := 0)
  {
    seq(|links|, k requires 0 <= k < |links| => links[k].(flow := 0))
  }

  function ClearedAll(adj: Adjacency): (r: Adjacency)
    ensures |r| == |adj| && forall u :: 0 <= u < |r| ==> r[u] == Cleared(adj[u])
  {
    seq(|adj|, u requires 0 <= u < |adj| => Cleared(adj[u]))
  }

  class Graph {
    const lh: array<seq<Link>>
    const valid: array<bool>
    const gateway: array<bool>
    const d: array<real>
    const pi: array<nat>
    const piOutif: array<int>
    const piInif: array<int>
    const S: array<bool>
    const ch: array<nat>
    const L: array<nat>
    const T: array<real>

    /** The arrays have MAX_NODES entries and do not alias. */
    ghost predicate Valid() {
      && lh.Length == valid.Length == d.Length == pi.Length == piOutif.Length == piInif.Length == S.Length == MAX_NODES
      && ch.Length == L.Length == T.Length == gateway.Length == MAX_NODES
      && valid != S && valid != gateway && gateway != S && d != T && piOutif != piInif && pi != ch && pi != L && ch != L
    }

    /** The link lists of the nodes below size. */
    ghost function Adj(size: nat): (a: Adjacency)
      requires Valid() && size <= MAX_NODES
      reads lh
      ensures |a| == size
    {
      lh[..size]
    }

    /** The labels of the nodes below size. */
    ghost function View(size: nat): (x: Labels)
      requires Valid() && size <= MAX_NODES
      reads d, pi, piOutif, piInif, S
      ensures Shaped(x, size)
    {
      Labels(d[..size], pi[..size], piOutif[..size], piInif[..size], S[..size])
    }

    /** `init_graph`. */
    constructor ()
      ensures Valid() && fresh(lh) && fresh(valid) && fresh(gateway) && fresh(d) && fresh(pi) && fresh(piOutif)
      ensures fresh(piInif)
      ensures fresh(S) && fresh(ch) && fresh(L) && fresh(T)
      ensures forall v :: 0 <= v < MAX_NODES ==> lh[v] == [] && !valid[v] && !gateway[v]
    {
      lh := new seq<Link>[MAX_NODES](_ => []);
      valid := new bool[MAX_NODES](_ => false);
      gateway := new bool[MAX_NODES](_ => false);
      d := new real[MAX_NODES];
      pi := new nat[MAX_NODES];
      piOutif := new int[MAX_NODES];
      piInif := new int[MAX_NODES];
      S := new bool[MAX_NODES];
      ch := new nat[MAX_NODES];
      L := new nat[MAX_NODES];
      T := new real[MAX_NODES];
    }

    /** `find_link`. */
    method FindLink(from: nat, to: nat, o: int, i: int) returns (r: Option<Link>)
      requires Valid() && from != MAX_NODES
      ensures r == if from > MAX_NODES then None else FindIn(lh[from], to, o, i)
    {
      if from > MAX_NODES {
        return None;
      }
      r := SearchList(lh[from], to, o, i);
    }

    /** `add_link`. */
    method AddLink(from: nat, to: nat, cost: real, o: int, i: int, channel: int) returns (added: bool)
      requires Valid() && from < MAX_NODES && to < MAX_NODES
      modifies lh, valid
      ensures lh[..] == old(lh[..])[from := AddTo(old(lh[from]), to, cost, o, i, channel)]
      ensures valid[..] == old(valid[..])[from := true][to := true]
      ensures added == FindIn(old(lh[from]), to, o, i).None?
    {
      valid[from] := true;
      valid[to] := true;
      var k := 0;
      var links := lh[from];
      while k < |links|
        invariant k <= |links| && FindIn(links, to, o, i) == FindIn(links[k..], to, o, i)
        invariant AddTo(links, to, cost, o, i, channel)
               == if FindIn(links, to, o, i).None? then [Link(to, cost, o, i, channel, 0)] + links
                  else links[..k] + Refresh(links[k..], to, cost, o, i, channel)
      {
        if links[k].Is(to, o, i) {
          lh[from] := links[..k] + ([links[k].(cost := cost, channel := channel)] + links[k + 1..]);
          assert links[k..][1..] == links[k + 1..];
          return false;
        }
        assert links[k..][1..] == links[k + 1..];
        assert links[..k] + ([links[k]] + Refresh(links[k + 1..], to, cost, o, i, channel))
            == links[..k + 1] + Refresh(links[k + 1..], to, cost, o, i, channel);
        k := k + 1;
      }
      lh[from] := [Link(to, cost, o, i, channel, 0)] + links;
      return true;
    }

    /** `init_single_source`. */
    method InitSingleSource(s: nat, size: nat)
      requires Valid() && s < size <= MAX_NODES
      modifies lh, d, pi, piOutif, piInif, S, ch, L, T
      ensures View(size) == Initial(s, size) && Adj(size) == ClearedAll(old(Adj(size)))
      ensures forall v :: 0 <= v < size ==> ch[v] == 0 && L[v] == 0 && T[v] == 0.0
    {
      ClearLabels(size);
      ClearFlows(size);
      d[s] := 0.0;
      assert d[..size] == seq(size, _ => INFLEN)[s := 0.0];
    }

    /** The first loop of init_single_source. */
    method ClearLabels(size: nat)
      requires Valid() && size <= MAX_NODES
      modifies d, pi, piOutif, piInif, S, ch, L, T
      ensures forall v :: 0 <= v < size ==>
                d[v] == INFLEN && pi[v] == NIL && piOutif[v] == NIL && piInif[v] == NIL && !S[v]
      ensures forall v :: 0 <= v < size ==> ch[v] == 0 && L[v] == 0 && T[v] == 0.0
    {
      var v := 0;
      while v < size
        invariant v <= size
        invariant forall w :: 0 <= w < v ==>
                    d[w] == INFLEN && pi[w] == NIL && piOutif[w] == NIL && piInif[w] == NIL && !S[w]
        invariant forall w :: 0 <= w < v ==> ch[w] == 0 && L[w] == 0 && T[w] == 0.0
      {
        d[v] := INFLEN;
        pi[v] := NIL;
        ch[v], L[v] := 0, 0;
        T[v] := 0.0;
        piOutif[v] := NIL;
        piInif[v] := NIL;
        S[v] := false;
        v := v + 1;
      }
    }

    /** The second loop of init_single_source. */
    method ClearFlows(size: nat)
      requires Valid() && size <= MAX_NODES
      modifies lh
      ensures Adj(size) == ClearedAll(old(Adj(size)))
    {
      var v := 0;
      while v < size
        invariant v <= size
        invariant forall w :: 0 <= w < size ==> lh[w] == if w < v then Cleared(old(lh[w])) else old(lh[w])
      {
        var k, links := 0, lh[v];
        while k < |links|
          invariant k <= |links| == |lh[v]|
          invariant forall w :: 0 <= w < size && w != v ==> lh[w] == if w < v then Cleared(old(lh[w])) else old(lh[w])
          invariant forall j :: 0 <= j < |links| ==>
                      links[j] == if j < k then old(lh[v])[j].(flow := 0) else old(lh[v])[j]
          invariant lh[v] == old(lh[v])
        {
          links := links[k := links[k].(flow := 0)];
          k := k + 1;
        }
        lh[v] := links;
        v := v + 1;
      }
    }

    /** `relax`. */
    method RelaxLink(u: nat, l: Link, size: nat)
      requires Valid() && size <= MAX_NODES && u < size && l.dst < size && d[u] < INFLEN
      modifies d, pi, piOutif, piInif
      ensures View(size) == Relax(old(View(size)), u, l)
    {
      if d[l.dst] > d[u] + l.cost {
        d[l.dst] := d[u] + l.cost;
        pi[l.dst] := u;
        piOutif[l.dst] := l.outif;
        piInif[l.dst] := l.inif;
      }
    }

    /** `extract_min_q`. */
    method ExtractMinQ(size: nat) returns (minU: Option<nat>)
      requires Valid() && size <= MAX_NODES
      ensures minU == ExtractMin(View(size), size)
    {
      minU := None;
      var u := 0;
      while u < size
        invariant u <= size && minU == ExtractMin(View(size), u)
      {
        if !S[u] && d[u] < INFLEN && (minU.None? || d[u] < d[minU.value]) {
          minU := Some(u);
        }
        u := u + 1;
      }
    }

    /** Relax every link of the node just settled. */
    method RelaxLinks(u: nat, size: nat)
      requires Valid() && size <= MAX_NODES && u < size && Sound(Adj(size)) && d[u] < INFLEN && S[u]
      modifies d, pi, piOutif, piInif
      ensures View(size) == RelaxFrom(old(View(size)), u, Adj(size)[u])
    {
      var k, links := 0, lh[u];
      ghost var x0 := View(size);
      assert links[0..] == links == Adj(size)[u];
      while k < |links|
        invariant k <= |links| && S[u] && d[u] < INFLEN && links == Adj(size)[u]
        invariant forall l :: l in links[k..] ==> l.dst < size
        invariant RelaxFrom(View(size), u, links[k..]) == RelaxFrom(x0, u, links)
      {
        var v := links[k];
        assert links[k..][1..] == links[k + 1..] && links[k..][0] == v;
        if !S[v.dst] {
          RelaxLink(u, v, size);
        }
        k := k + 1;
      }
    }

    /** `dijkstra`. */
    method DijkstraFrom(s: nat, size: nat)
      requires Valid() && s < size <= MAX_NODES && Sound(Adj(size))
      modifies lh, d, pi, piOutif, piInif, S, ch, L, T
      ensures Adj(size) == ClearedAll(old(Adj(size))) && Sound(Adj(size))
      ensures View(size) == Dijkstra(Adj(size), s)
    {
      InitSingleSource(s, size);
      ghost var adj := Adj(size);
      var u := ExtractMinQ(size);
      while u.Some?
        invariant Adj(size) == adj && Sound(adj) && u == ExtractMin(View(size), size)
        invariant Search(adj, View(size)) == Dijkstra(adj, s)
        decreases Unsettled(View(size).S)
      {
        ghost var x := View(size);
        SettlingShrinks(x.S, u.value);
        S[u.value] := true;
        assert View(size) == x.(S := x.S[u.value := true]);
        RelaxKeepsS(View(size), u.value, adj[u.value]);
        RelaxLinks(u.value, size);
        u := ExtractMinQ(size);
      }
    }
  }

  method SearchList(links: seq<Link>, to: nat, o: int, i: int) returns (r: Option<Link>)
    ensures r == FindIn(links, to, o, i)
  {
    var k := 0;
    while k < |links|
      invariant k <= |links| && FindIn(links, to, o, i) == FindIn(links[k..], to, o, i)
    {
      if links[k].Is(to, o, i) {
        return Some(links[k]);
      }
      assert links[k..][1..] == links[k + 1..];
      k := k + 1;
    }
    return None;
  }
}
