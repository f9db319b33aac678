/** A chunk carried by one flow is delivered in whatever order the flow's packets arrive. */
module Delivery {
  import opened Blocks
  import opened ChunkFill
  import opened FlowInsert
  import opened Grep
  import opened Engine
  import opened Safety
  import SearchTruth
  import opened Progress
  import FlowOrder

  // ---------- what other packets leave alone ----------

  lemma SendFlows(st: State, c: ChunkId, g: FlowKey, n: nat, p: seq<Byte>, f: FlowKey)
    requires f != g
    ensures FlowOf(FillAndSend(st, c, g, n, p), f) == FlowOf(st, f)
  {
    hide Fill, Insert, Surplus, Completes;
  }

  lemma SameTails(a: seq<Block>, i: nat, b: seq<Block>, j: nat)
    requires i < |a| && j < |b| && a[i + 1..] == b[j + 1..]
    ensures |a| - i == |b| - j
  {
    assert |a[i + 1..]| == |b[j + 1..]|;
  }

  lemma FaultFlows(st: State, f: FlowKey)
    ensures FlowOf(st.(fault := true), f) == FlowOf(st, f)
  {
  }

  lemma ListWithout(st: State, g: FlowKey, i: nat, f: FlowKey)
    requires f != g && i < |FlowOf(st, g)|
    ensures var st1 := st.(flows := st.flows[g := Without(FlowOf(st, g), i)]);
            FlowOf(st1, f) == FlowOf(st, f) && |FlowOf(st1, g)| == |FlowOf(st, g)| - 1
  {
  }

  /** One round of the search goes on, nearer to the end of the list, or the search ends. */
  lemma SearchUnfolds(st: State, c: ChunkId, g: FlowKey, k: nat, f: FlowKey)
    returns (more: bool, st2: State, place: nat)
    requires f != g
    ensures !more ==> FlowOf(Candidates(st, c, g, k), f) == FlowOf(st, f)
    ensures more ==>
              && Candidates(st, c, g, k) == Candidates(st2, c, g, place) && FlowOf(st2, f) == FlowOf(st, f)
              && k < |FlowOf(st, g)| && place <= |FlowOf(st2, g)|
              && |FlowOf(st2, g)| - place < |FlowOf(st, g)| - k
  {
    hide FillAndSend, NodeAfterFill, Candidate, FlowOf, Without;
    more, st2, place := false, st, k;
    if c in st.chunks && g in st.chunks[c].starts && k < |FlowOf(st, g)| {
      if Candidate(st.chunks[c], g, FlowOf(st, g)[k]) {
        var b := FlowOf(st, g)[k];
        var st1, node := FillAndSend(st, c, g, b.start, b.data), NodeAfterFill(st, c, g, k);
        SendFlows(st, c, g, b.start, b.data, f);
        FaultFlows(st1, f);
        if !st1.fault && node.Some? {
          FillKeepsRest(st, c, g, k);
          SameTails(FlowOf(st1, g), node.value, FlowOf(st, g), k);
          ListWithout(st1, g, node.value, f);
          more, st2, place := true, st1.(flows := st1.flows[g := Without(FlowOf(st1, g), node.value)]), node.value;
        }
      } else {
        more, place := true, k + 1;
      }
    }
  }

  lemma {:induction false} SearchFlows(st: State, c: ChunkId, g: FlowKey, k: nat, f: FlowKey)
    requires f != g
    ensures FlowOf(Candidates(st, c, g, k), f) == FlowOf(st, f)
    decreases |FlowOf(st, g)| - k
  {
    hide Candidates, FlowOf;
    var more, st2, place := SearchUnfolds(st, c, g, k, f);
    if more {
      SearchFlows(st2, c, g, place, f);
    }
  }

  lemma FrontFlows(st: State, g: FlowKey, n: nat, p: seq<Byte>, f: FlowKey)
    requires f != g
    ensures FlowOf(Front(st, g, n, p), f) == FlowOf(st, f)
  {
    hide FillAndSend, Insert;
    if p != [] && g in st.index && Lookup(st.index[g], n).Some? {
      SendFlows(st, Lookup(st.index[g], n).value.id, g, n, p, f);
    }
  }

  /** A packet of one flow leaves the other flows' lists and index entries alone. */
  lemma OtherFlow(st: State, pkt: Packet, f: FlowKey)
    requires WellFormed(pkt) && f != pkt.flow
    ensures FlowOf(Arrive(st, pkt), f) == FlowOf(st, f) && (f in Arrive(st, pkt).index <==> f in st.index)
  {
    hide Front, FillAndSend, Candidates, FragmentLength;
    match pkt.hit
    case None =>
      FrontFlows(st, pkt.flow, pkt.n, pkt.payload, f);
      FrontIndex(st, pkt.flow, pkt.n, pkt.payload);
    case Some(hit) =>
      var g, n, back := pkt.flow, pkt.n + hit.offset, pkt.payload[hit.offset..];
      var st1 := Front(st, g, pkt.n, pkt.payload[..hit.offset]);
      FrontFlows(st, g, pkt.n, pkt.payload[..hit.offset], f);
      FrontIndex(st, g, pkt.n, pkt.payload[..hit.offset]);
      WithIdIndex(st1, g, hit.id, n, back);
      var st2 := Register(st1, g, hit.id, n, FragmentLength(back));
      SendFlows(st2, hit.id, g, n, back, f);
      SearchFlows(FillAndSend(st2, hit.id, g, n, back), hit.id, g, 0, f);
  }

  /** A chunk is known only after some packet with its mark. */
  lemma ChunkCome(st: State, e: Event, c: ChunkId)
    requires Acceptable(e) && c in Step(st, e).chunks && c !in st.chunks
    ensures e.Arrival? && Marks(e, e.packet.flow, c)
  {
    hide Front, WithId, SweepFlows;
    match e
    case Sweep(order, stray) => SweepTables(st, order, stray);
    case Arrival(pkt) =>
      match pkt.hit
      case None => FrontChunks(st, pkt.flow, pkt.n, pkt.payload, c);
      case Some(hit) =>
        FrontChunks(st, pkt.flow, pkt.n, pkt.payload[..hit.offset], c);
        WithIdIndex(Front(st, pkt.flow, pkt.n, pkt.payload[..hit.offset]), pkt.flow, hit.id, pkt.n + hit.offset,
                    pkt.payload[hit.offset..]);
  }

  lemma {:induction false} RunChunks(es: seq<Event>, c: ChunkId)
    requires AllAcceptable(es) && c in Run(es).chunks
    ensures exists e :: e in es && e.Arrival? && Marks(e, e.packet.flow, c)
  {
    hide Step;
    if es != [] {
      var init, last := es[..|es| - 1], es[|es| - 1];
      assert es == init + [last];
      if c in Run(init).chunks {
        RunChunks(init, c);
      } else {
        ChunkCome(Run(init), last, c);
      }
    }
  }

  // ---------- before the mark ----------

  /** Truthful packets only, none of which marks a chunk on flow f. */
  ghost predicate Unmarked(w: World, es: seq<Event>, f: FlowKey) {
    forall e :: e in es ==> e.Arrival? && Truthful(w, e.packet) && (e.packet.flow == f ==> e.packet.hit.None?)
  }

  /** The flow brings no position twice. */
  ghost predicate Disjoint(es: seq<Event>, f: FlowKey) {
    forall i, j, pos :: 0 <= i < j < |es| && Brings(es[i], f, pos) ==> !Brings(es[j], f, pos)
  }

  /** The same traffic, but for one byte of the flow. */
  ghost function FlippedAt(w: World, f: FlowKey, pos: int): World {
    var wrong := SearchTruth.Wrong(w.stream(f, pos));
    w.(stream := (g, q) => if g == f && q == pos then wrong else w.stream(g, q))
  }

  lemma FlippedThere(w: World, f: FlowKey, pos: int)
    ensures FlippedAt(w, f, pos).stream(f, pos) != w.stream(f, pos)
  {
  }

  lemma UnmarkedFlipped(w: World, es: seq<Event>, f: FlowKey, pos: int)
    requires Unmarked(w, es, f) && forall e :: e in es ==> !Brings(e, f, pos)
    ensures Unmarked(FlippedAt(w, f, pos), es, f)
  {
    var w2 := FlippedAt(w, f, pos);
    forall e | e in es
      ensures Truthful(w2, e.packet)
    {
      StillTruthful(w, e, f, pos);
    }
  }

  lemma StillTruthful(w: World, e: Event, f: FlowKey, pos: int)
    requires e.Arrival? && Truthful(w, e.packet) && (e.packet.flow == f ==> e.packet.hit.None?) && !Brings(e, f, pos)
    ensures Truthful(FlippedAt(w, f, pos), e.packet)
  {
    var pkt, w2 := e.packet, FlippedAt(w, f, pos);
    forall k | 0 <= k < |pkt.payload|
      ensures OfStream(w2, pkt.flow)(pkt.n + k, pkt.payload[k])
    {
      assert OfStream(w, pkt.flow)(pkt.n + k, pkt.payload[k]);
    }
    if pkt.hit.Some? {
      var d := pkt.hit.value.id;
      forall k | 0 <= k < w2.len(d) && k < |w2.record(d)|
        ensures w2.stream(pkt.flow, w2.place(pkt.flow, d) + k) == w2.record(d)[k]
      {
        assert w.stream(pkt.flow, w.place(pkt.flow, d) + k) == w.record(d)[k];
      }
    }
  }

  /** Truthful packets alone make an honest run, and its lists are the streams'. */
  lemma PacketsInv(w: World, es: seq<Event>, f: FlowKey)
    requires Unmarked(w, es, f)
    ensures AllAcceptable(es) && Honest(w, es) && Inv(w, Run(es), iset{})
  {
    hide Truthful, Run, TaintedAfter, Inv, Honest;
    forall e | e in es
      ensures Acceptable(e)
    {
      TruthfulFits(w, e);
    }
    OfflineHonest(w, es);
    RunInv(w, es);
    NoSweepNoTaint(es);
  }

  lemma TruthfulFits(w: World, e: Event)
    requires e.Arrival? && Truthful(w, e.packet)
    ensures Acceptable(e) && e.packet.payload != []
  {
  }

  /** A position that no packet has brought is not listed. */
  lemma NotBroughtNotListed(w: World, es: seq<Event>, f: FlowKey, pos: int)
    requires Unmarked(w, es, f) && forall e :: e in es ==> !Brings(e, f, pos)
    ensures AllAcceptable(es) && !Held(FlowOf(Run(es), f), pos)
  {
    hide Truthful, Run, Brings, Unmarked, Inv, FlippedAt;
    var w2 := FlippedAt(w, f, pos);
    UnmarkedFlipped(w, es, f, pos);
    PacketsInv(w, es, f);
    PacketsInv(w2, es, f);
    var bs := FlowOf(Run(es), f);
    if Held(bs, pos) {
      var i :| 0 <= i < |bs| && bs[i].Covers(pos);
      ListedByte(w, Run(es), f, i, pos);
      ListedByte(w2, Run(es), f, i, pos);
      FlippedThere(w, f, pos);
    }
  }

  lemma ListedByte(w: World, st: State, f: FlowKey, i: nat, pos: int)
    requires Inv(w, st, iset{}) && i < |FlowOf(st, f)| && FlowOf(st, f)[i].Covers(pos)
    ensures FlowOf(st, f)[i].data[pos - FlowOf(st, f)[i].start] == w.stream(f, pos)
  {
    var b := FlowOf(st, f)[i];
    assert FlowOk(w, f, FlowOf(st, f), iset{});
    assert Loosely(w, f, iset{})(b.start + (pos - b.start), b.data[pos - b.start]);
  }

  lemma HeldAt(bs: seq<Block>, pos: int)
    ensures Held(bs, pos) <==> At(bs, pos).Some?
  {
    if At(bs, pos).Some? {
      var i := AtSome(bs, pos);
    } else if i :| 0 <= i < |bs| && bs[i].Covers(pos) {
      AtNone(bs, pos, i);
    }
  }

  lemma PrefixUnmarked(w: World, es: seq<Event>, f: FlowKey)
    requires Unmarked(w, es, f) && Disjoint(es, f) && es != []
    ensures Unmarked(w, es[..|es| - 1], f) && Disjoint(es[..|es| - 1], f) && es[|es| - 1] in es
  {
    hide Truthful, Brings;
    var init := es[..|es| - 1];
    assert forall i :: 0 <= i < |init| ==> init[i] == es[i];
  }

  /** Before the flow's mark all its bytes are listed, in blocks with rising starts. */
  lemma {:induction false} AllListed(w: World, es: seq<Event>, f: FlowKey)
    requires Unmarked(w, es, f) && Disjoint(es, f)
    ensures AllAcceptable(es) && f !in Run(es).index && Rising(FlowOf(Run(es), f))
    ensures forall e, pos :: e in es && Brings(e, f, pos) ==> Held(FlowOf(Run(es), f), pos)
  {
    hide Arrive, Truthful, Rising, Held, Disjoint, Brings;
    PacketsInv(w, es, f);
    if es == [] {
      assert Rising([]) by {
        NothingRises();
      }
    } else {
      var init, last := es[..|es| - 1], es[|es| - 1];
      PrefixUnmarked(w, es, f);
      AllListed(w, init, f);
      if last.packet.flow == f {
        ListMore(w, es, f);
      } else {
        OtherFlow(Run(init), last.packet, f);
      }
      forall e, pos | e in es && Brings(e, f, pos)
        ensures Held(FlowOf(Run(es), f), pos)
      {
        assert es == init + [last];
        if e !in init {
          BringsFlow(last, f, pos);
        }
      }
    }
  }

  lemma NothingRises()
    ensures Rising([])
  {
  }

  lemma BringsFlow(e: Event, f: FlowKey, pos: int)
    requires Brings(e, f, pos)
    ensures e.packet.flow == f
  {
  }

  /** One packet more. */
  lemma ListMore(w: World, es: seq<Event>, f: FlowKey)
    requires Unmarked(w, es, f) && Disjoint(es, f) && es != [] && es[|es| - 1].packet.flow == f
    requires AllAcceptable(es[..|es| - 1]) && f !in Run(es[..|es| - 1]).index && AllAcceptable(es)
    requires Rising(FlowOf(Run(es[..|es| - 1]), f))
    ensures f !in Run(es).index && Rising(FlowOf(Run(es), f))
    ensures forall pos :: Held(FlowOf(Run(es[..|es| - 1]), f), pos) ==> Held(FlowOf(Run(es), f), pos)
    ensures forall pos :: Brings(es[|es| - 1], f, pos) ==> Held(FlowOf(Run(es), f), pos)
  {
    hide Truthful, Held, Insert, Rising, At;
    var init, last := es[..|es| - 1], es[|es| - 1];
    assert last in es;
    TruthfulFits(w, last);
    var bs, n, p := FlowOf(Run(init), f), last.packet.n, last.packet.payload;
    assert FlowOf(Run(es), f) == Insert(bs, n, p);
    InsertRising(bs, n, p);
    forall pos | Held(bs, pos)
      ensures Held(Insert(bs, n, p), pos)
    {
      HeldAt(bs, pos);
      FlowOrder.CoveredStays(bs, n, p, pos);
      HeldAt(Insert(bs, n, p), pos);
    }
    ListApart(w, es, f);
    forall pos | n <= pos < n + |p|
      ensures Held(Insert(bs, n, p), pos)
    {
      InsertFresh(bs, n, p, pos);
    }
  }

  lemma ListApart(w: World, es: seq<Event>, f: FlowKey)
    requires Unmarked(w, es, f) && Disjoint(es, f) && es != [] && es[|es| - 1].packet.flow == f
    requires AllAcceptable(es[..|es| - 1]) && Rising(FlowOf(Run(es[..|es| - 1]), f))
    ensures ListFree(Run(es[..|es| - 1]), f, es[|es| - 1].packet.n, |es[|es| - 1].packet.payload|)
  {
    hide Truthful, Run;
    var init, last := es[..|es| - 1], es[|es| - 1];
    assert last in es;
    PrefixUnmarked(w, es, f);
    var bs, n, p := FlowOf(Run(init), f), last.packet.n, last.packet.payload;
    forall i | 0 <= i < |bs|
      ensures bs[i].End() <= n || n + |p| <= bs[i].start
    {
      TruthfulFits(w, last);
      if n < bs[i].End() && bs[i].start < n + |p| {
        var pos: int := if n < bs[i].start then bs[i].start else n;
        assert bs[i].data != [] && bs[i].Covers(pos);
        assert Brings(last, f, pos);
        forall e | e in init
          ensures !Brings(e, f, pos)
        {
          var j :| 0 <= j < |init| && init[j] == e;
          assert es[j] == e;
        }
        NotBroughtNotListed(w, init, f, pos);
      }
    }
  }

  // ---------- any order ----------

  /**
   * Truthful packets of any flows, in any order; flow f carries the single chunk c, which no other flow carries, its
   * mark is seen in packet k, and no position of f comes twice.
   */
  ghost predicate SingleChunk(w: World, es: seq<Event>, k: nat, f: FlowKey, c: ChunkId) {
    && k < |es| && Marks(es[k], f, c) && Disjoint(es, f)
    && (forall e :: e in es ==>
            e.Arrival? && Truthful(w, e.packet) && (Marks(e, e.packet.flow, c) ==> e.packet.flow == f))
    && (forall j :: 0 <= j < |es| && j != k && es[j].Arrival? && es[j].packet.flow == f ==> es[j].packet.hit.None?)
  }

  lemma SingleHonest(w: World, es: seq<Event>, k: nat, f: FlowKey, c: ChunkId)
    requires SingleChunk(w, es, k, f, c)
    ensures AllAcceptable(es) && Honest(w, es)
  {
    hide Truthful, Run;
    forall e | e in es
      ensures Acceptable(e)
    {
      TruthfulFits(w, e);
    }
    OfflineHonest(w, es);
  }

  lemma SingleBefore(w: World, es: seq<Event>, k: nat, f: FlowKey, c: ChunkId)
    requires SingleChunk(w, es, k, f, c)
    ensures Unmarked(w, es[..k], f) && Disjoint(es[..k], f)
  {
    hide Truthful, Brings;
    forall e | e in es[..k]
      ensures e.Arrival? && Truthful(w, e.packet) && (e.packet.flow == f ==> e.packet.hit.None?)
    {
      var j :| 0 <= j < k && es[..k][j] == e;
      assert es[j] == e;
    }
    assert forall j :: 0 <= j < k ==> es[..k][j] == es[j];
  }

  lemma SingleOpens(w: World, es: seq<Event>, k: nat, f: FlowKey, c: ChunkId)
    requires SingleChunk(w, es, k, f, c)
    ensures AllAcceptable(es) && AllAcceptable(es[..k]) && Opens(w, es, k, f, c)
  {
    hide Truthful, Run, Brings, Disjoint, RangesApart, Unmarked, Honest;
    SingleHonest(w, es, k, f, c);
    SingleBefore(w, es, k, f, c);
    HonestPrefix(w, es, k);
    forall e, g, d | e in es && Marks(e, g, d)
      ensures (d == c ==> g == f) && (g == f && d != c ==> RangesApart(w, f, c, d))
    {
      var j :| 0 <= j < |es| && es[j] == e;
    }
    assert BroughtOnce(es, f, w.place(f, c), w.place(f, c) + w.len(c)) by {
      DisjointOnce(es, f, w.place(f, c), w.place(f, c) + w.len(c));
    }
    SingleUnknown(w, es, k, f, c);
  }

  lemma SingleUnknown(w: World, es: seq<Event>, k: nat, f: FlowKey, c: ChunkId)
    requires SingleChunk(w, es, k, f, c)
    ensures AllAcceptable(es[..k]) && c !in Run(es[..k]).chunks
  {
    hide Truthful, Run, Brings, Disjoint, Honest;
    SingleHonest(w, es, k, f, c);
    HonestPrefix(w, es, k);
    forall e | e in es[..k] && e.Arrival?
      ensures !Marks(e, e.packet.flow, c)
    {
      var j :| 0 <= j < k && es[..k][j] == e;
      assert es[j] == e && e in es;
    }
    if c in Run(es[..k]).chunks {
      RunChunks(es[..k], c);
    }
  }

  lemma DisjointOnce(es: seq<Event>, f: FlowKey, from: int, to: int)
    requires Disjoint(es, f)
    ensures BroughtOnce(es, f, from, to)
  {
    hide Brings;
  }

  /** A position of the chunk that came before the mark waits in the list, in a block behind the mark. */
  lemma EarlyListed(w: World, es: seq<Event>, k: nat, j: nat, f: FlowKey, c: ChunkId, m: nat)
    requires SingleChunk(w, es, k, f, c) && j < k && Brings(es[j], f, w.place(f, c) + m)
    ensures AllAcceptable(es[..k]) && ListHolds(FlowOf(Run(es[..k]), f), w.place(f, c), m)
  {
    hide Truthful, Run, Unmarked, Rising;
    var before, start := es[..k], w.place(f, c);
    SingleBefore(w, es, k, f, c);
    AllListed(w, before, f);
    assert before[j] == es[j] && es[j] in before;
    var bs := FlowOf(Run(before), f);
    var i :| 0 <= i < |bs| && bs[i].Covers(start + m);
    if bs[i].start <= start {
      assert bs[i].Covers(start);
      MarkThere(w, es, k, f, c);
      forall e | e in before
        ensures !Brings(e, f, start)
      {
        var q :| 0 <= q < k && before[q] == e;
        assert es[q] == e;
      }
      NotBroughtNotListed(w, before, f, start);
    }
  }

  lemma MarkThere(w: World, es: seq<Event>, k: nat, f: FlowKey, c: ChunkId)
    requires SingleChunk(w, es, k, f, c)
    ensures Brings(es[k], f, w.place(f, c))
  {
    assert es[k] in es && Truthful(w, es[k].packet);
  }

  /** Some packet of the flow has the position. */
  ghost predicate Brought(es: seq<Event>, f: FlowKey, pos: int) {
    exists j :: 0 <= j < |es| && Brings(es[j], f, pos)
  }

  /**
   * Whatever the order: a flow that carries one chunk, brings all its positions and none of its own twice, has the
   * chunk's record, cut at the chunk length, handed over, among any traffic of other flows.
   */
  lemma AnyOrderDelivers(w: World, es: seq<Event>, k: nat, f: FlowKey, c: ChunkId)
    requires SingleChunk(w, es, k, f, c)
    requires forall pos :: w.place(f, c) <= pos < w.place(f, c) + w.len(c) ==> Brought(es, f, pos)
    ensures AllAcceptable(es) && w.len(c) <= |w.record(c)|
    ensures var st := Run(es);
            exists i :: 0 <= i < |st.sent| && st.sent[i] == Sent(c, w.record(c)[..w.len(c)])
  {
    hide Truthful, Run, Brings, SingleChunk, Opens, ListHolds, Honest;
    SingleHonest(w, es, k, f, c);
    SingleOpens(w, es, k, f, c);
    OpensLength(w, es, k, f, c);
    forall m: nat | m < w.len(c)
      ensures Comes(w, es, k, f, c, m)
    {
      assert Brought(es, f, w.place(f, c) + m);
      var j :| 0 <= j < |es| && Brings(es[j], f, w.place(f, c) + m);
      if j < k {
        EarlyListed(w, es, k, j, f, c, m);
      }
    }
    OneFlowDelivers(w, es, k, f, c);
  }

  // ---------- an instance: the second chunk of a flow ----------

  const A: FlowKey := "a"
  const MARK_OF_8: seq<Byte> := [0x80, 0, 0, 8]
  const BODY: seq<Byte> := [1, 1, 1, 1]

  ghost const TWO_CHUNKS: World := World(
    (f, pos) => if pos == 0 || pos == 100 then 0x80 else if pos == 3 || pos == 103 then 8
                else if 0 <= pos < 4 || 100 <= pos < 104 then 0 else 1,
    f => 0,
    c => MARK_OF_8 + BODY,
    c => 8,
    (f, c) => if c == "x" then 0 else 100)

  const MARK_X := Arrival(Packet(A, 0, MARK_OF_8, Some(Hit("x", 0))))
  const MARK_Y := Arrival(Packet(A, 100, MARK_OF_8, Some(Hit("y", 0))))
  const REST_Y := Arrival(Packet(A, 104, BODY, None))

  lemma InstanceTruthful(e: Event)
    requires e == MARK_X || e == MARK_Y || e == REST_Y
    ensures Truthful(TWO_CHUNKS, e.packet)
  {
    assert MARK_OF_8[0..] == MARK_OF_8 && FragmentLength(MARK_OF_8) == 8;
    var record := MARK_OF_8 + BODY;
    assert record == [0x80, 0, 0, 8, 1, 1, 1, 1];
  }

  /** The flow's second chunk is filed as well, so the bytes behind its mark complete it. */
  lemma SecondChunkSent()
    ensures var es := [MARK_X, MARK_Y, REST_Y];
            AllAcceptable(es) && exists i :: 0 <= i < |Run(es).sent| && Run(es).sent[i] == Sent("y", MARK_OF_8 + BODY)
  {
    hide Truthful, Run;
    var es, w := [MARK_X, MARK_Y, REST_Y], TWO_CHUNKS;
    InstanceTruthful(MARK_X);
    InstanceTruthful(MARK_Y);
    InstanceTruthful(REST_Y);
    TruthfulFits(w, MARK_X);
    TruthfulFits(w, MARK_Y);
    TruthfulFits(w, REST_Y);
    OfflineHonest(w, es);
    InstanceOpens();
    forall m: nat | m < w.len("y")
      ensures Comes(w, es, 1, A, "y", m)
    {
      assert Brings(es[if m < 4 then 1 else 2], A, w.place(A, "y") + m);
    }
    OneFlowDelivers(w, es, 1, A, "y");
    assert (MARK_OF_8 + BODY)[..8] == MARK_OF_8 + BODY;
  }

  lemma InstanceOpens()
    requires AllAcceptable([MARK_X, MARK_Y, REST_Y])
    ensures Opens(TWO_CHUNKS, [MARK_X, MARK_Y, REST_Y], 1, A, "y")
  {
    hide Truthful, Run;
    var es, w := [MARK_X, MARK_Y, REST_Y], TWO_CHUNKS;
    assert es[..1] == [MARK_X];
    if "y" in Run(es[..1]).chunks {
      RunChunks(es[..1], "y");
    }
    forall e, g, d | e in es && Marks(e, g, d)
      ensures (d == "y" ==> g == A) && (g == A && d != "y" ==> RangesApart(w, A, "y", d))
    {
      assert e == MARK_X || e == MARK_Y || e == REST_Y;
    }
  }
}
