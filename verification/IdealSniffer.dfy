/**
 * The variant in src/ideal-sniffer: a flow's chunk ranges come from the chunks themselves, not from the flow's index.
 */
module IdealSniffer {
  import opened Blocks
  import opened Engine
  import opened Safety
  import opened SafetyLimits

  /**
   * The first chunk listed for the flow whose current range contains n behind its record mark; only the listed ids are
   * used.
   */
  function RangeOf(st: State, f: FlowKey, infos: seq<ChunkInfo>, n: nat): Option<ChunkId> {
    if infos == [] then None
    else
      var c := infos[0].id;
      if c in st.chunks && f in st.chunks[c].starts
          && st.chunks[c].starts[f] < n < st.chunks[c].starts[f] + st.chunks[c].length then Some(c)
      else RangeOf(st, f, infos[1..], n)
  }

  /** `deal_with_pkt_without_chunkid` of the variant. */
  function IdealWithoutId(st: State, f: FlowKey, n: nat, p: seq<Byte>): State {
    if f !in st.index then st
    else match RangeOf(st, f, st.index[f], n)
      case Some(c) => FillAndSend(st, c, f, n, p)
      case None => InsertFlow(st, f, n, p)
  }

  function IdealFront(st: State, f: FlowKey, n: nat, p: seq<Byte>): State {
    if p == [] then st
    else if f !in st.index then InsertFlow(st, f, n, p)
    else IdealWithoutId(st, f, n, p)
  }

  /** `handle_ip` of the variant. */
  function IdealArrive(st: State, pkt: Packet): State
    requires WellFormed(pkt)
  {
    match pkt.hit
    case None => IdealFront(st, pkt.flow, pkt.n, pkt.payload)
    case Some(hit) =>
      WithId(IdealFront(st, pkt.flow, pkt.n, pkt.payload[..hit.offset]), pkt.flow,
             hit.id, pkt.n + hit.offset, pkt.payload[hit.offset..])
  }

  function IdealRun(ps: seq<Packet>): State
    requires forall p :: p in ps ==> WellFormed(p)
  {
    if ps == [] then INITIAL else IdealArrive(IdealRun(ps[..|ps| - 1]), ps[|ps| - 1])
  }

  function Arrivals(ps: seq<Packet>): (es: seq<Event>)
    ensures |es| == |ps| && forall k :: 0 <= k < |es| ==> es[k] == Arrival(ps[k])
  {
    seq(|ps|, k requires 0 <= k < |ps| => Arrival(ps[k]))
  }

  /** Where index and chunk entries agree, both look-ups find the same range. */
  lemma {:induction false} SameRange(st: State, f: FlowKey, infos: seq<ChunkInfo>, n: nat)
    requires forall i :: 0 <= i < |infos| ==> InfoOk(st, f, infos[i])
    ensures RangeOf(st, f, infos, n) == if Lookup(infos, n).Some? then Some(Lookup(infos, n).value.id) else None
  {
    if infos != [] {
      assert InfoOk(st, f, infos[0]);
      SameRange(st, f, infos[1..], n);
    }
  }

  /** In every state the main sniffer can reach honestly, the variant handles a packet in the same way. */
  lemma SameArrival(w: World, st: State, pkt: Packet, tainted: iset<Place>)
    requires Inv(w, st, tainted) && WellFormed(pkt)
    ensures IdealArrive(st, pkt) == Arrive(st, pkt)
  {
    hide WithId, FillAndSend, InsertFlow, SentTrue, SentOnce, WasSent, FlowOk, ChunkOk, InfoOk;
    if pkt.flow in st.index {
      SameRange(st, pkt.flow, st.index[pkt.flow], pkt.n);
    }
  }

  ghost predicate AllTruthful(w: World, ps: seq<Packet>) {
    forall p :: p in ps ==> Truthful(w, p)
  }

  lemma {:induction false} SameRun(w: World, ps: seq<Packet>)
    requires AllTruthful(w, ps)
    ensures AllAcceptable(Arrivals(ps)) && IdealRun(ps) == Run(Arrivals(ps)) && Inv(w, IdealRun(ps), iset{})
    decreases |ps|
  {
    hide Arrive, IdealArrive, Inv;
    if ps == [] {
      StartInv(w);
    } else {
      var init, last := ps[..|ps| - 1], ps[|ps| - 1];
      assert last in ps && forall p :: p in init ==> p in ps;
      SameRun(w, init);
      assert Arrivals(ps)[..|ps| - 1] == Arrivals(init);
      SameArrival(w, IdealRun(init), last, iset{});
      ArriveInv(w, IdealRun(init), last, iset{});
    }
  }

  /**
   * On every run of truthful packets the variant and the main sniffer do the same, so the variant's buffers are true
   * records too.
   */
  lemma IdealRunSafety(w: World, ps: seq<Packet>)
    requires AllTruthful(w, ps)
    ensures AllAcceptable(Arrivals(ps)) && IdealRun(ps) == Run(Arrivals(ps)) && !IdealRun(ps).fault
    ensures var st := IdealRun(ps);
            forall i :: 0 <= i < |st.sent| ==>
              && |st.sent[i].data| == w.len(st.sent[i].id) <= |w.record(st.sent[i].id)|
              && st.sent[i].data == w.record(st.sent[i].id)[..w.len(st.sent[i].id)]
  {
    hide IdealRun, Run, IndexOk, FlowOk, ChunkOk, SentOnce, WasSent, IsFull;
    SameRun(w, ps);
  }

  /**
   * Where a flow carries the same chunk at a second place the two part ways: the main sniffer's late packet of the
   * first copy leaves defined behaviour, the variant, which knows the second place only, puts it back onto the flow's
   * list.
   */
  lemma RestartTellsThemApart()
    ensures var st := Arrive(Arrive(INITIAL, Packet(FLOW, 100, MARK, Some(Hit(CHUNK, 0)))),
        Packet(FLOW, 0, MARK, Some(Hit(CHUNK, 0))));
            var late := Packet(FLOW, 104, [1, 1, 1, 1], None);
            !st.fault && Arrive(st, late).fault && IdealArrive(st, late) == InsertFlow(st, FLOW, 104, late.payload)
  {
    hide Arrive, FillAndSend, InsertFlow;
    RestartFirst();
    var st1 := Arrive(INITIAL, Packet(FLOW, 100, MARK, Some(Hit(CHUNK, 0))));
    RestartSecond(st1);
    var st := Arrive(st1, Packet(FLOW, 0, MARK, Some(Hit(CHUNK, 0))));
    LatePacketFaults(st);
    var infos := [ChunkInfo(CHUNK, 100, 8)];
    assert infos[1..] == [] && st.index[FLOW] == infos;
    assert RangeOf(st, FLOW, infos, 104) == None;
  }
}
