/** Concrete runs that show which hypotheses of whole-run safety the code needs. */
module SafetyLimits {
  import opened Blocks
  import opened ChunkFill
  import opened FlowInsert
  import opened Grep
  import opened SweepTruth
  import opened Engine
  import opened Safety

  const FLOW: FlowKey := "a"
  const CHUNK: ChunkId := "x"

  const MARK: seq<Byte> := [0x80, 0, 0, 8]
  const ONES: seq<Byte> := [1, 1, 1, 1, 1, 1, 1, 1]
  const NINES: seq<Byte> := [9, 9, 9, 9, 9, 9, 9, 9]

  /** A complete response record: 29 bytes behind its mark. */
  const RESPONSE: seq<Byte> := [0x80, 0, 0, 29] + [0, 0, 0, 0] + MASK + [5]

  const RECORD: seq<Byte> := MARK + ONES
  const STREAM: seq<Byte> := RECORD + RESPONSE

  ghost const OVERHEARD: World := World(
    (f, pos) => if 0 <= pos < |STREAM| then STREAM[pos] else 0,
    f => 0,
    c => RECORD,
    c => 8,
    (f, c) => 0)

  /** The record's tail and the response arrive first; the chunk's own mark comes after a sweep. */
  const TAIL := Packet(FLOW, 4, ONES + RESPONSE, None)
  const HEAD := Packet(FLOW, 0, MARK, Some(Hit(CHUNK, 0)))

  const ARRIVE_TAIL := Arrival(TAIL)
  const SWEEP_ALL := Sweep([FLOW], (f: FlowKey, i: nat, pos: int) => 9)
  const ARRIVE_HEAD := Arrival(HEAD)

  lemma PacketsTruthful()
    ensures Truthful(OVERHEARD, TAIL) && Truthful(OVERHEARD, HEAD)
  {
    assert STREAM[4..] == ONES + RESPONSE && STREAM[..4] == MARK;
    assert forall k :: 0 <= k < |TAIL.payload| ==> TAIL.payload[k] == STREAM[4 + k];
    assert HEAD.payload[0..] == MARK;
  }

  /** The sweep finds the response behind eight other bytes. */
  lemma TailScan()
    ensures Scan(TAIL.payload, 0) == Record(8, 33)
  {
    var d := TAIL.payload;
    assert d[8..] == RESPONSE && d[16..40] == MASK;
    assert LooksLikeRecord(d, 8);
    assert FragmentLength(RESPONSE) == 29;
    assert Scan(d, 8) == Record(8, 33);
    assert Scan(d, 6) == Scan(d, 7) == Scan(d, 8);
    assert Scan(d, 4) == Scan(d, 5) == Scan(d, 6);
    assert Scan(d, 2) == Scan(d, 3) == Scan(d, 4);
    assert Scan(d, 0) == Scan(d, 1) == Scan(d, 2);
  }

  lemma TailSweep(stray: int -> Byte)
    requires forall pos :: stray(pos) == 9
    ensures Left(SweepBlock(Block(4, TAIL.payload, true), stray)) == [Block(4, NINES, false)]
  {
    var b := Block(4, TAIL.payload, true);
    TailScan();
    ScanInside(b.data, 0);
    var r := Scan(b.data, 0);
    assert Behind(b, r).data == [];
    var kept, record := Kept(Stray(4, 8, stray)), Extracted(12, b.data[8..41]);
    assert Stray(4, 8, stray).data == NINES;
    assert SweepBlock(b, stray).parts == [kept, record];
    assert [kept, record][1..] == [record] && [record][1..] == [];
    assert KeptBlocks([record]) == [];
  }

  /** A packet that is just the mark goes straight to WithId. */
  lemma MarkArrives(st: State, n: nat)
    ensures Arrive(st, Packet(FLOW, n, MARK, Some(Hit(CHUNK, 0)))) == WithId(st, FLOW, CHUNK, n, MARK)
  {
    hide WithId;
    assert MARK[..0] == [] && MARK[0..] == MARK;
  }

  /** A fill inside the chunk's range on the flow needs no clipping. */
  lemma FitsWithoutSurplus(st: State, f: FlowKey, c: ChunkId, n: nat, p: seq<Byte>)
    requires p != [] && c in st.chunks && f in st.chunks[c].starts
    requires st.chunks[c].starts[f] <= n && n + |p| <= st.chunks[c].starts[f] + st.chunks[c].length < 0x8000_0000
    ensures ClipFill(st, c, f, n, p) == FillChunk(st, c, n - st.chunks[c].starts[f], p)
  {
    hide Fill;
    assert p[..|p| - 0] == p;
  }

  lemma TailArrives()
    ensures Run([ARRIVE_TAIL]) == INITIAL.(flows := map[FLOW := [Block(4, TAIL.payload, true)]])
  {
    assert [ARRIVE_TAIL][..0] == [];
  }

  lemma SweepStep(st1: State, st2: State)
    requires st1 == INITIAL.(flows := map[FLOW := [Block(4, TAIL.payload, true)]])
    requires st2 == SweepFlows(st1, [FLOW], SWEEP_ALL.stray)
    ensures st2.flows == map[FLOW := [Block(4, NINES, false)]]
    ensures st2.index == map[] && st2.chunks == map[] && st2.sent == [] && !st2.fault
  {
    var here := OfFlow(SWEEP_ALL.stray, FLOW);
    TailSweep(OfNode(here, 0));
    assert SweepFrom(st1.flows[FLOW], here, 1) == [];
    assert SweepFrom(st1.flows[FLOW], here, 0) == [Block(4, NINES, false)];
    assert [FLOW][1..] == [];
  }

  /** The chunk's mark opens its entry; the mark alone does not complete it. */
  lemma HeadFill(st2: State) returns (st: State)
    requires st2.index == map[] && st2.chunks == map[] && st2.sent == [] && !st2.fault
    ensures WithId(st2, FLOW, CHUNK, 0, MARK) == Candidates(st, CHUNK, FLOW, 0)
    ensures st.flows == st2.flows && st.sent == [] && !st.fault && st.index == map[FLOW := [ChunkInfo(CHUNK, 0, 8)]]
    ensures st.chunks == map[CHUNK := Chunk(8, map[FLOW := 0], [Block(0, MARK, true)])]
  {
    hide Candidates;
    assert FragmentLength(MARK) == 8;
    var reg := Register(st2, FLOW, CHUNK, 0, 8);
    assert reg.chunks == map[CHUNK := Chunk(8, map[FLOW := 0], [])];
    FitsWithoutSurplus(reg, FLOW, CHUNK, 0, MARK);
    st := FillAndSend(reg, CHUNK, FLOW, 0, MARK);
  }

  /** The candidate fill takes the stray block's first four bytes and completes the chunk. */
  lemma StrayCandidate(st: State)
    requires st.flows == map[FLOW := [Block(4, NINES, false)]] && st.sent == [] && !st.fault
    requires st.chunks == map[CHUNK := Chunk(8, map[FLOW := 0], [Block(0, MARK, true)])]
    ensures var st1 := FillAndSend(st, CHUNK, FLOW, 4, NINES);
            && st1.sent == [Sent(CHUNK, MARK + [9, 9, 9, 9])] && st1.flows == st.flows && !st1.fault
            && CHUNK in st1.chunks && st1.chunks[CHUNK].starts == map[FLOW := 0]
    ensures NodeAfterFill(st, CHUNK, FLOW, 0) == Some(0)
  {
    var four := [9, 9, 9, 9];
    assert Surplus(0, 8, 4, 8) == 4;
    assert NINES[..4] == four && NINES[4..] == four;
    assert Insert([Block(4, NINES, false)], 8, four) == [Block(4, NINES, false)];
    assert ReturnSurplus(st, FLOW, 4, NINES, 4) == st;
    StrayFill();
  }

  lemma StrayFill()
    ensures Fill([Block(0, MARK, true)], 4, [9, 9, 9, 9]).blocks == [Block(0, MARK + [9, 9, 9, 9], true)]
    ensures Completes(Fill([Block(0, MARK, true)], 4, [9, 9, 9, 9]), 8)
  {
    var four := [9, 9, 9, 9];
    assert four[0..] == four && [Block(0, MARK, true)][1..] == [];
    assert Merge(Block(0, MARK + four, true), []).blocks == [Block(0, MARK + four, true)];
  }

  lemma HeadStep(st2: State, st3: State)
    requires st2.flows == map[FLOW := [Block(4, NINES, false)]]
    requires st2.index == map[] && st2.chunks == map[] && st2.sent == [] && !st2.fault
    requires st3 == Arrive(st2, HEAD)
    ensures st3.sent == [Sent(CHUNK, MARK + [9, 9, 9, 9])]
  {
    hide WithId, Arrive, FillAndSend, NodeAfterFill;
    MarkArrives(st2, 0);
    var st := HeadFill(st2);
    StrayCandidate(st);
    assert Without([Block(4, NINES, false)], 0) == [];
  }

  /** The eight bytes in front of the response are read from memory. */
  lemma TailStray(pos: int)
    ensures StrayAt(Block(4, TAIL.payload, true), pos) <==> 4 <= pos < 12
  {
    TailScan();
    var b := Block(4, TAIL.payload, true);
    assert Behind(b, Scan(b.data, 0)).data == [];
  }

  /** After the sweep the positions 4 to 11 of the flow are tainted, and no others. */
  lemma TaintOfTail()
    ensures AllAcceptable([ARRIVE_TAIL, SWEEP_ALL]) && Run([ARRIVE_TAIL, SWEEP_ALL]).chunks == map[]
    ensures Run([ARRIVE_TAIL, SWEEP_ALL]).flows == map[FLOW := [Block(4, NINES, false)]]
    ensures forall f, pos :: (f, pos) in TaintedAfter([ARRIVE_TAIL, SWEEP_ALL]) <==> f == FLOW && 4 <= pos < 12
  {
    hide Arrive, SweepFlows, StrayAt;
    var e1, e2 := ARRIVE_TAIL, SWEEP_ALL;
    assert [e1, e2][..1] == [e1] && [e1][..0] == [];
    TailArrives();
    SweepStep(Run([e1]), Run([e1, e2]));
    var bs, now := [Block(4, TAIL.payload, true)], [Block(4, NINES, false)];
    forall f, pos
      ensures (f, pos) in TaintedAfter([e1, e2]) <==> f == FLOW && 4 <= pos < 12
    {
      TailStray(pos);
      assert bs[0] == Block(4, TAIL.payload, true) && (now[0].Covers(pos) <==> 4 <= pos < 12);
    }
  }

  /** A truthful run in which a sweep cuts a record out of the middle of a block: the bytes in front of it are
      replaced by stray memory, and the chunk handed to the plugin is not the record. */
  lemma StrayPrefixReachesPlugin()
    ensures Truthful(OVERHEARD, TAIL) && Truthful(OVERHEARD, HEAD)
    ensures Run([ARRIVE_TAIL, SWEEP_ALL, ARRIVE_HEAD]).sent == [Sent(CHUNK, MARK + [9, 9, 9, 9])]
    ensures MARK + [9, 9, 9, 9] != OVERHEARD.record(CHUNK)[..OVERHEARD.len(CHUNK)]
    ensures AllAcceptable([ARRIVE_TAIL, SWEEP_ALL]) && FirstSeen(Run([ARRIVE_TAIL, SWEEP_ALL]), HEAD)
    ensures !Unharmed(Run([ARRIVE_TAIL, SWEEP_ALL]), HEAD, TaintedAfter([ARRIVE_TAIL, SWEEP_ALL]))
  {
    hide Arrive, SweepFlows, Truthful, TaintedAfter;
    PacketsTruthful();
    var e1, e2, e3 := ARRIVE_TAIL, SWEEP_ALL, ARRIVE_HEAD;
    assert [e1, e2, e3][..2] == [e1, e2] && [e1, e2][..1] == [e1];
    TailArrives();
    SweepStep(Run([e1]), Run([e1, e2]));
    HeadStep(Run([e1, e2]), Run([e1, e2, e3]));
    assert (MARK + [9, 9, 9, 9])[4] == 9 && RECORD[..8][4] == 1;
    TaintOfTail();
    HarmedHead(Run([e1, e2]), TaintedAfter([e1, e2]));
  }

  lemma HarmedHead(st: State, tainted: iset<Place>)
    requires st.flows == map[FLOW := [Block(4, NINES, false)]] && (FLOW, 4) in tainted
    ensures !Unharmed(st, HEAD, tainted)
  {
    assert HEAD.payload[0..] == MARK && FragmentLength(MARK) == 8;
    assert FlowOf(st, FLOW)[0].Covers(4);
  }

  /** The same sweep does not stand in the way of a chunk that starts elsewhere on the flow. */
  lemma StrayElsewhere(n: nat, c: ChunkId)
    requires n >= 4
    ensures AllAcceptable([ARRIVE_TAIL, SWEEP_ALL])
    ensures Unharmed(Run([ARRIVE_TAIL, SWEEP_ALL]), Packet(FLOW, n, MARK, Some(Hit(c, 0))),
                     TaintedAfter([ARRIVE_TAIL, SWEEP_ALL]))
  {
    hide Run, TaintedAfter;
    TaintOfTail();
  }

  // ---------- what goes back while its block is still listed ----------

  /** The bytes of a listed block are dropped when they are put back into the list. */
  lemma {:induction false} OwnBytesDropped(bs: seq<Block>, k: nat, n: nat)
    requires Separated(bs) && k < |bs| && bs[k].start < n < bs[k].End()
    ensures Insert(bs, n, bs[k].data[n - bs[k].start..]) == bs
  {
    if k > 0 {
      SeparatedOrder(bs, k);
      assert bs[1..][k - 1] == bs[k];
      SeparatedTail(bs);
      OwnBytesDropped(bs[1..], k - 1, n);
    }
  }

  lemma SeparatedTail(bs: seq<Block>)
    requires Separated(bs) && bs != []
    ensures Separated(bs[1..])
  {
  }

  /**
   * So what a candidate block has behind the chunk's end is lost: it is dropped by the list that still has the block,
   * and then the block is erased.
   */
  lemma CandidateSurplusLost(w: World, st: State, c: ChunkId, f: FlowKey, k: nat, tainted: iset<Place>)
    requires Tables(w, st, tainted) && Sheltered(st, c, f, k, tainted) && Separated(FlowOf(st, f))
    requires k < |FlowOf(st, f)| && Candidate(st.chunks[c], f, FlowOf(st, f)[k])
    ensures var b := FlowOf(st, f)[k];
            && FlowOf(FillAndSend(st, c, f, b.start, b.data), f) == FlowOf(st, f)
            && NodeAfterFill(st, c, f, k) == Some(k)
  {
    hide Fill, Insert, FillAndSend, ClearOf, Head, InChunk, FlowOk, ChunkOk;
    var bs, b, ch := FlowOf(st, f), FlowOf(st, f)[k], st.chunks[c];
    CandidateInChunk(w, st, c, f, k, tainted);
    FillAndSendFlows(w, st, c, f, b.start, b.data, tainted);
    var diff := Surplus(ch.starts[f], ch.length, b.start, |b.data|);
    if diff > 0 {
      assert b.End() - diff == b.start + |b.data| - diff && b.data[|b.data| - diff..]
          == b.data[b.End() - diff - b.start..];
      OwnBytesDropped(bs, k, b.End() - diff);
      OwnPlace(bs, k, b.End() - diff);
    }
  }

  lemma {:induction false} OwnPlace(bs: seq<Block>, k: nat, n: nat)
    requires Separated(bs) && k < |bs| && bs[k].start < n < bs[k].End()
    ensures PlaceAfter(bs, n, bs[k].data[n - bs[k].start..], k) == Some(k)
  {
    if k > 0 {
      SeparatedOrder(bs, k);
      assert bs[1..][k - 1] == bs[k];
      SeparatedTail(bs);
      OwnPlace(bs[1..], k - 1, n);
    }
  }

  /** Head first, the response behind the chunk is listed and a sweep can find it; tail first, it is gone. */
  lemma ResponseLost()
    ensures FlowOf(Run([ARRIVE_HEAD, ARRIVE_TAIL]), FLOW) == [Block(8, TAIL.payload[4..], true)]
    ensures FlowOf(Run([ARRIVE_TAIL, ARRIVE_HEAD]), FLOW) == []
  {
    hide Arrive;
    var e1, e2 := ARRIVE_HEAD, ARRIVE_TAIL;
    assert [e1, e2][..1] == [e1] && [e2, e1][..1] == [e2] && [e1][..0] == [] && [e2][..0] == [];
    TailArrives();
    TailLast(Arrive(INITIAL, HEAD));
    HeadLast(Run([e2]));
  }

  lemma TailLast(st: State)
    requires st == Arrive(INITIAL, HEAD)
    ensures FlowOf(Arrive(st, TAIL), FLOW) == [Block(8, TAIL.payload[4..], true)]
  {
    hide Fill, WithId;
    MarkArrives(INITIAL, 0);
    var st1 := HeadFill(INITIAL);
    assert st == st1;
    assert Lookup(st.index[FLOW], 4) == Some(ChunkInfo(CHUNK, 0, 8));
    assert |TAIL.payload| == 41 && Surplus(0, 8, 4, 41) == 37;
  }

  lemma HeadLast(st: State)
    requires st == INITIAL.(flows := map[FLOW := [Block(4, TAIL.payload, true)]])
    ensures FlowOf(Arrive(st, HEAD), FLOW) == []
  {
    hide Fill, WithId, FillAndSend, NodeAfterFill;
    MarkArrives(st, 0);
    var st1 := HeadFill(st);
    TailCandidate(st1);
    assert Without([Block(4, TAIL.payload, true)], 0) == [];
  }

  lemma TailCandidate(st: State)
    requires st.flows == map[FLOW := [Block(4, TAIL.payload, true)]] && !st.fault
    requires st.chunks == map[CHUNK := Chunk(8, map[FLOW := 0], [Block(0, MARK, true)])]
    ensures var st1 := FillAndSend(st, CHUNK, FLOW, 4, TAIL.payload);
            st1.flows == st.flows && !st1.fault && CHUNK in st1.chunks && st1.chunks[CHUNK].starts == map[FLOW := 0]
    ensures NodeAfterFill(st, CHUNK, FLOW, 0) == Some(0)
  {
    hide Fill;
    var bs := [Block(4, TAIL.payload, true)];
    assert |TAIL.payload| == 41 && Surplus(0, 8, 4, 41) == 37;
    OwnBytesDropped(bs, 0, 8);
    assert ReturnSurplus(st, FLOW, 4, TAIL.payload, 37) == st;
  }

  // ---------- one chunk at two places of a flow ----------

  lemma RestartFirst()
    ensures var st1 := Arrive(INITIAL, Packet(FLOW, 100, MARK, Some(Hit(CHUNK, 0))));
            && st1.index == map[FLOW := [ChunkInfo(CHUNK, 100, 8)]]
            && CHUNK in st1.chunks && st1.chunks[CHUNK].length == 8 && st1.chunks[CHUNK].starts == map[FLOW := 100]
            && !st1.fault
  {
    hide Fill;
    MarkArrives(INITIAL, 100);
    assert FragmentLength(MARK) == 8;
    FitsWithoutSurplus(Register(INITIAL, FLOW, CHUNK, 100, 8), FLOW, CHUNK, 100, MARK);
  }

  lemma RestartSecond(st1: State)
    requires st1.index == map[FLOW := [ChunkInfo(CHUNK, 100, 8)]]
    requires CHUNK in st1.chunks && st1.chunks[CHUNK].length == 8 && st1.chunks[CHUNK].starts == map[FLOW := 100]
    requires !st1.fault
    ensures var st2 := Arrive(st1, Packet(FLOW, 0, MARK, Some(Hit(CHUNK, 0))));
            && st2.index == st1.index
            && CHUNK in st2.chunks && st2.chunks[CHUNK].length == 8 && st2.chunks[CHUNK].starts == map[FLOW := 0]
            && !st2.fault
  {
    hide Fill;
    MarkArrives(st1, 0);
    assert FragmentLength(MARK) == 8;
    assert st1.index[FLOW][0].id == CHUNK;
    var reg := Register(st1, FLOW, CHUNK, 0, 8);
    assert reg.chunks[CHUNK].starts == map[FLOW := 0];
    FitsWithoutSurplus(reg, FLOW, CHUNK, 0, MARK);
  }

  lemma LatePacketFaults(st2: State)
    requires st2.index == map[FLOW := [ChunkInfo(CHUNK, 100, 8)]]
    requires CHUNK in st2.chunks && st2.chunks[CHUNK].length == 8 && st2.chunks[CHUNK].starts == map[FLOW := 0]
    ensures Arrive(st2, Packet(FLOW, 104, [1, 1, 1, 1], None)).fault
  {
    hide Fill, Insert;
    assert Lookup(st2.index[FLOW], 104) == Some(ChunkInfo(CHUNK, 100, 8));
    assert Surplus(0, 8, 104, 4) == 100;
  }

  /** Why a flow must carry a chunk at one place only: the index keeps the first start, the chunk entry the last, and a
      late packet of the first copy is clipped against the wrong end, by more bytes than it has. */
  lemma RestartedChunkFaults()
    ensures var es := [Arrival(Packet(FLOW, 100, MARK, Some(Hit(CHUNK, 0)))),
                       Arrival(Packet(FLOW, 0, MARK, Some(Hit(CHUNK, 0)))),
                       Arrival(Packet(FLOW, 104, [1, 1, 1, 1], None))];
            Run(es).fault
  {
    hide Arrive;
    var p1, p2 := Packet(FLOW, 100, MARK, Some(Hit(CHUNK, 0))), Packet(FLOW, 0, MARK, Some(Hit(CHUNK, 0)));
    var p3 := Packet(FLOW, 104, [1, 1, 1, 1], None);
    var e1, e2, e3 := Arrival(p1), Arrival(p2), Arrival(p3);
    assert [e1, e2, e3][..2] == [e1, e2] && [e1, e2][..1] == [e1] && [e1][..0] == [];
    RestartFirst();
    assert Run([e1]) == Arrive(INITIAL, p1);
    RestartSecond(Run([e1]));
    assert Run([e1, e2]) == Arrive(Run([e1]), p2);
    LatePacketFaults(Run([e1, e2]));
  }
}
