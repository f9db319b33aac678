/** What the sniffer does get done: marks are filed, bytes reach their chunk, and a chunk carried in full is sent. */
module Progress {
  import opened Blocks
  import opened ChunkFill
  import opened FlowInsert
  import opened Grep
  import opened SweepTruth
  import opened Engine
  import opened Safety
  import opened SearchTruth

  /** The flow's index says that the flow carries chunk c from start on. */
  ghost predicate Names(st: State, f: FlowKey, c: ChunkId, start: nat, length: nat) {
    f in st.index && ChunkInfo(c, start, length) in st.index[f]
  }

  /** The chunk holds a byte at its position m. */
  ghost predicate Holding(st: State, c: ChunkId, m: int) {
    c in st.chunks && At(st.chunks[c].blocks, m).Some?
  }

  // ---------- the index ----------

  lemma SendIndex(st: State, c: ChunkId, f: FlowKey, n: nat, p: seq<Byte>)
    ensures FillAndSend(st, c, f, n, p).index == st.index
    ensures forall d :: d != c ==>
              && (d in FillAndSend(st, c, f, n, p).chunks <==> d in st.chunks)
              && (d in st.chunks ==> FillAndSend(st, c, f, n, p).chunks[d] == st.chunks[d])
  {
    hide Fill, Insert, Surplus, Completes;
  }

  lemma {:induction false} SearchIndex(st: State, c: ChunkId, f: FlowKey, k: nat)
    ensures Candidates(st, c, f, k).index == st.index
    ensures forall d :: d != c ==>
              && (d in Candidates(st, c, f, k).chunks <==> d in st.chunks)
              && (d in st.chunks ==> Candidates(st, c, f, k).chunks[d] == st.chunks[d])
    decreases |FlowOf(st, f)| - k
  {
    hide FillAndSend, NodeAfterFill;
    if c in st.chunks && f in st.chunks[c].starts && k < |FlowOf(st, f)| {
      if Candidate(st.chunks[c], f, FlowOf(st, f)[k]) {
        var b := FlowOf(st, f)[k];
        var st1, place := FillAndSend(st, c, f, b.start, b.data), NodeAfterFill(st, c, f, k);
        SendIndex(st, c, f, b.start, b.data);
        if !st1.fault && place.Some? {
          FillKeepsRest(st, c, f, k);
          assert |FlowOf(st1, f)[place.value + 1..]| == |FlowOf(st, f)[k + 1..]|;
          SearchIndex(st1.(flows := st1.flows[f := Without(FlowOf(st1, f), place.value)]), c, f, place.value);
        }
      } else {
        SearchIndex(st, c, f, k + 1);
      }
    }
  }

  lemma FrontIndex(st: State, f: FlowKey, n: nat, p: seq<Byte>)
    ensures Front(st, f, n, p).index == st.index
  {
    hide FillAndSend, Insert;
    if p != [] && f in st.index && Lookup(st.index[f], n).Some? {
      SendIndex(st, Lookup(st.index[f], n).value.id, f, n, p);
    }
  }

  lemma WithIdIndex(st: State, f: FlowKey, c: ChunkId, n: nat, p: seq<Byte>)
    requires |p| >= 4
    ensures WithId(st, f, c, n, p).index == Register(st, f, c, n, FragmentLength(p)).index
    ensures forall d :: d != c ==>
              && (d in WithId(st, f, c, n, p).chunks <==> d in st.chunks)
              && (d in st.chunks ==> WithId(st, f, c, n, p).chunks[d] == st.chunks[d])
  {
    hide FillAndSend, Candidates, FragmentLength, AddToIndex;
    var st1 := Register(st, f, c, n, FragmentLength(p));
    SendIndex(st1, c, f, n, p);
    SearchIndex(FillAndSend(st1, c, f, n, p), c, f, 0);
  }

  lemma {:induction false} SweepTables(st: State, order: seq<FlowKey>, stray: (FlowKey, nat, int) -> Byte)
    ensures var st1 := SweepFlows(st, order, stray); st1.index == st.index && st1.chunks == st.chunks
    decreases |order|
  {
    if order != [] {
      SweepTables(SweepFlow(st, order[0], stray), order[1..], stray);
    }
  }

  /** Registering files the chunk, keeps what was filed, and files nothing else. */
  lemma RegisterFiles(st: State, f: FlowKey, c: ChunkId, n: nat, length: nat, g: FlowKey, info: ChunkInfo)
    ensures var now := Register(st, f, c, n, length).index;
            && f in now && Indexed(now[f], c)
            && (g in st.index && info in st.index[g] ==> g in now && info in now[g])
            && (g in now && info in now[g] ==>
                  (g in st.index && info in st.index[g]) || (g == f && info == ChunkInfo(c, n, length)))
  {
    var now: map<FlowKey, seq<ChunkInfo>> := Register(st, f, c, n, length).index;
    if f !in st.index {
      assert now[f][0].id == c;
    } else if !Indexed(st.index[f], c) {
      assert now[f][|st.index[f]|].id == c;
    }
  }

  /** What is filed stays filed, whatever happens. */
  lemma NamesStay(st: State, e: Event, g: FlowKey, info: ChunkInfo)
    requires Acceptable(e) && g in st.index && info in st.index[g]
    ensures g in Step(st, e).index && info in Step(st, e).index[g]
  {
    hide Front, WithId, Register, SweepFlows, FragmentLength;
    match e
    case Sweep(order, stray) => SweepTables(st, order, stray);
    case Arrival(pkt) =>
      match pkt.hit
      case None => FrontIndex(st, pkt.flow, pkt.n, pkt.payload);
      case Some(hit) =>
        var back := pkt.payload[hit.offset..];
        var st1 := Front(st, pkt.flow, pkt.n, pkt.payload[..hit.offset]);
        FrontIndex(st, pkt.flow, pkt.n, pkt.payload[..hit.offset]);
        WithIdIndex(st1, pkt.flow, hit.id, pkt.n + hit.offset, back);
        RegisterFiles(st1, pkt.flow, hit.id, pkt.n + hit.offset, FragmentLength(back), g, info);
  }

  /** Only a packet of the flow with the chunk's mark files the chunk. */
  lemma NamesCome(st: State, e: Event, g: FlowKey, info: ChunkInfo)
    requires Acceptable(e) && g in Step(st, e).index && info in Step(st, e).index[g]
    requires g !in st.index || info !in st.index[g]
    ensures e.Arrival? && e.packet.flow == g && e.packet.hit.Some? && e.packet.hit.value.id == info.id
  {
    hide Front, WithId, Register, SweepFlows, FragmentLength;
    match e
    case Sweep(order, stray) => SweepTables(st, order, stray);
    case Arrival(pkt) =>
      match pkt.hit
      case None => FrontIndex(st, pkt.flow, pkt.n, pkt.payload);
      case Some(hit) =>
        var back := pkt.payload[hit.offset..];
        var st1 := Front(st, pkt.flow, pkt.n, pkt.payload[..hit.offset]);
        FrontIndex(st, pkt.flow, pkt.n, pkt.payload[..hit.offset]);
        WithIdIndex(st1, pkt.flow, hit.id, pkt.n + hit.offset, back);
        RegisterFiles(st1, pkt.flow, hit.id, pkt.n + hit.offset, FragmentLength(back), g, info);
  }

  /** In a state that tells the truth, what is filed under a chunk is its place and length. */
  lemma FiledTruly(w: World, st: State, f: FlowKey, info: ChunkInfo, tainted: iset<Place>)
    requires Inv(w, st, tainted) && f in st.index && info in st.index[f]
    ensures info == ChunkInfo(info.id, w.place(f, info.id), w.len(info.id))
    ensures info.id in st.chunks && f in st.chunks[info.id].starts
    ensures st.chunks[info.id].starts[f] == info.start && st.chunks[info.id].length == info.length
  {
    var i :| 0 <= i < |st.index[f]| && st.index[f][i] == info;
    assert InfoOk(st, f, st.index[f][i]) && ChunkOk(w, info.id, st.chunks[info.id]);
  }

  /** After a packet with a chunk's mark, the flow's index names the chunk with its place and length. */
  lemma MarkNames(w: World, st: State, pkt: Packet, tainted: iset<Place>)
    requires Inv(w, st, tainted) && Truthful(w, pkt) && pkt.hit.Some?
    requires FirstSeen(st, pkt) ==> Unharmed(st, pkt, tainted)
    ensures var c := pkt.hit.value.id;
            Names(Arrive(st, pkt), pkt.flow, c, w.place(pkt.flow, c), w.len(c))
  {
    hide Front, WithId, Register, Inv, Truthful, Unharmed, FirstSeen, FragmentLength;
    var hit, f := pkt.hit.value, pkt.flow;
    MarkedShape(w, pkt, hit);
    ArriveInv(w, st, pkt, tainted);
    ArriveValue(st, pkt, hit);
    var back := pkt.payload[hit.offset..];
    var st1 := Front(st, f, pkt.n, pkt.payload[..hit.offset]);
    WithIdIndex(st1, f, hit.id, pkt.n + hit.offset, back);
    RegisterFiles(st1, f, hit.id, pkt.n + hit.offset, FragmentLength(back), f, ChunkInfo(hit.id, 0, 0));
    var now := Arrive(st, pkt);
    var i :| 0 <= i < |now.index[f]| && now.index[f][i].id == hit.id;
    FiledTruly(w, now, f, now.index[f][i], tainted);
  }

  // ---------- bytes held stay held ----------

  lemma FillMore(bs: seq<Block>, n: nat, p: seq<Byte>, pos: int)
    requires Separated(bs) && p != [] && At(bs, pos).Some?
    ensures At(Fill(bs, n, p).blocks, pos).Some?
  {
    hide Fill, At;
    var j := FirstReachedExists(bs, n);
    FillCoverage(bs, n, p, j, pos);
  }

  lemma {:induction false} TakeAllMore(blocks: seq<Block>, s: seq<Block>, start: nat, length: nat, pos: int)
    requires Separated(blocks) && At(blocks, pos).Some? && forall i :: 0 <= i < |s| ==> s[i].data != []
    ensures At(TakeAll(blocks, s, start, length), pos).Some?
    decreases |s|
  {
    hide Fill, At;
    if s != [] {
      assert forall i :: 0 < i < |s| ==> s[i] == s[1..][i - 1];
      if InRange(s[0], start, length) {
        var n, q := s[0].start - start, SearchTruth.Inside(s[0], start, length);
        FillMore(blocks, n, q, pos);
        FillShape(blocks, n, q);
        TakeAllMore(Fill(blocks, n, q).blocks, s[1..], start, length, pos);
      } else {
        TakeAllMore(blocks, s[1..], start, length, pos);
      }
    }
  }

  lemma SendHolds(w: World, st: State, d: ChunkId, f: FlowKey, n: nat,
                  p: seq<Byte>, c: ChunkId, m: int, tainted: iset<Place>)
    requires Tables(w, st, tainted) && InChunk(w, st, d, f, n, p, tainted) && Holding(st, c, m)
    ensures Holding(FillAndSend(st, d, f, n, p), c, m)
  {
    hide Fill, Insert, At, Surplus, ClipFill, Offers, InWindow;
    if d == c {
      assert ChunkOk(w, c, st.chunks[c]);
      ClipFillValue(w, st, c, f, n, p, tainted);
      ClipOffers(w, st, c, f, n, p, tainted);
      FillMore(st.chunks[c].blocks, n - st.chunks[c].starts[f], Clip(st.chunks[c], f, n, p), m);
    } else {
      SendIndex(st, d, f, n, p);
    }
  }

  lemma FrontHolds(w: World, st: State, f: FlowKey, n: nat, p: seq<Byte>, c: ChunkId, m: int, tainted: iset<Place>)
    requires Inv(w, st, tainted) && InWindow(w, f, n, n + |p|) && Offers(n, p, OfStream(w, f)) && Holding(st, c, m)
    ensures Holding(Front(st, f, n, p), c, m)
  {
    hide Insert, FillAndSend, At, InWindow, Offers;
    if p != [] && f in st.index && Lookup(st.index[f], n).Some? {
      var i := LookupSound(st.index[f], n);
      assert InfoOk(st, f, st.index[f][i]);
      TrulyInChunk(w, st, st.index[f][i].id, f, n, p, tainted);
      SendHolds(w, st, st.index[f][i].id, f, n, p, c, m, tainted);
    }
  }

  /** The list is ready to be searched for a chunk that has just been registered and filled. */
  lemma SearchReady(w: World, st: State, c: ChunkId, f: FlowKey, n: nat, p: seq<Byte>, tainted: iset<Place>)
    requires Inv(w, st, tainted) && |p| >= 4 && c !in st.chunks && InWindow(w, f, n, n + |p|)
    requires Offers(n, p, OfStream(w, f))
    requires n == w.place(f, c) && FragmentLength(p) == w.len(c) && 0 < w.len(c) <= |w.record(c)| && Carried(w, f, c)
    ensures var st2 := FillAndSend(Register(st, f, c, n, w.len(c)), c, f, n, p);
            && c in st2.chunks && f in st2.chunks[c].starts && Separated(st2.chunks[c].blocks)
            && st2.chunks[c].blocks == [Block(0, if |p| > w.len(c) then p[..w.len(c)] else p, true)]
            && (f in st2.flows ==> Searching(w, st2, c, f, n, w.len(c)))
            && (|p| <= w.len(c) ==> st2.flows == st.flows)
  {
    hide Insert, FillAndSend, Surplus, InChunk, Fill, Register, FragmentLength;
    RegisterInv(w, st, f, c, tainted);
    MarkedInChunk(w, st, f, c, n, p, tainted);
    var st1 := Register(st, f, c, n, w.len(c));
    RegisterEntry(st, f, c, n, w.len(c));
    FirstFill(w, st1, f, c, n, p, tainted);
    SurplusExact(n, w.len(c), n, |p|);
    var diff := Surplus(n, w.len(c), n, |p|);
    assert diff == 0 ==> p[..|p| - diff] == p;
    FillAndSendInv(w, st1, c, f, n, p, tainted);
    var st2 := FillAndSend(st1, c, f, n, p);
    assert ChunkOk(w, c, st2.chunks[c]);
    assert f in st2.flows ==> FlowOk(w, f, st2.flows[f], tainted);
  }

  /** The search keeps what the chunk holds. */
  lemma SearchHolds(w: World, st: State, c: ChunkId, f: FlowKey, start: nat, length: nat, m: int)
    requires f in st.flows ==> Searching(w, st, c, f, start, length)
    requires c in st.chunks && Separated(st.chunks[c].blocks) && Holding(st, c, m)
    ensures Holding(Candidates(st, c, f, 0), c, m)
  {
    hide At, FillAndSend, NodeAfterFill, InWindow;
    if f in st.flows {
      assert st.flows[f][0..] == st.flows[f];
      SearchTakes(w, st, c, f, start, length, 0);
      TakeAllMore(st.chunks[c].blocks, st.flows[f], start, length, m);
    }
  }

  lemma WithIdHolds(w: World, st: State, f: FlowKey, d: ChunkId, n: nat,
                    p: seq<Byte>, c: ChunkId, m: int, tainted: iset<Place>)
    requires Inv(w, st, tainted) && |p| >= 4 && InWindow(w, f, n, n + |p|) && Offers(n, p, OfStream(w, f))
    requires n == w.place(f, d) && FragmentLength(p) == w.len(d) && 0 < w.len(d) <= |w.record(d)| && Carried(w, f, d)
    requires Holding(st, c, m)
    ensures Holding(WithId(st, f, d, n, p), c, m)
  {
    hide Insert, FillAndSend, At, FragmentLength, Candidates, InChunk, AddToIndex;
    if c == d {
      RegisterInv(w, st, f, c, tainted);
      MarkedInChunk(w, st, f, c, n, p, tainted);
      SendHolds(w, Register(st, f, c, n, w.len(c)), c, f, n, p, c, m, tainted);
    } else {
      WithIdIndex(st, f, d, n, p);
    }
  }

  /** Whatever happens, a chunk keeps the positions it holds. */
  lemma HeldStays(w: World, st: State, e: Event, c: ChunkId, m: int, tainted: iset<Place>)
    requires Inv(w, st, tainted) && Acceptable(e) && Holding(st, c, m)
    requires e.Arrival? ==> Truthful(w, e.packet)
    ensures Holding(Step(st, e), c, m)
  {
    hide Inv, Front, WithId, SweepFlows, FragmentLength, At, InWindow, Carried, Offers;
    match e
    case Sweep(order, stray) => SweepTables(st, order, stray);
    case Arrival(pkt) =>
      match pkt.hit
      case None => FrontHolds(w, st, pkt.flow, pkt.n, pkt.payload, c, m, tainted);
      case Some(hit) =>
        var f, front, back := pkt.flow, pkt.payload[..hit.offset], pkt.payload[hit.offset..];
        assert pkt == Packet(f, pkt.n, pkt.payload, Some(hit));
        TruthfulParts(w, f, pkt.n, pkt.payload, hit);
        FrontHolds(w, st, f, pkt.n, front, c, m, tainted);
        FrontInv(w, st, f, pkt.n, front, tainted);
        WithIdHolds(w, Front(st, f, pkt.n, front), f, hit.id, pkt.n + hit.offset, back, c, m, tainted);
  }

  // ---------- a packet behind the mark ----------

  /** No other chunk filed for the flow has n inside its range, behind its mark. */
  ghost predicate Alone(st: State, f: FlowKey, c: ChunkId, n: nat) {
    forall info :: f in st.index && info in st.index[f] && info.start < n < info.start + info.length ==> info.id == c
  }

  /** The part of a packet at n that lies in front of end. */
  function UpTo(p: seq<Byte>, n: nat, end: nat): seq<Byte>
    requires n < end
  {
    if n + |p| > end then p[..end - n] else p
  }

  lemma {:induction false} LookupFinds(infos: seq<ChunkInfo>, info: ChunkInfo, n: nat)
    requires info in infos && info.start < n < info.start + info.length
    ensures Lookup(infos, n).Some? && Lookup(infos, n).value in infos
    ensures var found := Lookup(infos, n).value; found.start < n < found.start + found.length
  {
    if !(infos[0].start < n < infos[0].start + infos[0].length) {
      LookupFinds(infos[1..], info, n);
    }
  }

  /** Bytes of the flow that start inside a filed chunk's range are filled into that chunk. */
  lemma LateFill(w: World, st: State, f: FlowKey, c: ChunkId, start: nat,
                 length: nat, n: nat, p: seq<Byte>, tainted: iset<Place>)
    requires Inv(w, st, tainted) && p != [] && InWindow(w, f, n, n + |p|) && Offers(n, p, OfStream(w, f))
    requires Names(st, f, c, start, length) && start < n < start + length && Alone(st, f, c, n)
    ensures c in st.chunks && c in Front(st, f, n, p).chunks
    ensures Front(st, f, n, p).chunks[c].blocks
         == Fill(st.chunks[c].blocks, n - start, UpTo(p, n, start + length)).blocks
  {
    hide Fill, Insert, InWindow, Offers, Surplus;
    LookupFinds(st.index[f], ChunkInfo(c, start, length), n);
    var info := Lookup(st.index[f], n).value;
    FiledTruly(w, st, f, info, tainted);
    FiledTruly(w, st, f, ChunkInfo(c, start, length), tainted);
    TrulyInChunk(w, st, c, f, n, p, tainted);
    ClipFillValue(w, st, c, f, n, p, tainted);
    var diff := Surplus(start, length, n, |p|);
    LateSurplus(w, f, start, length, n, |p|);
    assert diff == 0 ==> p[..|p| - diff] == p;
    assert p[..|p| - diff] == UpTo(p, n, start + length);
    assert ReturnSurplus(st, f, n, p, diff).chunks == st.chunks;
  }

  lemma LateSurplus(w: World, f: FlowKey, start: nat, length: nat, n: nat, size: nat)
    requires w.base(f) <= start < n < start + length < WRAP && length < 0x8000_0000 && InWindow(w, f, n, n + size)
    ensures Surplus(start, length, n, size) == if n + size > start + length then n + size - (start + length) else 0
  {
    SurplusExact(start, length, n, size);
  }

  /** So the chunk holds what it held, and of the packet what the fill does not cut, exactly. */
  lemma LateHeld(w: World, st: State, f: FlowKey, c: ChunkId, start: nat, length: nat,
                 n: nat, p: seq<Byte>, j: nat, m: int, tainted: iset<Place>)
    requires Inv(w, st, tainted) && p != [] && InWindow(w, f, n, n + |p|) && Offers(n, p, OfStream(w, f))
    requires Names(st, f, c, start, length) && start < n < start + length && Alone(st, f, c, n)
    requires c in st.chunks && j <= |st.chunks[c].blocks| && FirstReached(st.chunks[c].blocks, n - start, j)
    ensures Holding(Front(st, f, n, p), c, m) <==>
              Holding(st, c, m) ||
              n - start <= m < Cut(st.chunks[c].blocks, n - start, UpTo(p, n, start + length), j)
  {
    hide Fill, At, Front, InWindow, Offers, FirstReached, Cut;
    LateFill(w, st, f, c, start, length, n, p, tainted);
    assert ChunkOk(w, c, st.chunks[c]);
    FillCoverage(st.chunks[c].blocks, n - start, UpTo(p, n, start + length), j, m);
  }

  /** Nothing of a packet is cut that brings no position the chunk holds. */
  lemma LateFresh(w: World, st: State, f: FlowKey, c: ChunkId, start: nat,
                  length: nat, n: nat, p: seq<Byte>, m: int, tainted: iset<Place>)
    requires Inv(w, st, tainted) && p != [] && InWindow(w, f, n, n + |p|) && Offers(n, p, OfStream(w, f))
    requires Names(st, f, c, start, length) && start < n < start + length && Alone(st, f, c, n)
    requires forall q :: n <= start + q < n + |p| && q < length ==> !Holding(st, c, q)
    requires n <= start + m < n + |p| && m < length
    ensures Holding(Front(st, f, n, p), c, m)
  {
    hide Fill, At, Front, InWindow, Offers, Alone, Names;
    LateFill(w, st, f, c, start, length, n, p, tainted);
    assert ChunkOk(w, c, st.chunks[c]);
    forall q | n - start <= q < n - start + |UpTo(p, n, start + length)|
      ensures At(st.chunks[c].blocks, q).None?
    {
      assert !Holding(st, c, q);
    }
    FreshFill(st.chunks[c].blocks, n - start, UpTo(p, n, start + length), m);
  }

  // ---------- bytes outside the filed ranges ----------

  /** A segment that overlaps no block is stored as a whole. */
  lemma {:induction false} InsertFresh(bs: seq<Block>, n: nat, p: seq<Byte>, pos: int)
    requires forall i :: 0 <= i < |bs| ==> bs[i].End() <= n || n + |p| <= bs[i].start
    requires n <= pos < n + |p|
    ensures Held(Insert(bs, n, p), pos)
  {
    var r := Insert(bs, n, p);
    if bs == [] || n <= bs[0].End() {
      assert r[0].Covers(pos);
    } else {
      InsertFresh(bs[1..], n, p, pos);
      var j :| 0 <= j < |r[1..]| && r[1..][j].Covers(pos);
      assert r[j + 1].Covers(pos);
    }
  }

  /** The flow's list overlaps nothing from n on, for size bytes. */
  ghost predicate ListFree(st: State, f: FlowKey, n: nat, size: nat) {
    forall i :: 0 <= i < |FlowOf(st, f)| ==> FlowOf(st, f)[i].End() <= n || n + size <= FlowOf(st, f)[i].start
  }

  /** The flow's list, or a chunk that the flow carries, holds the position. */
  ghost predicate Pooled(st: State, f: FlowKey, pos: int) {
    || Held(FlowOf(st, f), pos)
    || exists c :: c in st.chunks && f in st.chunks[c].starts && Holding(st, c, pos - st.chunks[c].starts[f])
  }

  /** A chunk that the flow carries from start on holds nothing from n on, for size bytes. */
  ghost predicate ChunksFree(st: State, f: FlowKey, n: nat, size: nat) {
    forall c, m :: c in st.chunks && f in st.chunks[c].starts && n <= st.chunks[c].starts[f] + m < n + size ==>
                     !Holding(st, c, m)
  }

  /** No byte in front of a mark is lost: what is not pooled yet is pooled afterwards, surplus included. */
  lemma FrontPools(w: World, st: State, f: FlowKey, n: nat, p: seq<Byte>, pos: int, tainted: iset<Place>)
    requires Inv(w, st, tainted) && InWindow(w, f, n, n + |p|) && Offers(n, p, OfStream(w, f))
    requires ListFree(st, f, n, |p|) && ChunksFree(st, f, n, |p|) && n <= pos < n + |p|
    ensures Pooled(Front(st, f, n, p), f, pos)
  {
    hide Insert, FillAndSend, At, InWindow, Offers;
    if f in st.index && Lookup(st.index[f], n).Some? {
      RangePools(w, st, f, Lookup(st.index[f], n).value, n, p, pos, tainted);
    } else {
      InsertFresh(FlowOf(st, f), n, p, pos);
    }
  }

  lemma RangePools(w: World, st: State, f: FlowKey, info: ChunkInfo,
                   n: nat, p: seq<Byte>, pos: int, tainted: iset<Place>)
    requires Inv(w, st, tainted) && InWindow(w, f, n, n + |p|) && Offers(n, p, OfStream(w, f))
    requires ListFree(st, f, n, |p|) && ChunksFree(st, f, n, |p|) && n <= pos < n + |p|
    requires f in st.index && Lookup(st.index[f], n) == Some(info)
    ensures Pooled(FillAndSend(st, info.id, f, n, p), f, pos)
  {
    hide Insert, Fill, At, InWindow, Offers, Surplus;
    var i := LookupSound(st.index[f], n);
    var c := info.id;
    FiledTruly(w, st, f, info, tainted);
    TrulyInChunk(w, st, c, f, n, p, tainted);
    ClipFillValue(w, st, c, f, n, p, tainted);
    LateSurplus(w, f, info.start, info.length, n, |p|);
    var diff := Surplus(info.start, info.length, n, |p|);
    var st1 := FillAndSend(st, c, f, n, p);
    if pos < info.start + info.length {
      assert ChunkOk(w, c, st.chunks[c]);
      forall q | n - info.start <= q < n - info.start + |p[..|p| - diff]|
        ensures At(st.chunks[c].blocks, q).None?
      {
        assert !Holding(st, c, q);
      }
      FreshFill(st.chunks[c].blocks, n - info.start, p[..|p| - diff], pos - info.start);
      assert Holding(st1, c, pos - st1.chunks[c].starts[f]);
    } else {
      SurplusPools(st, f, n, p, diff, pos);
    }
  }

  lemma SurplusPools(st: State, f: FlowKey, n: nat, p: seq<Byte>, diff: nat, pos: int)
    requires ListFree(st, f, n, |p|) && diff <= |p| && n + |p| - diff <= pos < n + |p|
    ensures Held(FlowOf(ReturnSurplus(st, f, n, p, diff), f), pos)
  {
    hide Insert;
    InsertFresh(FlowOf(st, f), n + |p| - diff, p[|p| - diff..], pos);
  }

  /** A fill that brings no held position loses nothing. */
  lemma FreshFill(bs: seq<Block>, n: nat, p: seq<Byte>, pos: int)
    requires Separated(bs) && forall q :: n <= q < n + |p| ==> At(bs, q).None?
    requires n <= pos < n + |p|
    ensures At(Fill(bs, n, p).blocks, pos).Some?
  {
    hide Fill, At;
    var j := FirstReachedExists(bs, n);
    FillCoverage(bs, n, p, j, pos);
    if j < |bs| && n < bs[j].start && bs[j].End() < n + |p| {
      AtBlock(bs, j, bs[j].start);
    }
  }

  // ---------- the packet with the mark ----------

  /** A new chunk holds what its first packet brings, and what the flow's list has in blocks behind the mark. */
  lemma MarkHolds(w: World, st: State, pkt: Packet, hit: Hit, m: int, tainted: iset<Place>)
    requires Inv(w, st, tainted) && Truthful(w, pkt) && pkt.hit == Some(hit) && hit.id !in st.chunks
    requires 0 <= m < w.len(hit.id)
    requires pkt.n + hit.offset + m < pkt.n + |pkt.payload| || ListHolds(FlowOf(st, pkt.flow), pkt.n + hit.offset, m)
    ensures Holding(Arrive(st, pkt), hit.id, m)
  {
    hide Front, FillAndSend, Register, Candidates, Truthful, Inv, Rising, Carried, InWindow, Offers, At, FragmentLength;
    MarkedShape(w, pkt, hit);
    var c, f, front, back := hit.id, pkt.flow, pkt.payload[..hit.offset], pkt.payload[hit.offset..];
    var n := pkt.n + hit.offset;
    ArriveValue(st, pkt, hit);
    TruthfulParts(w, f, pkt.n, pkt.payload, hit);
    FrontInv(w, st, f, pkt.n, front, tainted);
    FrontChunks(st, f, pkt.n, front, c);
    var st1 := Front(st, f, pkt.n, front);
    SearchReady(w, st1, c, f, n, back, tainted);
    var st2 := FillAndSend(Register(st1, f, c, n, w.len(c)), c, f, n, back);
    if m < |back| {
      AtBlock(st2.chunks[c].blocks, 0, m);
      SearchHolds(w, st2, c, f, n, w.len(c), m);
    } else {
      var bs := FlowOf(st, f);
      var i :| 0 <= i < |bs| && n < bs[i].start && bs[i].Covers(n + m);
      FrontKeeps(w, st, f, pkt.n, front, i, tainted);
      var j :| 0 <= j < |FlowOf(st1, f)| && FlowOf(st1, f)[j] == bs[i];
      SearchBrings(w, st2, c, f, n, back, j, m);
    }
  }

  /** In a list with rising starts, a block that starts behind the mark has the chunk's position m. */
  ghost predicate ListHolds(bs: seq<Block>, start: nat, m: int) {
    Rising(bs) && exists i :: 0 <= i < |bs| && start < bs[i].start && bs[i].Covers(start + m)
  }

  lemma SearchBrings(w: World, st: State, c: ChunkId, f: FlowKey, start: nat, p: seq<Byte>, i: nat, m: int)
    requires Searching(w, st, c, f, start, w.len(c)) && st.chunks[c].blocks == [Block(0, p, true)] && p != []
    requires Rising(st.flows[f]) && i < |st.flows[f]| && start < st.flows[f][i].start
    requires st.flows[f][i].Covers(start + m) && m < w.len(c)
    ensures Holding(Candidates(st, c, f, 0), c, m)
  {
    hide Candidates, InWindow, TakeAll, At;
    var bs := st.flows[f];
    assert bs[0..] == bs && InRange(bs[i], start, w.len(c));
    SearchTakes(w, st, c, f, start, w.len(c), 0);
    TakeAllStores([Block(0, p, true)], bs, start, w.len(c), start + m);
  }

  // ---------- sweeps ----------

  /** A record among the parts has the byte at its position. */
  ghost predicate HandedOver(parts: seq<Part>, pos: int, b: Byte) {
    exists p :: p in parts && p.Extracted? && p.start <= pos < p.End() && p.record[pos - p.start] == b
  }

  lemma {:induction false} PartThere(parts: seq<Part>, from: nat, to: nat, pos: int) returns (p: Part)
    requires Tiles(parts, from, to) && from <= pos < to
    ensures p in parts && p.Start() <= pos < p.End()
    ensures p.Kept? ==> Held(KeptBlocks(parts), pos)
    ensures p.Extracted? ==> p in Records(parts)
  {
    p := parts[0];
    if pos < p.End() {
      if p.Kept? {
        assert KeptBlocks(parts)[0].Covers(pos);
      }
    } else {
      p := PartThere(parts[1..], parts[0].End(), to, pos);
      if p.Kept? {
        var k, t := KeptBlocks(parts), KeptBlocks(parts[1..]);
        var i :| 0 <= i < |t| && t[i].Covers(pos);
        assert k[|k| - |t| + i] == t[i];
      }
    }
  }

  /** The sweep of a block keeps each position of it, or hands its byte over in a record. */
  lemma BlockSweptPools(b: Block, stray: int -> Byte, pos: int)
    requires b.Covers(pos)
    ensures var s := SweepBlock(b, stray);
            Held(Left(s), pos) || HandedOver(Records(s.parts), pos, b.data[pos - b.start])
  {
    hide SweepBlock, KeptBlocks, Records;
    SweepConserves(b, stray);
    var s := SweepBlock(b, stray);
    if pos < s.rest.start {
      var p := PartThere(s.parts, b.start, s.rest.start, pos);
      if p.Kept? {
        HeldPart(KeptBlocks(s.parts), [], if s.rest.data == [] then [] else [s.rest], pos);
        assert [] + KeptBlocks(s.parts) == KeptBlocks(s.parts);
      } else {
        var i :| 0 <= i < |s.parts| && s.parts[i] == p;
        assert TakenFrom(s.parts[i], b);
        assert p.record[pos - p.start] == b.data[p.start - b.start..p.End() - b.start][pos - p.start];
      }
    } else {
      assert [s.rest][0].Covers(pos);
      HeldPart([s.rest], KeptBlocks(s.parts), [], pos);
      assert KeptBlocks(s.parts) + [s.rest] + [] == Left(s);
    }
  }

  lemma HeldPart(bs: seq<Block>, before: seq<Block>, behind: seq<Block>, pos: int)
    requires Held(bs, pos)
    ensures Held(before + bs + behind, pos)
  {
    var i :| 0 <= i < |bs| && bs[i].Covers(pos);
    assert (before + bs + behind)[|before| + i] == bs[i];
  }

  /** So does the sweep of a list. */
  lemma {:induction false} ListSweptPools(bs: seq<Block>, stray: (nat, int) -> Byte, i: nat, j: nat, pos: int)
    requires i <= j < |bs| && bs[j].Covers(pos)
    ensures Held(SweepFrom(bs, stray, i), pos)
         || HandedOver(RecordsFrom(bs, stray, i), pos, bs[j].data[pos - bs[j].start])
    decreases |bs| - i
  {
    hide SweepBlock, Left, Records, Held;
    var first := SweepBlock(bs[i], OfNode(stray, i));
    if i == j {
      BlockSweptPools(bs[i], OfNode(stray, i), pos);
      if Held(Left(first), pos) {
        HeldPart(Left(first), [], SweepFrom(bs, stray, i + 1), pos);
        assert [] + Left(first) == Left(first);
      }
    } else {
      ListSweptPools(bs, stray, i + 1, j, pos);
      if Held(SweepFrom(bs, stray, i + 1), pos) {
        HeldPart(SweepFrom(bs, stray, i + 1), Left(first), [], pos);
        assert Left(first) + SweepFrom(bs, stray, i + 1) + [] == Left(first) + SweepFrom(bs, stray, i + 1);
      }
    }
  }

  /** A flow's sweep loses no byte: each position is still listed, or its byte has been handed over in a record. */
  lemma SweepPools(st: State, f: FlowKey, stray: (FlowKey, nat, int) -> Byte, j: nat, pos: int)
    requires f in st.flows && j < |st.flows[f]| && st.flows[f][j].Covers(pos)
    ensures var st1, b := SweepFlow(st, f, stray), st.flows[f][j];
            && st.pulled <= st1.pulled
            && (Held(FlowOf(st1, f), pos) || HandedOver(st1.pulled[|st.pulled|..], pos, b.data[pos - b.start]))
  {
    hide SweepFrom, RecordsFrom, Held, HandedOver;
    ListSweptPools(st.flows[f], OfFlow(stray, f), 0, j, pos);
  }

  /** A sweep leaves nothing unsearched on the flows it visits, and does nothing to the others. */
  lemma {:induction false} SweepVisits(st: State, order: seq<FlowKey>, stray: (FlowKey, nat, int) -> Byte, f: FlowKey)
    ensures var now := FlowOf(SweepFlows(st, order, stray), f);
            && (f in st.flows <==> f in SweepFlows(st, order, stray).flows)
            && if f in order then forall i :: 0 <= i < |now| ==> !now[i].modified else now == FlowOf(st, f)
    decreases |order|
  {
    hide SweepFrom, RecordsFrom;
    if order != [] {
      var g, rest := order[0], order[1..];
      var st1 := SweepFlow(st, g, stray);
      SweepVisits(st1, rest, stray, f);
      if g == f && f in st.flows {
        SweptSearched(st.flows[f], OfFlow(stray, f), 0);
      }
    }
  }

  /** So a sweep that visits each flow once loses no byte of any of them. */
  lemma {:induction false} SweepsPool(st: State, order: seq<FlowKey>,
                                      stray: (FlowKey, nat, int) -> Byte, f: FlowKey, j: nat, pos: int)
    requires forall i, k :: 0 <= i < k < |order| ==> order[i] != order[k]
    requires f in st.flows && j < |st.flows[f]| && st.flows[f][j].Covers(pos)
    ensures var st1, b := SweepFlows(st, order, stray), st.flows[f][j];
            && st.pulled <= st1.pulled
            && (Held(FlowOf(st1, f), pos) || HandedOver(st1.pulled[|st.pulled|..], pos, b.data[pos - b.start]))
    decreases |order|
  {
    hide SweepFrom, RecordsFrom, HandedOver;
    if order != [] {
      var g, rest := order[0], order[1..];
      var st1, b := SweepFlow(st, g, stray), st.flows[f][j];
      var end := SweepFlows(st1, rest, stray);
      PulledGrows(st1, rest, stray);
      if g != f {
        SweepsPool(st1, rest, stray, f, j, pos);
        HandedMore(st.pulled, st1.pulled, end.pulled, pos, b.data[pos - b.start]);
      } else {
        SweepPools(st, f, stray, j, pos);
        SweepVisits(st1, rest, stray, f);
        HandedMore(st.pulled, st1.pulled, end.pulled, pos, b.data[pos - b.start]);
      }
    }
  }

  lemma {:induction false} PulledGrows(st: State, order: seq<FlowKey>, stray: (FlowKey, nat, int) -> Byte)
    ensures st.pulled <= SweepFlows(st, order, stray).pulled
    decreases |order|
  {
    hide SweepFrom, RecordsFrom;
    if order != [] {
      PulledGrows(SweepFlow(st, order[0], stray), order[1..], stray);
    }
  }

  lemma HandedMore(a: seq<Part>, b: seq<Part>, c: seq<Part>, pos: int, x: Byte)
    requires a <= b <= c
    ensures HandedOver(b[|a|..], pos, x) || HandedOver(c[|b|..], pos, x) ==> HandedOver(c[|a|..], pos, x)
  {
    assert c[|a|..] == b[|a|..] + c[|b|..];
  }

  // ---------- what has not arrived is not held ----------

  predicate Brings(e: Event, f: FlowKey, pos: int) {
    e.Arrival? && e.packet.flow == f && e.packet.n <= pos < e.packet.n + |e.packet.payload|
  }

  predicate Marks(e: Event, f: FlowKey, c: ChunkId) {
    e.Arrival? && e.packet.flow == f && e.packet.hit.Some? && e.packet.hit.value.id == c
  }

  /** The two chunks' ranges on the flow do not overlap. */
  ghost predicate RangesApart(w: World, f: FlowKey, c: ChunkId, d: ChunkId) {
    w.place(f, d) + w.len(d) <= w.place(f, c) || w.place(f, c) + w.len(c) <= w.place(f, d)
  }

  /** Only flow f is seen to carry chunk c, and no other chunk that it is seen to carry overlaps it there. */
  ghost predicate SoleCarrier(w: World, es: seq<Event>, f: FlowKey, c: ChunkId) {
    forall e, g, d :: e in es && Marks(e, g, d) ==>
        (d == c ==> g == f) && (g == f && d != c ==> RangesApart(w, f, c, d))
  }

  /** The same traffic, but for one byte of the chunk. */
  ghost function Flipped(w: World, f: FlowKey, c: ChunkId, m: nat): World
    requires m < |w.record(c)|
  {
    var record, pos := w.record(c), w.place(f, c) + m;
    w.(stream := (g, q) => if g == f && q == pos then Wrong(record[m]) else w.stream(g, q),
       record := d => if d == c then record[m := Wrong(record[m])] else w.record(d))
  }

  /** A packet that does not bring the byte is truthful about both. */
  lemma TruthfulFlipped(w: World, f: FlowKey, c: ChunkId, m: nat, e: Event)
    requires m < w.len(c) <= |w.record(c)| && e.Arrival? && Truthful(w, e.packet) && !Brings(e, f, w.place(f, c) + m)
    requires forall g, d :: Marks(e, g, d) ==> (d == c ==> g == f) && (g == f && d != c ==> RangesApart(w, f, c, d))
    ensures Truthful(Flipped(w, f, c, m), e.packet)
  {
    var pkt, w2 := e.packet, Flipped(w, f, c, m);
    forall k | 0 <= k < |pkt.payload|
      ensures OfStream(w2, pkt.flow)(pkt.n + k, pkt.payload[k])
    {
      assert OfStream(w, pkt.flow)(pkt.n + k, pkt.payload[k]);
    }
    if pkt.hit.Some? {
      var d := pkt.hit.value.id;
      assert Marks(e, pkt.flow, d);
      assert Carried(w, pkt.flow, d);
      forall k | 0 <= k < w2.len(d) && k < |w2.record(d)|
        ensures w2.stream(pkt.flow, w2.place(pkt.flow, d) + k) == w2.record(d)[k]
      {
        assert w.stream(pkt.flow, w.place(pkt.flow, d) + k) == w.record(d)[k];
      }
    }
  }

  lemma HonestFlipped(w: World, es: seq<Event>, f: FlowKey, c: ChunkId, m: nat)
    requires AllAcceptable(es) && Honest(w, es) && SoleCarrier(w, es, f, c) && m < w.len(c) <= |w.record(c)|
    requires forall e :: e in es ==> !Brings(e, f, w.place(f, c) + m)
    ensures Honest(Flipped(w, f, c, m), es)
  {
    hide Run, TaintedAfter, Truthful, FirstSeen, Unharmed, Flipped, Brings, Marks, RangesApart;
    forall k | 0 <= k < |es| && es[k].Arrival?
      ensures Truthful(Flipped(w, f, c, m), es[k].packet)
    {
      assert es[k] in es;
      TruthfulFlipped(w, f, c, m, es[k]);
    }
  }

  /** A byte of the chunk that no packet of the flow has brought is not held: the run is honest about any other byte. */
  lemma NotBroughtNotHeld(w: World, es: seq<Event>, f: FlowKey, c: ChunkId, m: nat)
    requires AllAcceptable(es) && Honest(w, es) && SoleCarrier(w, es, f, c) && m < w.len(c) <= |w.record(c)|
    requires forall e :: e in es ==> !Brings(e, f, w.place(f, c) + m)
    ensures !Holding(Run(es), c, m)
  {
    hide Run, TaintedAfter, Honest, SoleCarrier, Brings, At;
    var w2, st := Flipped(w, f, c, m), Run(es);
    HonestFlipped(w, es, f, c, m);
    RunInv(w, es);
    RunInv(w2, es);
    if Holding(st, c, m) {
      assert ChunkOk(w, c, st.chunks[c]) && ChunkOk(w2, c, st.chunks[c]);
      HoldsAt(st.chunks[c].blocks, OfRecord(w, c), m);
      HoldsAt(st.chunks[c].blocks, OfRecord(w2, c), m);
    }
  }

  // ---------- runs ----------

  lemma HonestPrefix(w: World, es: seq<Event>, k: nat)
    requires AllAcceptable(es) && Honest(w, es) && k <= |es|
    ensures AllAcceptable(es[..k]) && Honest(w, es[..k])
  {
    hide Run, TaintedAfter, Unharmed, Carried, InWindow;
    var init := es[..k];
    forall i | 0 <= i < k && init[i].Arrival?
      ensures Truthful(w, init[i].packet)
      ensures FirstSeen(Run(init[..i]), init[i].packet) ==>
                Unharmed(Run(init[..i]), init[i].packet, TaintedAfter(init[..i]))
    {
      assert init[i] == es[i] && init[..i] == es[..i];
    }
  }

  lemma RunStep(es: seq<Event>, k: nat)
    requires AllAcceptable(es) && k < |es|
    ensures AllAcceptable(es[..k]) && AllAcceptable(es[..k + 1]) && Acceptable(es[k])
    ensures Run(es[..k + 1]) == Step(Run(es[..k]), es[k])
  {
    hide Step;
    var next := es[..k + 1];
    assert next[..k] == es[..k] && next[k] == es[k] && es[k] in es;
  }

  /** What is filed for a flow after a run are chunks that its packets have marked, at their places. */
  lemma {:induction false} RunNames(w: World, es: seq<Event>, f: FlowKey, info: ChunkInfo)
    requires AllAcceptable(es) && f in Run(es).index && info in Run(es).index[f]
    ensures exists e :: e in es && Marks(e, f, info.id)
  {
    hide Step;
    if es != [] {
      var init, last := es[..|es| - 1], es[|es| - 1];
      assert es == init + [last];
      if f in Run(init).index && info in Run(init).index[f] {
        RunNames(w, init, f, info);
      } else {
        NamesCome(Run(init), last, f, info);
        assert Marks(last, f, info.id);
      }
    }
  }

  /** A flow that alone carries a chunk has no other chunk filed at the chunk's positions. */
  lemma RunAlone(w: World, es: seq<Event>, f: FlowKey, c: ChunkId, n: nat)
    requires AllAcceptable(es) && Honest(w, es) && SoleCarrier(w, es, f, c)
    requires w.place(f, c) < n < w.place(f, c) + w.len(c)
    ensures Alone(Run(es), f, c, n)
  {
    hide Run, Honest, TaintedAfter, Marks;
    RunInv(w, es);
    var st := Run(es);
    forall info | f in st.index && info in st.index[f] && info.start < n < info.start + info.length
      ensures info.id == c
    {
      RunNames(w, es, f, info);
      FiledTruly(w, st, f, info, TaintedAfter(es));
    }
  }

  /** What is filed, and what is held, lasts to the end of the run. */
  lemma {:induction false} Lasts(w: World, es: seq<Event>, k: nat, f: FlowKey, info: ChunkInfo, c: ChunkId, m: int)
    requires AllAcceptable(es) && Honest(w, es) && k <= |es| && AllAcceptable(es[..k])
    ensures f in Run(es[..k]).index && info in Run(es[..k]).index[f] ==>
              f in Run(es).index && info in Run(es).index[f]
    ensures Holding(Run(es[..k]), c, m) ==> Holding(Run(es), c, m)
    decreases |es|
  {
    hide Step, Holding, TaintedAfter, Truthful, Unharmed, FirstSeen, Inv;
    if k == |es| {
      assert es[..k] == es;
    } else {
      var init, last := es[..|es| - 1], es[|es| - 1];
      HonestInit(w, es);
      assert init[..k] == es[..k] && last in es;
      Lasts(w, init, k, f, info, c, m);
      var st := Run(init);
      if f in Run(es[..k]).index && info in Run(es[..k]).index[f] {
        NamesStay(st, last, f, info);
      }
      if Holding(Run(es[..k]), c, m) {
        RunInv(w, init);
        HeldStays(w, st, last, c, m, TaintedAfter(init));
      }
    }
  }

  /** No position in the range is brought twice by the flow. */
  ghost predicate BroughtOnce(es: seq<Event>, f: FlowKey, from: int, to: int) {
    forall i, j, pos :: 0 <= i < j < |es| && from <= pos < to && Brings(es[i], f, pos) ==> !Brings(es[j], f, pos)
  }

  /** Event k is the first sight of chunk c, on the only flow that carries it. */
  ghost predicate Opens(w: World, es: seq<Event>, k: nat, f: FlowKey, c: ChunkId)
    requires AllAcceptable(es)
  {
    && k < |es| && AllAcceptable(es[..k]) && Marks(es[k], f, c) && c !in Run(es[..k]).chunks
    && SoleCarrier(w, es, f, c) && BroughtOnce(es, f, w.place(f, c), w.place(f, c) + w.len(c))
  }

  lemma OpensLength(w: World, es: seq<Event>, k: nat, f: FlowKey, c: ChunkId)
    requires AllAcceptable(es) && Honest(w, es) && Opens(w, es, k, f, c)
    ensures k < |es| && 0 < w.len(c) <= |w.record(c)|
    ensures Brings(es[k], f, w.place(f, c)) && Truthful(w, es[k].packet)
  {
  }

  lemma HonestTruthful(w: World, es: seq<Event>, j: nat)
    requires AllAcceptable(es) && Honest(w, es) && j < |es| && es[j].Arrival? && AllAcceptable(es[..j])
    ensures Truthful(w, es[j].packet)
    ensures FirstSeen(Run(es[..j]), es[j].packet) ==>
              Unharmed(Run(es[..j]), es[j].packet, TaintedAfter(es[..j]))
  {
    hide Run, TaintedAfter, Truthful, FirstSeen, Unharmed;
  }

  /** Behind its first sight the flow's index names the chunk. */
  lemma NamedBehind(w: World, es: seq<Event>, k: nat, j: nat, f: FlowKey, c: ChunkId)
    requires AllAcceptable(es) && Honest(w, es) && Opens(w, es, k, f, c) && k < j <= |es|
    ensures AllAcceptable(es[..j]) && Names(Run(es[..j]), f, c, w.place(f, c), w.len(c))
  {
    hide Run, TaintedAfter, Honest, Truthful, Unharmed, FirstSeen, SoleCarrier, BroughtOnce, Arrive, Inv;
    HonestPrefix(w, es, k);
    HonestPrefix(w, es, j);
    RunInv(w, es[..k]);
    HonestTruthful(w, es, k);
    MarkNames(w, Run(es[..k]), es[k].packet, TaintedAfter(es[..k]));
    RunStep(es, k);
    assert es[..j][..k + 1] == es[..k + 1];
    Lasts(w, es[..j], k + 1, f, ChunkInfo(c, w.place(f, c), w.len(c)), c, 0);
  }

  lemma SolePrefix(w: World, es: seq<Event>, j: nat, f: FlowKey, c: ChunkId)
    requires SoleCarrier(w, es, f, c) && j <= |es|
    ensures SoleCarrier(w, es[..j], f, c)
  {
    hide Marks, RangesApart;
    forall e, g, d | e in es[..j] && Marks(e, g, d)
      ensures (d == c ==> g == f) && (g == f && d != c ==> RangesApart(w, f, c, d))
    {
      assert e in es;
    }
  }

  /** Such a packet starts behind the mark, and brings the position in front of any mark of its own. */
  lemma OnlyBehind(w: World, es: seq<Event>, k: nat, j: nat, f: FlowKey, c: ChunkId, m: nat)
    requires AllAcceptable(es) && Honest(w, es) && Opens(w, es, k, f, c) && k < j < |es|
    requires m < w.len(c) && Brings(es[j], f, w.place(f, c) + m)
    ensures var pkt := es[j].packet;
            && w.place(f, c) < pkt.n
            && (pkt.hit.Some? ==> pkt.hit.value.id != c && w.place(f, c) + m < pkt.n + pkt.hit.value.offset)
  {
    hide Run, TaintedAfter, Unharmed, FirstSeen, Honest, Carried, InWindow, Offers;
    OpensLength(w, es, k, f, c);
    assert !Brings(es[j], f, w.place(f, c));
    var pkt := es[j].packet;
    assert AllAcceptable(es[..j]) by {
      RunStep(es, j);
    }
    HonestTruthful(w, es, j);
    if pkt.hit.Some? {
      assert es[j] in es && Marks(es[j], f, pkt.hit.value.id);
    }
  }

  lemma NotYetBrought(w: World, es: seq<Event>, j: nat, f: FlowKey, c: ChunkId, q: nat)
    requires AllAcceptable(es) && Honest(w, es) && SoleCarrier(w, es, f, c) && j < |es|
    requires BroughtOnce(es, f, w.place(f, c), w.place(f, c) + w.len(c))
    requires q < w.len(c) <= |w.record(c)| && Brings(es[j], f, w.place(f, c) + q)
    ensures AllAcceptable(es[..j]) && !Holding(Run(es[..j]), c, q)
  {
    hide Run, Honest, SoleCarrier, Holding, Brings;
    HonestPrefix(w, es, j);
    SolePrefix(w, es, j, f, c);
    forall e | e in es[..j]
      ensures !Brings(e, f, w.place(f, c) + q)
    {
      var i :| 0 <= i < j && es[..j][i] == e;
      assert es[i] == e;
    }
    NotBroughtNotHeld(w, es[..j], f, c, q);
  }

  /** A packet behind the mark that brings nothing the chunk holds puts its bytes into the chunk. */
  lemma StepHolds(w: World, st: State, pkt: Packet, c: ChunkId, m: nat, tainted: iset<Place>)
    requires Inv(w, st, tainted) && Truthful(w, pkt) && m < w.len(c)
    requires var start := w.place(pkt.flow, c);
             && Names(st, pkt.flow, c, start, w.len(c)) && start < pkt.n <= start + m < pkt.n + |pkt.payload|
             && Alone(st, pkt.flow, c, pkt.n)
             && forall q :: pkt.n <= start + q < pkt.n + |pkt.payload| && q < w.len(c) ==> !Holding(st, c, q)
    requires pkt.hit.Some? ==> w.place(pkt.flow, c) + m < pkt.n + pkt.hit.value.offset
    ensures Holding(Arrive(st, pkt), c, m)
  {
    hide Inv, Front, WithId, FragmentLength, Holding, InWindow, Carried, Offers, Alone, Names;
    var f := pkt.flow;
    match pkt.hit
    case None => LateFresh(w, st, f, c, w.place(f, c), w.len(c), pkt.n, pkt.payload, m, tainted);
    case Some(hit) =>
      var front, back := pkt.payload[..hit.offset], pkt.payload[hit.offset..];
      assert pkt == Packet(f, pkt.n, pkt.payload, Some(hit));
      TruthfulParts(w, f, pkt.n, pkt.payload, hit);
      LateFresh(w, st, f, c, w.place(f, c), w.len(c), pkt.n, front, m, tainted);
      FrontInv(w, st, f, pkt.n, front, tainted);
      WithIdHolds(w, Front(st, f, pkt.n, front), f, hit.id, pkt.n + hit.offset, back, c, m, tainted);
  }

  /**
   * A packet of the flow behind the chunk's first sight that brings a position of the chunk: the chunk holds it then.
   */
  lemma BehindHeld(w: World, es: seq<Event>, k: nat, j: nat, f: FlowKey, c: ChunkId, m: nat)
    requires AllAcceptable(es) && Honest(w, es) && Opens(w, es, k, f, c) && k < j < |es|
    requires m < w.len(c) && Brings(es[j], f, w.place(f, c) + m)
    ensures AllAcceptable(es[..j + 1]) && Holding(Run(es[..j + 1]), c, m)
  {
    hide Run, TaintedAfter, Honest, Truthful, Unharmed, FirstSeen, SoleCarrier, BroughtOnce, Holding, Inv, Names, Alone,
         Arrive;
    OpensLength(w, es, k, f, c);
    var before, pkt, start := es[..j], es[j].packet, w.place(f, c);
    HonestPrefix(w, es, j);
    RunInv(w, before);
    NamedBehind(w, es, k, j, f, c);
    SolePrefix(w, es, j, f, c);
    OnlyBehind(w, es, k, j, f, c, m);
    RunAlone(w, before, f, c, pkt.n);
    forall q | pkt.n <= start + q < pkt.n + |pkt.payload| && q < w.len(c)
      ensures !Holding(Run(before), c, q)
    {
      NotYetBrought(w, es, j, f, c, q);
    }
    RunStep(es, j);
    HonestTruthful(w, es, j);
    StepHolds(w, Run(before), pkt, c, m, TaintedAfter(before));
  }

  /** At the chunk's first sight it holds what the packet brings, and what the flow's list has behind the mark. */
  lemma OpeningHeld(w: World, es: seq<Event>, k: nat, f: FlowKey, c: ChunkId, m: nat)
    requires AllAcceptable(es) && Honest(w, es) && Opens(w, es, k, f, c) && m < w.len(c)
    requires Brings(es[k], f, w.place(f, c) + m) || ListHolds(FlowOf(Run(es[..k]), f), w.place(f, c), m)
    ensures AllAcceptable(es[..k + 1]) && Holding(Run(es[..k + 1]), c, m)
  {
    hide Run, TaintedAfter, Honest, Unharmed, SoleCarrier, BroughtOnce, Holding, Inv, Arrive, ListHolds, Carried,
         InWindow, Offers;
    HonestPrefix(w, es, k);
    RunInv(w, es[..k]);
    RunStep(es, k);
    HonestTruthful(w, es, k);
    var pkt := es[k].packet;
    MarkHolds(w, Run(es[..k]), pkt, pkt.hit.value, m, TaintedAfter(es[..k]));
  }

  /** Position m of the chunk comes with a packet of the flow from the mark on, or waits in the flow's list. */
  ghost predicate Comes(w: World, es: seq<Event>, k: nat, f: FlowKey, c: ChunkId, m: nat)
    requires k <= |es| && AllAcceptable(es[..k])
  {
    || (exists j :: k <= j < |es| && Brings(es[j], f, w.place(f, c) + m))
    || ListHolds(FlowOf(Run(es[..k]), f), w.place(f, c), m)
  }

  lemma ComesHeld(w: World, es: seq<Event>, k: nat, f: FlowKey, c: ChunkId, m: nat)
    requires AllAcceptable(es) && Honest(w, es) && Opens(w, es, k, f, c) && m < w.len(c) && Comes(w, es, k, f, c, m)
    ensures Holding(Run(es), c, m)
  {
    hide Run, Honest, Opens, Holding, Brings, ListHolds;
    OpensLength(w, es, k, f, c);
    if j :| k < j < |es| && Brings(es[j], f, w.place(f, c) + m) {
      BehindHeld(w, es, k, j, f, c, m);
      Lasts(w, es, j + 1, f, ChunkInfo(c, 0, 0), c, m);
    } else {
      OpeningHeld(w, es, k, f, c, m);
      Lasts(w, es, k + 1, f, ChunkInfo(c, 0, 0), c, m);
    }
  }

  lemma HeldIsFull(st: State, c: ChunkId)
    requires c in st.chunks && forall m: nat :: m < st.chunks[c].length ==> Holding(st, c, m)
    ensures IsFull(st, c)
  {
    hide At;
    forall pos | 0 <= pos < st.chunks[c].length
      ensures At(st.chunks[c].blocks, pos).Some?
    {
      assert Holding(st, c, pos);
    }
  }

  /**
   * Progress: if one flow carries a chunk, does not bring any position of it twice, and from the chunk's mark on, or
   * from what its list holds behind the mark when that arrives, brings every position, then the chunk has been handed
   * over, and what was handed over is its record, cut at the chunk length.
   */
  lemma OneFlowDelivers(w: World, es: seq<Event>, k: nat, f: FlowKey, c: ChunkId)
    requires AllAcceptable(es) && Honest(w, es) && Opens(w, es, k, f, c)
    requires forall m: nat :: m < w.len(c) ==> Comes(w, es, k, f, c, m)
    ensures var st := Run(es);
            && w.len(c) <= |w.record(c)|
            && exists i :: 0 <= i < |st.sent| && st.sent[i] == Sent(c, w.record(c)[..w.len(c)])
  {
    hide Run, TaintedAfter, Honest, Opens, Comes, At;
    OpensLength(w, es, k, f, c);
    RunInv(w, es);
    var st := Run(es);
    forall m: nat | m < w.len(c)
      ensures Holding(st, c, m)
    {
      ComesHeld(w, es, k, f, c, m);
    }
    assert Holding(st, c, 0) && ChunkOk(w, c, st.chunks[c]);
    HeldIsFull(st, c);
    var i :| 0 <= i < |st.sent| && st.sent[i].id == c;
  }
}
