/** Whole-run safety of the sniffer: what reaches the plugin is the chunk's true record. */
module Safety {
  import opened Blocks
  import opened ChunkFill
  import opened FlowInsert
  import opened Grep
  import opened SweepTruth
  import opened Engine

  /** The traffic being overheard: each flow's byte stream, each chunk's record, and where a flow carries a chunk. */
  datatype World = World(
    stream: (FlowKey, int) -> Byte,
    base: FlowKey -> nat,
    record: ChunkId -> seq<Byte>,
    len: ChunkId -> nat,
    place: (FlowKey, ChunkId) -> nat)

  ghost function OfStream(w: World, f: FlowKey): (int, Byte) -> bool {
    (pos, b) => b == w.stream(f, pos)
  }

  /** A position in a flow's sequence space. */
  type Place = (FlowKey, int)

  /** The stream's bytes, but for the positions that stray memory may hold. */
  ghost function Loosely(w: World, f: FlowKey, tainted: iset<Place>): (int, Byte) -> bool {
    (pos, b) => (f, pos) in tainted || b == w.stream(f, pos)
  }

  ghost function OfRecord(w: World, c: ChunkId): (int, Byte) -> bool {
    (pos, b) => 0 <= pos < |w.record(c)| && b == w.record(c)[pos]
  }

  /** A range of the flow's stream, without wrap and within half the sequence space (section 3.3 of RFC 793). */
  ghost predicate InWindow(w: World, f: FlowKey, from: nat, to: nat) {
    w.base(f) <= from <= to < w.base(f) + 0x8000_0000 && to < WRAP
  }

  /** Flow f carries chunk c's record at place(f, c). */
  ghost predicate Carried(w: World, f: FlowKey, c: ChunkId) {
    && w.base(f) <= w.place(f, c) && w.place(f, c) + w.len(c) < WRAP
    && forall k :: 0 <= k < w.len(c) && k < |w.record(c)| ==> w.stream(f, w.place(f, c) + k) == w.record(c)[k]
  }

  /** A truthful packet: bytes of its flow's stream, and a recogniser that reports real record starts only. */
  ghost predicate Truthful(w: World, pkt: Packet) {
    && WellFormed(pkt)
    && InWindow(w, pkt.flow, pkt.n, pkt.n + |pkt.payload|)
    && Offers(pkt.n, pkt.payload, OfStream(w, pkt.flow))
    && (pkt.hit.Some? ==>
          var hit := pkt.hit.value;
          && pkt.n + hit.offset == w.place(pkt.flow, hit.id)
          && FragmentLength(pkt.payload[hit.offset..]) == w.len(hit.id)
          && 0 < w.len(hit.id) <= |w.record(hit.id)|
          && Carried(w, pkt.flow, hit.id))
  }

  /** A flow's blocks are non-empty, in the flow's window, and slices of the stream but for the tainted positions. */
  ghost predicate FlowOk(w: World, f: FlowKey, bs: seq<Block>, tainted: iset<Place>) {
    Holds(bs, Loosely(w, f, tainted)) && AllInWindow(w, f, bs)
  }

  ghost predicate AllInWindow(w: World, f: FlowKey, bs: seq<Block>) {
    forall i :: 0 <= i < |bs| ==> bs[i].data != [] && InWindow(w, f, bs[i].start, bs[i].End())
  }

  ghost predicate ChunkOk(w: World, c: ChunkId, ch: Chunk) {
    && 0 < ch.length == w.len(c) <= |w.record(c)| && ch.length < 0x8000_0000
    && Separated(ch.blocks) && Within(ch.blocks, ch.length) && Holds(ch.blocks, OfRecord(w, c))
    && forall f :: f in ch.starts ==> ch.starts[f] == w.place(f, c) && Carried(w, f, c)
  }

  /** The flow's index names a chunk only together with the chunk's own entry for the flow. */
  ghost predicate InfoOk(st: State, f: FlowKey, info: ChunkInfo) {
    && info.id in st.chunks && f in st.chunks[info.id].starts
    && st.chunks[info.id].starts[f] == info.start && st.chunks[info.id].length == info.length
  }

  ghost predicate IndexOk(st: State) {
    forall f, i :: f in st.index && 0 <= i < |st.index[f]| ==> InfoOk(st, f, st.index[f][i])
  }

  ghost predicate IsFull(st: State, c: ChunkId) {
    c in st.chunks && Full(st.chunks[c].blocks, st.chunks[c].length)
  }

  ghost predicate WasSent(st: State, c: ChunkId) {
    exists i :: 0 <= i < |st.sent| && st.sent[i].id == c
  }

  /** Everything sent is the true record, cut at the chunk length. */
  ghost predicate SentTrue(w: World, st: State) {
    forall i :: 0 <= i < |st.sent| ==>
                  && |st.sent[i].data| == w.len(st.sent[i].id) <= |w.record(st.sent[i].id)|
                  && st.sent[i].data == w.record(st.sent[i].id)[..w.len(st.sent[i].id)]
  }

  ghost predicate SentOnce(st: State) {
    forall i, j :: 0 <= i < j < |st.sent| ==> st.sent[i].id != st.sent[j].id
  }

  /** The tables tell the truth, but for the tainted positions of the flows' lists. */
  ghost predicate Tables(w: World, st: State, tainted: iset<Place>) {
    && !st.fault
    && (forall f :: f in st.flows ==> FlowOk(w, f, st.flows[f], tainted))
    && (forall c :: c in st.chunks ==> ChunkOk(w, c, st.chunks[c]))
    && IndexOk(st)
  }

  /** The joint invariant: tables tell the truth, and a chunk has been sent exactly when it is full. */
  ghost predicate Inv(w: World, st: State, tainted: iset<Place>) {
    && Tables(w, st, tainted)
    && SentTrue(w, st) && SentOnce(st)
    && forall c :: WasSent(st, c) <==> IsFull(st, c)
  }

  /** The states that satisfy the invariant. */
  ghost function Good(w: World, tainted: iset<Place>): iset<State> {
    iset st: State | Inv(w, st, tainted)
  }

  // ---------- one list insertion ----------

  lemma {:induction false} InsertWindow(w: World, f: FlowKey, bs: seq<Block>, n: nat, p: seq<Byte>)
    requires AllInWindow(w, f, bs) && p != [] && InWindow(w, f, n, n + |p|)
    ensures AllInWindow(w, f, Insert(bs, n, p))
  {
    if bs != [] {
      var b, end := bs[0], n + |p|;
      assert b.data != [] && InWindow(w, f, b.start, b.End());
      if n > b.End() {
        InsertWindow(w, f, bs[1..], n, p);
      } else if n == b.End() && |bs| > 1 {
        assert InWindow(w, f, bs[1].start, bs[1].End());
      }
    }
  }

  lemma Truly(w: World, f: FlowKey, n: nat, p: seq<Byte>, tainted: iset<Place>)
    requires Offers(n, p, OfStream(w, f))
    ensures Offers(n, p, Loosely(w, f, tainted))
  {
    forall k | 0 <= k < |p|
      ensures Loosely(w, f, tainted)(n + k, p[k])
    {
      assert OfStream(w, f)(n + k, p[k]);
    }
  }

  lemma InsertFlowTables(w: World, st: State, f: FlowKey, n: nat, p: seq<Byte>, tainted: iset<Place>)
    requires Tables(w, st, tainted) && p != [] && InWindow(w, f, n, n + |p|) && Offers(n, p, Loosely(w, f, tainted))
    ensures Tables(w, InsertFlow(st, f, n, p), tainted)
  {
    var st1 := InsertFlow(st, f, n, p);
    InsertWindow(w, f, FlowOf(st, f), n, p);
    InsertHolds(FlowOf(st, f), n, p, Loosely(w, f, tainted));
    forall g, i | g in st1.index && 0 <= i < |st1.index[g]|
      ensures InfoOk(st1, g, st1.index[g][i])
    {
      assert InfoOk(st, g, st.index[g][i]);
    }
  }

  lemma SameSent(w: World, st: State, st1: State, tainted: iset<Place>)
    requires Inv(w, st, tainted) && Tables(w, st1, tainted) && st1.sent == st.sent
    requires forall c :: IsFull(st1, c) <==> IsFull(st, c)
    ensures Inv(w, st1, tainted)
  {
    forall c
      ensures WasSent(st1, c) <==> IsFull(st1, c)
    {
      assert WasSent(st1, c) <==> WasSent(st, c);
    }
  }

  lemma InsertFlowInv(w: World, st: State, f: FlowKey, n: nat, p: seq<Byte>, tainted: iset<Place>)
    requires Inv(w, st, tainted) && p != [] && InWindow(w, f, n, n + |p|) && Offers(n, p, OfStream(w, f))
    ensures Inv(w, InsertFlow(st, f, n, p), tainted)
  {
    Truly(w, f, n, p, tainted);
    InsertFlowTables(w, st, f, n, p, tainted);
    SameSent(w, st, InsertFlow(st, f, n, p), tainted);
  }

  // ---------- one clipped fill ----------

  /** Bytes of flow f that begin inside chunk c's range on it, and are the stream's where the chunk may take them. */
  ghost predicate InChunk(w: World, st: State, c: ChunkId, f: FlowKey, n: nat, p: seq<Byte>, tainted: iset<Place>) {
    && p != [] && InWindow(w, f, n, n + |p|) && Offers(n, p, Loosely(w, f, tainted))
    && c in st.chunks && f in st.chunks[c].starts
    && var start, ch := st.chunks[c].starts[f], st.chunks[c];
    && start <= n < start + ch.length
    && forall k :: 0 <= k < |p| && start + Head(ch.blocks) <= n + k < start + ch.length ==> OfStream(w, f)(n + k, p[k])
  }

  /** Where the 32-bit differences are exact. */
  lemma SurplusExact(start: nat, length: nat, n: nat, size: nat)
    requires start <= n < start + length < WRAP && length < 0x8000_0000
    requires n + size < WRAP && n + size < start + length + 0x8000_0000
    ensures Surplus(start, length, n, size) == if n + size > start + length then n + size - (start + length) else 0
    ensures Sub32(n, start) == n - start
  {
  }

  lemma OffersSlice(n: nat, p: seq<Byte>, lo: nat, hi: nat, P: (int, Byte) -> bool)
    requires lo <= hi <= |p| && Offers(n, p, P)
    ensures Offers(n + lo, p[lo..hi], P)
  {
    forall k | 0 <= k < hi - lo
      ensures P(n + lo + k, p[lo..hi][k])
    {
      assert P(n + (lo + k), p[lo + k]);
    }
  }

  /** In range, a clipped fill splits the packet exactly at the end of the chunk. */
  lemma ClipFillValue(w: World, st: State, c: ChunkId, f: FlowKey, n: nat, p: seq<Byte>, tainted: iset<Place>)
    requires Tables(w, st, tainted) && InChunk(w, st, c, f, n, p, tainted)
    ensures var start, length := st.chunks[c].starts[f], st.chunks[c].length;
            var diff := Surplus(start, length, n, |p|);
            && diff < |p| && n - start + (|p| - diff) <= length && Sub32(n, start) == n - start
            && (diff > 0 ==> n + |p| - diff == start + length)
            && ClipFill(st, c, f, n, p) == FillChunk(ReturnSurplus(st, f, n, p, diff), c, n - start, p[..|p| - diff])
  {
    hide Fill, Insert;
    assert ChunkOk(w, c, st.chunks[c]) && Carried(w, f, c);
    SurplusExact(st.chunks[c].starts[f], st.chunks[c].length, n, |p|);
  }

  /** The stream's byte inside a chunk's range is the record's. */
  lemma RecordByte(w: World, f: FlowKey, c: ChunkId, pos: int, b: Byte)
    requires Carried(w, f, c) && w.len(c) <= |w.record(c)| && OfStream(w, f)(pos, b)
    requires w.place(f, c) <= pos < w.place(f, c) + w.len(c)
    ensures OfRecord(w, c)(pos - w.place(f, c), b)
  {
    var m := pos - w.place(f, c);
    assert w.stream(f, w.place(f, c) + m) == w.record(c)[m];
  }

  /** Filling a true chunk with record bytes keeps it true, and completion is reported on exactly the filling call. */
  lemma FillChunkOk(w: World, c: ChunkId, ch: Chunk, m: nat, q: seq<Byte>)
    requires ChunkOk(w, c, ch) && q != [] && m + |q| <= ch.length
    requires forall k :: 0 <= k < |q| && m + k >= Head(ch.blocks) ==> OfRecord(w, c)(m + k, q[k])
    ensures var r := Fill(ch.blocks, m, q);
            && ChunkOk(w, c, ch.(blocks := r.blocks)) && r.blocks != []
            && (Completes(r, ch.length) <==> !Full(ch.blocks, ch.length) && Full(r.blocks, ch.length))
            && (Full(ch.blocks, ch.length) ==> Full(r.blocks, ch.length))
            && Head(r.blocks) >= Head(ch.blocks)
  {
    FillHead(ch.blocks, m, q);
    FillShape(ch.blocks, m, q);
    FillWithin(ch.blocks, m, q, ch.length);
    FillHoldsBehind(ch.blocks, m, q, OfRecord(w, c));
    CompletionExact(ch.blocks, m, q, ch.length);
    if Full(ch.blocks, ch.length) {
      FullStays(ch.blocks, m, q, ch.length);
    }
  }

  /** The part of the packet that stays in the chunk. */
  function Clip(ch: Chunk, f: FlowKey, n: nat, p: seq<Byte>): seq<Byte>
    requires f in ch.starts
  {
    var diff := Surplus(ch.starts[f], ch.length, n, |p|);
    if diff <= |p| then p[..|p| - diff] else p
  }

  lemma ClipOffers(w: World, st: State, c: ChunkId, f: FlowKey, n: nat, p: seq<Byte>, tainted: iset<Place>)
    requires Tables(w, st, tainted) && InChunk(w, st, c, f, n, p, tainted)
    ensures var m, q := n - st.chunks[c].starts[f], Clip(st.chunks[c], f, n, p);
            && q != [] && m + |q| <= st.chunks[c].length
            && forall k :: 0 <= k < |q| && m + k >= Head(st.chunks[c].blocks) ==> OfRecord(w, c)(m + k, q[k])
  {
    hide Fill, Insert, Sub32, Surplus, ClipFill, Head;
    var ch := st.chunks[c];
    assert ChunkOk(w, c, ch) && Carried(w, f, c);
    ClipFillValue(w, st, c, f, n, p, tainted);
    var m, q := n - ch.starts[f], Clip(ch, f, n, p);
    forall k | 0 <= k < |q| && m + k >= Head(ch.blocks)
      ensures OfRecord(w, c)(m + k, q[k])
    {
      assert OfStream(w, f)(n + k, p[k]);
      RecordByte(w, f, c, n + k, p[k]);
    }
  }

  lemma ClipFillChunk(w: World, st: State, c: ChunkId, f: FlowKey, n: nat, p: seq<Byte>, tainted: iset<Place>)
    requires Tables(w, st, tainted) && InChunk(w, st, c, f, n, p, tainted)
    ensures var r := ClipFill(st, c, f, n, p);
            && c in r.st.chunks && ChunkOk(w, c, r.st.chunks[c]) && r.st.chunks[c].blocks != []
            && r.st.chunks == st.chunks[c := st.chunks[c].(blocks := r.st.chunks[c].blocks)]
            && (r.done <==> !IsFull(st, c) && IsFull(r.st, c))
            && (IsFull(st, c) ==> IsFull(r.st, c))
            && Head(r.st.chunks[c].blocks) >= Head(st.chunks[c].blocks)
  {
    hide Fill, Insert, Head;
    ClipOffers(w, st, c, f, n, p, tainted);
    ClipFillValue(w, st, c, f, n, p, tainted);
    FillChunkOk(w, c, st.chunks[c], n - st.chunks[c].starts[f], Clip(st.chunks[c], f, n, p));
  }

  lemma ReturnSurplusTables(w: World, st: State, f: FlowKey, n: nat, p: seq<Byte>, diff: nat, tainted: iset<Place>)
    requires Tables(w, st, tainted) && diff <= |p| && InWindow(w, f, n, n + |p|) && Offers(n, p, Loosely(w, f, tainted))
    ensures Tables(w, ReturnSurplus(st, f, n, p, diff), tainted)
  {
    if diff > 0 {
      OffersSlice(n, p, |p| - diff, |p|, Loosely(w, f, tainted));
      assert p[|p| - diff..|p|] == p[|p| - diff..];
      InsertFlowTables(w, st, f, n + |p| - diff, p[|p| - diff..], tainted);
    }
  }

  /** Replacing one chunk's blocks by true ones keeps the tables. */
  lemma ReplaceBlocks(w: World, st: State, c: ChunkId, blocks: seq<Block>, st1: State, tainted: iset<Place>)
    requires Tables(w, st, tainted) && c in st.chunks && ChunkOk(w, c, st.chunks[c].(blocks := blocks))
    requires st1.flows == st.flows && st1.index == st.index && !st1.fault
    requires st1.chunks == st.chunks[c := st.chunks[c].(blocks := blocks)]
    ensures Tables(w, st1, tainted)
  {
    forall g, i | g in st1.index && 0 <= i < |st1.index[g]|
      ensures InfoOk(st1, g, st1.index[g][i])
    {
      assert InfoOk(st, g, st.index[g][i]);
    }
  }

  lemma ClipFillTables(w: World, st: State, c: ChunkId, f: FlowKey, n: nat, p: seq<Byte>, tainted: iset<Place>)
    requires Tables(w, st, tainted) && InChunk(w, st, c, f, n, p, tainted)
    ensures Tables(w, ClipFill(st, c, f, n, p).st, tainted)
  {
    hide Fill, Insert;
    ClipFillValue(w, st, c, f, n, p, tainted);
    ClipFillChunk(w, st, c, f, n, p, tainted);
    var diff := Surplus(st.chunks[c].starts[f], st.chunks[c].length, n, |p|);
    ReturnSurplusTables(w, st, f, n, p, diff, tainted);
    var st2 := ClipFill(st, c, f, n, p).st;
    ReplaceBlocks(w, ReturnSurplus(st, f, n, p, diff), c, st2.chunks[c].blocks, st2, tainted);
  }

  /** A chunk that is full and true holds exactly the record's first bytes, in its first block. */
  lemma FullIsRecord(w: World, c: ChunkId, ch: Chunk)
    requires ChunkOk(w, c, ch) && Full(ch.blocks, ch.length)
    ensures ch.blocks != [] && ch.blocks[0].data == w.record(c)[..w.len(c)]
  {
    FullIsFirstBlock(ch.blocks, ch.length);
    var data := ch.blocks[0].data;
    forall k | 0 <= k < |data|
      ensures data[k] == w.record(c)[k]
    {
      assert OfRecord(w, c)(ch.blocks[0].start + k, ch.blocks[0].data[k]);
    }
  }

  /** The invariant survives a clipped fill followed by its send. */
  lemma FillAndSendInv(w: World, st: State, c: ChunkId, f: FlowKey, n: nat, p: seq<Byte>, tainted: iset<Place>)
    requires Inv(w, st, tainted) && InChunk(w, st, c, f, n, p, tainted)
    ensures Inv(w, FillAndSend(st, c, f, n, p), tainted)
  {
    hide Fill, Insert;
    var r := ClipFill(st, c, f, n, p);
    ClipFillTables(w, st, c, f, n, p, tainted);
    ClipFillChunk(w, st, c, f, n, p, tainted);
    ClipFillSent(w, st, c, f, n, p);
    forall d | d != c
      ensures IsFull(r.st, d) <==> IsFull(st, d)
    {
    }
    if r.done {
      FullIsRecord(w, c, r.st.chunks[c]);
      SendInv(w, st, r.st, c, tainted);
    } else {
      SameSent(w, st, r.st, tainted);
    }
  }

  lemma ClipFillSent(w: World, st: State, c: ChunkId, f: FlowKey, n: nat, p: seq<Byte>)
    ensures ClipFill(st, c, f, n, p).st.sent == st.sent
  {
  }

  lemma SendInv(w: World, st: State, st1: State, c: ChunkId, tainted: iset<Place>)
    requires Inv(w, st, tainted) && Tables(w, st1, tainted) && st1.sent == st.sent
    requires IsFull(st1, c) && !IsFull(st, c)
    requires forall d :: d != c ==> (IsFull(st1, d) <==> IsFull(st, d))
    requires st1.chunks[c].blocks != [] && ChunkOk(w, c, st1.chunks[c])
    requires st1.chunks[c].blocks[0].data == w.record(c)[..w.len(c)]
    ensures Inv(w, st1.(sent := st1.sent + [Sent(c, st1.chunks[c].blocks[0].data)]), tainted)
  {
    hide At, Fill;
    var st2 := st1.(sent := st1.sent + [Sent(c, st1.chunks[c].blocks[0].data)]);
    assert !WasSent(st, c);
    assert st2.sent[|st.sent|].id == c;
    forall d
      ensures WasSent(st2, d) <==> IsFull(st2, d)
    {
      assert IsFull(st2, d) <==> IsFull(st1, d);
      if WasSent(st, d) {
        var i :| 0 <= i < |st.sent| && st.sent[i].id == d;
        assert st2.sent[i].id == d;
      }
      if WasSent(st2, d) && d != c {
        var i :| 0 <= i < |st2.sent| && st2.sent[i].id == d;
        assert st.sent[i].id == d;
      }
    }
    forall i, j | 0 <= i < j < |st2.sent|
      ensures st2.sent[i].id != st2.sent[j].id
    {
      assert st2.sent[i] == st.sent[i];
    }
    assert IndexOk(st2) by {
      forall g, i | g in st2.index && 0 <= i < |st2.index[g]|
        ensures InfoOk(st2, g, st2.index[g][i])
      {
        assert InfoOk(st1, g, st1.index[g][i]);
      }
    }
  }

  // ---------- the candidate loop ----------

  /** The surplus of the block being consumed never displaces that block: the loop's list position stays good. */
  lemma {:induction false} ConsumedStays(bs: seq<Block>, n: nat, p: seq<Byte>, k: nat)
    requires k < |bs| && bs[k].start < n < bs[k].End() && n + |p| == bs[k].End()
    requires forall i :: 0 <= i < |bs| ==> bs[i].data != []
    ensures PlaceAfter(bs, n, p, k).Some?
    ensures var m := PlaceAfter(bs, n, p, k).value; m < |Insert(bs, n, p)| && Insert(bs, n, p)[m] == bs[k]
  {
    if k > 0 && n > bs[0].End() {
      assert bs[1..][k - 1] == bs[k];
      ConsumedStays(bs[1..], n, p, k - 1);
    } else if k > 0 && n == bs[0].End() && |bs| > 1 && n + |p| == bs[1].start {
      assert k != 1;
      assert bs[2..][k - 2] == bs[k];
    }
  }

  lemma RemoveTables(w: World, st: State, f: FlowKey, k: nat, tainted: iset<Place>)
    requires Tables(w, st, tainted) && f in st.flows && k < |st.flows[f]|
    ensures Tables(w, st.(flows := st.flows[f := Without(st.flows[f], k)]), tainted)
  {
    var bs, st1 := st.flows[f], st.(flows := st.flows[f := Without(st.flows[f], k)]);
    assert FlowOk(w, f, bs, tainted);
    var less := Without(bs, k);
    forall i | 0 <= i < |less|
      ensures less[i] == bs[if i < k then i else i + 1]
    {
    }
    assert FlowOk(w, f, less, tainted);
    forall g, i | g in st1.index && 0 <= i < |st1.index[g]|
      ensures InfoOk(st1, g, st1.index[g][i])
    {
      assert InfoOk(st, g, st.index[g][i]);
    }
  }

  /** No block that starts inside the range, behind its mark, holds a tainted position of the range behind own. */
  ghost predicate ClearOf(bs: seq<Block>, f: FlowKey, start: nat, length: nat, own: nat, tainted: iset<Place>) {
    forall i, pos :: 0 <= i < |bs| && start < bs[i].start && bs[i].Covers(pos) && own <= pos < start + length ==>
                       (f, pos) !in tainted
  }

  /** The candidates from list node k on offer the chunk true bytes behind what it holds from its mark on. */
  ghost predicate Sheltered(st: State, c: ChunkId, f: FlowKey, k: nat, tainted: iset<Place>) {
    && c in st.chunks && f in st.chunks[c].starts && k <= |FlowOf(st, f)|
    && var ch := st.chunks[c];
    ClearOf(FlowOf(st, f)[k..], f, ch.starts[f], ch.length, ch.starts[f] + Head(ch.blocks), tainted)
  }

  lemma ClearTail(bs: seq<Block>, f: FlowKey, start: nat, length: nat, own: nat, more: nat, tainted: iset<Place>)
    requires bs != [] && ClearOf(bs, f, start, length, own, tainted) && own <= more
    ensures ClearOf(bs[1..], f, start, length, more, tainted)
  {
    forall i, pos | 0 <= i < |bs[1..]| && bs[1..][i].Covers(pos) && start < bs[1..][i].start && pos < start + length
                    && (f, pos) in tainted
      ensures pos < more
    {
      assert bs[i + 1].Covers(pos);
    }
  }

  lemma CandidateInChunk(w: World, st: State, c: ChunkId, f: FlowKey, k: nat, tainted: iset<Place>)
    requires Tables(w, st, tainted) && Sheltered(st, c, f, k, tainted)
    requires k < |FlowOf(st, f)| && Candidate(st.chunks[c], f, FlowOf(st, f)[k])
    ensures InChunk(w, st, c, f, FlowOf(st, f)[k].start, FlowOf(st, f)[k].data, tainted)
  {
    hide Head;
    var b, ch := FlowOf(st, f)[k], st.chunks[c];
    assert FlowOk(w, f, st.flows[f], tainted);
    BlockOffers(st.flows[f], Loosely(w, f, tainted), k);
    assert FlowOf(st, f)[k..][0] == b;
    forall j | 0 <= j < |b.data| && ch.starts[f] + Head(ch.blocks) <= b.start + j < ch.starts[f] + ch.length
      ensures OfStream(w, f)(b.start + j, b.data[j])
    {
      assert Loosely(w, f, tainted)(b.start + j, b.data[j]) && FlowOf(st, f)[k..][0].Covers(b.start + j);
    }
  }

  lemma FillAndSendFlows(w: World, st: State, c: ChunkId, f: FlowKey, n: nat, p: seq<Byte>, tainted: iset<Place>)
    requires Tables(w, st, tainted) && InChunk(w, st, c, f, n, p, tainted)
    ensures var ch := st.chunks[c];
            var diff := Surplus(ch.starts[f], ch.length, n, |p|);
            && diff < |p|
            && FillAndSend(st, c, f, n, p).flows == ReturnSurplus(st, f, n, p, diff).flows
  {
    hide Fill, Insert;
    ClipFillValue(w, st, c, f, n, p, tainted);
  }

  /** The list position after a candidate's fill exists and is still that candidate's block. */
  lemma CandidateStays(w: World, st: State, c: ChunkId, f: FlowKey, k: nat, tainted: iset<Place>)
    requires Tables(w, st, tainted) && Sheltered(st, c, f, k, tainted)
    requires k < |FlowOf(st, f)| && Candidate(st.chunks[c], f, FlowOf(st, f)[k])
    ensures var b := FlowOf(st, f)[k];
            var st1 := FillAndSend(st, c, f, b.start, b.data);
            var place := NodeAfterFill(st, c, f, k);
            place.Some? && place.value < |FlowOf(st1, f)| && FlowOf(st1, f)[place.value] == b
  {
    hide Fill, Insert, FillAndSend, Surplus, ClipFill, Sheltered;
    var b := FlowOf(st, f)[k];
    CandidateInChunk(w, st, c, f, k, tainted);
    FillAndSendFlows(w, st, c, f, b.start, b.data, tainted);
    ClipFillValue(w, st, c, f, b.start, b.data, tainted);
    assert FlowOk(w, f, st.flows[f], tainted);
    var diff := Surplus(st.chunks[c].starts[f], st.chunks[c].length, b.start, |b.data|);
    if diff > 0 {
      ConsumedStays(st.flows[f], b.End() - diff, b.data[|b.data| - diff..], k);
    }
  }

  /** What a candidate's fill and erasure leave behind the iterator is sheltered again. */
  lemma ShelteredNext(w: World, st: State, c: ChunkId, f: FlowKey, k: nat, tainted: iset<Place>)
    requires Tables(w, st, tainted) && Sheltered(st, c, f, k, tainted)
    requires k < |FlowOf(st, f)| && Candidate(st.chunks[c], f, FlowOf(st, f)[k])
    ensures var b := FlowOf(st, f)[k];
            var st1 := FillAndSend(st, c, f, b.start, b.data);
            && !st1.fault && f in st1.flows && NodeAfterFill(st, c, f, k).Some?
            && var place := NodeAfterFill(st, c, f, k).value;
            && place < |FlowOf(st1, f)| && FlowOf(st1, f)[place] == b
            && |FlowOf(st1, f)| - place == |FlowOf(st, f)| - k
            && Sheltered(st1.(flows := st1.flows[f := Without(FlowOf(st1, f), place)]), c, f, place, tainted)
  {
    hide Fill, Insert, Surplus, ClipFill, NodeAfterFill, ClearOf, Tables, Head;
    var b, ch := FlowOf(st, f)[k], st.chunks[c];
    CandidateInChunk(w, st, c, f, k, tainted);
    CandidateStays(w, st, c, f, k, tainted);
    ClipFillTables(w, st, c, f, b.start, b.data, tainted);
    ClipFillChunk(w, st, c, f, b.start, b.data, tainted);
    NotFaulty(w, ClipFill(st, c, f, b.start, b.data).st, tainted);
    FillKeepsRest(st, c, f, k);
    var st1, place := FillAndSend(st, c, f, b.start, b.data), NodeAfterFill(st, c, f, k).value;
    var list := FlowOf(st1, f);
    assert |list[place + 1..]| == |FlowOf(st, f)[k + 1..]|;
    assert Without(list, place)[place..] == list[place + 1..] && FlowOf(st, f)[k..][1..] == FlowOf(st, f)[k + 1..];
    ClearTail(FlowOf(st, f)[k..], f, ch.starts[f], ch.length, ch.starts[f] + Head(ch.blocks),
              ch.starts[f] + Head(st1.chunks[c].blocks), tainted);
  }

  lemma NotFaulty(w: World, st: State, tainted: iset<Place>)
    requires Tables(w, st, tainted)
    ensures !st.fault
  {
  }

  lemma {:induction false} CandidatesInv(w: World, st: State, c: ChunkId, f: FlowKey, k: nat, tainted: iset<Place>)
    requires Inv(w, st, tainted) && Sheltered(st, c, f, k, tainted)
    ensures Inv(w, Candidates(st, c, f, k), tainted)
    decreases |FlowOf(st, f)| - k
  {
    hide Tables, SentTrue, SentOnce, WasSent, IsFull, FillAndSend, ClearOf, NodeAfterFill, Head;
    if k >= |FlowOf(st, f)| {
    } else if Candidate(st.chunks[c], f, FlowOf(st, f)[k]) {
      var b := FlowOf(st, f)[k];
      CandidateInChunk(w, st, c, f, k, tainted);
      FillAndSendInv(w, st, c, f, b.start, b.data, tainted);
      ShelteredNext(w, st, c, f, k, tainted);
      var st1 := FillAndSend(st, c, f, b.start, b.data);
      var place := NodeAfterFill(st, c, f, k).value;
      var st2 := st1.(flows := st1.flows[f := Without(FlowOf(st1, f), place)]);
      EraseInv(w, st1, f, place, tainted);
      CandidatesInv(w, st2, c, f, place, tainted);
    } else {
      assert FlowOf(st, f)[k..][1..] == FlowOf(st, f)[k + 1..];
      var ch := st.chunks[c];
      ClearTail(FlowOf(st, f)[k..], f, ch.starts[f], ch.length, ch.starts[f] + Head(ch.blocks),
                ch.starts[f] + Head(ch.blocks), tainted);
      CandidatesInv(w, st, c, f, k + 1, tainted);
    }
  }

  lemma EraseInv(w: World, st: State, f: FlowKey, k: nat, tainted: iset<Place>)
    requires Inv(w, st, tainted) && f in st.flows && k < |st.flows[f]|
    ensures Inv(w, st.(flows := st.flows[f := Without(st.flows[f], k)]), tainted)
  {
    RemoveTables(w, st, f, k, tainted);
    SameSent(w, st, st.(flows := st.flows[f := Without(st.flows[f], k)]), tainted);
  }

  // ---------- packets ----------

  lemma {:induction false} LookupSound(infos: seq<ChunkInfo>, n: nat) returns (i: nat)
    requires Lookup(infos, n).Some?
    ensures i < |infos| && infos[i] == Lookup(infos, n).value && infos[i].start < n < infos[i].start + infos[i].length
  {
    i := 0;
    if !(infos[0].start < n < infos[0].start + infos[0].length) {
      i := LookupSound(infos[1..], n);
      i := i + 1;
    }
  }

  /** Bytes of the stream may go into a chunk wherever its range holds their start. */
  lemma TrulyInChunk(w: World, st: State, c: ChunkId, f: FlowKey, n: nat, p: seq<Byte>, tainted: iset<Place>)
    requires p != [] && InWindow(w, f, n, n + |p|) && Offers(n, p, OfStream(w, f))
    requires c in st.chunks && f in st.chunks[c].starts
    requires st.chunks[c].starts[f] <= n < st.chunks[c].starts[f] + st.chunks[c].length
    ensures InChunk(w, st, c, f, n, p, tainted)
  {
    Truly(w, f, n, p, tainted);
  }

  lemma WithoutIdInv(w: World, st: State, f: FlowKey, n: nat, p: seq<Byte>, tainted: iset<Place>)
    requires Inv(w, st, tainted) && p != [] && InWindow(w, f, n, n + |p|) && Offers(n, p, OfStream(w, f))
    ensures Inv(w, WithoutId(st, f, n, p), tainted)
  {
    if f in st.index {
      if Lookup(st.index[f], n).Some? {
        var i := LookupSound(st.index[f], n);
        assert InfoOk(st, f, st.index[f][i]);
        TrulyInChunk(w, st, st.index[f][i].id, f, n, p, tainted);
        FillAndSendInv(w, st, st.index[f][i].id, f, n, p, tainted);
      } else {
        InsertFlowInv(w, st, f, n, p, tainted);
      }
    }
  }

  lemma EntryOk(w: World, st: State, f: FlowKey, c: ChunkId, tainted: iset<Place>)
    requires Tables(w, st, tainted) && 0 < w.len(c) <= |w.record(c)| && w.len(c) < 0x8000_0000 && Carried(w, f, c)
    ensures ChunkOk(w, c, Entry(st, f, c, w.place(f, c), w.len(c)))
  {
    if c in st.chunks {
      assert ChunkOk(w, c, st.chunks[c]);
    }
  }

  lemma RegisterIndex(w: World, st: State, f: FlowKey, c: ChunkId, tainted: iset<Place>)
    requires Tables(w, st, tainted) && ChunkOk(w, c, Entry(st, f, c, w.place(f, c), w.len(c)))
    ensures IndexOk(Register(st, f, c, w.place(f, c), w.len(c)))
  {
    var st2 := Register(st, f, c, w.place(f, c), w.len(c));
    forall g, i | g in st2.index && 0 <= i < |st2.index[g]|
      ensures InfoOk(st2, g, st2.index[g][i])
    {
      if g in st.index && i < |st.index[g]| {
        assert st2.index[g][i] == st.index[g][i];
        RegisteredInfo(w, st, st2, f, c, g, i, tainted);
      } else {
        assert g == f && st2.index[g][i] == ChunkInfo(c, w.place(f, c), w.len(c));
      }
    }
  }

  /** Registering a truthful record start keeps every index entry right. */
  lemma RegisterInv(w: World, st: State, f: FlowKey, c: ChunkId, tainted: iset<Place>)
    requires Inv(w, st, tainted) && 0 < w.len(c) <= |w.record(c)| && w.len(c) < 0x8000_0000 && Carried(w, f, c)
    ensures Inv(w, Register(st, f, c, w.place(f, c), w.len(c)), tainted)
  {
    hide Fill, Insert, Carried, IndexOk, FlowOk, Holds;
    var st2 := Register(st, f, c, w.place(f, c), w.len(c));
    EntryOk(w, st, f, c, tainted);
    RegisterIndex(w, st, f, c, tainted);
    forall d
      ensures IsFull(st2, d) <==> IsFull(st, d)
    {
      if d == c && c !in st.chunks {
        assert At([], 0) == None;
      }
    }
    SameSent(w, st, st2, tainted);
  }

  lemma RegisteredInfo(w: World, st: State, st2: State, f: FlowKey,
                       c: ChunkId, g: FlowKey, i: nat, tainted: iset<Place>)
    requires Tables(w, st, tainted) && g in st.index && i < |st.index[g]|
    requires st2.chunks == st.chunks[c := Entry(st, f, c, w.place(f, c), w.len(c))]
    ensures InfoOk(st2, g, st.index[g][i])
  {
    var info := st.index[g][i];
    assert InfoOk(st, g, info);
    assert ChunkOk(w, info.id, st.chunks[info.id]);
  }

  /** The fill of a new chunk by the packet that starts it. */
  lemma FirstFill(w: World, st: State, f: FlowKey, c: ChunkId, n: nat, p: seq<Byte>, tainted: iset<Place>)
    requires Tables(w, st, tainted) && InChunk(w, st, c, f, n, p, tainted)
    requires st.chunks[c].blocks == [] && st.chunks[c].starts[f] == n
    ensures var st1, diff := FillAndSend(st, c, f, n, p), Surplus(n, st.chunks[c].length, n, |p|);
            && diff < |p| && (diff > 0 ==> |p| - diff == st.chunks[c].length)
            && c in st1.chunks && st1.chunks[c].starts == st.chunks[c].starts
            && st1.chunks[c].length == st.chunks[c].length
            && st1.chunks[c].blocks == [Block(0, p[..|p| - diff], true)]
            && (diff == 0 ==> st1.flows == st.flows)
  {
    hide Insert, Carried, Surplus;
    ClipFillValue(w, st, c, f, n, p, tainted);
  }

  /** The mark of a new chunk, and the bytes behind it, are in the chunk when the flow's list is searched. */
  lemma SearchSheltered(w: World, st: State, f: FlowKey, c: ChunkId, n: nat, p: seq<Byte>, tainted: iset<Place>)
    requires Inv(w, st, tainted) && |p| >= 4 && c !in st.chunks && InWindow(w, f, n, n + |p|)
    requires Offers(n, p, OfStream(w, f))
    requires n == w.place(f, c) && FragmentLength(p) == w.len(c) && 0 < w.len(c) <= |w.record(c)| && Carried(w, f, c)
    requires ClearOf(FlowOf(st, f), f, n, w.len(c), n + |p|, tainted)
    ensures Sheltered(FillAndSend(Register(st, f, c, n, FragmentLength(p)), c, f, n, p), c, f, 0, tainted)
  {
    hide ClearOf, Insert, Carried, FillAndSend, Surplus, InChunk, Fill;
    RegisterInv(w, st, f, c, tainted);
    MarkedInChunk(w, st, f, c, n, p, tainted);
    var st1 := Register(st, f, c, n, FragmentLength(p));
    FirstFill(w, st1, f, c, n, p, tainted);
    var st2, diff := FillAndSend(st1, c, f, n, p), Surplus(n, w.len(c), n, |p|);
    assert FlowOf(st2, f)[0..] == FlowOf(st2, f);
    if diff == 0 {
      assert FlowOf(st2, f) == FlowOf(st, f);
    } else {
      NothingBehind(FlowOf(st2, f), f, n, w.len(c), tainted);
    }
  }

  lemma NothingBehind(bs: seq<Block>, f: FlowKey, start: nat, length: nat, tainted: iset<Place>)
    ensures ClearOf(bs, f, start, length, start + length, tainted)
  {
  }

  lemma WithIdInv(w: World, st: State, f: FlowKey, c: ChunkId, n: nat, p: seq<Byte>, tainted: iset<Place>)
    requires Inv(w, st, tainted) && |p| >= 4 && InWindow(w, f, n, n + |p|) && Offers(n, p, OfStream(w, f))
    requires n == w.place(f, c) && FragmentLength(p) == w.len(c) && 0 < w.len(c) <= |w.record(c)| && Carried(w, f, c)
    requires c in st.chunks || ClearOf(FlowOf(st, f), f, n, w.len(c), n + |p|, tainted)
    ensures Inv(w, WithId(st, f, c, n, p), tainted)
  {
    hide Fill, Insert, FillAndSend, ClearOf, Candidates, Carried;
    RegisterInv(w, st, f, c, tainted);
    var st1 := Register(st, f, c, n, FragmentLength(p));
    MarkedInChunk(w, st, f, c, n, p, tainted);
    FillAndSendInv(w, st1, c, f, n, p, tainted);
    if c !in st.chunks {
      SearchSheltered(w, st, f, c, n, p, tainted);
      CandidatesInv(w, FillAndSend(st1, c, f, n, p), c, f, 0, tainted);
    }
  }

  lemma MarkedInChunk(w: World, st: State, f: FlowKey, c: ChunkId, n: nat, p: seq<Byte>, tainted: iset<Place>)
    requires Inv(w, st, tainted) && |p| >= 4 && InWindow(w, f, n, n + |p|) && Offers(n, p, OfStream(w, f))
    requires n == w.place(f, c) && FragmentLength(p) == w.len(c) && 0 < w.len(c) <= |w.record(c)| && Carried(w, f, c)
    ensures InChunk(w, Register(st, f, c, n, FragmentLength(p)), c, f, n, p, tainted)
  {
    if c in st.chunks {
      assert ChunkOk(w, c, st.chunks[c]);
    }
    TrulyInChunk(w, Register(st, f, c, n, FragmentLength(p)), c, f, n, p, tainted);
  }

  lemma FrontInv(w: World, st: State, f: FlowKey, n: nat, p: seq<Byte>, tainted: iset<Place>)
    requires Inv(w, st, tainted) && InWindow(w, f, n, n + |p|) && Offers(n, p, OfStream(w, f))
    ensures Inv(w, Front(st, f, n, p), tainted)
  {
    if p != [] {
      if f in st.index {
        WithoutIdInv(w, st, f, n, p, tainted);
      } else {
        InsertFlowInv(w, st, f, n, p, tainted);
      }
    }
  }

  /** An insertion in front of a block leaves the block alone, and adds none behind its own end. */
  lemma {:induction false} InsertAhead(bs: seq<Block>, n: nat, p: seq<Byte>, i: nat)
    requires i < |Insert(bs, n, p)| && Insert(bs, n, p)[i].start > n + |p|
    ensures Insert(bs, n, p)[i] in bs
  {
    if bs != [] && n > bs[0].End() && i > 0 {
      InsertAhead(bs[1..], n, p, i - 1);
    }
  }

  lemma InsertClear(bs: seq<Block>, n: nat, p: seq<Byte>, f: FlowKey,
                    start: nat, length: nat, own: nat, tainted: iset<Place>)
    requires ClearOf(bs, f, start, length, own, tainted) && n + |p| <= start
    ensures ClearOf(Insert(bs, n, p), f, start, length, own, tainted)
  {
    hide Insert;
    var now := Insert(bs, n, p);
    forall i, pos | 0 <= i < |now| && now[i].Covers(pos) && start < now[i].start && pos < start + length
                    && (f, pos) in tainted
      ensures pos < own
    {
      InsertAhead(bs, n, p, i);
      var k :| 0 <= k < |bs| && bs[k] == now[i];
      assert bs[k].Covers(pos);
    }
  }

  /** So do bytes without a record mark. */
  lemma FrontClear(w: World, st: State, f: FlowKey, n: nat, p: seq<Byte>,
                   start: nat, length: nat, own: nat, tainted: iset<Place>)
    requires Inv(w, st, tainted) && InWindow(w, f, n, n + |p|) && Offers(n, p, OfStream(w, f)) && n + |p| <= start
    requires ClearOf(FlowOf(st, f), f, start, length, own, tainted)
    ensures ClearOf(FlowOf(Front(st, f, n, p), f), f, start, length, own, tainted)
  {
    hide ClearOf, Insert, FillAndSend;
    if p != [] {
      if f !in st.index || Lookup(st.index[f], n).None? {
        InsertClear(FlowOf(st, f), n, p, f, start, length, own, tainted);
      } else {
        var i := LookupSound(st.index[f], n);
        var c := st.index[f][i].id;
        assert InfoOk(st, f, st.index[f][i]);
        TrulyInChunk(w, st, c, f, n, p, tainted);
        FillAndSendFlows(w, st, c, f, n, p, tainted);
        var diff := Surplus(st.chunks[c].starts[f], st.chunks[c].length, n, |p|);
        if diff > 0 {
          InsertClear(FlowOf(st, f), n + |p| - diff, p[|p| - diff..], f, start, length, own, tainted);
        }
      }
    }
  }

  /** Bytes without a record mark add no chunk and drop none. */
  lemma FrontChunks(st: State, f: FlowKey, n: nat, p: seq<Byte>, c: ChunkId)
    ensures c in Front(st, f, n, p).chunks <==> c in st.chunks
  {
    hide Fill, Insert, Surplus;
  }

  /** What a truthful packet with a record mark says about its two parts. */
  lemma TruthfulParts(w: World, f: FlowKey, n: nat, p: seq<Byte>, hit: Hit)
    requires Truthful(w, Packet(f, n, p, Some(hit)))
    ensures var m, front, back := n + hit.offset, p[..hit.offset], p[hit.offset..];
            && InWindow(w, f, n, n + |front|) && Offers(n, front, OfStream(w, f))
            && |back| >= 4 && InWindow(w, f, m, m + |back|) && Offers(m, back, OfStream(w, f))
            && m == w.place(f, hit.id) && FragmentLength(back) == w.len(hit.id)
            && 0 < w.len(hit.id) <= |w.record(hit.id)| && Carried(w, f, hit.id)
  {
    assert p[0..hit.offset] == p[..hit.offset] && p[hit.offset..|p|] == p[hit.offset..];
    OffersSlice(n, p, hit.offset, |p|, OfStream(w, f));
    OffersSlice(n, p, 0, hit.offset, OfStream(w, f));
  }

  lemma MarkedInv(w: World, st: State, f: FlowKey, c: ChunkId, n: nat,
                  front: seq<Byte>, m: nat, back: seq<Byte>, tainted: iset<Place>)
    requires Inv(w, st, tainted) && InWindow(w, f, n, n + |front|) && Offers(n, front, OfStream(w, f))
    requires && |back| >= 4 && InWindow(w, f, m, m + |back|) && Offers(m, back, OfStream(w, f))
             && m == w.place(f, c) && FragmentLength(back) == w.len(c)
             && 0 < w.len(c) <= |w.record(c)| && Carried(w, f, c)
    requires c in st.chunks || ClearOf(FlowOf(st, f), f, m, w.len(c), m + |back|, tainted)
    requires n + |front| == m
    ensures WithId(Front(st, f, n, front), f, c, m, back) in Good(w, tainted)
  {
    hide Fill, Insert, ClearOf, WithId, Front;
    FrontInv(w, st, f, n, front, tainted);
    FrontChunks(st, f, n, front, c);
    if c !in st.chunks {
      FrontClear(w, st, f, n, front, m, w.len(c), m + |back|, tainted);
    }
    WithIdInv(w, Front(st, f, n, front), f, c, m, back, tainted);
  }

  lemma ArriveValue(st: State, pkt: Packet, hit: Hit)
    requires WellFormed(pkt) && pkt.hit == Some(hit)
    ensures Arrive(st, pkt) == WithId(Front(st, pkt.flow, pkt.n, pkt.payload[..hit.offset]), pkt.flow,
                                      hit.id, pkt.n + hit.offset, pkt.payload[hit.offset..])
  {
    hide WithId, Front;
  }

  lemma ArriveMarked(w: World, st: State, pkt: Packet, hit: Hit, tainted: iset<Place>)
    requires Inv(w, st, tainted) && Truthful(w, pkt) && pkt.hit == Some(hit)
    requires FirstSeen(st, pkt) ==> Unharmed(st, pkt, tainted)
    ensures Arrive(st, pkt) in Good(w, tainted)
  {
    hide WithId, Front, Inv, Fill, Insert, ClearOf;
    assert pkt == Packet(pkt.flow, pkt.n, pkt.payload, Some(hit));
    ArriveValue(st, pkt, hit);
    TruthfulParts(w, pkt.flow, pkt.n, pkt.payload, hit);
    MarkedInv(w, st, pkt.flow, hit.id, pkt.n, pkt.payload[..hit.offset], pkt.n + hit.offset,
        pkt.payload[hit.offset..], tainted);
  }

  /** The packet starts a chunk not seen before: the flow's list is searched for its bytes. */
  predicate FirstSeen(st: State, pkt: Packet) {
    pkt.hit.Some? && pkt.hit.value.id !in st.chunks
  }

  /**
   * No block of the flow's list that starts inside the new chunk, behind its mark, holds a tainted position of the
   * chunk that the packet does not bring itself.
   */
  ghost predicate Unharmed(st: State, pkt: Packet, tainted: iset<Place>)
    requires WellFormed(pkt) && pkt.hit.Some?
  {
    var start := pkt.n + pkt.hit.value.offset;
    ClearOf(FlowOf(st, pkt.flow), pkt.flow, start, FragmentLength(pkt.payload[pkt.hit.value.offset..]),
            pkt.n + |pkt.payload|, tainted)
  }

  /** One packet keeps the invariant, whatever has arrived before, if the search it may start meets no stray bytes. */
  lemma ArriveInv(w: World, st: State, pkt: Packet, tainted: iset<Place>)
    requires Inv(w, st, tainted) && Truthful(w, pkt) && (FirstSeen(st, pkt) ==> Unharmed(st, pkt, tainted))
    ensures Arrive(st, pkt) in Good(w, tainted)
  {
    match pkt.hit
    case None => FrontInv(w, st, pkt.flow, pkt.n, pkt.payload, tainted);
    case Some(hit) => ArriveMarked(w, st, pkt, hit, tainted);
  }

  // ---------- sweeps ----------

  /** No block of the flow has a record behind other bytes. */
  ghost predicate CleanFlow(st: State, f: FlowKey) {
    f in st.flows ==> CleanList(st.flows[f])
  }

  ghost predicate CleanSweep(st: State) {
    forall f :: CleanFlow(st, f)
  }

  /** What any sweep leaves of a block are non-empty blocks inside its range. */
  lemma {:induction false} KeptInside(parts: seq<Part>, from: nat, to: nat)
    requires Tiles(parts, from, to)
    ensures forall i :: 0 <= i < |KeptBlocks(parts)| ==>
              var b := KeptBlocks(parts)[i]; b.data != [] && from <= b.start && b.End() <= to
  {
    if parts != [] {
      KeptInside(parts[1..], parts[0].End(), to);
    }
  }

  lemma SweepShape(w: World, f: FlowKey, b: Block, stray: int -> Byte)
    requires b.data != [] && InWindow(w, f, b.start, b.End())
    ensures AllInWindow(w, f, Left(SweepBlock(b, stray)))
  {
    SweepConserves(b, stray);
    var s := SweepBlock(b, stray);
    KeptInside(s.parts, b.start, s.rest.start);
  }

  lemma {:induction false} SweepWindow(w: World, f: FlowKey, bs: seq<Block>, stray: (nat, int) -> Byte, i: nat)
    requires i <= |bs| && AllInWindow(w, f, bs)
    ensures AllInWindow(w, f, SweepFrom(bs, stray, i))
    decreases |bs| - i
  {
    hide SweepBlock, Left, InWindow;
    if i < |bs| {
      SweepWindow(w, f, bs, stray, i + 1);
      SweepShape(w, f, bs[i], OfNode(stray, i));
    }
  }

  /** The positions that a sweep over the flows fills from memory. */
  ghost function StrayPlaces(st: State, order: seq<FlowKey>): iset<Place> {
    iset f: FlowKey, pos: int | f in order && f in st.flows && ListStray(st.flows[f], pos) :: (f, pos)
  }

  lemma SweepFlowInv(w: World, st: State, f: FlowKey, stray: (FlowKey, nat, int) -> Byte, tainted: iset<Place>)
    requires Inv(w, st, tainted)
    requires f in st.flows ==> forall pos :: ListStray(st.flows[f], pos) ==> (f, pos) in tainted
    ensures Inv(w, SweepFlow(st, f, stray), tainted)
  {
    hide SweepFrom, RecordsFrom, ListStray;
    if f in st.flows {
      SweptListHolds(Loosely(w, f, tainted), st.flows[f], OfFlow(stray, f), 0);
      SweepWindow(w, f, st.flows[f], OfFlow(stray, f), 0);
      var st1 := SweepFlow(st, f, stray);
      forall g, i | g in st1.index && 0 <= i < |st1.index[g]|
        ensures InfoOk(st1, g, st1.index[g][i])
      {
        assert InfoOk(st, g, st.index[g][i]);
      }
      SameSent(w, st, st1, tainted);
    }
  }

  /** A flow's sweep adds no position to those that another sweep would fill from memory. */
  lemma SweepFlowStray(st: State, f: FlowKey, stray: (FlowKey, nat, int) -> Byte, g: FlowKey, pos: int)
    requires var st1 := SweepFlow(st, f, stray); g in st1.flows && ListStray(st1.flows[g], pos)
    ensures g in st.flows && ListStray(st.flows[g], pos)
  {
    hide SweepFrom, RecordsFrom;
    if g == f {
      SweptSearched(st.flows[f], OfFlow(stray, f), 0);
    }
  }

  lemma {:induction false} SweepFlowsInv(w: World, st: State, order: seq<FlowKey>,
                                         stray: (FlowKey, nat, int) -> Byte, tainted: iset<Place>)
    requires Inv(w, st, tainted) && StrayPlaces(st, order) <= tainted
    ensures Inv(w, SweepFlows(st, order, stray), tainted)
    decreases |order|
  {
    hide Inv, SweepFlow, ListStray;
    if order != [] {
      var f, st1 := order[0], SweepFlow(st, order[0], stray);
      forall pos | f in st.flows && ListStray(st.flows[f], pos)
        ensures (f, pos) in tainted
      {
        assert (f, pos) in StrayPlaces(st, order);
      }
      SweepFlowInv(w, st, f, stray, tainted);
      forall x | x in StrayPlaces(st1, order[1..])
        ensures x in tainted
      {
        SweepFlowStray(st, f, stray, x.0, x.1);
        assert x in StrayPlaces(st, order);
      }
      SweepFlowsInv(w, st1, order[1..], stray, tainted);
    }
  }

  /**
   * CleanSweep is exact: with all lists true, every sweep keeps all of them true, for all memory contents, if and only
   * if it holds.
   */
  lemma CleanSweepIff(w: World, st: State)
    requires forall f :: f in st.flows ==> Holds(st.flows[f], OfStream(w, f))
    ensures CleanSweep(st) <==>
              forall f, stray :: f in st.flows ==> Holds(SweepFlow(st, f, stray).flows[f], OfStream(w, f))
  {
    hide SweepFrom, RecordsFrom, CleanList, Holds;
    if CleanSweep(st) {
      forall f, stray | f in st.flows
        ensures Holds(SweepFlow(st, f, stray).flows[f], OfStream(w, f))
      {
        assert CleanFlow(st, f);
        CleanListHolds(OfStream(w, f), st.flows[f], OfFlow(stray, f), 0);
      }
    }
    if !CleanSweep(st) {
      var f :| !CleanFlow(st, f);
      var wrong: (FlowKey, nat, int) -> Byte := (g, i, pos) => if w.stream(f, pos) == 0 then 1 else 0;
      forall k: nat
        ensures Lies(OfNode(OfFlow(wrong, f), k), OfStream(w, f))
      {
      }
      NotClean(st.flows[f]);
      ListLie(OfStream(w, f), st.flows[f], OfFlow(wrong, f), 0);
      assert !Holds(SweepFlow(st, f, wrong).flows[f], OfStream(w, f));
    }
  }

  lemma NotClean(bs: seq<Block>)
    requires !CleanList(bs)
    ensures exists j :: 0 <= j < |bs| && !OnlyFrontCuts(bs[j])
  {
    hide OnlyFrontCuts;
  }

  /** Distrusting more positions asks for less. */
  lemma InvMonotone(w: World, st: State, tainted: iset<Place>, more: iset<Place>)
    requires Inv(w, st, tainted) && tainted <= more
    ensures Inv(w, st, more)
  {
    hide SentTrue, SentOnce, WasSent, IsFull, IndexOk, ChunkOk;
    forall f | f in st.flows
      ensures FlowOk(w, f, st.flows[f], more)
    {
      assert FlowOk(w, f, st.flows[f], tainted);
      HoldsMore(st.flows[f], Loosely(w, f, tainted), Loosely(w, f, more));
    }
  }

  lemma HoldsMore(bs: seq<Block>, P: (int, Byte) -> bool, Q: (int, Byte) -> bool)
    requires Holds(bs, P)
    requires forall i, k :: 0 <= i < |bs| && 0 <= k < |bs[i].data| && P(bs[i].start + k, bs[i].data[k]) ==>
                              Q(bs[i].start + k, bs[i].data[k])
    ensures Holds(bs, Q)
  {
  }

  /** Some block of the list holds the position. */
  ghost predicate Held(bs: seq<Block>, pos: int) {
    exists i :: 0 <= i < |bs| && bs[i].Covers(pos)
  }

  /** The tainted positions that the flows' lists still hold. */
  ghost function Live(st: State, tainted: iset<Place>): iset<Place> {
    iset x: Place | x in tainted && Held(FlowOf(st, x.0), x.1)
  }

  /** Positions that have left a flow's list need no distrust: what arrives for them later is the stream's. */
  lemma InvLive(w: World, st: State, tainted: iset<Place>)
    requires Inv(w, st, tainted)
    ensures Inv(w, st, Live(st, tainted))
  {
    hide SentTrue, SentOnce, WasSent, IsFull, IndexOk, ChunkOk;
    forall f | f in st.flows
      ensures FlowOk(w, f, st.flows[f], Live(st, tainted))
    {
      var bs := st.flows[f];
      assert FlowOk(w, f, bs, tainted);
      forall i, k | 0 <= i < |bs| && 0 <= k < |bs[i].data|
        ensures Loosely(w, f, Live(st, tainted))(bs[i].start + k, bs[i].data[k])
      {
        assert Loosely(w, f, tainted)(bs[i].start + k, bs[i].data[k]) && bs[i].Covers(bs[i].start + k);
      }
    }
  }

  // ---------- whole runs ----------

  ghost predicate AllAcceptable(es: seq<Event>) {
    forall e :: e in es ==> Acceptable(e)
  }

  /** The positions of the flows' lists that stray memory may hold: those a sweep filled, as long as they are held. */
  ghost function TaintedAfter(es: seq<Event>): iset<Place>
    requires AllAcceptable(es)
  {
    if es == [] then iset{}
    else
      var init, last := es[..|es| - 1], es[|es| - 1];
      Live(Run(es), TaintedAfter(init) + if last.Sweep? then StrayPlaces(Run(init), last.order) else iset{})
  }

  /**
   * A run of truthful packets in any order, number and cut, with sweeps anywhere, in which no packet that starts a new
   * chunk makes the search for the chunk's bytes meet stray memory.
   */
  ghost predicate Honest(w: World, es: seq<Event>)
    requires AllAcceptable(es)
  {
    forall k :: 0 <= k < |es| && es[k].Arrival? ==>
                  && Truthful(w, es[k].packet)
                  && (FirstSeen(Run(es[..k]), es[k].packet) ==>
                          Unharmed(Run(es[..k]), es[k].packet, TaintedAfter(es[..k])))
  }

  lemma HonestInit(w: World, es: seq<Event>)
    requires AllAcceptable(es) && Honest(w, es) && es != []
    ensures AllAcceptable(es[..|es| - 1]) && Honest(w, es[..|es| - 1])
  {
    hide Run, TaintedAfter, Unharmed, Carried, InWindow;
    var init := es[..|es| - 1];
    forall k | 0 <= k < |init| && init[k].Arrival?
      ensures Truthful(w, init[k].packet)
      ensures FirstSeen(Run(init[..k]), init[k].packet) ==>
                Unharmed(Run(init[..k]), init[k].packet, TaintedAfter(init[..k]))
    {
      assert init[k] == es[k] && init[..k] == es[..k];
    }
  }

  lemma {:induction false} RunInv(w: World, es: seq<Event>)
    requires AllAcceptable(es) && Honest(w, es)
    ensures Inv(w, Run(es), TaintedAfter(es))
  {
    hide Inv, Arrive, SweepFlows, Truthful, Honest, FirstSeen, Unharmed, Live, StrayPlaces;
    if es == [] {
      StartInv(w);
    } else {
      var init, last := es[..|es| - 1], es[|es| - 1];
      HonestInit(w, es);
      RunInv(w, init);
      if last.Arrival? {
        HonestLast(w, es);
        ArriveInv(w, Run(init), last.packet, TaintedAfter(init));
        assert TaintedAfter(init) + iset{} == TaintedAfter(init);
        InvLive(w, Run(es), TaintedAfter(init));
      } else {
        var more := TaintedAfter(init) + StrayPlaces(Run(init), last.order);
        InvMonotone(w, Run(init), TaintedAfter(init), more);
        SweepFlowsInv(w, Run(init), last.order, last.stray, more);
        InvLive(w, Run(es), more);
      }
    }
  }

  lemma StartInv(w: World)
    ensures Inv(w, INITIAL, iset{})
  {
    assert forall c :: !WasSent(INITIAL, c) && !IsFull(INITIAL, c);
  }

  lemma HonestLast(w: World, es: seq<Event>)
    requires AllAcceptable(es) && Honest(w, es) && es != [] && es[|es| - 1].Arrival?
    ensures AllAcceptable(es[..|es| - 1])
    ensures var pkt := es[|es| - 1].packet;
            Truthful(w, pkt) && (FirstSeen(Run(es[..|es| - 1]), pkt) ==>
                Unharmed(Run(es[..|es| - 1]), pkt, TaintedAfter(es[..|es| - 1])))
  {
    hide Run, TaintedAfter, Truthful, FirstSeen, Unharmed;
  }

  /** Whole-run safety: every buffer the filling path hands over is the true record, cut at the chunk length; no chunk
      is handed over twice; a chunk has been handed over exactly when all its bytes have been pooled; no step ever
      leaves defined behaviour. Sweeps may cut records out of any block: what counts is that no search for a new
      chunk's bytes takes a position that a sweep filled from memory. */
  lemma WholeRunSafety(w: World, es: seq<Event>)
    requires AllAcceptable(es) && Honest(w, es)
    ensures var st := Run(es);
            && !st.fault
            && (forall i :: 0 <= i < |st.sent| ==>
                              && |st.sent[i].data| == w.len(st.sent[i].id) <= |w.record(st.sent[i].id)|
                              && st.sent[i].data == w.record(st.sent[i].id)[..w.len(st.sent[i].id)])
            && (forall i, j :: 0 <= i < j < |st.sent| ==> st.sent[i].id != st.sent[j].id)
            && (forall c :: WasSent(st, c) <==> IsFull(st, c))
  {
    RunInv(w, es);
  }

  lemma {:induction false} NoSweepNoTaint(es: seq<Event>)
    requires AllAcceptable(es) && forall e :: e in es ==> e.Arrival?
    ensures TaintedAfter(es) == iset{}
  {
    if es != [] {
      assert es[|es| - 1] in es;
      NoSweepNoTaint(es[..|es| - 1]);
      assert TaintedAfter(es[..|es| - 1]) + iset{} == iset{};
    }
  }

  lemma OfflineHonest(w: World, es: seq<Event>)
    requires AllAcceptable(es) && forall k :: 0 <= k < |es| && es[k].Arrival? ==> Truthful(w, es[k].packet)
    requires forall k, j :: 0 <= k < j < |es| && es[k].Sweep? ==> es[j].Sweep?
    ensures Honest(w, es)
  {
    hide Truthful, Run, FirstSeen, TaintedAfter, Acceptable;
    forall k | 0 <= k < |es| && es[k].Arrival?
      ensures TaintedAfter(es[..k]) == iset{}
    {
      forall e | e in es[..k]
        ensures e.Arrival?
      {
        var j :| 0 <= j < k && es[j] == e;
      }
      NoSweepNoTaint(es[..k]);
    }
  }

  /** An offline capture of truthful packets, with sweeps only at its end, is safe whatever the sweeps find. */
  lemma OfflineSafety(w: World, es: seq<Event>)
    requires AllAcceptable(es) && forall k :: 0 <= k < |es| && es[k].Arrival? ==> Truthful(w, es[k].packet)
    requires forall k, j :: 0 <= k < j < |es| && es[k].Sweep? ==> es[j].Sweep?
    ensures SentTrue(w, Run(es)) && SentOnce(Run(es)) && !Run(es).fault
  {
    hide Truthful, Run, FirstSeen, SentTrue, SentOnce, Honest, TaintedAfter, Acceptable;
    OfflineHonest(w, es);
    RunInv(w, es);
  }
}
