/** When the search of a flow's list for a new chunk's bytes keeps the chunk true, whatever stray memory holds. */
module SearchTruth {
  import opened Blocks
  import opened ChunkFill
  import opened FlowInsert
  import opened Grep
  import opened Engine
  import opened Safety

  // ---------- other memory contents ----------

  /** The same list but for the bytes at tainted positions. */
  ghost predicate Variant(bs: seq<Block>, cs: seq<Block>, f: FlowKey, tainted: iset<Place>) {
    && |bs| == |cs|
    && forall i :: 0 <= i < |bs| ==> SameBlock(bs[i], cs[i], f, tainted)
  }

  ghost predicate SameBlock(b: Block, c: Block, f: FlowKey, tainted: iset<Place>) {
    && c.start == b.start && |c.data| == |b.data| && c.modified == b.modified
    && forall k :: 0 <= k < |b.data| && (f, b.start + k) !in tainted ==> c.data[k] == b.data[k]
  }

  function WithList(st: State, f: FlowKey, cs: seq<Block>): State {
    if f in st.flows then st.(flows := st.flows[f := cs]) else st
  }

  lemma VariantInv(w: World, st: State, f: FlowKey, cs: seq<Block>, tainted: iset<Place>)
    requires Inv(w, st, tainted) && Variant(FlowOf(st, f), cs, f, tainted)
    ensures Inv(w, WithList(st, f, cs), tainted) && FlowOf(WithList(st, f, cs), f) == cs
    ensures WithList(st, f, cs).chunks == st.chunks
  {
    if f in st.flows {
      var st1 := WithList(st, f, cs);
      VariantOk(w, f, st.flows[f], cs, tainted);
      forall g, i | g in st1.index && 0 <= i < |st1.index[g]|
        ensures InfoOk(st1, g, st1.index[g][i])
      {
        assert InfoOk(st, g, st.index[g][i]);
      }
      SameSent(w, st, st1, tainted);
    }
  }

  lemma VariantOk(w: World, f: FlowKey, bs: seq<Block>, cs: seq<Block>, tainted: iset<Place>)
    requires FlowOk(w, f, bs, tainted) && Variant(bs, cs, f, tainted)
    ensures FlowOk(w, f, cs, tainted)
  {
    forall i, k | 0 <= i < |cs| && 0 <= k < |cs[i].data|
      ensures Loosely(w, f, tainted)(cs[i].start + k, cs[i].data[k])
    {
      assert SameBlock(bs[i], cs[i], f, tainted) && Loosely(w, f, tainted)(bs[i].start + k, bs[i].data[k]);
    }
    forall i | 0 <= i < |cs|
      ensures cs[i].data != [] && InWindow(w, f, cs[i].start, cs[i].End())
    {
      assert SameBlock(bs[i], cs[i], f, tainted) && bs[i].data != [];
    }
  }

  lemma VariantClear(bs: seq<Block>, cs: seq<Block>, f: FlowKey, start: nat,
                     length: nat, own: nat, tainted: iset<Place>)
    requires Variant(bs, cs, f, tainted) && ClearOf(bs, f, start, length, own, tainted)
    ensures ClearOf(cs, f, start, length, own, tainted)
  {
    forall i, pos | 0 <= i < |cs| && cs[i].Covers(pos) && start < cs[i].start && pos < start + length
                    && (f, pos) in tainted
      ensures pos < own
    {
      assert SameBlock(bs[i], cs[i], f, tainted) && bs[i].Covers(pos);
    }
  }

  /** The block with a wrong byte at each tainted position. */
  ghost function Lying(w: World, f: FlowKey, b: Block, tainted: iset<Place>): (c: Block)
    ensures SameBlock(b, c, f, tainted)
    ensures forall pos :: c.Covers(pos) && (f, pos) in tainted ==> c.data[pos - c.start] != w.stream(f, pos)
  {
    var c := Block(b.start, seq(|b.data|, k requires 0 <= k < |b.data| => LyingByte(w, f, b, tainted, k)), b.modified);
    assert forall pos :: c.Covers(pos) ==> c.data[pos - c.start] == LyingByte(w, f, b, tainted, pos - b.start);
    c
  }

  ghost function LyingByte(w: World, f: FlowKey, b: Block, tainted: iset<Place>, k: nat): Byte
    requires k < |b.data|
  {
    if (f, b.start + k) in tainted then Wrong(w.stream(f, b.start + k)) else b.data[k]
  }

  function Wrong(b: Byte): (c: Byte)
    ensures c != b
  {
    if b == 0 then 1 else 0
  }

  ghost function AllLying(w: World, f: FlowKey, bs: seq<Block>, tainted: iset<Place>): (cs: seq<Block>)
    ensures Variant(bs, cs, f, tainted) && forall i :: 0 <= i < |cs| ==> cs[i] == Lying(w, f, bs[i], tainted)
  {
    seq(|bs|, i requires 0 <= i < |bs| => Lying(w, f, bs[i], tainted))
  }

  // ---------- what the search stores ----------

  /** The part of a block inside the range. */
  function Inside(b: Block, start: nat, length: nat): seq<Byte>
    requires b.start < start + length
  {
    if b.End() > start + length then b.data[..start + length - b.start] else b.data
  }

  predicate InRange(b: Block, start: nat, length: nat) {
    start < b.start < start + length
  }

  /** The chunk's blocks after every block of s that starts inside the range has been filled in, in list order. */
  function TakeAll(blocks: seq<Block>, s: seq<Block>, start: nat, length: nat): seq<Block>
    decreases |s|
  {
    if s == [] then blocks
    else if InRange(s[0], start, length) then
      TakeAll(Fill(blocks, s[0].start - start, Inside(s[0], start, length)).blocks, s[1..], start, length)
    else TakeAll(blocks, s[1..], start, length)
  }

  /** The state of the search: a chunk with an exact range on the flow, and a list inside the flow's window. */
  ghost predicate Searching(w: World, st: State, c: ChunkId, f: FlowKey, start: nat, length: nat) {
    && !st.fault && f in st.flows && AllInWindow(w, f, st.flows[f]) && c in st.chunks && f in st.chunks[c].starts
    && st.chunks[c].starts[f] == start && st.chunks[c].length == length
    && w.base(f) <= start && start + length < WRAP && length < 0x8000_0000
  }

  /** A clipped fill needs no more than that. */
  lemma ClipInRange(w: World, st: State, c: ChunkId, f: FlowKey, start: nat, length: nat, b: Block)
    requires Searching(w, st, c, f, start, length) && InRange(b, start, length)
    requires b.data != [] && InWindow(w, f, b.start, b.End())
    ensures var diff := Surplus(start, length, b.start, |b.data|);
            && diff < |b.data| && diff == (if b.End() > start + length then b.End() - (start + length) else 0)
            && Inside(b, start, length) == b.data[..|b.data| - diff] != []
            && ClipFill(st, c, f, b.start, b.data)
            == FillChunk(ReturnSurplus(st, f, b.start, b.data, diff), c, b.start - start, Inside(b, start, length))
  {
    hide Fill, Insert;
    SurplusExact(start, length, b.start, |b.data|);
  }

  lemma TakeOne(w: World, st: State, c: ChunkId, f: FlowKey, start: nat, length: nat, k: nat)
    requires Searching(w, st, c, f, start, length) && k < |st.flows[f]| && InRange(st.flows[f][k], start, length)
    ensures var b := st.flows[f][k];
            var st1 := FillAndSend(st, c, f, b.start, b.data);
            && Searching(w, st1, c, f, start, length)
            && st1.chunks[c].blocks == Fill(st.chunks[c].blocks, b.start - start, Inside(b, start, length)).blocks
            && NodeAfterFill(st, c, f, k).Some?
            && var place := NodeAfterFill(st, c, f, k).value;
            && place < |st1.flows[f]| && st1.flows[f][place + 1..] == st.flows[f][k + 1..]
  {
    hide Fill, Insert, Surplus, PlaceAfter, InWindow;
    var bs, b := st.flows[f], st.flows[f][k];
    assert b.data != [] && InWindow(w, f, b.start, b.End());
    ClipInRange(w, st, c, f, start, length, b);
    var diff := Surplus(start, length, b.start, |b.data|);
    if diff > 0 {
      ConsumedStays(bs, b.End() - diff, b.data[|b.data| - diff..], k);
      PartWindow(w, f, b, diff);
      InsertWindow(w, f, bs, b.End() - diff, b.data[|b.data| - diff..]);
    }
    FillKeepsRest(st, c, f, k);
  }

  lemma PartWindow(w: World, f: FlowKey, b: Block, diff: nat)
    requires diff <= |b.data| && InWindow(w, f, b.start, b.End())
    ensures InWindow(w, f, b.End() - diff, b.End())
  {
  }

  lemma {:induction false} SearchTakes(w: World, st: State, c: ChunkId, f: FlowKey, start: nat, length: nat, k: nat)
    requires Searching(w, st, c, f, start, length) && k <= |st.flows[f]|
    ensures c in Candidates(st, c, f, k).chunks
    ensures Candidates(st, c, f, k).chunks[c].blocks == TakeAll(st.chunks[c].blocks, st.flows[f][k..], start, length)
    decreases |st.flows[f]| - k
  {
    hide FillAndSend, NodeAfterFill, Fill, InWindow;
    var bs := st.flows[f];
    if k < |bs| {
      assert bs[k..][0] == bs[k] && bs[k..][1..] == bs[k + 1..];
      if InRange(bs[k], start, length) {
        TakeOne(w, st, c, f, start, length, k);
        var st1, place := FillAndSend(st, c, f, bs[k].start, bs[k].data), NodeAfterFill(st, c, f, k).value;
        var list := st1.flows[f];
        var st2 := st1.(flows := st1.flows[f := Without(list, place)]);
        assert Without(list, place)[place..] == list[place + 1..];
        assert |list[place + 1..]| == |bs[k + 1..]|;
        WindowWithout(w, f, list, place);
        SearchTakes(w, st2, c, f, start, length, place);
      } else {
        SearchTakes(w, st, c, f, start, length, k + 1);
      }
    }
  }

  lemma WindowWithout(w: World, f: FlowKey, bs: seq<Block>, k: nat)
    requires AllInWindow(w, f, bs) && k < |bs|
    ensures AllInWindow(w, f, Without(bs, k))
  {
    hide InWindow;
    var less := Without(bs, k);
    assert forall i :: 0 <= i < |less| ==> less[i] == bs[if i < k then i else i + 1];
  }

  // ---------- which positions are stored ----------

  lemma {:induction false} MergeStarts(b: Block, rest: seq<Block>, m: nat)
    requires b.start < m && forall i :: 0 <= i < |rest| ==> rest[i].start < m
    ensures forall i :: 0 <= i < |Merge(b, rest).blocks| ==> Merge(b, rest).blocks[i].start < m
  {
    if rest != [] && rest[0].start <= b.End() && rest[0].End() <= b.End() {
      MergeStarts(b, rest[1..], m);
    }
  }

  /** A fill adds no block that starts elsewhere. */
  lemma {:induction false} FillStarts(bs: seq<Block>, n: nat, p: seq<Byte>, m: nat)
    requires n < m && forall i :: 0 <= i < |bs| ==> bs[i].start < m
    ensures forall i :: 0 <= i < |Fill(bs, n, p).blocks| ==> Fill(bs, n, p).blocks[i].start < m
  {
    if bs != [] && n >= bs[0].start {
      if n > bs[0].End() {
        FillStarts(bs[1..], n, p, m);
      } else if n + |p| > bs[0].End() {
        MergeStarts(Block(bs[0].start, bs[0].data + p[bs[0].End() - n..], true), bs[1..], m);
      }
    }
  }

  /** A fill behind all starts loses nothing. */
  lemma FillWhole(bs: seq<Block>, n: nat, p: seq<Byte>, pos: int)
    requires Separated(bs) && p != [] && forall i :: 0 <= i < |bs| ==> bs[i].start < n
    ensures Separated(Fill(bs, n, p).blocks)
    ensures At(Fill(bs, n, p).blocks, pos).Some? <==> At(bs, pos).Some? || n <= pos < n + |p|
  {
    hide Fill, At;
    var j := FirstReachedExists(bs, n);
    FillExact(bs, n, p, j);
    FillCoverage(bs, n, p, j, pos);
  }

  /** The blocks so far start in front of everything still to come. */
  ghost predicate InFront(blocks: seq<Block>, s: seq<Block>, start: nat, length: nat) {
    forall i, j :: 0 <= i < |blocks| && 0 <= j < |s| && InRange(s[j], start, length) ==>
                     start + blocks[i].start < s[j].start
  }

  /** In a list with rising starts, every position of a block that starts inside the range is stored. */
  lemma {:induction false} TakeAllStores(blocks: seq<Block>, s: seq<Block>, start: nat, length: nat, pos: int)
    requires Separated(blocks) && Rising(s) && InFront(blocks, s, start, length)
    ensures At(blocks, pos - start).Some? ==> At(TakeAll(blocks, s, start, length), pos - start).Some?
    ensures (exists i :: 0 <= i < |s| && InRange(s[i], start, length) && s[i].Covers(pos) && pos < start + length) ==>
              At(TakeAll(blocks, s, start, length), pos - start).Some?
    decreases |s|
  {
    hide Fill, At;
    if s != [] {
      var b, t := s[0], s[1..];
      assert Rising(t);
      assert forall i :: 0 < i < |s| ==> s[i] == t[i - 1];
      if InRange(b, start, length) {
        var n, q := b.start - start, Inside(b, start, length);
        var next := Fill(blocks, n, q).blocks;
        FillWhole(blocks, n, q, pos - start);
        NextInFront(blocks, s, start, length);
        TakeAllStores(next, t, start, length, pos);
      } else {
        TakeAllStores(blocks, t, start, length, pos);
      }
    }
  }

  lemma NextInFront(blocks: seq<Block>, s: seq<Block>, start: nat, length: nat)
    requires Rising(s) && s != [] && InFront(blocks, s, start, length) && InRange(s[0], start, length)
    ensures InFront(Fill(blocks, s[0].start - start, Inside(s[0], start, length)).blocks, s[1..], start, length)
    ensures forall i :: 0 <= i < |blocks| ==> blocks[i].start < s[0].start - start
  {
    hide Fill;
    var t, next := s[1..], Fill(blocks, s[0].start - start, Inside(s[0], start, length)).blocks;
    forall i, j | 0 <= i < |next| && 0 <= j < |t| && InRange(t[j], start, length)
      ensures start + next[i].start < t[j].start
    {
      assert t[j] == s[j + 1];
      FillStarts(blocks, s[0].start - start, Inside(s[0], start, length), t[j].start - start);
    }
  }

  /** What is stored was stored or offered. */
  lemma {:induction false} TakeAllHolds(blocks: seq<Block>, s: seq<Block>, start: nat,
                                        length: nat, P: (int, Byte) -> bool)
    requires Separated(blocks) && Holds(blocks, P) && forall i :: 0 <= i < |s| ==> s[i].data != []
    requires forall i, pos :: 0 <= i < |s| && InRange(s[i], start, length) && s[i].Covers(pos) ==>
                                P(pos - start, s[i].data[pos - s[i].start])
    ensures Holds(TakeAll(blocks, s, start, length), P)
    decreases |s|
  {
    hide Fill, Holds;
    if s != [] {
      var b, t := s[0], s[1..];
      assert forall i :: 0 < i < |s| ==> s[i] == t[i - 1];
      if InRange(b, start, length) {
        var n, q := b.start - start, Inside(b, start, length);
        forall k | 0 <= k < |q|
          ensures P(n + k, q[k])
        {
          assert s[0].Covers(b.start + k);
        }
        FillShape(blocks, n, q);
        FillHolds(blocks, n, q, P);
        TakeAllHolds(Fill(blocks, n, q).blocks, t, start, length, P);
      } else {
        TakeAllHolds(blocks, t, start, length, P);
      }
    }
  }

  // ---------- the packet that starts the chunk ----------

  /** Bytes in front of a new chunk's mark leave the blocks behind its start alone. */
  lemma {:induction false} InsertKeeps(bs: seq<Block>, n: nat, p: seq<Byte>, i: nat)
    requires i < |bs| && n + |p| < bs[i].start
    ensures bs[i] in Insert(bs, n, p)
  {
    if n > bs[0].End() && i > 0 {
      InsertKeeps(bs[1..], n, p, i - 1);
      assert bs[1..][i - 1] == bs[i];
    }
  }

  lemma FrontKeeps(w: World, st: State, f: FlowKey, n: nat, p: seq<Byte>, i: nat, tainted: iset<Place>)
    requires Inv(w, st, tainted) && InWindow(w, f, n, n + |p|) && Offers(n, p, OfStream(w, f)) && Rising(FlowOf(st, f))
    ensures Rising(FlowOf(Front(st, f, n, p), f))
    ensures i < |FlowOf(st, f)| && n + |p| < FlowOf(st, f)[i].start ==>
              FlowOf(st, f)[i] in FlowOf(Front(st, f, n, p), f)
  {
    hide Insert, FillAndSend, Rising;
    if p != [] {
      if f !in st.index || Lookup(st.index[f], n).None? {
        ListKeeps(FlowOf(st, f), n, p, i);
      } else {
        var k := LookupSound(st.index[f], n);
        var c := st.index[f][k].id;
        assert InfoOk(st, f, st.index[f][k]);
        TrulyInChunk(w, st, c, f, n, p, tainted);
        FillAndSendFlows(w, st, c, f, n, p, tainted);
        var diff := Surplus(st.chunks[c].starts[f], st.chunks[c].length, n, |p|);
        if diff > 0 {
          ListKeeps(FlowOf(st, f), n + |p| - diff, p[|p| - diff..], i);
        }
      }
    }
  }

  lemma ListKeeps(bs: seq<Block>, n: nat, p: seq<Byte>, i: nat)
    requires Rising(bs) && p != []
    ensures Rising(Insert(bs, n, p))
    ensures i < |bs| && n + |p| < bs[i].start ==> bs[i] in Insert(bs, n, p)
  {
    InsertRising(bs, n, p);
    if i < |bs| && n + |p| < bs[i].start {
      InsertKeeps(bs, n, p, i);
    }
  }

  lemma {:induction false} KeepsChunk(st: State, c: ChunkId, f: FlowKey, k: nat)
    requires c in st.chunks
    ensures c in Candidates(st, c, f, k).chunks
    decreases |FlowOf(st, f)| - k
  {
    hide Fill, Insert, Surplus, NodeAfterFill;
    if f in st.chunks[c].starts && k < |FlowOf(st, f)| {
      if Candidate(st.chunks[c], f, FlowOf(st, f)[k]) {
        var b := FlowOf(st, f)[k];
        var st1, place := FillAndSend(st, c, f, b.start, b.data), NodeAfterFill(st, c, f, k);
        if !st1.fault && place.Some? {
          FillKeepsRest(st, c, f, k);
          assert |FlowOf(st1, f)[place.value + 1..]| == |FlowOf(st, f)[k + 1..]|;
          KeepsChunk(st1.(flows := st1.flows[f := Without(FlowOf(st1, f), place.value)]), c, f, place.value);
        }
      } else {
        KeepsChunk(st, c, f, k + 1);
      }
    }
  }

  /** The chunk's pooled bytes are its record's. */
  ghost predicate ChunkTrue(w: World, st: State, c: ChunkId) {
    c in st.chunks && Holds(st.chunks[c].blocks, OfRecord(w, c))
  }

  lemma SearchedTrue(w: World, st: State, pkt: Packet, hit: Hit, tainted: iset<Place>)
    requires Inv(w, st, tainted) && Truthful(w, pkt) && pkt.hit == Some(hit) && hit.id !in st.chunks
    requires Unharmed(st, pkt, tainted)
    ensures ChunkTrue(w, Arrive(st, pkt), hit.id)
  {
    hide Arrive, Truthful, Unharmed, Inv, ChunkTrue;
    MarkedShape(w, pkt, hit);
    ArriveInv(w, st, pkt, tainted);
    ArriveKeepsChunk(st, pkt, hit);
    GoodChunk(w, Arrive(st, pkt), hit.id, tainted);
  }

  /** The chunk that a packet starts has an entry afterwards. */
  lemma ArriveKeepsChunk(st: State, pkt: Packet, hit: Hit)
    requires WellFormed(pkt) && pkt.hit == Some(hit) && hit.id !in st.chunks
    ensures hit.id in Arrive(st, pkt).chunks
  {
    hide Front, Arrive, FillAndSend, Candidates, Register, FragmentLength;
    var c, f, n, back := hit.id, pkt.flow, pkt.n + hit.offset, pkt.payload[hit.offset..];
    ArriveValue(st, pkt, hit);
    var st1 := Front(st, f, pkt.n, pkt.payload[..hit.offset]);
    FrontChunks(st, f, pkt.n, pkt.payload[..hit.offset], c);
    var st2 := Register(st1, f, c, n, FragmentLength(back));
    RegisterEntry(st1, f, c, n, FragmentLength(back));
    SendKeepsChunk(st2, c, f, n, back);
    KeepsChunk(FillAndSend(st2, c, f, n, back), c, f, 0);
  }

  lemma MarkedShape(w: World, pkt: Packet, hit: Hit)
    requires Truthful(w, pkt) && pkt.hit == Some(hit)
    ensures WellFormed(pkt) && pkt == Packet(pkt.flow, pkt.n, pkt.payload, Some(hit)) && hit.offset + 4 <= |pkt.payload|
  {
  }

  lemma SendKeepsChunk(st: State, c: ChunkId, f: FlowKey, n: nat, p: seq<Byte>)
    requires c in st.chunks
    ensures c in FillAndSend(st, c, f, n, p).chunks
  {
    hide Fill, Insert, Surplus;
  }

  lemma GoodChunk(w: World, st: State, c: ChunkId, tainted: iset<Place>)
    requires st in Good(w, tainted) && c in st.chunks
    ensures ChunkTrue(w, st, c)
  {
    assert ChunkOk(w, c, st.chunks[c]);
  }

  /** A block that would bring a tainted position behind the packet into the chunk. */
  ghost predicate Brings(b: Block, pkt: Packet, hit: Hit, length: nat, pos: int, tainted: iset<Place>) {
    && b.Covers(pos) && pkt.n + hit.offset < b.start && pkt.n + |pkt.payload| <= pos < pkt.n + hit.offset + length
    && (pkt.flow, pos) in tainted
  }

  /** Every byte held at the position is a lie. */
  ghost function LiesAt(w: World, f: FlowKey, pos: int): (int, Byte) -> bool {
    (q, b) => q != pos || b != w.stream(f, pos)
  }

  lemma EarlierOffers(w: World, f: FlowKey, pos: int, n: nat, p: seq<Byte>)
    requires n + |p| <= pos
    ensures Offers(n, p, LiesAt(w, f, pos))
  {
  }

  lemma FrontLies(w: World, st: State, f: FlowKey, n: nat, p: seq<Byte>, pos: int, tainted: iset<Place>)
    requires Inv(w, st, tainted) && InWindow(w, f, n, n + |p|) && Offers(n, p, OfStream(w, f)) && n + |p| <= pos
    requires Holds(FlowOf(st, f), LiesAt(w, f, pos))
    ensures Holds(FlowOf(Front(st, f, n, p), f), LiesAt(w, f, pos))
  {
    hide Insert, FillAndSend, Holds;
    if p != [] {
      if f !in st.index || Lookup(st.index[f], n).None? {
        EarlierOffers(w, f, pos, n, p);
        InsertHolds(FlowOf(st, f), n, p, LiesAt(w, f, pos));
      } else {
        var k := LookupSound(st.index[f], n);
        var c := st.index[f][k].id;
        assert InfoOk(st, f, st.index[f][k]);
        TrulyInChunk(w, st, c, f, n, p, tainted);
        FillAndSendFlows(w, st, c, f, n, p, tainted);
        var diff := Surplus(st.chunks[c].starts[f], st.chunks[c].length, n, |p|);
        if diff > 0 {
          EarlierOffers(w, f, pos, n + |p| - diff, p[|p| - diff..]);
          InsertHolds(FlowOf(st, f), n + |p| - diff, p[|p| - diff..], LiesAt(w, f, pos));
        }
      }
    }
  }

  /** The state whose list is searched, where the packet ends inside the chunk. */
  lemma SearchBegins(w: World, st: State, c: ChunkId, f: FlowKey, n: nat, p: seq<Byte>, tainted: iset<Place>)
    requires Inv(w, st, tainted) && |p| >= 4 && c !in st.chunks && InWindow(w, f, n, n + |p|)
    requires Offers(n, p, OfStream(w, f))
    requires n == w.place(f, c) && FragmentLength(p) == w.len(c) && 0 < w.len(c) <= |w.record(c)| && Carried(w, f, c)
    requires |p| < w.len(c) && f in st.flows
    ensures var st1 := FillAndSend(Register(st, f, c, n, FragmentLength(p)), c, f, n, p);
            Searching(w, st1, c, f, n, w.len(c)) && st1.flows == st.flows && st1.chunks[c].blocks == [Block(0, p, true)]
  {
    hide Insert, FillAndSend, Surplus, InChunk, Fill, Register;
    RegisterInv(w, st, f, c, tainted);
    MarkedInChunk(w, st, f, c, n, p, tainted);
    var st1 := Register(st, f, c, n, FragmentLength(p));
    RegisterEntry(st, f, c, n, FragmentLength(p));
    FirstFill(w, st1, f, c, n, p, tainted);
    SurplusExact(n, w.len(c), n, |p|);
    assert p[..|p| - 0] == p;
    FillAndSendInv(w, st1, c, f, n, p, tainted);
    assert FlowOk(w, f, st.flows[f], tainted);
  }

  lemma RegisterEntry(st: State, f: FlowKey, c: ChunkId, n: nat, length: nat)
    requires c !in st.chunks
    ensures var st1 := Register(st, f, c, n, length);
            st1.flows == st.flows && c in st1.chunks && st1.chunks[c] == Chunk(length, map[f := n], [])
  {
  }

  /** A search that finds a lie stores it. */
  lemma SearchStoresLie(w: World, st: State, c: ChunkId, f: FlowKey, start: nat, p: seq<Byte>, i: nat, pos: int)
    requires Searching(w, st, c, f, start, w.len(c)) && st.chunks[c].blocks == [Block(0, p, true)] && p != []
    requires Rising(st.flows[f]) && Holds(st.flows[f], LiesAt(w, f, pos)) && start + |p| <= pos < start + w.len(c)
    requires i < |st.flows[f]| && start < st.flows[f][i].start && st.flows[f][i].Covers(pos)
    requires start == w.place(f, c) && Carried(w, f, c) && w.len(c) <= |w.record(c)|
    ensures !ChunkTrue(w, Candidates(st, c, f, 0), c)
  {
    hide Candidates, InWindow, TakeAll, Holds, Rising, LiesAt, Carried;
    var bs := st.flows[f];
    assert bs[0..] == bs;
    SearchTakes(w, st, c, f, start, w.len(c), 0);
    LieTaken(w, bs, c, f, start, p, i, pos);
  }

  lemma LieTaken(w: World, bs: seq<Block>, c: ChunkId, f: FlowKey, start: nat, p: seq<Byte>, i: nat, pos: int)
    requires Rising(bs) && Holds(bs, LiesAt(w, f, pos)) && start + |p| <= pos < start + w.len(c) && p != []
    requires i < |bs| && start < bs[i].start && bs[i].Covers(pos)
    requires start == w.place(f, c) && Carried(w, f, c) && w.len(c) <= |w.record(c)|
    ensures !Holds(TakeAll([Block(0, p, true)], bs, start, w.len(c)), OfRecord(w, c))
  {
    hide At, TakeAll;
    var length, blocks := w.len(c), [Block(0, p, true)];
    var P: (int, Byte) -> bool := (q: int, b: Byte) => q != pos - start || b != w.stream(f, pos);
    var now := TakeAll(blocks, bs, start, length);
    TakeAllStores(blocks, bs, start, length, pos);
    forall j, q | 0 <= j < |bs| && InRange(bs[j], start, length) && bs[j].Covers(q)
      ensures P(q - start, bs[j].data[q - bs[j].start])
    {
      assert LiesAt(w, f, pos)(bs[j].start + (q - bs[j].start), bs[j].data[q - bs[j].start]);
    }
    TakeAllHolds(blocks, bs, start, length, P);
    HoldsAt(now, P, pos - start);
    assert w.stream(f, w.place(f, c) + (pos - start)) == w.record(c)[pos - start];
    if Holds(now, OfRecord(w, c)) {
      HoldsAt(now, OfRecord(w, c), pos - start);
    }
  }

  /** With a lie at the position, the search stores the lie. */
  lemma SearchedFalse(w: World, st: State, pkt: Packet, hit: Hit, i: nat, pos: int, tainted: iset<Place>)
    requires Inv(w, st, tainted) && Truthful(w, pkt) && pkt.hit == Some(hit) && hit.id !in st.chunks
    requires Rising(FlowOf(st, pkt.flow)) && Holds(FlowOf(st, pkt.flow), LiesAt(w, pkt.flow, pos))
    requires i < |FlowOf(st, pkt.flow)| && Brings(FlowOf(st, pkt.flow)[i], pkt, hit, w.len(hit.id), pos, tainted)
    ensures !ChunkTrue(w, Arrive(st, pkt), hit.id)
  {
    hide Front, FillAndSend, Register, Candidates, Truthful, Inv, Rising, Holds, Carried, InWindow, Offers, ChunkTrue;
    MarkedShape(w, pkt, hit);
    var c, f, front, back := hit.id, pkt.flow, pkt.payload[..hit.offset], pkt.payload[hit.offset..];
    var n := pkt.n + hit.offset;
    ArriveValue(st, pkt, hit);
    TruthfulParts(w, f, pkt.n, pkt.payload, hit);
    FrontInv(w, st, f, pkt.n, front, tainted);
    FrontChunks(st, f, pkt.n, front, c);
    FrontKeeps(w, st, f, pkt.n, front, i, tainted);
    FrontLies(w, st, f, pkt.n, front, pos, tainted);
    var st1 := Front(st, f, pkt.n, front);
    var j :| 0 <= j < |FlowOf(st1, f)| && FlowOf(st1, f)[j] == FlowOf(st, f)[i];
    SearchBegins(w, st1, c, f, n, back, tainted);
    SearchStoresLie(w, FillAndSend(Register(st1, f, c, n, FragmentLength(back)), c, f, n, back), c, f, n, back, j, pos);
  }

  /**
   * The exact condition. Where the flow's blocks have rising starts, a packet that starts a new chunk leaves the chunk
   * true for all contents of the tainted positions if and only if no block that starts inside the chunk, behind its
   * mark, holds a tainted position of the chunk that the packet does not bring itself.
   */
  lemma SearchTruthIff(w: World, st: State, pkt: Packet, tainted: iset<Place>)
    requires Inv(w, st, tainted) && Truthful(w, pkt) && FirstSeen(st, pkt) && Rising(FlowOf(st, pkt.flow))
    ensures Unharmed(st, pkt, tainted) <==>
              forall cs :: Variant(FlowOf(st, pkt.flow), cs, pkt.flow, tainted) ==>
                             ChunkTrue(w, Arrive(WithList(st, pkt.flow, cs), pkt), pkt.hit.value.id)
  {
    hide Inv, Arrive, Truthful, Variant, Rising, Holds, ChunkTrue;
    var hit, f, bs := pkt.hit.value, pkt.flow, FlowOf(st, pkt.flow);
    MarkedShape(w, pkt, hit);
    if Unharmed(st, pkt, tainted) {
      forall cs | Variant(bs, cs, f, tainted)
        ensures ChunkTrue(w, Arrive(WithList(st, f, cs), pkt), hit.id)
      {
        VariantInv(w, st, f, cs, tainted);
        VariantClear(bs, cs, f, pkt.n + hit.offset, FragmentLength(pkt.payload[hit.offset..]),
                     pkt.n + |pkt.payload|, tainted);
        SearchedTrue(w, WithList(st, f, cs), pkt, hit, tainted);
      }
    } else {
      Untruth(w, st, pkt, hit, tainted);
    }
  }

  lemma Untruth(w: World, st: State, pkt: Packet, hit: Hit, tainted: iset<Place>)
    requires Inv(w, st, tainted) && Truthful(w, pkt) && pkt.hit == Some(hit) && hit.id !in st.chunks
    requires Rising(FlowOf(st, pkt.flow)) && !Unharmed(st, pkt, tainted)
    ensures var cs := AllLying(w, pkt.flow, FlowOf(st, pkt.flow), tainted);
            && Variant(FlowOf(st, pkt.flow), cs, pkt.flow, tainted)
            && !ChunkTrue(w, Arrive(WithList(st, pkt.flow, cs), pkt), hit.id)
  {
    hide Inv, Arrive, Truthful, Rising, Lying, WithList, Unharmed;
    var f, bs := pkt.flow, FlowOf(st, pkt.flow);
    var cs := AllLying(w, f, bs, tainted);
    var i, pos := SomeBrings(w, st, pkt, hit, tainted);
    VariantInv(w, st, f, cs, tainted);
    VariantRising(bs, cs, f, tainted);
    AllLies(w, f, bs, cs, pos, tainted);
    assert SameBlock(bs[i], cs[i], f, tainted);
    SearchedFalse(w, WithList(st, f, cs), pkt, hit, i, pos, tainted);
  }

  lemma SomeBrings(w: World, st: State, pkt: Packet, hit: Hit, tainted: iset<Place>) returns (i: nat, pos: int)
    requires Truthful(w, pkt) && pkt.hit == Some(hit) && !Unharmed(st, pkt, tainted)
    ensures i < |FlowOf(st, pkt.flow)| && Brings(FlowOf(st, pkt.flow)[i], pkt, hit, w.len(hit.id), pos, tainted)
  {
    hide Carried, InWindow, Offers;
    var bs, start := FlowOf(st, pkt.flow), pkt.n + hit.offset;
    i, pos :| 0 <= i < |bs| && bs[i].Covers(pos) && start < bs[i].start && pos < start + w.len(hit.id)
              && (pkt.flow, pos) in tainted && pos >= pkt.n + |pkt.payload|;
  }

  lemma AllLies(w: World, f: FlowKey, bs: seq<Block>, cs: seq<Block>, pos: int, tainted: iset<Place>)
    requires cs == AllLying(w, f, bs, tainted) && (f, pos) in tainted
    ensures Holds(cs, LiesAt(w, f, pos))
  {
    hide Lying, LiesAt;
    forall j, k | 0 <= j < |cs| && 0 <= k < |cs[j].data|
      ensures LiesAt(w, f, pos)(cs[j].start + k, cs[j].data[k])
    {
      BlockLies(w, f, bs[j], k, pos, tainted);
    }
  }

  lemma BlockLies(w: World, f: FlowKey, b: Block, k: nat, pos: int, tainted: iset<Place>)
    requires (f, pos) in tainted && k < |Lying(w, f, b, tainted).data|
    ensures var c := Lying(w, f, b, tainted); LiesAt(w, f, pos)(c.start + k, c.data[k])
  {
    hide Lying, SameBlock;
    var c := Lying(w, f, b, tainted);
    assert c.Covers(c.start + k) && c.start + k - c.start == k;
  }

  lemma VariantRising(bs: seq<Block>, cs: seq<Block>, f: FlowKey, tainted: iset<Place>)
    requires Rising(bs) && Variant(bs, cs, f, tainted)
    ensures Rising(cs)
  {
    forall i | 0 <= i < |bs|
      ensures cs[i].start == bs[i].start && cs[i].data != []
    {
      assert SameBlock(bs[i], cs[i], f, tainted) && bs[i].data != [];
    }
  }
}
