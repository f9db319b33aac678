/** The sniffer's step machine on values: what handle_ip and the helpers it calls do to the tables. */
module Engine {
  import opened Blocks
  import opened ChunkFill
  import opened FlowInsert
  import opened Grep

  type FlowKey = string
  type ChunkId = string

  /** `ChunkInfo`: where a flow was first seen to carry a chunk. */
  datatype ChunkInfo = ChunkInfo(id: ChunkId, start: nat, length: nat)

  /** The value of a `ReconstructedChunk`; starts is its flow_seq_map. */
  datatype Chunk = Chunk(length: nat, starts: map<FlowKey, nat>, blocks: seq<Block>)

  /** A buffer handed to the plugin by the chunk-filling path. */
  datatype Sent = Sent(id: ChunkId, data: seq<Byte>)

  /**
   * `fault` marks a run that left defined behaviour: a missing chunk entry, a clip longer than the packet, a lost list
   * position.
   */
  datatype State = State(
    flows: map<FlowKey, seq<Block>>,
    index: map<FlowKey, seq<ChunkInfo>>,
    chunks: map<ChunkId, Chunk>,
    sent: seq<Sent>,
    pulled: seq<Part>,
    dups: nat,
    fault: bool)

  const INITIAL := State(map[], map[], map[], [], [], 0, false)

  /** What the record recogniser says about a payload: a chunk id and the offset of its record mark. */
  datatype Hit = Hit(id: ChunkId, offset: nat)

  datatype Packet = Packet(flow: FlowKey, n: nat, payload: seq<Byte>, hit: Option<Hit>)

  datatype Event = Arrival(packet: Packet) | Sweep(order: seq<FlowKey>, stray: (FlowKey, nat, int) -> Byte)

  function FlowOf(st: State, f: FlowKey): seq<Block> {
    if f in st.flows then st.flows[f] else []
  }

  function InsertFlow(st: State, f: FlowKey, n: nat, p: seq<Byte>): State {
    st.(flows := st.flows[f := Insert(FlowOf(st, f), n, p)])
  }

  /** The signed count of packet bytes behind the end of the chunk, negative counts set to zero. */
  function Surplus(start: nat, length: nat, n: nat, size: nat): nat {
    var diff := Signed32(Sub32(Add32(n, size), Add32(start, length)));
    if diff < 0 then 0 else diff
  }

  datatype ClipResult = ClipResult(st: State, done: bool)

  /** The last diff bytes of the packet go back to the flow's list. */
  function ReturnSurplus(st: State, f: FlowKey, n: nat, p: seq<Byte>, diff: nat): State
    requires diff <= |p|
  {
    if diff > 0 then InsertFlow(st, f, n + |p| - diff, p[|p| - diff..]) else st
  }

  /** `ReconstructedChunk::fill_gaps_in_chunk` on the chunk's entry. */
  function FillChunk(st: State, c: ChunkId, m: nat, q: seq<Byte>): ClipResult
    requires c in st.chunks
  {
    var r := Fill(st.chunks[c].blocks, m, q);
    ClipResult(st.(chunks := st.chunks[c := st.chunks[c].(blocks := r.blocks)], dups := st.dups + r.dups),
               Completes(r, st.chunks[c].length))
  }

  /** `SniffTcp::fill_gaps_in_chunk`: bytes behind the chunk go back to the flow, the rest into the chunk. */
  function ClipFill(st: State, c: ChunkId, f: FlowKey, n: nat, p: seq<Byte>): ClipResult {
    if c !in st.chunks then ClipResult(st.(fault := true), false)
    else if f !in st.chunks[c].starts then ClipResult(st, false)
    else
      var start := st.chunks[c].starts[f];
      var diff := Surplus(start, st.chunks[c].length, n, |p|);
      if diff >= |p| then ClipResult(st.(fault := true), false)
      else FillChunk(ReturnSurplus(st, f, n, p, diff), c, Sub32(n, start), p[..|p| - diff])
  }

  /** Hand the chunk's first block to the plugin when the fill reported completion. */
  function SendIfDone(r: ClipResult, c: ChunkId): State {
    if r.done && c in r.st.chunks && r.st.chunks[c].blocks != [] then
      r.st.(sent := r.st.sent + [Sent(c, r.st.chunks[c].blocks[0].data)])
    else r.st
  }

  function FillAndSend(st: State, c: ChunkId, f: FlowKey, n: nat, p: seq<Byte>): State {
    SendIfDone(ClipFill(st, c, f, n, p), c)
  }

  /** Is the block's first byte inside the chunk, behind its record mark? */
  predicate Candidate(ch: Chunk, f: FlowKey, b: Block) {
    f in ch.starts && ch.starts[f] < b.start < ch.starts[f] + ch.length
  }

  /**
   * Where the list iterator at node k stands after the fill of that node's bytes put its surplus back into the list.
   */
  function NodeAfterFill(st: State, c: ChunkId, f: FlowKey, k: nat): Option<nat>
    requires c in st.chunks && f in st.chunks[c].starts && k < |FlowOf(st, f)|
  {
    var ch, b := st.chunks[c], FlowOf(st, f)[k];
    var diff := Surplus(ch.starts[f], ch.length, b.start, |b.data|);
    if 0 < diff < |b.data| then PlaceAfter(FlowOf(st, f), b.End() - diff, b.data[|b.data| - diff..], k) else Some(k)
  }

  lemma {:induction false} PlaceKeepsRest(bs: seq<Block>, n: nat, p: seq<Byte>, k: nat)
    requires k < |bs| && n < bs[k].End() && PlaceAfter(bs, n, p, k).Some?
    ensures PlaceAfter(bs, n, p, k).value < |Insert(bs, n, p)|
    ensures Insert(bs, n, p)[PlaceAfter(bs, n, p, k).value + 1..] == bs[k + 1..]
  {
    if n > bs[0].End() && k > 0 {
      PlaceKeepsRest(bs[1..], n, p, k - 1);
      assert bs[1..][k..] == bs[k + 1..];
    } else {
      PlaceAtFront(bs, n, p, k);
    }
  }

  lemma PlaceAtFront(bs: seq<Block>, n: nat, p: seq<Byte>, k: nat)
    requires k < |bs| && n < bs[k].End() && PlaceAfter(bs, n, p, k).Some? && n <= bs[0].End()
    ensures PlaceAfter(bs, n, p, k).value < |Insert(bs, n, p)|
    ensures Insert(bs, n, p)[PlaceAfter(bs, n, p, k).value + 1..] == bs[k + 1..]
  {
  }

  lemma FillKeepsRest(st: State, c: ChunkId, f: FlowKey, k: nat)
    requires c in st.chunks && f in st.chunks[c].starts && k < |FlowOf(st, f)|
    requires NodeAfterFill(st, c, f, k).Some?
    ensures var b := FlowOf(st, f)[k];
            var st1 := FillAndSend(st, c, f, b.start, b.data);
            var place := NodeAfterFill(st, c, f, k).value;
            !st1.fault ==> place < |FlowOf(st1, f)| && FlowOf(st1, f)[place + 1..] == FlowOf(st, f)[k + 1..]
  {
    var ch, b := st.chunks[c], FlowOf(st, f)[k];
    var diff := Surplus(ch.starts[f], ch.length, b.start, |b.data|);
    if 0 < diff < |b.data| {
      PlaceKeepsRest(FlowOf(st, f), b.End() - diff, b.data[|b.data| - diff..], k);
    }
  }

  /** The loop of deal_with_candidates_for_chunk from list node k on: matching blocks move into the chunk. */
  function Candidates(st: State, c: ChunkId, f: FlowKey, k: nat): State
    decreases |FlowOf(st, f)| - k
  {
    if c !in st.chunks || f !in st.chunks[c].starts || k >= |FlowOf(st, f)| then st
    else if Candidate(st.chunks[c], f, FlowOf(st, f)[k]) then
      var b := FlowOf(st, f)[k];
      var st1 := FillAndSend(st, c, f, b.start, b.data);
      var place := NodeAfterFill(st, c, f, k);
      if st1.fault || place.None? then st1.(fault := true)
      else
        FillKeepsRest(st, c, f, k);
        Candidates(st1.(flows := st1.flows[f := Without(FlowOf(st1, f), place.value)]), c, f, place.value)
    else Candidates(st, c, f, k + 1)
  }

  /** The first indexed chunk range that contains n behind its record mark. */
  function Lookup(infos: seq<ChunkInfo>, n: nat): Option<ChunkInfo> {
    if infos == [] then None
    else if infos[0].start < n < infos[0].start + infos[0].length then Some(infos[0])
    else Lookup(infos[1..], n)
  }

  /** `deal_with_pkt_without_chunkid`. */
  function WithoutId(st: State, f: FlowKey, n: nat, p: seq<Byte>): State {
    if f !in st.index then st
    else match Lookup(st.index[f], n)
      case Some(info) => FillAndSend(st, info.id, f, n, p)
      case None => InsertFlow(st, f, n, p)
  }

  predicate Indexed(infos: seq<ChunkInfo>, c: ChunkId) {
    exists i :: 0 <= i < |infos| && infos[i].id == c
  }

  /** Record in the flow's index that it carries c at n, unless c is listed already. */
  function AddToIndex(st: State, f: FlowKey, c: ChunkId, n: nat, length: nat): State {
    if f !in st.index then st.(index := st.index[f := [ChunkInfo(c, n, length)]])
    else if Indexed(st.index[f], c) then st
    else st.(index := st.index[f := st.index[f] + [ChunkInfo(c, n, length)]])
  }

  /** The chunk's entry once flow f is known to carry it from n on. */
  function Entry(st: State, f: FlowKey, c: ChunkId, n: nat, length: nat): Chunk {
    if c in st.chunks then st.chunks[c].(starts := st.chunks[c].starts[f := n]) else Chunk(length, map[f := n], [])
  }

  function Register(st: State, f: FlowKey, c: ChunkId, n: nat, length: nat): State {
    AddToIndex(st, f, c, n, length).(chunks := st.chunks[c := Entry(st, f, c, n, length)])
  }

  /** A payload that begins with the record mark of chunk c. */
  function WithId(st: State, f: FlowKey, c: ChunkId, n: nat, p: seq<Byte>): State
    requires |p| >= 4
  {
    var st1 := FillAndSend(Register(st, f, c, n, FragmentLength(p)), c, f, n, p);
    if c in st.chunks then st1 else Candidates(st1, c, f, 0)
  }

  /** The record mark the recogniser reports is inside the payload. */
  predicate WellFormed(pkt: Packet) {
    pkt.payload != [] && (pkt.hit.Some? ==> pkt.hit.value.offset + 4 <= |pkt.payload|)
  }

  /** Bytes that no record mark of this packet stands in front of. */
  function Front(st: State, f: FlowKey, n: nat, p: seq<Byte>): State {
    if p == [] then st
    else if f !in st.index then InsertFlow(st, f, n, p)
    else WithoutId(st, f, n, p)
  }

  /** `handle_ip` for one TCP payload, with g_multi_chances set. */
  function Arrive(st: State, pkt: Packet): State
    requires WellFormed(pkt)
  {
    match pkt.hit
    case None => Front(st, pkt.flow, pkt.n, pkt.payload)
    case Some(hit) =>
      WithId(Front(st, pkt.flow, pkt.n, pkt.payload[..hit.offset]), pkt.flow,
             hit.id, pkt.n + hit.offset, pkt.payload[hit.offset..])
  }

  function OfFlow(stray: (FlowKey, nat, int) -> Byte, f: FlowKey): (nat, int) -> Byte {
    (i: nat, pos: int) => stray(f, i, pos)
  }

  /** The sweep of one flow's list. */
  function SweepFlow(st: State, f: FlowKey, stray: (FlowKey, nat, int) -> Byte): State {
    if f !in st.flows then st
    else st.(flows := st.flows[f := SweepFrom(st.flows[f], OfFlow(stray, f), 0)],
             pulled := st.pulled + RecordsFrom(st.flows[f], OfFlow(stray, f), 0))
  }

  /** `grep_flows_for_chunks` over the flows in list order. */
  function SweepFlows(st: State, order: seq<FlowKey>, stray: (FlowKey, nat, int) -> Byte): State
    decreases |order|
  {
    if order == [] then st
    else
      SweepFlows(SweepFlow(st, order[0], stray), order[1..], stray)
  }

  predicate Acceptable(e: Event) {
    e.Arrival? ==> WellFormed(e.packet)
  }

  function Step(st: State, e: Event): State
    requires Acceptable(e)
  {
    match e
    case Arrival(pkt) => Arrive(st, pkt)
    case Sweep(order, stray) => SweepFlows(st, order, stray)
  }

  function Run(es: seq<Event>): State
    requires forall e :: e in es ==> Acceptable(e)
  {
    if es == [] then INITIAL else Step(Run(es[..|es| - 1]), es[|es| - 1])
  }
}
