/** What a run of the sniffer offers to its chunks, call by call, and what becomes of it. */
module Ledger {
  import opened Blocks
  import opened ChunkFill
  import opened FlowInsert
  import opened Grep
  import opened Engine

  /** A call of `ReconstructedChunk::fill_gaps_in_chunk`: the chunk, and the bytes with their offset in it. */
  datatype Call = Call(id: ChunkId, piece: Piece)

  /** The call that a clipped fill makes, if it makes one. */
  function ClipLog(st: State, c: ChunkId, f: FlowKey, n: nat, p: seq<Byte>): seq<Call> {
    if c !in st.chunks || f !in st.chunks[c].starts then []
    else
      var start := st.chunks[c].starts[f];
      var diff := Surplus(start, st.chunks[c].length, n, |p|);
      if diff >= |p| then [] else [Call(c, Piece(Sub32(n, start), p[..|p| - diff]))]
  }

  function CandidatesLog(st: State, c: ChunkId, f: FlowKey, k: nat): seq<Call>
    decreases |FlowOf(st, f)| - k
  {
    if c !in st.chunks || f !in st.chunks[c].starts || k >= |FlowOf(st, f)| then []
    else if Candidate(st.chunks[c], f, FlowOf(st, f)[k]) then
      var b := FlowOf(st, f)[k];
      var st1, place := FillAndSend(st, c, f, b.start, b.data), NodeAfterFill(st, c, f, k);
      ClipLog(st, c, f, b.start, b.data) +
      if st1.fault || place.None? then []
      else
        FillKeepsRest(st, c, f, k);
        CandidatesLog(st1.(flows := st1.flows[f := Without(FlowOf(st1, f), place.value)]), c, f, place.value)
    else CandidatesLog(st, c, f, k + 1)
  }

  function FrontLog(st: State, f: FlowKey, n: nat, p: seq<Byte>): seq<Call> {
    if p == [] || f !in st.index then []
    else match Lookup(st.index[f], n)
      case Some(info) => ClipLog(st, info.id, f, n, p)
      case None => []
  }

  function WithIdLog(st: State, f: FlowKey, c: ChunkId, n: nat, p: seq<Byte>): seq<Call>
    requires |p| >= 4
  {
    var st1 := Register(st, f, c, n, FragmentLength(p));
    ClipLog(st1, c, f, n, p) + if c in st.chunks then [] else CandidatesLog(FillAndSend(st1, c, f, n, p), c, f, 0)
  }

  function ArriveLog(st: State, pkt: Packet): seq<Call>
    requires WellFormed(pkt)
  {
    match pkt.hit
    case None => FrontLog(st, pkt.flow, pkt.n, pkt.payload)
    case Some(hit) =>
      var front := pkt.payload[..hit.offset];
      FrontLog(st, pkt.flow, pkt.n, front) +
      WithIdLog(Front(st, pkt.flow, pkt.n, front), pkt.flow, hit.id, pkt.n + hit.offset, pkt.payload[hit.offset..])
  }

  /** All calls of a run, in order; a sweep makes none. */
  function RunLog(es: seq<Event>): seq<Call>
    requires forall e :: e in es ==> Acceptable(e)
  {
    if es == [] then []
    else
      var init, last := es[..|es| - 1], es[|es| - 1];
      assert last in es && Acceptable(last);
      RunLog(init) + match last case Arrival(pkt) => ArriveLog(Run(init), pkt) case Sweep(_, _) => []
  }

  /** The pieces that one chunk is offered. */
  function PiecesOf(log: seq<Call>, c: ChunkId): seq<Piece> {
    if log == [] then []
    else
      var last := log[|log| - 1];
      PiecesOf(log[..|log| - 1], c) + if last.id == c then [last.piece] else []
  }

  function Offered(log: seq<Call>): nat {
    if log == [] then 0 else Offered(log[..|log| - 1]) + |log[|log| - 1].piece.p|
  }

  /** The bytes in all chunks' block lists. */
  ghost function Stored(chunks: map<ChunkId, Chunk>): nat
    decreases |chunks|
  {
    if chunks == map[] then 0
    else
      var c :| c in chunks;
      Size(chunks[c].blocks) + Stored(chunks - {c})
  }

  lemma {:induction false} StoredWithout(chunks: map<ChunkId, Chunk>, c: ChunkId)
    requires c in chunks
    ensures Stored(chunks) == Size(chunks[c].blocks) + Stored(chunks - {c})
    decreases |chunks|
  {
    var d :| d in chunks && Stored(chunks) == Size(chunks[d].blocks) + Stored(chunks - {d});
    if d != c {
      StoredWithout(chunks - {d}, c);
      StoredWithout(chunks - {c}, d);
      assert chunks - {d} - {c} == chunks - {c} - {d};
    }
  }

  lemma StoredPut(chunks: map<ChunkId, Chunk>, c: ChunkId, ch: Chunk)
    ensures Stored(chunks[c := ch]) + (if c in chunks then Size(chunks[c].blocks) else 0)
              == Stored(chunks) + Size(ch.blocks)
  {
    StoredWithout(chunks[c := ch], c);
    assert chunks[c := ch] - {c} == chunks - {c};
    if c in chunks {
      StoredWithout(chunks, c);
    } else {
      assert chunks - {c} == chunks;
    }
  }

  /**
   * The log accounts for the state: each chunk's blocks are what its pieces make, and no byte offered is lost sight of.
   */
  ghost predicate Booked(st: State, log: seq<Call>) {
    && (forall c :: c in st.chunks ==> st.chunks[c].blocks == FillAll(PiecesOf(log, c)))
    && (forall c :: c !in st.chunks ==> PiecesOf(log, c) == [])
    && (forall c :: NonEmpty(PiecesOf(log, c)))
    && st.dups + Stored(st.chunks) == Offered(log)
  }

  lemma LogSnoc(log: seq<Call>, call: Call, c: ChunkId)
    ensures PiecesOf(log + [call], c) == PiecesOf(log, c) + if call.id == c then [call.piece] else []
    ensures Offered(log + [call]) == Offered(log) + |call.piece.p|
  {
    assert (log + [call])[..|log|] == log;
  }

  lemma BookSame(st: State, st1: State, log: seq<Call>)
    requires Booked(st, log) && st1.chunks == st.chunks && st1.dups == st.dups
    ensures Booked(st1, log)
  {
  }

  lemma PieceMore(ps: seq<Piece>, piece: Piece)
    requires NonEmpty(ps) && piece.p != []
    ensures NonEmpty(ps + [piece]) && FillAll(ps + [piece]) == Fill(FillAll(ps), piece.n, piece.p).blocks
    ensures var r := Fill(FillAll(ps), piece.n, piece.p); Size(r.blocks) + r.dups == Size(FillAll(ps)) + |piece.p|
  {
    hide Fill, Size;
    assert (ps + [piece])[..|ps|] == ps;
    RunSeparated(ps);
    FillConserves(FillAll(ps), piece.n, piece.p);
  }

  lemma BookFill(st: State, log: seq<Call>, c: ChunkId, m: nat, q: seq<Byte>)
    requires Booked(st, log) && c in st.chunks && q != []
    ensures Booked(FillChunk(st, c, m, q).st, log + [Call(c, Piece(m, q))])
  {
    hide Fill, FillAll, Stored, PiecesOf, Offered, Size, NonEmpty;
    var call, ps := Call(c, Piece(m, q)), PiecesOf(log, c);
    forall d
      ensures PiecesOf(log + [call], d) == if c == d then ps + [call.piece] else PiecesOf(log, d)
    {
      LogSnoc(log, call, d);
    }
    LogSnoc(log, call, c);
    PieceMore(ps, call.piece);
    StoredPut(st.chunks, c, st.chunks[c].(blocks := Fill(st.chunks[c].blocks, m, q).blocks));
  }

  lemma BookFillAndSend(st: State, log: seq<Call>, c: ChunkId, f: FlowKey, n: nat, p: seq<Byte>)
    requires Booked(st, log)
    ensures Booked(FillAndSend(st, c, f, n, p), log + ClipLog(st, c, f, n, p))
  {
    hide Fill, Booked, Surplus, Sub32, FillChunk, Insert;
    assert log + [] == log;
    var r := ClipFill(st, c, f, n, p);
    if c !in st.chunks || f !in st.chunks[c].starts {
      BookSame(st, r.st, log);
    } else {
      var diff := Surplus(st.chunks[c].starts[f], st.chunks[c].length, n, |p|);
      if diff >= |p| {
        BookSame(st, r.st, log);
      } else {
        var st1 := ReturnSurplus(st, f, n, p, diff);
        BookSame(st, st1, log);
        BookFill(st1, log, c, Sub32(n, st.chunks[c].starts[f]), p[..|p| - diff]);
      }
    }
    BookSame(r.st, SendIfDone(r, c), log + ClipLog(st, c, f, n, p));
  }

  lemma {:induction false} BookCandidates(st: State, log: seq<Call>, c: ChunkId, f: FlowKey, k: nat)
    requires Booked(st, log)
    ensures Booked(Candidates(st, c, f, k), log + CandidatesLog(st, c, f, k))
    decreases |FlowOf(st, f)| - k
  {
    hide Booked, FillAndSend, ClipLog, NodeAfterFill;
    assert log + [] == log;
    if c !in st.chunks || f !in st.chunks[c].starts || k >= |FlowOf(st, f)| {
    } else if Candidate(st.chunks[c], f, FlowOf(st, f)[k]) {
      var b := FlowOf(st, f)[k];
      var st1, place, more := FillAndSend(st, c, f, b.start, b.data), NodeAfterFill(st, c, f, k),
          ClipLog(st, c, f, b.start, b.data);
      BookFillAndSend(st, log, c, f, b.start, b.data);
      assert more + [] == more;
      if st1.fault || place.None? {
        BookSame(st1, st1.(fault := true), log + more);
      } else {
        FillKeepsRest(st, c, f, k);
        var st2 := st1.(flows := st1.flows[f := Without(FlowOf(st1, f), place.value)]);
        BookSame(st1, st2, log + more);
        BookCandidates(st2, log + more, c, f, place.value);
        assert log + (more + CandidatesLog(st2, c, f, place.value))
            == log + more + CandidatesLog(st2, c, f, place.value);
      }
    } else {
      BookCandidates(st, log, c, f, k + 1);
    }
  }

  lemma BookRegister(st: State, log: seq<Call>, f: FlowKey, c: ChunkId, n: nat, length: nat)
    requires Booked(st, log)
    ensures Booked(Register(st, f, c, n, length), log)
  {
    hide Stored;
    StoredPut(st.chunks, c, Entry(st, f, c, n, length));
  }

  lemma BookFront(st: State, log: seq<Call>, f: FlowKey, n: nat, p: seq<Byte>)
    requires Booked(st, log)
    ensures Booked(Front(st, f, n, p), log + FrontLog(st, f, n, p))
  {
    hide Booked, FillAndSend, ClipLog, Insert;
    assert log + [] == log;
    if p == [] {
    } else if f !in st.index || Lookup(st.index[f], n).None? {
      BookSame(st, Front(st, f, n, p), log);
    } else {
      BookFillAndSend(st, log, Lookup(st.index[f], n).value.id, f, n, p);
    }
  }

  lemma BookWithId(st: State, log: seq<Call>, f: FlowKey, c: ChunkId, n: nat, p: seq<Byte>)
    requires Booked(st, log) && |p| >= 4
    ensures Booked(WithId(st, f, c, n, p), log + WithIdLog(st, f, c, n, p))
  {
    hide Booked, FillAndSend, ClipLog, Register, Candidates, CandidatesLog;
    var st1 := Register(st, f, c, n, FragmentLength(p));
    var call := ClipLog(st1, c, f, n, p);
    BookRegister(st, log, f, c, n, FragmentLength(p));
    BookFillAndSend(st1, log, c, f, n, p);
    assert call + [] == call;
    if c !in st.chunks {
      var st2 := FillAndSend(st1, c, f, n, p);
      BookCandidates(st2, log + call, c, f, 0);
      assert log + call + CandidatesLog(st2, c, f, 0) == log + (call + CandidatesLog(st2, c, f, 0));
    }
  }

  lemma BookArrive(st: State, log: seq<Call>, pkt: Packet)
    requires Booked(st, log) && WellFormed(pkt)
    ensures Booked(Arrive(st, pkt), log + ArriveLog(st, pkt))
  {
    hide Booked, Front, FrontLog, WithId, WithIdLog;
    match pkt.hit
    case None => BookFront(st, log, pkt.flow, pkt.n, pkt.payload);
    case Some(hit) =>
      var front, back := pkt.payload[..hit.offset], pkt.payload[hit.offset..];
      var st1, calls := Front(st, pkt.flow, pkt.n, front), FrontLog(st, pkt.flow, pkt.n, front);
      BookFront(st, log, pkt.flow, pkt.n, front);
      BookWithId(st1, log + calls, pkt.flow, hit.id, pkt.n + hit.offset, back);
      var more := WithIdLog(st1, pkt.flow, hit.id, pkt.n + hit.offset, back);
      assert log + calls + more == log + (calls + more);
  }

  lemma {:induction false} SweepKeepsChunks(st: State, order: seq<FlowKey>, stray: (FlowKey, nat, int) -> Byte)
    ensures SweepFlows(st, order, stray).chunks == st.chunks && SweepFlows(st, order, stray).dups == st.dups
    decreases |order|
  {
    if order != [] {
      SweepKeepsChunks(SweepFlow(st, order[0], stray), order[1..], stray);
    }
  }

  /**
   * In every run, of whatever packets: each chunk's block list is what the calls for it make of an empty one, and the
   * duplicate counter plus the bytes in all chunks are the bytes offered by all calls.
   */
  lemma {:induction false} RunBooked(es: seq<Event>)
    requires forall e :: e in es ==> Acceptable(e)
    ensures var st, log := Run(es), RunLog(es);
            && (forall c :: c in st.chunks ==> st.chunks[c].blocks == FillAll(PiecesOf(log, c)))
            && (forall c :: c !in st.chunks ==> PiecesOf(log, c) == [])
            && (forall c :: NonEmpty(PiecesOf(log, c)))
            && st.dups + Stored(st.chunks) == Offered(log)
  {
    RunIsBooked(es);
  }

  lemma {:induction false} RunIsBooked(es: seq<Event>)
    requires forall e :: e in es ==> Acceptable(e)
    ensures Booked(Run(es), RunLog(es))
  {
    hide Booked, Arrive, ArriveLog, SweepFlows;
    if es == [] {
      StartBooked();
    } else {
      var init, last := es[..|es| - 1], es[|es| - 1];
      RunIsBooked(init);
      assert last in es && Acceptable(last);
      match last
      case Arrival(pkt) => BookArrive(Run(init), RunLog(init), pkt);
      case Sweep(order, stray) =>
        SweepKeepsChunks(Run(init), order, stray);
        BookSame(Run(init), Run(es), RunLog(init));
        assert RunLog(init) + [] == RunLog(init);
    }
  }

  lemma StartBooked()
    ensures Booked(INITIAL, [])
  {
  }
}
