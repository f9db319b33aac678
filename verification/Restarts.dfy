/**
 * A flow that carries one chunk at two places: the index keeps the first place, the chunk's entry the last. Which late
 * packets of the first copy do harm.
 */
module Restarts {
  import opened Blocks
  import opened ChunkFill
  import opened FlowInsert
  import opened Engine
  import opened IdealSniffer

  /** On flow f the index has info, and the chunk's own entry starts at b; every range ends below 2^31. */
  ghost predicate Restarted(st: State, f: FlowKey, info: ChunkInfo, b: nat) {
    && !st.fault && f in st.index && info.id in st.chunks && f in st.chunks[info.id].starts
    && st.chunks[info.id].starts[f] == b && info.start + info.length < 0x8000_0000
    && forall c :: c in st.chunks && f in st.chunks[c].starts ==>
                     st.chunks[c].starts[f] + st.chunks[c].length < 0x8000_0000
  }

  /** A packet without a mark that the index takes for a part of the chunk. */
  ghost predicate Late(st: State, f: FlowKey, info: ChunkInfo, n: nat, p: seq<Byte>) {
    && p != [] && n + |p| < 0x8000_0000
    && f in st.index && Lookup(st.index[f], n) == Some(info)
  }

  ghost function Recorded(record: int -> Byte): (int, Byte) -> bool {
    (pos, x) => x == record(pos)
  }

  /** A fill takes the packet's byte at pos. */
  ghost predicate Taken(bs: seq<Block>, m: nat, q: seq<Byte>, j: nat, pos: int)
    requires j <= |bs|
  {
    m <= pos < Cut(bs, m, q, j) && !(j < |bs| && bs[j].Covers(pos))
  }

  function Plain(f: FlowKey, n: nat, p: seq<Byte>): Packet {
    Packet(f, n, p, None)
  }

  /** Such a packet is clipped by all its bytes or more exactly if it starts at or behind the entry's end. */
  lemma LateFaultIff(st: State, f: FlowKey, info: ChunkInfo, b: nat, n: nat, p: seq<Byte>)
    requires Restarted(st, f, info, b) && Late(st, f, info, n, p)
    ensures Arrive(st, Plain(f, n, p)).fault <==> n >= b + st.chunks[info.id].length
    ensures info.start < n < info.start + info.length
  {
    hide Fill, Insert, Completes;
    var length := st.chunks[info.id].length;
    LookupRange(st.index[f], n);
    LateSurplus(b, length, n, |p|);
    assert Arrive(st, Plain(f, n, p)) == FillAndSend(st, info.id, f, n, p);
  }

  lemma {:induction false} LookupRange(infos: seq<ChunkInfo>, n: nat)
    requires Lookup(infos, n).Some?
    ensures var info := Lookup(infos, n).value; info.start < n < info.start + info.length
  {
    if !(infos[0].start < n < infos[0].start + infos[0].length) {
      LookupRange(infos[1..], n);
    }
  }

  lemma LateSurplus(b: nat, length: nat, n: nat, size: nat)
    requires b + length < 0x8000_0000 && n + size < 0x8000_0000
    ensures Surplus(b, length, n, size) == if n + size > b + length then n + size - (b + length) else 0
  {
  }

  /**
   * No late packet of the first copy can fault if and only if the first range does not reach behind the second; a chunk
   * that starts again further on is safe in this respect, one that starts again further ahead is not.
   */
  lemma RestartSafeIff(st: State, f: FlowKey, info: ChunkInfo, b: nat)
    requires Restarted(st, f, info, b) && st.index[f] != [] && st.index[f][0] == info
    ensures (forall n: nat, p :: Late(st, f, info, n, p) ==> !Arrive(st, Plain(f, n, p)).fault)
       <==> info.length < 2 || info.start + info.length <= b + st.chunks[info.id].length
  {
    hide Arrive;
    var length := st.chunks[info.id].length;
    forall n: nat, p | Late(st, f, info, n, p)
      ensures (Arrive(st, Plain(f, n, p)).fault <==> n >= b + length) && info.start < n < info.start + info.length
    {
      LateFaultIff(st, f, info, b, n, p);
    }
    var last: int := info.start + info.length - 1;
    if info.length >= 2 && last >= b + length {
      assert Late(st, f, info, last, [0]);
    }
  }

  /**
   * A late packet that does not fault is stored b - a places off. The chunk's bytes stay those of the record exactly if
   * the record repeats itself at that distance wherever the packet's bytes are taken; for b == a they always do.
   */
  lemma LateTrueIff(st: State, f: FlowKey, info: ChunkInfo, b: nat, n: nat, p: seq<Byte>, record: int -> Byte, j: nat)
    requires Restarted(st, f, info, b) && Late(st, f, info, n, p)
    requires var ch := st.chunks[info.id]; b <= n < b + ch.length && Separated(ch.blocks)
                                           && j <= |ch.blocks| && FirstReached(ch.blocks, n - b, j)
                                           && Holds(ch.blocks, Recorded(record))
    requires forall k :: 0 <= k < |p| ==> p[k] == record(n - info.start + k)
    ensures var ch := st.chunks[info.id];
            var fit := if n + |p| > b + ch.length then p[..b + ch.length - n] else p;
            var st1 := Arrive(st, Plain(f, n, p));
            && info.id in st1.chunks
            && (Holds(st1.chunks[info.id].blocks, Recorded(record)) <==>
                forall pos :: Taken(ch.blocks, n - b, fit, j, pos) ==> record(pos) == record(pos + b - info.start))
  {
    hide Fill, Insert, Completes, At, Cut, FirstReached, Separated, Holds;
    var ch := st.chunks[info.id];
    LateSurplus(b, ch.length, n, |p|);
    var diff := Surplus(b, ch.length, n, |p|);
    var fit := p[..|p| - diff];
    assert diff == 0 ==> fit == p;
    assert Arrive(st, Plain(f, n, p)) == FillAndSend(st, info.id, f, n, p);
    assert Arrive(st, Plain(f, n, p)).chunks[info.id].blocks == Fill(ch.blocks, n - b, fit).blocks;
    FillTrueIff(ch.blocks, n - b, fit, j, record, b - info.start);
  }

  lemma FillTrueIff(bs: seq<Block>, m: nat, q: seq<Byte>, j: nat, record: int -> Byte, off: int)
    requires Separated(bs) && q != [] && j <= |bs| && FirstReached(bs, m, j) && Holds(bs, Recorded(record))
    requires forall k :: 0 <= k < |q| ==> q[k] == record(m + off + k)
    ensures Holds(Fill(bs, m, q).blocks, Recorded(record)) <==>
            forall pos :: Taken(bs, m, q, j, pos) ==> record(pos) == record(pos + off)
  {
    hide Fill, At, Separated, Holds, FirstReached;
    FillExact(bs, m, q, j);
    var r := Fill(bs, m, q).blocks;
    var P := Recorded(record);
    if forall pos :: Taken(bs, m, q, j, pos) ==> record(pos) == record(pos + off) {
      forall pos | At(r, pos).Some?
        ensures P(pos, At(r, pos).value)
      {
        if Taken(bs, m, q, j, pos) {
          assert q[pos - m] == record(m + off + (pos - m));
        } else {
          HoldsAt(bs, P, pos);
        }
      }
      AtHolds(r, P);
    }
    if Holds(r, P) {
      forall pos | Taken(bs, m, q, j, pos)
        ensures record(pos) == record(pos + off)
      {
        assert q[pos - m] == record(m + off + (pos - m));
        HoldsAt(r, P, pos);
      }
    }
  }

  /** The variant, which knows the second place only, never faults on a packet without a mark. */
  lemma IdealLateSafe(st: State, f: FlowKey, n: nat, p: seq<Byte>)
    requires !st.fault && p != [] && n + |p| < 0x8000_0000
    requires forall c :: c in st.chunks && f in st.chunks[c].starts ==>
                           st.chunks[c].starts[f] + st.chunks[c].length < 0x8000_0000
    ensures !IdealArrive(st, Plain(f, n, p)).fault
  {
    hide Fill, Insert, Completes, RangeOf;
    if f in st.index && RangeOf(st, f, st.index[f], n).Some? {
      var c := RangeOf(st, f, st.index[f], n).value;
      RangeFits(st, f, st.index[f], n);
      LateSurplus(st.chunks[c].starts[f], st.chunks[c].length, n, |p|);
    }
  }

  lemma {:induction false} RangeFits(st: State, f: FlowKey, infos: seq<ChunkInfo>, n: nat)
    requires RangeOf(st, f, infos, n).Some?
    ensures var c := RangeOf(st, f, infos, n).value;
            && c in st.chunks && f in st.chunks[c].starts
            && st.chunks[c].starts[f] < n < st.chunks[c].starts[f] + st.chunks[c].length
  {
    var c := infos[0].id;
    if !(c in st.chunks && f in st.chunks[c].starts
         && st.chunks[c].starts[f] < n < st.chunks[c].starts[f] + st.chunks[c].length) {
      RangeFits(st, f, infos[1..], n);
    }
  }
}
