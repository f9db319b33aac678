/** The sweep that pulls complete records out of a flow's blocks (grep_flows_for_chunks), on values. */
module Grep {
  import opened Blocks

  const RPC_HEADER: Byte := 0x80

  /** The pattern searched for eight bytes behind a record mark. */
  const MASK: seq<Byte> := [0, 0, 0, 1, 0, 0, 0, 0, 0, 0, 0, 0, 0, 0, 0, 0, 0, 0, 0, 0, 0, 0, 0, 1]

  /** The 31-bit fragment length of a record mark (section 11 of RFC 5531). */
  function FragmentLength(b: seq<Byte>): (n: nat)
    requires |b| >= 4
    ensures n < 0x8000_0000
  {
    var b0: int, b1: int, b2: int, b3: int := b[0], b[1], b[2], b[3];
    b0 % 128 * 0x100_0000 + b1 * 0x1_0000 + b2 * 0x100 + b3
  }

  /** The record mark of a last fragment of n bytes: the top bit set, then n in big-endian order. */
  function RecordMark(n: nat): (m: seq<Byte>)
    requires n < 0x8000_0000
    ensures |m| == 4
  {
    [128 + n / 0x100_0000, n / 0x1_0000 % 256, n / 0x100 % 256, n % 256]
  }

  /** Reading back a record mark gives the fragment length. */
  lemma MarkRoundTrip(n: nat, rest: seq<Byte>)
    requires n < 0x8000_0000
    ensures FragmentLength(RecordMark(n) + rest) == n
  {
    var b := RecordMark(n) + rest;
    var q1, q2 := n / 0x100, n / 0x1_0000;
    assert q2 == q1 / 256 && n / 0x100_0000 == q2 / 256;
    assert n == q1 * 256 + n % 256 && q1 == q2 * 256 + q1 % 256 && q2 == q2 / 256 * 256 + q2 % 256;
  }

  /** Position i of the block looks like the start of a response record. */
  predicate LooksLikeRecord(data: seq<Byte>, i: nat) {
    i + 8 + |MASK| < |data| && data[i] == RPC_HEADER && data[i + 8..i + 8 + |MASK|] == MASK
  }

  datatype Found = Nothing | Record(at: nat, size: nat)

  /** Scan from position i: the first candidate decides, whether or not all of it has arrived. */
  function Scan(data: seq<Byte>, i: nat): Found
    decreases |data| - i
  {
    if i >= |data| then Nothing
    else if LooksLikeRecord(data, i) then
      var size := FragmentLength(data[i..]) + 4;
      if i + size <= |data| then Record(i, size) else Nothing
    else Scan(data, i + 1)
  }

  lemma {:induction false} ScanInside(data: seq<Byte>, i: nat)
    ensures Scan(data, i).Record? ==>
              var r := Scan(data, i); i <= r.at && r.size >= 4 && r.at + r.size <= |data| && LooksLikeRecord(data, r.at)
    decreases |data| - i
  {
    if i < |data| && !LooksLikeRecord(data, i) {
      ScanInside(data, i + 1);
    }
  }

  /** Where the first thing that looks like a record starts. */
  ghost predicate FirstRecord(data: seq<Byte>, k: nat) {
    LooksLikeRecord(data, k) && forall j: nat :: j < k ==> !LooksLikeRecord(data, j)
  }

  /** A record of that many bytes, mark included, is the first one and has arrived as a whole. */
  ghost predicate Complete(data: seq<Byte>, k: nat, size: nat) {
    FirstRecord(data, k) && size == FragmentLength(data[k..]) + 4 && k + size <= |data|
  }

  lemma {:induction false} ScanFrom(data: seq<Byte>, i: nat, k: nat, size: nat)
    requires forall j: nat :: j < i ==> !LooksLikeRecord(data, j)
    ensures Scan(data, i) == Record(k, size) <==> Complete(data, k, size)
    decreases |data| - i
  {
    if i < |data| && !LooksLikeRecord(data, i) {
      ScanFrom(data, i + 1, k, size);
    }
  }

  /** The scan is exact: it finds the first record if all of it has arrived, and nothing otherwise. */
  lemma ScanExact(data: seq<Byte>)
    ensures forall k, size :: Scan(data, 0) == Record(k, size) <==> Complete(data, k, size)
    ensures Scan(data, 0) == Nothing <==> forall k, size :: !Complete(data, k, size)
  {
    hide Scan, Complete;
    forall k, size
      ensures Scan(data, 0) == Record(k, size) <==> Complete(data, k, size)
    {
      ScanFrom(data, 0, k, size);
    }
  }

  /**
   * A response in the stream, mark first, then an id of four bytes and the pattern, looks like a record if and only if
   * something follows and its length does not reach into the mark's first byte.
   */
  lemma ResponseLooksLike(n: nat, id: seq<Byte>, rest: seq<Byte>)
    requires n < 0x8000_0000 && |id| == 4
    ensures LooksLikeRecord(RecordMark(n) + id + MASK + rest, 0) <==> n < 0x100_0000 && rest != []
  {
    var data := RecordMark(n) + id + MASK + rest;
    assert data[8..8 + |MASK|] == MASK;
  }

  /** A stretch of sequence space the sweep disposed of. */
  datatype Part = Kept(block: Block) | Extracted(start: nat, record: seq<Byte>) {
    function Start(): nat {
      if Kept? then block.start else start
    }

    function End(): nat {
      if Kept? then block.End() else start + |record|
    }
  }

  datatype Swept = Swept(parts: seq<Part>, rest: Block)

  /**
   * The bytes in front of a record found inside a block: the source copies them through a cast pointer, so they are
   * whatever memory holds.
   */
  function Stray(start: nat, len: nat, stray: int -> Byte): Block {
    Block(start, seq(len, k requires 0 <= k < len => stray(start + k)), false)
  }

  /** What one grep call leaves to search after pulling out record r. */
  function Behind(b: Block, r: Found): Block
    requires r.Record? && r.at + r.size <= |b.data|
  {
    Block(b.start + r.at + r.size, b.data[r.at + r.size..], true)
  }

  /**
   * What one grep call takes out of the block: the record, and in front of it the bytes before it as a block of their
   * own.
   */
  function Cutout(b: Block, r: Found, stray: int -> Byte): seq<Part>
    requires r.Record? && r.at + r.size <= |b.data|
  {
    var record := Extracted(b.start + r.at, b.data[r.at..r.at + r.size]);
    if r.at == 0 then [record] else [Kept(Stray(b.start, r.at, stray)), record]
  }

  /** All grep calls for one block, until it is searched or used up. */
  function SweepBlock(b: Block, stray: int -> Byte): Swept
    decreases |b.data|
  {
    if !b.modified || b.data == [] then Swept([], b)
    else if Scan(b.data, 0).Nothing? then Swept([], b.(modified := false))
    else
      ScanInside(b.data, 0);
      var more := SweepBlock(Behind(b, Scan(b.data, 0)), stray);
      Swept(Cutout(b, Scan(b.data, 0), stray) + more.parts, more.rest)
  }

  /** The parts tile [from, to) in order, without holes or overlaps. */
  ghost predicate Tiles(parts: seq<Part>, from: nat, to: nat) {
    if parts == [] then from == to
    else parts[0].Start() == from && from < parts[0].End() <= to && Tiles(parts[1..], parts[0].End(), to)
  }

  /** An extracted record is the block's own bytes at its range. */
  ghost predicate TakenFrom(part: Part, b: Block) {
    part.Extracted? ==>
      && b.start <= part.start && part.End() <= b.End()
      && part.record == b.data[part.start - b.start..part.End() - b.start]
  }

  ghost predicate FromBlock(parts: seq<Part>, b: Block) {
    forall i :: 0 <= i < |parts| ==> TakenFrom(parts[i], b)
  }

  lemma {:induction false} TilesJoin(a: seq<Part>, b: seq<Part>, from: nat, mid: nat, to: nat)
    requires Tiles(a, from, mid) && Tiles(b, mid, to)
    ensures Tiles(a + b, from, to)
  {
    if a == [] {
      assert a + b == b;
    } else {
      TilesForward(b, mid, to);
      TilesJoin(a[1..], b, a[0].End(), mid, to);
      assert (a + b)[1..] == a[1..] + b;
    }
  }

  lemma {:induction false} TilesForward(parts: seq<Part>, from: nat, to: nat)
    requires Tiles(parts, from, to)
    ensures from <= to
  {
    if parts != [] {
      TilesForward(parts[1..], parts[0].End(), to);
    }
  }

  lemma {:induction false} SweepTiles(b: Block, stray: int -> Byte)
    ensures var s := SweepBlock(b, stray);
            && Tiles(s.parts, b.start, s.rest.start) && s.rest.End() == b.End() && b.start <= s.rest.start
    decreases |b.data|
  {
    if b.modified && b.data != [] && Scan(b.data, 0).Record? {
      ScanInside(b.data, 0);
      var r := Scan(b.data, 0);
      SweepTiles(Behind(b, r), stray);
      var t := SweepBlock(Behind(b, r), stray);
      CutoutParts(b, r, stray);
      TilesJoin(Cutout(b, r, stray), t.parts, b.start, Behind(b, r).start, t.rest.start);
    }
  }

  lemma CutoutParts(b: Block, r: Found, stray: int -> Byte)
    requires r.Record? && r.size > 0 && r.at + r.size <= |b.data|
    ensures Tiles(Cutout(b, r, stray), b.start, Behind(b, r).start)
    ensures FromBlock(Cutout(b, r, stray), b)
  {
    var c := Cutout(b, r, stray);
    if r.at == 0 {
      assert c[1..] == [];
    } else {
      assert c[1..][1..] == [];
    }
  }

  lemma {:induction false} SweepRest(b: Block, stray: int -> Byte)
    ensures var s := SweepBlock(b, stray);
            && b.start <= s.rest.start <= s.rest.End() == b.End() && s.rest.data == b.data[s.rest.start - b.start..]
            && (s.rest.modified ==> s.rest.data == [])
    decreases |b.data|
  {
    if b.modified && b.data != [] && Scan(b.data, 0).Record? {
      ScanInside(b.data, 0);
      SweepRest(Behind(b, Scan(b.data, 0)), stray);
    }
  }

  lemma {:induction false} SweepRecords(b: Block, stray: int -> Byte)
    ensures FromBlock(SweepBlock(b, stray).parts, b)
    decreases |b.data|
  {
    if b.modified && b.data != [] && Scan(b.data, 0).Record? {
      ScanInside(b.data, 0);
      var r := Scan(b.data, 0);
      SweepRecords(Behind(b, r), stray);
      FromLater(SweepBlock(Behind(b, r), stray).parts, b, Behind(b, r));
      CutoutParts(b, r, stray);
    }
  }

  /** Sequence ranges are conserved: kept prefixes, extracted records and the remainder tile the block;
      records and remainder carry the block's own bytes, and nothing unsearched is left. */
  lemma SweepConserves(b: Block, stray: int -> Byte)
    ensures var s := SweepBlock(b, stray);
            && Tiles(s.parts, b.start, s.rest.start) && s.rest.End() == b.End()
            && FromBlock(s.parts, b)
            && b.start <= s.rest.start && s.rest.data == b.data[s.rest.start - b.start..]
            && (s.rest.modified ==> s.rest.data == [])
  {
    SweepTiles(b, stray);
    SweepRest(b, stray);
    SweepRecords(b, stray);
  }

  /** What the sweep takes for a record, what it passes over, and what it leaves of the bytes. */
  ghost predicate CutRight(part: Part, b: Block) {
    && b.start <= part.Start() <= part.End() <= b.End()
    && var at := part.Start() - b.start;
       if part.Extracted? then LooksLikeRecord(b.data, at) && |part.record| == FragmentLength(b.data[at..]) + 4
       else forall k: nat :: at <= k < part.End() - b.start ==> !LooksLikeRecord(b.data, k)
  }

  lemma LooksBehind(data: seq<Byte>, skip: nat, k: nat)
    requires skip <= |data|
    ensures LooksLikeRecord(data[skip..], k) <==> LooksLikeRecord(data, skip + k)
    ensures skip + k + 4 <= |data| ==> data[skip..][k..] == data[skip + k..]
  {
    if k + 8 + |MASK| <= |data[skip..]| {
      assert data[skip..][k + 8..k + 8 + |MASK|] == data[skip + k + 8..skip + k + 8 + |MASK|];
    }
  }

  lemma CutLater(part: Part, b: Block, r: Found)
    requires r.Record? && r.at + r.size <= |b.data| && CutRight(part, Behind(b, r))
    ensures CutRight(part, b)
  {
    var skip, next := r.at + r.size, Behind(b, r);
    var at := part.Start() - next.start;
    assert next.End() == b.End();
    if part.Extracted? {
      LooksBehind(b.data, skip, at);
    } else {
      forall k: nat | skip + at <= k < part.End() - b.start
        ensures !LooksLikeRecord(b.data, k)
      {
        LooksBehind(b.data, skip, k - skip);
      }
    }
  }

  /** All parts are cut right, and what is left has no first record that has arrived as a whole. */
  ghost predicate SweptRight(s: Swept, b: Block) {
    && (forall i :: 0 <= i < |s.parts| ==> CutRight(s.parts[i], b))
    && forall k, size :: !Complete(s.rest.data, k, size)
  }

  /**
   * The sweep of an unsearched block is exact: each record taken out looks like one at its place and has the length its
   * mark says, nothing passed over in front of a record looks like one, and what is left has no first record that has
   * arrived as a whole.
   */
  lemma {:induction false} SweepExact(b: Block, stray: int -> Byte)
    requires b.modified
    ensures SweptRight(SweepBlock(b, stray), b)
    decreases |b.data|
  {
    hide Complete, CutRight, LooksLikeRecord;
    ScanExact(b.data);
    if b.data == [] {
      assert Scan([], 0) == Nothing;
    } else if Scan(b.data, 0).Record? {
      ScanInside(b.data, 0);
      var r := Scan(b.data, 0);
      assert Complete(b.data, r.at, r.size);
      SweepExact(Behind(b, r), stray);
      var more := SweepBlock(Behind(b, r), stray);
      var cut := Cutout(b, r, stray);
      CutFirst(b, r, stray);
      assert SweepBlock(b, stray) == Swept(cut + more.parts, more.rest);
      assert SweptRight(more, Behind(b, r));
      forall i | 0 <= i < |cut + more.parts|
        ensures CutRight((cut + more.parts)[i], b)
      {
        if i >= |cut| {
          CutLater(more.parts[i - |cut|], b, r);
        }
      }
    }
  }

  lemma CutFirst(b: Block, r: Found, stray: int -> Byte)
    requires r.Record? && Complete(b.data, r.at, r.size)
    ensures forall i :: 0 <= i < |Cutout(b, r, stray)| ==> CutRight(Cutout(b, r, stray)[i], b)
  {
    hide LooksLikeRecord;
    assert LooksLikeRecord(b.data, r.at);
  }

  lemma FromLater(parts: seq<Part>, b: Block, next: Block)
    requires next.start >= b.start && next.End() == b.End() && next.data == b.data[next.start - b.start..]
    requires FromBlock(parts, next)
    ensures FromBlock(parts, b)
  {
    forall i | 0 <= i < |parts|
      ensures TakenFrom(parts[i], b)
    {
      assert TakenFrom(parts[i], next);
      if parts[i].Extracted? {
        var lo, hi, skip := parts[i].start - next.start, parts[i].End() - next.start, next.start - b.start;
        assert b.data[skip..][lo..hi] == b.data[skip + lo..skip + hi];
      }
    }
  }

  /** The sweep of a block never finds a record behind other bytes. */
  ghost predicate OnlyFrontCuts(b: Block)
    decreases |b.data|
  {
    b.modified && b.data != [] && Scan(b.data, 0).Record? ==>
      (ScanInside(b.data, 0);
       Scan(b.data, 0).at == 0 && OnlyFrontCuts(Behind(b, Scan(b.data, 0))))
  }

  /** Position pos of the block is one that the sweep fills from memory. */
  ghost predicate StrayAt(b: Block, pos: int)
    decreases |b.data|
  {
    && b.modified && b.data != [] && Scan(b.data, 0).Record?
    && (ScanInside(b.data, 0);
        var r := Scan(b.data, 0);
        b.start <= pos < b.start + r.at || StrayAt(Behind(b, r), pos))
  }

  /** The blocks a sweep leaves in the list for one swept block. */
  function Left(s: Swept): seq<Block> {
    KeptBlocks(s.parts) + if s.rest.data == [] then [] else [s.rest]
  }

  function KeptBlocks(parts: seq<Part>): seq<Block> {
    if parts == [] then []
    else (if parts[0].Kept? then [parts[0].block] else []) + KeptBlocks(parts[1..])
  }

  function OfNode(stray: (nat, int) -> Byte, i: nat): int -> Byte {
    pos => stray(i, pos)
  }

  /** Block number i of the list is swept with the memory contents stray(i, .). */
  function SweepFrom(bs: seq<Block>, stray: (nat, int) -> Byte, i: nat): seq<Block>
    decreases |bs| - i
  {
    if i >= |bs| then [] else Left(SweepBlock(bs[i], OfNode(stray, i))) + SweepFrom(bs, stray, i + 1)
  }

  /** The records one list's sweep hands to the plugin, in order. */
  function RecordsFrom(bs: seq<Block>, stray: (nat, int) -> Byte, i: nat): seq<Part>
    decreases |bs| - i
  {
    if i >= |bs| then []
    else Records(SweepBlock(bs[i], OfNode(stray, i)).parts) + RecordsFrom(bs, stray, i + 1)
  }

  function Records(parts: seq<Part>): seq<Part> {
    if parts == [] then []
    else (if parts[0].Extracted? then [parts[0]] else []) + Records(parts[1..])
  }
}
