/** What one call of `ReconstructedChunk::fill_gaps_in_chunk` does to the chunk's block list, on values. */
module ChunkFill {
  import opened Blocks

  datatype Filled = Filled(blocks: seq<Block>, dups: nat, duplicate: bool)

  datatype Merged = Merged(blocks: seq<Block>, dups: nat)

  /** The `li2` loop: absorb the blocks the grown block now reaches. */
  function Merge(b: Block, rest: seq<Block>): Merged {
    if rest == [] || b.End() < rest[0].start then Merged([b] + rest, 0)
    else if rest[0].End() > b.End() then
      var seen := b.End() - rest[0].start;
      Merged([Block(b.start, b.data + rest[0].data[seen..], true)] + rest[1..], seen)
    else
      var m := Merge(b, rest[1..]);
      Merged(m.blocks, |rest[0].data| + m.dups)
  }

  /** Place payload p at normalised position n. */
  function Fill(bs: seq<Block>, n: nat, p: seq<Byte>): Filled
  {
    if bs == [] then Filled([Block(n, p, true)], 0, false)
    else
      var b, end := bs[0], n + |p|;
      if n < b.start then
        if end == b.start then Filled([Block(n, p + b.data, true)] + bs[1..], 0, false)
        else if end < b.start then Filled([Block(n, p, true)] + bs, 0, false)
        else // both overlapping cases prune the packet to the bytes before the block
          Filled([Block(n, p[..b.start - n] + b.data, true)] + bs[1..], |p| - (b.start - n), false)
      else if n <= b.End() then
        if end > b.End() then
          var m := Merge(Block(b.start, b.data + p[b.End() - n..], true), bs[1..]);
          Filled(m.blocks, b.End() - n + m.dups, false)
        else Filled(bs, |p|, true)
      else
        var r := Fill(bs[1..], n, p);
        Filled([b] + r.blocks, r.dups, r.duplicate)
  }

  /** j is the first block that the packet's first byte lies in or right behind, or in front of. */
  ghost predicate FirstReached(bs: seq<Block>, n: nat, j: nat) {
    && j <= |bs|
    && (forall i :: 0 <= i < j ==> bs[i].End() < n)
    && (j < |bs| ==> n <= bs[j].End())
  }

  /** Where the stored part of the packet ends: a packet that starts before a block and ends past it loses its tail. */
  ghost function Cut(bs: seq<Block>, n: nat, p: seq<Byte>, j: nat): (c: nat)
    requires j <= |bs|
    ensures c <= n + |p|
  {
    if j < |bs| && n < bs[j].start && bs[j].End() < n + |p| then bs[j].End() else n + |p|
  }

  /** The byte held at pos after a fill: the reached block keeps its bytes, elsewhere the packet's bytes win. */
  ghost function AfterFill(bs: seq<Block>, n: nat, p: seq<Byte>, j: nat, pos: int): Option<Byte>
    requires j <= |bs|
  {
    if n <= pos < Cut(bs, n, p, j) && !(j < |bs| && bs[j].Covers(pos)) then Some(p[pos - n])
    else At(bs, pos)
  }

  lemma {:induction false} FirstReachedExists(bs: seq<Block>, n: nat) returns (j: nat)
    ensures FirstReached(bs, n, j)
  {
    if bs == [] || n <= bs[0].End() {
      j := 0;
    } else {
      j := FirstReachedExists(bs[1..], n);
      j := j + 1;
    }
  }

  lemma {:induction false} MergeShape(b: Block, rest: seq<Block>)
    requires b.data != [] && Separated(rest)
    ensures var m := Merge(b, rest).blocks;
            Separated(m) && m != [] && m[0].start == b.start && m[0].End() >= b.End()
  {
    if rest == [] || b.End() < rest[0].start {
      SeparatedCons(b, rest);
    } else if rest[0].End() > b.End() {
      var grown := Block(b.start, b.data + rest[0].data[b.End() - rest[0].start..], true);
      assert grown.End() == rest[0].End();
      SeparatedCons(grown, rest[1..]);
    } else {
      MergeShape(b, rest[1..]);
    }
  }

  lemma {:induction false} MergeAt(b: Block, rest: seq<Block>, pos: int)
    requires b.data != [] && Separated(rest) && (rest != [] ==> b.start < rest[0].start)
    ensures At(Merge(b, rest).blocks, pos) == if b.Covers(pos) then Some(b.data[pos - b.start]) else At(rest, pos)
  {
    var m := Merge(b, rest).blocks;
    if rest == [] || b.End() < rest[0].start {
      assert m[1..] == rest;
    } else if rest[0].End() > b.End() {
      assert m[1..] == rest[1..];
      if pos < b.start {
        AtBefore(rest, pos);
        AtBefore(rest[1..], pos);
      }
    } else {
      MergeAt(b, rest[1..], pos);
    }
  }

  lemma {:induction false} FillShape(bs: seq<Block>, n: nat, p: seq<Byte>)
    requires Separated(bs) && p != []
    ensures var r := Fill(bs, n, p).blocks;
            Separated(r) && r != [] && r[0].start == if bs == [] || n < bs[0].start then n else bs[0].start
  {
    if bs != [] {
      var b, end := bs[0], n + |p|;
      if n < b.start {
        if end < b.start {
          SeparatedCons(Block(n, p, true), bs);
        } else {
          var grown := Block(n, p[..b.start - n] + b.data, true);
          assert grown.End() == b.End();
          SeparatedCons(grown, bs[1..]);
          if end == b.start {
            assert p[..b.start - n] == p;
          }
        }
      } else if n <= b.End() {
        if end > b.End() {
          MergeShape(Block(b.start, b.data + p[b.End() - n..], true), bs[1..]);
        }
      } else {
        FillShape(bs[1..], n, p);
        SeparatedCons(b, Fill(bs[1..], n, p).blocks);
      }
    }
  }

  lemma FillAtFront(bs: seq<Block>, n: nat, p: seq<Byte>, pos: int)
    requires Separated(bs) && p != [] && bs != [] && n < bs[0].start
    ensures At(Fill(bs, n, p).blocks, pos) == AfterFill(bs, n, p, 0, pos)
  {
    var r, b := Fill(bs, n, p).blocks, bs[0];
    if n + |p| < b.start {
      assert r[1..] == bs;
    } else {
      assert r[1..] == bs[1..];
      assert n + |p| == b.start ==> p[..b.start - n] == p;
      assert r[0] == Block(n, p[..b.start - n] + b.data, true);
    }
    if pos < b.start {
      AtBefore(bs, pos);
      AtTail(bs, pos);
    }
  }

  lemma FillAtReached(bs: seq<Block>, n: nat, p: seq<Byte>, pos: int)
    requires Separated(bs) && p != [] && bs != [] && bs[0].start <= n <= bs[0].End()
    ensures At(Fill(bs, n, p).blocks, pos) == AfterFill(bs, n, p, 0, pos)
  {
    var b := bs[0];
    if n + |p| > b.End() {
      var grown := Block(b.start, b.data + p[b.End() - n..], true);
      if |bs| > 1 {
        SeparatedOrder(bs, 1);
      }
      MergeAt(grown, bs[1..], pos);
      if b.Covers(pos) {
        assert grown.data[pos - b.start] == b.data[pos - b.start];
      } else if grown.Covers(pos) {
        assert grown.data[pos - b.start] == p[pos - n];
      }
    }
  }

  lemma FillAtTail(bs: seq<Block>, n: nat, p: seq<Byte>, j: nat, pos: int)
    requires Separated(bs) && p != [] && bs != [] && bs[0].End() < n && FirstReached(bs, n, j)
    ensures j > 0 && FirstReached(bs[1..], n, j - 1)
    ensures At(Fill(bs, n, p).blocks, pos)
         == if bs[0].Covers(pos) then Some(bs[0].data[pos - bs[0].start]) else At(Fill(bs[1..], n, p).blocks, pos)
    ensures AfterFill(bs, n, p, j, pos)
         == if bs[0].Covers(pos) then Some(bs[0].data[pos - bs[0].start]) else AfterFill(bs[1..], n, p, j - 1, pos)
  {
    AtCons(bs[0], Fill(bs[1..], n, p).blocks, pos);
    assert j < |bs| ==> bs[j] == bs[1..][j - 1];
    if j > 0 {
      assert forall i :: 0 <= i < j - 1 ==> bs[1..][i] == bs[i + 1];
    }
  }

  lemma {:induction false} FillAt(bs: seq<Block>, n: nat, p: seq<Byte>, j: nat, pos: int)
    requires Separated(bs) && p != [] && FirstReached(bs, n, j)
    ensures At(Fill(bs, n, p).blocks, pos) == AfterFill(bs, n, p, j, pos)
  {
    if bs == [] {
      assert Fill(bs, n, p).blocks[1..] == [];
    } else if n < bs[0].start {
      FillAtFront(bs, n, p, pos);
    } else if n <= bs[0].End() {
      FillAtReached(bs, n, p, pos);
    } else {
      FillAtTail(bs, n, p, j, pos);
      FillAt(bs[1..], n, p, j - 1, pos);
    }
  }

  /** The exact effect of one fill, for every packet: the list stays separated and its view is AfterFill. */
  lemma FillExact(bs: seq<Block>, n: nat, p: seq<Byte>, j: nat)
    requires Separated(bs) && p != [] && FirstReached(bs, n, j)
    ensures Separated(Fill(bs, n, p).blocks)
    ensures forall pos :: At(Fill(bs, n, p).blocks, pos) == AfterFill(bs, n, p, j, pos)
  {
    FillShape(bs, n, p);
    forall pos
      ensures At(Fill(bs, n, p).blocks, pos) == AfterFill(bs, n, p, j, pos)
    {
      FillAt(bs, n, p, j, pos);
    }
  }

  /**
   * Coverage grows by exactly the packet, except when it starts before a block and ends past it: then by its part up to
   * that block's end.
   */
  lemma FillCoverage(bs: seq<Block>, n: nat, p: seq<Byte>, j: nat, pos: int)
    requires Separated(bs) && p != [] && FirstReached(bs, n, j)
    ensures At(Fill(bs, n, p).blocks, pos).Some? <==> At(bs, pos).Some? || n <= pos < Cut(bs, n, p, j)
  {
    FillAt(bs, n, p, j, pos);
    if j < |bs| && bs[j].Covers(pos) {
      AtBlock(bs, j, pos);
    }
  }

  /** Every byte held after a fill was held before or came from the packet, at that position. */
  lemma FillHolds(bs: seq<Block>, n: nat, p: seq<Byte>, P: (int, Byte) -> bool)
    requires Separated(bs) && p != [] && Holds(bs, P) && Offers(n, p, P)
    ensures Holds(Fill(bs, n, p).blocks, P)
  {
    var j := FirstReachedExists(bs, n);
    FillExact(bs, n, p, j);
    forall pos | At(Fill(bs, n, p).blocks, pos).Some?
      ensures P(pos, At(Fill(bs, n, p).blocks, pos).value)
    {
      if At(bs, pos).Some? {
        HoldsAt(bs, P, pos);
      }
      if n <= pos < n + |p| {
        assert P(n + (pos - n), p[pos - n]);
      }
    }
    AtHolds(Fill(bs, n, p).blocks, P);
  }

  /** The bytes stored from position 0 on without a gap. */
  function Head(bs: seq<Block>): nat {
    if bs != [] && bs[0].start == 0 then |bs[0].data| else 0
  }

  lemma FillHead(bs: seq<Block>, n: nat, p: seq<Byte>)
    requires Separated(bs) && p != []
    ensures Head(Fill(bs, n, p).blocks) >= Head(bs)
  {
    if bs != [] && bs[0].start == 0 && n <= bs[0].End() < n + |p| {
      MergeShape(Block(bs[0].start, bs[0].data + p[bs[0].End() - n..], true), bs[1..]);
    }
  }

  /** What is stored from position 0 on never changes: only the packet's bytes behind it have to be of the kind. */
  lemma FillHoldsBehind(bs: seq<Block>, n: nat, p: seq<Byte>, P: (int, Byte) -> bool)
    requires Separated(bs) && p != [] && Holds(bs, P)
    requires forall k :: 0 <= k < |p| && n + k >= Head(bs) ==> P(n + k, p[k])
    ensures Holds(Fill(bs, n, p).blocks, P)
  {
    var j := FirstReachedExists(bs, n);
    FillExact(bs, n, p, j);
    forall pos | At(Fill(bs, n, p).blocks, pos).Some?
      ensures P(pos, At(Fill(bs, n, p).blocks, pos).value)
    {
      if At(bs, pos).Some? {
        HoldsAt(bs, P, pos);
      }
      if n <= pos < n + |p| && (pos >= Head(bs) || j > 0) {
        assert P(n + (pos - n), p[pos - n]);
      }
    }
    AtHolds(Fill(bs, n, p).blocks, P);
  }

  /** A block list agrees with the packet where both have bytes, and nothing is cut: the fill is the plain union. */
  lemma FillUnion(bs: seq<Block>, n: nat, p: seq<Byte>, j: nat, pos: int)
    requires Separated(bs) && p != [] && FirstReached(bs, n, j) && Cut(bs, n, p, j) == n + |p|
    requires n <= pos < n + |p| && At(bs, pos).Some? ==> At(bs, pos).value == p[pos - n]
    ensures At(Fill(bs, n, p).blocks, pos) == if n <= pos < n + |p| then Some(p[pos - n]) else At(bs, pos)
  {
    FillAt(bs, n, p, j, pos);
    if j < |bs| && bs[j].Covers(pos) {
      AtBlock(bs, j, pos);
    }
  }

  lemma {:induction false} MergeConserves(b: Block, rest: seq<Block>)
    requires rest != [] ==> b.start <= rest[0].start
    requires Separated(rest)
    ensures Size(Merge(b, rest).blocks) + Merge(b, rest).dups == |b.data| + Size(rest)
    ensures AllModified(rest) && b.modified ==> AllModified(Merge(b, rest).blocks)
  {
    var m := Merge(b, rest);
    if rest == [] || b.End() < rest[0].start {
      assert m.blocks[1..] == rest;
    } else if rest[0].End() > b.End() {
      assert m.blocks[1..] == rest[1..];
    } else {
      if |rest| > 1 {
        SeparatedOrder(rest, 1);
      }
      MergeConserves(b, rest[1..]);
    }
  }

  /** Bytes are conserved on every path: stored bytes plus duplicates grow by exactly the packet size. */
  lemma {:induction false} FillConserves(bs: seq<Block>, n: nat, p: seq<Byte>)
    requires Separated(bs) && p != []
    ensures Size(Fill(bs, n, p).blocks) + Fill(bs, n, p).dups == Size(bs) + |p|
    ensures AllModified(bs) ==> AllModified(Fill(bs, n, p).blocks)
  {
    var r := Fill(bs, n, p);
    if bs == [] {
      assert r.blocks[1..] == [];
    } else if n < bs[0].start {
      if n + |p| < bs[0].start {
        assert r.blocks[1..] == bs;
      } else {
        assert r.blocks[1..] == bs[1..];
      }
    } else if n <= bs[0].End() {
      if n + |p| > bs[0].End() {
        if |bs| > 1 {
          SeparatedOrder(bs, 1);
        }
        MergeConserves(Block(bs[0].start, bs[0].data + p[bs[0].End() - n..], true), bs[1..]);
      }
    } else {
      FillConserves(bs[1..], n, p);
      assert r.blocks[1..] == Fill(bs[1..], n, p).blocks;
    }
  }

  /** Block i already holds the whole packet. */
  ghost predicate Inside(bs: seq<Block>, n: nat, p: seq<Byte>, i: nat) {
    i < |bs| && bs[i].start <= n && n + |p| <= bs[i].End()
  }

  lemma {:induction false} InsideIsDuplicate(bs: seq<Block>, n: nat, p: seq<Byte>, i: nat)
    requires Separated(bs) && p != [] && Inside(bs, n, p, i)
    ensures Fill(bs, n, p) == Filled(bs, |p|, true)
  {
    if i > 0 {
      SeparatedOrder(bs, i);
      InsideIsDuplicate(bs[1..], n, p, i - 1);
      assert [bs[0]] + bs[1..] == bs;
    }
  }

  lemma {:induction false} DuplicateIsInside(bs: seq<Block>, n: nat, p: seq<Byte>) returns (i: nat)
    requires Fill(bs, n, p).duplicate
    ensures Inside(bs, n, p, i)
  {
    i := 0;
    if !(bs[0].start <= n <= bs[0].End()) {
      i := DuplicateIsInside(bs[1..], n, p);
      i := i + 1;
    }
  }

  /** A packet is reported as a duplicate exactly when one block already holds all of it, and then nothing changes. */
  lemma DuplicateExact(bs: seq<Block>, n: nat, p: seq<Byte>)
    requires Separated(bs) && p != []
    ensures Fill(bs, n, p).duplicate <==> exists i: nat :: Inside(bs, n, p, i)
    ensures Fill(bs, n, p).duplicate ==> Fill(bs, n, p).blocks == bs
  {
    if Fill(bs, n, p).duplicate {
      var i := DuplicateIsInside(bs, n, p);
    }
    if i: nat :| Inside(bs, n, p, i) {
      InsideIsDuplicate(bs, n, p, i);
    }
  }

  /** The value `fill_gaps_in_chunk` returns for a chunk of the given length. */
  predicate Completes(r: Filled, length: nat) {
    !r.duplicate && r.blocks != [] && |r.blocks[0].data| >= length
  }

  lemma FillWithin(bs: seq<Block>, n: nat, p: seq<Byte>, len: nat)
    requires Separated(bs) && Within(bs, len) && p != [] && n + |p| <= len
    ensures Within(Fill(bs, n, p).blocks, len)
  {
    var r := Fill(bs, n, p).blocks;
    FillShape(bs, n, p);
    var j := FirstReachedExists(bs, n);
    forall i | 0 <= i < |r|
      ensures r[i].End() <= len
    {
      var last := r[i].End() - 1;
      AtBlock(r, i, last);
      FillCoverage(bs, n, p, j, last);
      if At(bs, last).Some? {
        var m := AtSome(bs, last);
        assert bs[m].End() <= len;
      }
    }
  }

  /** With clipped packets, completion is reported on exactly the call that makes [0, length) full. */
  lemma CompletionExact(bs: seq<Block>, n: nat, p: seq<Byte>, length: nat)
    requires Separated(bs) && Within(bs, length) && p != [] && n + |p| <= length
    ensures Completes(Fill(bs, n, p), length) <==> !Full(bs, length) && Full(Fill(bs, n, p).blocks, length)
  {
    var r := Fill(bs, n, p);
    FillShape(bs, n, p);
    FillWithin(bs, n, p, length);
    FullIsFirstBlock(bs, length);
    FullIsFirstBlock(r.blocks, length);
    DuplicateExact(bs, n, p);
    if Full(bs, length) {
      assert Inside(bs, n, p, 0);
    }
  }

  datatype Piece = Piece(n: nat, p: seq<Byte>)

  ghost predicate Clipped(ps: seq<Piece>, length: nat) {
    forall i :: 0 <= i < |ps| ==> ps[i].p != [] && ps[i].n + |ps[i].p| <= length
  }

  /** The block list after filling the pieces in order. */
  function FillAll(ps: seq<Piece>): seq<Block> {
    if ps == [] then [] else Fill(FillAll(ps[..|ps| - 1]), ps[|ps| - 1].n, ps[|ps| - 1].p).blocks
  }

  function DuplicateTotal(ps: seq<Piece>): nat {
    if ps == [] then 0
    else DuplicateTotal(ps[..|ps| - 1]) + Fill(FillAll(ps[..|ps| - 1]), ps[|ps| - 1].n, ps[|ps| - 1].p).dups
  }

  function OfferedTotal(ps: seq<Piece>): nat {
    if ps == [] then 0 else OfferedTotal(ps[..|ps| - 1]) + |ps[|ps| - 1].p|
  }

  /** What the k-th call of a run returns. */
  predicate ReportsAt(ps: seq<Piece>, length: nat, k: nat)
    requires k < |ps|
  {
    Completes(Fill(FillAll(ps[..k]), ps[k].n, ps[k].p), length)
  }

  ghost predicate NonEmpty(ps: seq<Piece>) {
    forall i :: 0 <= i < |ps| ==> ps[i].p != []
  }

  lemma {:induction false} RunSeparated(ps: seq<Piece>)
    requires NonEmpty(ps)
    ensures Separated(FillAll(ps)) && AllModified(FillAll(ps))
  {
    if ps != [] {
      var init, last := ps[..|ps| - 1], ps[|ps| - 1];
      RunSeparated(init);
      FillShape(FillAll(init), last.n, last.p);
      FillConserves(FillAll(init), last.n, last.p);
    }
  }

  lemma {:induction false} RunShape(ps: seq<Piece>, length: nat)
    requires Clipped(ps, length)
    ensures Separated(FillAll(ps)) && AllModified(FillAll(ps)) && Within(FillAll(ps), length)
  {
    RunSeparated(ps);
    if ps != [] {
      var init, last := ps[..|ps| - 1], ps[|ps| - 1];
      RunShape(init, length);
      FillWithin(FillAll(init), last.n, last.p, length);
    }
  }

  /** Over a whole run, stored bytes plus reported duplicates are all the bytes offered. */
  lemma {:induction false} RunConserves(ps: seq<Piece>)
    requires NonEmpty(ps)
    ensures Size(FillAll(ps)) + DuplicateTotal(ps) == OfferedTotal(ps)
  {
    if ps != [] {
      var init, last := ps[..|ps| - 1], ps[|ps| - 1];
      RunConserves(init);
      RunSeparated(init);
      FillConserves(FillAll(init), last.n, last.p);
    }
  }

  lemma FullStays(bs: seq<Block>, n: nat, p: seq<Byte>, length: nat)
    requires Separated(bs) && p != [] && Full(bs, length)
    ensures Full(Fill(bs, n, p).blocks, length)
  {
    var j := FirstReachedExists(bs, n);
    forall pos | 0 <= pos < length
      ensures At(Fill(bs, n, p).blocks, pos).Some?
    {
      FillCoverage(bs, n, p, j, pos);
    }
  }

  lemma {:induction false} FullStaysInRun(ps: seq<Piece>, length: nat, k: nat)
    requires Clipped(ps, length) && k <= |ps| && Full(FillAll(ps[..k]), length)
    ensures Full(FillAll(ps), length)
  {
    if k == |ps| {
      assert ps[..k] == ps;
    } else {
      var init, last := ps[..|ps| - 1], ps[|ps| - 1];
      assert init[..k] == ps[..k];
      FullStaysInRun(init, length, k);
      RunShape(init, length);
      FullStays(FillAll(init), last.n, last.p, length);
    }
  }

  /** Completion is reported at call k exactly when that call makes the chunk full, and at most once in any run. */
  lemma CompletionOnce(ps: seq<Piece>, length: nat, k: nat)
    requires Clipped(ps, length) && k < |ps|
    ensures ReportsAt(ps, length, k) <==> !Full(FillAll(ps[..k]), length) && Full(FillAll(ps[..k + 1]), length)
    ensures ReportsAt(ps, length, k) ==> forall m :: k < m < |ps| ==> !ReportsAt(ps, length, m)
  {
    ReportMeaning(ps, length, k);
    if ReportsAt(ps, length, k) {
      forall m | k < m < |ps|
        ensures !ReportsAt(ps, length, m)
      {
        ReportMeaning(ps, length, m);
        assert ps[..m][..k + 1] == ps[..k + 1];
        FullStaysInRun(ps[..m], length, k + 1);
      }
    }
  }

  lemma ReportMeaning(ps: seq<Piece>, length: nat, k: nat)
    requires Clipped(ps, length) && k < |ps|
    ensures ReportsAt(ps, length, k) <==> !Full(FillAll(ps[..k]), length) && Full(FillAll(ps[..k + 1]), length)
  {
    RunShape(ps[..k], length);
    CompletionExact(FillAll(ps[..k]), ps[k].n, ps[k].p, length);
    assert ps[..k + 1][..k] == ps[..k];
  }

  /** The report does come: a run whose pieces end up covering the chunk reports completion at some call. */
  lemma {:induction false} CompletionReported(ps: seq<Piece>, length: nat) returns (k: nat)
    requires Clipped(ps, length) && length > 0 && Full(FillAll(ps), length)
    ensures k < |ps| && ReportsAt(ps, length, k)
  {
    if ps == [] {
      assert At(FillAll(ps), 0).Some?;
      assert false;
    } else {
      k := |ps| - 1;
      ReportMeaning(ps, length, k);
      assert ps[..k + 1] == ps;
      if Full(FillAll(ps[..k]), length) {
        k := CompletionReported(ps[..k], length);
        assert ps[..|ps| - 1][..k] == ps[..k];
      }
    }
  }
}
