/** The chunk under reconstruction, as the object the source updates in place. */
module ReconstructedChunks {
  import opened Blocks
  import opened ChunkFill

  /** `ContiguousBlock`: a growing run of bytes. */
  class ContiguousBlock {
    var startingSeqNumber: TcpSeq
    var nextExpectedSeqNumber: TcpSeq
    var contents: seq<Byte>
    var bInit: bool
    var bModified: bool

    ghost predicate Valid()
      reads this
    {
      if bInit then contents == [] else nextExpectedSeqNumber == startingSeqNumber + |contents|
    }

    function Value(): Block
      reads this
    {
      Block(startingSeqNumber, contents, bModified)
    }

    constructor ()
      ensures Valid() && bInit && contents == [] && bModified
    {
      startingSeqNumber, nextExpectedSeqNumber := 0, 0;
      contents := [];
      bInit, bModified := true, true;
    }

    /** Append payload bytes; the first append places the block. */
    method Append(str: seq<Byte>, startSeqNumber: TcpSeq)
      requires Valid()
      requires (if bInit then startSeqNumber else nextExpectedSeqNumber) + |str| < WRAP
      modifies this
      ensures Valid() && !bInit
      ensures Value() == Block(if old(bInit) then startSeqNumber else old(startingSeqNumber), old(contents) + str, true)
    {
      if bInit {
        startingSeqNumber, nextExpectedSeqNumber := startSeqNumber, startSeqNumber;
        bInit := false;
      }
      contents := contents + str;
      nextExpectedSeqNumber := Add32(nextExpectedSeqNumber, |str|);
      bModified := true;
    }

    /** Append the whole of the next block, which ends at endSeqNumber. */
    method AppendBlock(str: seq<Byte>, endSeqNumber: TcpSeq)
      requires Valid() && !bInit && endSeqNumber == nextExpectedSeqNumber + |str|
      modifies this
      ensures Valid() && !bInit
      ensures Value() == Block(old(startingSeqNumber), old(contents) + str, true)
    {
      contents := contents + str;
      nextExpectedSeqNumber := endSeqNumber;
      bModified := true;
    }

    /** Append what lies behind the overlap. */
    method OverlappingAppend(str: seq<Byte>, offset: nat, endSeqNumber: TcpSeq)
      requires Valid() && !bInit && offset <= |str| && endSeqNumber == nextExpectedSeqNumber + |str| - offset
      modifies this
      ensures Valid() && !bInit
      ensures Value() == Block(old(startingSeqNumber), old(contents) + str[offset..], true)
    {
      contents := contents + str[offset..];
      nextExpectedSeqNumber := endSeqNumber;
      bModified := true;
    }

    /** Drop the first bytes. */
    method TrimFront(size: nat)
      requires Valid() && !bInit && size <= |contents|
      modifies this
      ensures Valid() && !bInit
      ensures Value() == Block(old(startingSeqNumber) + size, old(contents)[size..], old(bModified))
    {
      startingSeqNumber := startingSeqNumber + size;
      contents := contents[size..];
    }

    /** The bytes have been searched. */
    method MarkSearched()
      requires Valid() && !bInit
      modifies this`bModified
      ensures Valid() && !bInit && Value() == old(Value()).(modified := false)
    {
      bModified := false;
    }

    method Prepend(str: seq<Byte>, startSeqNumber: TcpSeq)
      requires Valid() && !bInit && startSeqNumber + |str| == startingSeqNumber
      modifies this
      ensures Valid() && !bInit
      ensures Value() == Block(startSeqNumber, str + old(contents), true)
    {
      startingSeqNumber := startSeqNumber;
      contents := str + contents;
      bModified := true;
    }
  }

  /** Skipping the blocks that end in front of the packet. */
  lemma {:induction false} FillSkips(bs: seq<Block>, n: nat, p: seq<Byte>, i: nat)
    requires i <= |bs| && forall k :: 0 <= k < i ==> bs[k].End() < n
    ensures var r := Fill(bs[i..], n, p);
            Fill(bs, n, p) == Filled(bs[..i] + r.blocks, r.dups, r.duplicate)
    decreases i
  {
    hide Fill;
    if i == 0 {
      assert bs[0..] == bs && bs[..0] + Fill(bs, n, p).blocks == Fill(bs, n, p).blocks;
    } else {
      var t := bs[1..];
      assert t[i - 1..] == bs[i..] && bs[..i] == [bs[0]] + t[..i - 1];
      FillSkipsOne(bs, n, p);
      FillSkips(t, n, p, i - 1);
      var r := Fill(bs[i..], n, p).blocks;
      assert [bs[0]] + (t[..i - 1] + r) == ([bs[0]] + t[..i - 1]) + r;
    }
  }

  lemma FillSkipsOne(bs: seq<Block>, n: nat, p: seq<Byte>)
    requires bs != [] && bs[0].End() < n
    ensures var r := Fill(bs[1..], n, p); Fill(bs, n, p) == Filled([bs[0]] + r.blocks, r.dups, r.duplicate)
  {
  }

  /** A list of distinct, initialised blocks. */
  ghost predicate Listed(s: seq<ContiguousBlock>)
    reads s
  {
    && (forall i :: 0 <= i < |s| ==> s[i].Valid() && !s[i].bInit)
    && (forall i, j :: 0 <= i < j < |s| ==> s[i] != s[j])
  }

  function Values(s: seq<ContiguousBlock>): (bs: seq<Block>)
    reads s
    ensures |bs| == |s| && forall i :: 0 <= i < |bs| ==> bs[i] == s[i].Value()
  {
    seq(|s|, i requires 0 <= i < |s| reads s => s[i].Value())
  }

  lemma WithoutListed(s: seq<ContiguousBlock>, i: nat)
    requires Listed(s) && i < |s|
    ensures Listed(Without(s, i)) && Values(Without(s, i)) == Without(Values(s), i)
    ensures forall b :: b in Without(s, i) ==> b in s
  {
    var t := Without(s, i);
    assert forall k :: 0 <= k < |t| ==> t[k] == s[if k < i then k else k + 1];
  }

  lemma InsertedListed(s: seq<ContiguousBlock>, i: nat, x: ContiguousBlock)
    requires Listed(s) && i <= |s| && x !in s && x.Valid() && !x.bInit
    ensures Listed(InsertedAt(s, i, x)) && Values(InsertedAt(s, i, x)) == InsertedAt(Values(s), i, x.Value())
    ensures forall b :: b in InsertedAt(s, i, x) ==> b == x || b in s
  {
    var t := InsertedAt(s, i, x);
    assert forall k :: 0 <= k < |t| ==> t[k] == if k < i then s[k] else if k == i then x else s[k - 1];
  }

  class ReconstructedChunk {
    const length: nat
    var lcb: seq<ContiguousBlock>
    var flowSeqMap: map<string, TcpSeq>
    var uniquelyContributingFlows: set<string>
    ghost var Repr: set<object>

    ghost predicate Valid()
      reads this, Repr
      ensures Valid() ==> this in Repr
    {
      && this in Repr && (forall b :: b in lcb ==> b in Repr)
      && Listed(lcb) && Separated(Blocks())
    }

    function Blocks(): (bs: seq<Block>)
      reads this`lcb, lcb
    {
      Values(lcb)
    }

    constructor (len: nat)
      ensures Valid() && fresh(Repr) && length == len && lcb == [] && flowSeqMap == map[]
    {
      length := len;
      lcb := [];
      flowSeqMap := map[];
      uniquelyContributingFlows := {};
      Repr := {this};
    }

    /** Block i takes over what block i + 1 has behind the overlap; block i + 1 leaves the list. */
    method JoinNext(i: nat) returns (seen: nat)
      requires i + 1 < |lcb| && Listed(lcb)
      requires lcb[i + 1].startingSeqNumber <= lcb[i].nextExpectedSeqNumber < lcb[i + 1].nextExpectedSeqNumber
      modifies this`lcb, lcb[i]
      ensures Listed(lcb) && lcb == Without(old(lcb), i + 1)
      ensures seen == old(Blocks()[i].End() - Blocks()[i + 1].start) <= |old(Blocks()[i + 1].data)|
      ensures var b, next := old(Blocks())[i], old(Blocks())[i + 1];
              Blocks() == Without(old(Blocks()), i + 1)[i := Block(b.start, b.data + next.data[seen..], true)]
    {
      var li, li2 := lcb[i], lcb[i + 1];
      seen := li.nextExpectedSeqNumber - li2.startingSeqNumber;
      WithoutListed(lcb, i + 1);
      lcb := Without(lcb, i + 1);
      assert lcb[i] == li;
      li.OverlappingAppend(li2.contents, seen, li2.nextExpectedSeqNumber);
    }

    /** Absorb the blocks that block i has grown to reach. */
    method MergeForward(i: nat, numDuplicateBytes: nat) returns (total: nat)
      requires i < |lcb| && Listed(lcb)
      modifies this`lcb, lcb[i]
      ensures Listed(lcb) && forall b :: b in lcb ==> b in old(lcb)
      ensures var m := Merge(old(Blocks())[i], old(Blocks())[i + 1..]);
              Blocks() == old(Blocks())[..i] + m.blocks && total == numDuplicateBytes + m.dups
    {
      hide Merge;
      total := numDuplicateBytes;
      ghost var before, here := Blocks()[..i], Blocks()[i];
      ghost var goal := Merge(here, Blocks()[i + 1..]);
      while i + 1 < |lcb| && lcb[i + 1].startingSeqNumber <= lcb[i].nextExpectedSeqNumber
        invariant i < |lcb| && lcb[i] == old(lcb)[i] && Listed(lcb)
        invariant forall b :: b in lcb ==> b in old(lcb)
        invariant Blocks()[..i] == before && Blocks()[i] == here
        invariant var m := Merge(here, Blocks()[i + 1..]);
                  m.blocks == goal.blocks && total + m.dups == numDuplicateBytes + goal.dups
        decreases |lcb|
      {
        ghost var bs := Blocks();
        if lcb[i + 1].nextExpectedSeqNumber > lcb[i].nextExpectedSeqNumber {
          WithoutListed(lcb, i + 1);
          var seen := JoinNext(i);
          total := total + seen;
          MergeLast(bs, i);
          return;
        }
        total := total + (lcb[i + 1].nextExpectedSeqNumber - lcb[i + 1].startingSeqNumber);
        WithoutListed(lcb, i + 1);
        lcb := Without(lcb, i + 1);
        MergeSwallows(bs, i);
      }
      MergeStops(Blocks(), i);
    }

    /** A new block in front of list position i. */
    method InsertNew(i: nat, payload: seq<Byte>, n: TcpSeq)
      requires i <= |lcb| && Listed(lcb) && n + |payload| < WRAP
      modifies this`lcb
      ensures Listed(lcb) && forall b :: b in lcb ==> b in old(lcb) || fresh(b)
      ensures Blocks() == InsertedAt(old(Blocks()), i, Block(n, payload, true))
    {
      var cb := new ContiguousBlock();
      cb.Append(payload, n);
      assert [] + payload == payload;
      InsertedListed(lcb, i, cb);
      lcb := InsertedAt(lcb, i, cb);
    }

    /** The packet starts in front of block i: put it in front, prune it, or make it a block of its own. */
    method PlaceBefore(i: nat, n: TcpSeq, payload: seq<Byte>, numDuplicateBytes: nat) returns (total: nat)
      requires i < |lcb| && Listed(lcb) && payload != [] && n + |payload| < WRAP && n < lcb[i].startingSeqNumber
      modifies this`lcb, lcb[i]
      ensures Listed(lcb) && forall b :: b in lcb ==> b in old(lcb) || fresh(b)
      ensures var r := Fill(old(Blocks())[i..], n, payload);
              Blocks() == old(Blocks())[..i] + r.blocks && total == numDuplicateBytes + r.dups && !r.duplicate
    {
      total := numDuplicateBytes;
      ghost var bs := Blocks();
      assert bs[i..][1..] == bs[i + 1..];
      var li := lcb[i];
      if n + |payload| == li.startingSeqNumber {
        li.Prepend(payload, n);
        assert Blocks() == bs[i := Block(n, payload + bs[i].data, true)];
      } else if n + |payload| < li.startingSeqNumber {
        InsertNew(i, payload, n);
        assert Blocks() == bs[..i] + ([Block(n, payload, true)] + bs[i..]);
      } else {
        var kept := li.startingSeqNumber - n;
        total := total + |payload| - kept;
        li.Prepend(payload[..kept], n);
        assert Blocks() == bs[i := Block(n, payload[..kept] + bs[i].data, true)];
      }
    }

    lemma BlockEnds(i: nat)
      requires i < |lcb| && Listed(lcb)
      ensures Blocks()[i].start == lcb[i].startingSeqNumber && Blocks()[i].End() == lcb[i].nextExpectedSeqNumber
    {
    }

    /** Block i takes the part of the payload behind its end. */
    method GrowBlock(i: nat, n: TcpSeq, payload: seq<Byte>) returns (seen: nat)
      requires i < |lcb| && Listed(lcb) && n + |payload| < WRAP
      requires lcb[i].startingSeqNumber <= n <= lcb[i].nextExpectedSeqNumber < n + |payload|
      modifies lcb[i]
      ensures Listed(lcb) && seen == old(lcb[i].nextExpectedSeqNumber) - n <= |payload|
      ensures var b := old(Blocks())[i]; Blocks() == old(Blocks())[i := Block(b.start, b.data + payload[seen..], true)]
    {
      ghost var bs := Blocks();
      seen := lcb[i].nextExpectedSeqNumber - n;
      lcb[i].OverlappingAppend(payload, seen, n + |payload|);
      assert Blocks() == bs[i := lcb[i].Value()];
    }

    /** The packet starts inside block i or right behind it: append what is new and merge forward. */
    method PlaceInto(i: nat, n: TcpSeq, payload: seq<Byte>, numDuplicateBytes: nat)
      returns (total: nat, duplicate: bool)
      requires i < |lcb| && Listed(lcb) && payload != [] && n + |payload| < WRAP
      requires lcb[i].startingSeqNumber <= n <= lcb[i].nextExpectedSeqNumber
      modifies this`lcb, lcb[i]
      ensures Listed(lcb) && forall b :: b in lcb ==> b in old(lcb)
      ensures var r := Fill(old(Blocks())[i..], n, payload);
              Blocks() == old(Blocks())[..i] + r.blocks && total == numDuplicateBytes + r.dups
                  && duplicate == r.duplicate
    {
      hide Fill, Merge, Listed;
      ghost var bs := Blocks();
      BlockEnds(i);
      FillReached(bs, i, n, payload);
      if n + |payload| > lcb[i].nextExpectedSeqNumber {
        var seen := GrowBlock(i, n, payload);
        assert Blocks()[..i] == bs[..i] && Blocks()[i + 1..] == bs[i + 1..];
        total := MergeForward(i, numDuplicateBytes + seen);
        duplicate := false;
      } else {
        total, duplicate := numDuplicateBytes + |payload|, true;
        assert bs == bs[..i] + bs[i..];
      }
    }

    /** Put the payload at normalised position n into the block list. */
    method FillBlocks(n: TcpSeq, payload: seq<Byte>, numDuplicateBytes: nat) returns (total: nat, duplicate: bool)
      requires Listed(lcb) && payload != [] && n + |payload| < WRAP
      modifies this`lcb, lcb
      ensures Listed(lcb) && forall b :: b in lcb ==> b in old(lcb) || fresh(b)
      ensures var r := Fill(old(Blocks()), n, payload);
              Blocks() == r.blocks && total == numDuplicateBytes + r.dups && duplicate == r.duplicate
    {
      ghost var bs := Blocks();
      var i := 0;
      while i < |lcb|
        invariant i <= |lcb| && lcb == old(lcb) && Listed(lcb) && Blocks() == bs
        invariant forall k :: 0 <= k < i ==> bs[k].End() < n
      {
        if n < lcb[i].startingSeqNumber {
          FillSkips(bs, n, payload, i);
          total := PlaceBefore(i, n, payload, numDuplicateBytes);
          return total, false;
        } else if n <= lcb[i].nextExpectedSeqNumber {
          FillSkips(bs, n, payload, i);
          total, duplicate := PlaceInto(i, n, payload, numDuplicateBytes);
          return;
        }
        i := i + 1;
      }
      FillSkips(bs, n, payload, |bs|);
      assert bs[|bs|..] == [] && bs[..|bs|] == bs;
      InsertNew(|lcb|, payload, n);
      total, duplicate := numDuplicateBytes, false;
    }

    /** FillBlocks, with the new block taken into the chunk's footprint. */
    method FillOwned(n: TcpSeq, payload: seq<Byte>, numDuplicateBytes: nat) returns (total: nat, duplicate: bool)
      requires Valid() && payload != [] && n + |payload| < WRAP
      modifies Repr
      ensures Valid() && fresh(Repr - old(Repr)) && lcb != []
      ensures flowSeqMap == old(flowSeqMap) && uniquelyContributingFlows == old(uniquelyContributingFlows)
      ensures var r := Fill(old(Blocks()), n, payload);
              Blocks() == r.blocks && total == numDuplicateBytes + r.dups && duplicate == r.duplicate
    {
      hide Fill, Listed, Separated, Values;
      FillShape(Blocks(), n, payload);
      total, duplicate := FillBlocks(n, payload, numDuplicateBytes);
      Repr := Repr + set b | b in lcb;
    }

    /** `fill_gaps_in_chunk`: place a flow's bytes and report whether the chunk has just become complete. */
    method FillGapsInChunk(flowId: string, payload: seq<Byte>, seqNum: TcpSeq, numDuplicateBytes: nat)
      returns (done: bool, total: nat)
      requires Valid() && payload != []
      requires flowId in flowSeqMap ==> Sub32(seqNum, flowSeqMap[flowId]) + |payload| < WRAP
      modifies Repr
      ensures Valid() && fresh(Repr - old(Repr)) && flowSeqMap == old(flowSeqMap)
      ensures flowId !in flowSeqMap ==> !done && total == numDuplicateBytes && Blocks() == old(Blocks())
      ensures flowId in flowSeqMap ==>
                var r := Fill(old(Blocks()), Sub32(seqNum, flowSeqMap[flowId]), payload);
                Blocks() == r.blocks && total == numDuplicateBytes + r.dups && done == Completes(r, length)
      ensures uniquelyContributingFlows
           == if flowId in flowSeqMap && !Fill(old(Blocks()), Sub32(seqNum, flowSeqMap[flowId]), payload).duplicate
              then old(uniquelyContributingFlows) + {flowId} else old(uniquelyContributingFlows)
    {
      if flowId !in flowSeqMap {
        return false, numDuplicateBytes;
      }
      hide Fill, Listed, Separated, Values;
      var duplicate;
      total, duplicate := FillOwned(Sub32(seqNum, flowSeqMap[flowId]), payload, numDuplicateBytes);
      if !duplicate {
        uniquelyContributingFlows := uniquelyContributingFlows + {flowId};
      }
      done := !duplicate && |GetData()| >= length;
    }

    /** A flow is known to carry the chunk from seqNum on. */
    method SetStart(flowId: string, seqNum: TcpSeq)
      requires Valid()
      modifies this`flowSeqMap
      ensures Valid() && flowSeqMap == old(flowSeqMap)[flowId := seqNum]
    {
      flowSeqMap := flowSeqMap[flowId := seqNum];
    }

    /** `get_data`: the bytes of the first block. */
    function GetData(): (data: seq<Byte>)
      requires lcb != []
      reads this, lcb
      ensures data == Blocks()[0].data
    {
      lcb[0].contents
    }
  }

  /** A packet that starts inside block i or right behind it. */
  lemma FillReached(bs: seq<Block>, i: nat, n: nat, p: seq<Byte>)
    requires i < |bs| && bs[i].start <= n <= bs[i].End()
    ensures n + |p| > bs[i].End() ==>
              var seen := bs[i].End() - n;
              var m := Merge(Block(bs[i].start, bs[i].data + p[seen..], true), bs[i + 1..]);
              Fill(bs[i..], n, p) == Filled(m.blocks, seen + m.dups, false)
    ensures n + |p| <= bs[i].End() ==> Fill(bs[i..], n, p) == Filled(bs[i..], |p|, true)
  {
    hide Merge;
    assert bs[i..][1..] == bs[i + 1..];
  }

  /** A merge step over a block that is wholly covered. */
  lemma MergeSwallows(bs: seq<Block>, i: nat)
    requires i + 1 < |bs| && bs[i + 1].start <= bs[i].End() && bs[i + 1].End() <= bs[i].End()
    ensures var less := Without(bs, i + 1);
            var m, m1 := Merge(bs[i], bs[i + 1..]), Merge(bs[i], less[i + 1..]);
            && less[..i] == bs[..i] && less[i] == bs[i]
            && m.blocks == m1.blocks && m.dups == |bs[i + 1].data| + m1.dups
  {
    assert bs[i + 1..][1..] == Without(bs, i + 1)[i + 1..];
  }

  /** The merge ends where a gap follows. */
  lemma MergeStops(bs: seq<Block>, i: nat)
    requires i < |bs| && (i + 1 < |bs| ==> bs[i].End() < bs[i + 1].start)
    ensures Merge(bs[i], bs[i + 1..]).dups == 0 && bs == bs[..i] + Merge(bs[i], bs[i + 1..]).blocks
  {
  }

  /** The merge step that reaches into a block and stops there. */
  lemma MergeLast(bs: seq<Block>, i: nat)
    requires i + 1 < |bs| && bs[i + 1].start <= bs[i].End() < bs[i + 1].End()
    ensures var seen := bs[i].End() - bs[i + 1].start;
            var m := Merge(bs[i], bs[i + 1..]);
            && m.dups == seen
            && bs[..i] + m.blocks
            == Without(bs, i + 1)[i := Block(bs[i].start, bs[i].data + bs[i + 1].data[seen..], true)]
  {
    assert bs[i + 1..][1..] == bs[i + 2..];
  }
}
