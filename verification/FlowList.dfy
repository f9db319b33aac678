/** A flow's block list, as the list of block objects the source updates in place. */
module FlowLists {
  import opened Blocks
  import opened FlowInsert
  import opened Grep
  import opened SweepTruth
  import opened ReconstructedChunks

  lemma {:induction false} InsertSkips(bs: seq<Block>, n: nat, p: seq<Byte>, i: nat)
    requires i <= |bs| && forall k :: 0 <= k < i ==> bs[k].End() < n
    ensures Insert(bs, n, p) == bs[..i] + Insert(bs[i..], n, p)
    decreases i
  {
    hide Insert;
    if i == 0 {
      assert bs[0..] == bs && bs[..0] + Insert(bs, n, p) == Insert(bs, n, p);
    } else {
      var t := bs[1..];
      assert t[i - 1..] == bs[i..] && bs[..i] == [bs[0]] + t[..i - 1];
      InsertSkipsOne(bs, n, p);
      InsertSkips(t, n, p, i - 1);
      var r := Insert(bs[i..], n, p);
      assert [bs[0]] + (t[..i - 1] + r) == ([bs[0]] + t[..i - 1]) + r;
    }
  }

  lemma InsertSkipsOne(bs: seq<Block>, n: nat, p: seq<Byte>)
    requires bs != [] && bs[0].End() < n
    ensures Insert(bs, n, p) == [bs[0]] + Insert(bs[1..], n, p)
  {
  }

  lemma {:induction false} PlaceSkips(bs: seq<Block>, n: nat, p: seq<Byte>, i: nat, k: nat)
    requires i <= |bs| && k < |bs| && forall j :: 0 <= j < i ==> bs[j].End() < n
    ensures k < i ==> PlaceAfter(bs, n, p, k) == Some(k)
    ensures k >= i ==> PlaceAfter(bs, n, p, k) ==
                         match PlaceAfter(bs[i..], n, p, k - i) { case None => None case Some(m) => Some(m + i) }
    decreases i
  {
    if i == 0 {
      assert bs[0..] == bs;
    } else {
      assert bs[0].End() < n;
      assert bs[1..][i - 1..] == bs[i..];
      if k > 0 {
        PlaceSkips(bs[1..], n, p, i - 1, k - 1);
      }
    }
  }

  /** Where every node of a list stands after an insertion: at the place PlaceAfter says, or out of the list. */
  ghost predicate Moved(before: seq<ContiguousBlock>, after: seq<ContiguousBlock>,
                        bs: seq<Block>, n: nat, p: seq<Byte>) {
    && |before| == |bs|
    && forall k :: 0 <= k < |before| ==>
                     match PlaceAfter(bs, n, p, k)
                     case Some(m) => m < |after| && after[m] == before[k]
                     case None => before[k] !in after
  }

  class FlowList {
    var lcb: seq<ContiguousBlock>
    ghost var Repr: set<object>

    ghost predicate Valid()
      reads this, Repr
      ensures Valid() ==> this in Repr
    {
      this in Repr && (forall b :: b in lcb ==> b in Repr) && Listed(lcb)
    }

    function Blocks(): (bs: seq<Block>)
      reads this`lcb, lcb
    {
      Values(lcb)
    }

    /** The list of a flow not seen before. */
    constructor (payload: seq<Byte>, n: TcpSeq)
      requires n + |payload| < WRAP
      ensures Valid() && fresh(Repr) && Blocks() == [Block(n, payload, true)]
    {
      var cb := new ContiguousBlock();
      cb.Append(payload, n);
      lcb := [cb];
      Repr := {this, cb};
      new;
      assert [] + payload == payload;
    }

    lemma NodeEnds(i: nat)
      requires i < |lcb| && Listed(lcb)
      ensures |Blocks()| == |lcb| && Blocks()[i] == lcb[i].Value() && Blocks()[i].End() == lcb[i].nextExpectedSeqNumber
    {
    }

    lemma SameLength()
      ensures |Blocks()| == |lcb|
    {
    }

    /** A node of its own in front of list position i. */
    method InsertNode(i: nat, payload: seq<Byte>, n: TcpSeq) returns (cb: ContiguousBlock)
      requires Valid() && i <= |lcb| && n + |payload| < WRAP
      modifies this
      ensures Valid() && fresh(Repr - old(Repr)) && fresh(cb) && lcb == InsertedAt(old(lcb), i, cb)
      ensures Blocks() == InsertedAt(old(Blocks()), i, Block(n, payload, true))
    {
      cb := new ContiguousBlock();
      cb.Append(payload, n);
      assert [] + payload == payload;
      InsertedListed(lcb, i, cb);
      lcb := InsertedAt(lcb, i, cb);
      Repr := Repr + {cb};
    }

    /** The payload goes in front of node i. */
    method PrependTo(i: nat, payload: seq<Byte>, n: TcpSeq)
      requires Valid() && i < |lcb| && n + |payload| == lcb[i].startingSeqNumber
      modifies lcb[i]
      ensures Valid() && lcb == old(lcb) && Repr == old(Repr)
      ensures Blocks() == old(Blocks())[i := Block(n, payload + old(Blocks())[i].data, true)]
    {
      ghost var bs := Blocks();
      lcb[i].Prepend(payload, n);
      assert Blocks() == bs[i := lcb[i].Value()];
    }

    /** The payload goes behind node i. */
    method AppendTo(i: nat, payload: seq<Byte>, n: TcpSeq)
      requires Valid() && i < |lcb| && n == lcb[i].nextExpectedSeqNumber && n + |payload| < WRAP
      modifies lcb[i]
      ensures Valid() && lcb == old(lcb) && Repr == old(Repr)
      ensures var b := old(Blocks())[i]; Blocks() == old(Blocks())[i := Block(b.start, b.data + payload, true)]
    {
      ghost var bs := Blocks();
      lcb[i].Append(payload, n + |payload|);
      assert Blocks() == bs[i := lcb[i].Value()];
    }

    /** Node i takes over the next node, which leaves the list. */
    method MergeNext(i: nat)
      requires Valid() && i + 1 < |lcb| && lcb[i].nextExpectedSeqNumber == lcb[i + 1].startingSeqNumber
      modifies this`lcb, lcb[i]
      ensures Valid() && lcb == Without(old(lcb), i + 1) && Repr == old(Repr)
      ensures var b, next := old(Blocks())[i], old(Blocks())[i + 1];
              Blocks() == Without(old(Blocks()), i + 1)[i := Block(b.start, b.data + next.data, true)]
    {
      hide Listed;
      TakeOver(i, lcb[i + 1]);
      WithoutListed(lcb, i + 1);
      lcb := Without(lcb, i + 1);
    }

    /** Its first half: the bytes are appended. */
    method TakeOver(i: nat, li2: ContiguousBlock)
      requires Valid() && i + 1 < |lcb| && li2 == lcb[i + 1] && lcb[i].nextExpectedSeqNumber == li2.startingSeqNumber
      modifies lcb[i]
      ensures Valid()
      ensures var b, next := old(Blocks())[i], old(Blocks())[i + 1];
              Blocks() == old(Blocks())[i := Block(b.start, b.data + next.data, true)]
    {
      ghost var bs := Blocks();
      lcb[i].AppendBlock(li2.contents, li2.nextExpectedSeqNumber);
      assert Blocks() == bs[i := lcb[i].Value()];
    }

    /**
     * `insert` for a flow that has a list: the loop over the nodes. Every node keeps its identity, at the place
     * PlaceAfter says.
     */
    method InsertPayload(payload: seq<Byte>, n: TcpSeq)
      requires Valid() && n + |payload| < WRAP
      modifies Repr
      ensures Valid() && fresh(Repr - old(Repr))
      ensures Blocks() == Insert(old(Blocks()), n, payload)
      ensures Moved(old(lcb), lcb, old(Blocks()), n, payload)
    {
      hide Insert, PlaceAfter, Moved, Listed;
      ghost var bs, nodes := Blocks(), lcb;
      var i := 0;
      while i < |lcb|
        invariant i <= |lcb| && lcb == nodes && Valid() && Repr == old(Repr) && Blocks() == bs
        invariant Skipped(bs, n, i)
      {
        NodeEnds(i);
        if n < lcb[i].nextExpectedSeqNumber {
          InsertBefore(i, payload, n);
          return;
        } else if n == lcb[i].nextExpectedSeqNumber {
          InsertBehind(i, payload, n);
          return;
        }
        i := i + 1;
      }
      InsertLast(bs, n, payload);
      var cb := InsertNode(|lcb|, payload, n);
      MovedNew(nodes, bs, n, payload, |bs|, cb);
    }

    /** The payload starts in front of node i's end. */
    method InsertBefore(i: nat, payload: seq<Byte>, n: TcpSeq)
      requires Valid() && i < |lcb| && Skipped(Blocks(), n, i) && n < lcb[i].nextExpectedSeqNumber
      requires n + |payload| < WRAP
      modifies Repr
      ensures Valid() && fresh(Repr - old(Repr))
      ensures Blocks() == Insert(old(Blocks()), n, payload)
      ensures Moved(old(lcb), lcb, old(Blocks()), n, payload)
    {
      hide Insert, PlaceAfter, Moved, Listed;
      ghost var bs, nodes := Blocks(), lcb;
      NodeEnds(i);
      InsertFront(bs, n, payload, i);
      if n + |payload| == lcb[i].startingSeqNumber {
        MovedSame(nodes, bs, n, payload, i);
        PrependTo(i, payload, n);
      } else if n + |payload| < lcb[i].startingSeqNumber {
        var cb := InsertNode(i, payload, n);
        MovedNew(nodes, bs, n, payload, i, cb);
      } else {
        MovedSame(nodes, bs, n, payload, i);
      }
    }

    /** The payload starts where node i ends. */
    method InsertBehind(i: nat, payload: seq<Byte>, n: TcpSeq)
      requires Valid() && i < |lcb| && Skipped(Blocks(), n, i) && n == lcb[i].nextExpectedSeqNumber
      requires n + |payload| < WRAP
      modifies Repr
      ensures Valid() && fresh(Repr - old(Repr))
      ensures Blocks() == Insert(old(Blocks()), n, payload)
      ensures Moved(old(lcb), lcb, old(Blocks()), n, payload)
    {
      hide Insert, PlaceAfter, Moved, Listed, Without;
      ghost var bs, nodes := Blocks(), lcb;
      NodeEnds(i);
      AppendTo(i, payload, n);
      NodeEnds(i);
      ghost var grown := Blocks();
      if i + 1 < |lcb| {
        NodeEnds(i + 1);
        if lcb[i].nextExpectedSeqNumber == lcb[i + 1].startingSeqNumber {
          InsertJoins(bs, n, payload, i);
          MovedMerged(nodes, bs, n, payload, i);
          MergeNext(i);
          return;
        }
      }
      InsertGrows(bs, n, payload, i);
      MovedSame(nodes, bs, n, payload, i);
    }

    // ---------- holding and erasing nodes ----------

    /** The place the node has. */
    method PositionOf(li: ContiguousBlock) returns (k: nat)
      requires li in lcb
      ensures k < |lcb| && lcb[k] == li
    {
      k := 0;
      while lcb[k] != li
        invariant k < |lcb| && li in lcb[k..]
        decreases |lcb| - k
      {
        k := k + 1;
      }
    }

    /** The iterator's step from node k to the next; null is the end of the list. */
    method Successor(li: ContiguousBlock, ghost k: nat) returns (next: ContiguousBlock?)
      requires Listed(lcb) && k < |lcb| && lcb[k] == li
      ensures next == if k + 1 < |lcb| then lcb[k + 1] else null
    {
      var at := PositionOf(li);
      next := if at + 1 < |lcb| then lcb[at + 1] else null;
    }

    /** `erase(li++)`: node k leaves the list; the iterator stands on what followed it. */
    method EraseNode(li: ContiguousBlock, ghost k: nat) returns (next: ContiguousBlock?)
      requires Valid() && k < |lcb| && lcb[k] == li
      modifies this`lcb
      ensures Valid() && Repr == old(Repr) && lcb == Without(old(lcb), k) && Blocks() == Without(old(Blocks()), k)
      ensures next == if k < |lcb| then lcb[k] else null
    {
      var at := PositionOf(li);
      WithoutListed(lcb, at);
      lcb := Without(lcb, at);
      next := if at < |lcb| then lcb[at] else null;
    }

    // ---------- the sweep ----------

    /** One call of grep_contiguous_block_for_chunks: take out the first record, or mark the node as searched. */
    method GrepContiguousBlock(i: nat, stray: int -> Byte) returns (next: nat, taken: seq<Part>)
      requires Valid() && i < |lcb| && lcb[i].contents != []
      modifies Repr
      ensures Valid() && fresh(Repr - old(Repr))
      ensures Grepped(Blocks(), next, taken) == GrepOnce(old(Blocks()), i, stray)
    {
      hide Scan, Listed, Without, InsertedAt;
      ghost var bs := Blocks();
      NodeEnds(i);
      var r := FindRecord(lcb[i].contents);
      if r.Nothing? {
        MarkNode(i);
        return i, [];
      }
      ScanInside(lcb[i].contents, 0);
      taken := Cutout(lcb[i].Value(), r, stray);
      var start := lcb[i].startingSeqNumber;
      TrimNode(i, r.at + r.size);
      if r.at == 0 {
        return i, taken;
      }
      var prefix := seq(r.at, k requires 0 <= k < r.at => stray(start + k));
      assert prefix == Stray(start, r.at, stray).data;
      InsertSearched(i, prefix, start);
      return i + 1, taken;
    }

    /** A new node in front of list position i, marked as searched. */
    method InsertSearched(i: nat, payload: seq<Byte>, n: TcpSeq)
      requires Valid() && i <= |lcb| && n + |payload| < WRAP
      modifies this
      ensures Valid() && fresh(Repr - old(Repr))
      ensures Blocks() == InsertedAt(old(Blocks()), i, Block(n, payload, false))
    {
      ghost var bs := Blocks();
      var cb := InsertNode(i, payload, n);
      assert lcb[i] == cb;
      cb.MarkSearched();
      assert Blocks() == InsertedAt(bs, i, Block(n, payload, true))[i := cb.Value()];
    }

    /** The inner loop of grep_flows_for_chunks: grep the node until it is searched or used up. */
    method GrepNode(i: nat, stray: int -> Byte) returns (next: nat, parts: seq<Part>)
      requires Valid() && i < |lcb|
      modifies Repr
      ensures Valid() && fresh(Repr - old(Repr))
      ensures var s := SweepBlock(old(Blocks())[i], stray);
              && parts == s.parts && next == i + |KeptBlocks(parts)|
              && Blocks() == Spliced(old(Blocks()), i, KeptBlocks(parts) + [s.rest])
    {
      hide Listed, SweepBlock, KeptBlocks, GrepOnce, Spliced, SweptTo;
      ghost var bs := Blocks();
      next, parts := i, [];
      GrepStart(bs, i, stray);
      NodeEnds(i);
      while lcb[next].bModified && lcb[next].startingSeqNumber < lcb[next].nextExpectedSeqNumber
        invariant Valid() && fresh(Repr - old(Repr)) && next < |lcb| == |Blocks()|
        invariant Blocks()[next] == lcb[next].Value() && Blocks()[next].End() == lcb[next].nextExpectedSeqNumber
        invariant SweptTo(bs, i, stray, Blocks(), next, parts)
        decreases |lcb[next].contents|, lcb[next].bModified
      {
        GrepRound(bs, i, stray, Blocks(), next, parts);
        var taken;
        next, taken := GrepContiguousBlock(next, stray);
        NodeEnds(next);
        parts := parts + taken;
      }
      GrepEnd(bs, i, stray, Blocks(), next, parts);
    }

    /** `grep_flows_for_chunks` for one flow: i is the iterator's place, j counts the nodes the list had before. */
    method GrepList(stray: (nat, int) -> Byte) returns (records: seq<Part>)
      requires Valid()
      modifies Repr
      ensures Valid() && fresh(Repr - old(Repr))
      ensures Blocks() == SweepFrom(old(Blocks()), stray, 0) && records == RecordsFrom(old(Blocks()), stray, 0)
    {
      hide Listed, Blocks, Without, SweepBlock, KeptBlocks, Spliced, SweepFrom, RecordsFrom, ListTo, Records;
      ghost var bs := Blocks();
      records := [];
      var i: nat, j: nat := 0, 0;
      ListStart(bs, stray);
      SameLength();
      while i < |lcb|
        invariant |lcb| == |Blocks()| && Valid() && fresh(Repr - old(Repr))
        invariant ListTo(bs, stray, Blocks(), i, j, records)
        decreases |bs| - j
      {
        ghost var now := Blocks();
        ListRound(bs, stray, now, i, j, records);
        var parts;
        i, parts := GrepNode(i, OfNode(stray, j));
        SameLength();
        i := StepOver(i);
        SameLength();
        records := records + Records(parts);
        j := j + 1;
      }
      ListEnd(bs, stray, Blocks(), i, j, records);
    }

    /** Past node i: an empty node is erased on the way. */
    method StepOver(i: nat) returns (next: nat)
      requires Valid() && i < |lcb|
      modifies this`lcb
      ensures Valid() && Repr == old(Repr)
      ensures i < |old(Blocks())|
      ensures old(Blocks())[i].data == [] ==> next == i && Blocks() == Without(old(Blocks()), i)
      ensures old(Blocks())[i].data != [] ==> next == i + 1 && Blocks() == old(Blocks())
    {
      hide Without, Listed;
      NodeEnds(i);
      if lcb[i].startingSeqNumber == lcb[i].nextExpectedSeqNumber {
        var rest := EraseNode(lcb[i], i);
        return i;
      }
      return i + 1;
    }

    method MarkNode(i: nat)
      requires Valid() && i < |lcb|
      modifies lcb[i]
      ensures Valid() && lcb == old(lcb) && Repr == old(Repr)
      ensures Blocks() == old(Blocks())[i := old(Blocks())[i].(modified := false)]
    {
      ghost var bs := Blocks();
      lcb[i].MarkSearched();
      assert Blocks() == bs[i := lcb[i].Value()];
    }

    method TrimNode(i: nat, size: nat)
      requires Valid() && i < |lcb| && size <= |lcb[i].contents|
      modifies lcb[i]
      ensures Valid() && lcb == old(lcb) && Repr == old(Repr)
      ensures var b := old(Blocks())[i];
              Blocks() == old(Blocks())[i := Block(b.start + size, b.data[size..], b.modified)]
    {
      ghost var bs := Blocks();
      lcb[i].TrimFront(size);
      assert Blocks() == bs[i := lcb[i].Value()];
    }
  }

  /** The first i blocks end in front of n. */
  ghost predicate Skipped(bs: seq<Block>, n: nat, i: nat) {
    i <= |bs| && forall k :: 0 <= k < i ==> bs[k].End() < n
  }

  lemma InsertLast(bs: seq<Block>, n: nat, p: seq<Byte>)
    requires Skipped(bs, n, |bs|)
    ensures Insert(bs, n, p) == InsertedAt(bs, |bs|, Block(n, p, true))
  {
    InsertSkips(bs, n, p, |bs|);
    assert bs[|bs|..] == [] && bs[..|bs|] == bs;
  }

  lemma InsertFront(bs: seq<Block>, n: nat, p: seq<Byte>, i: nat)
    requires Skipped(bs, n, i) && i < |bs| && n < bs[i].End()
    ensures Insert(bs, n, p) == if n + |p| == bs[i].start then bs[i := Block(n, p + bs[i].data, true)]
                                else if n + |p| < bs[i].start then InsertedAt(bs, i, Block(n, p, true))
                                else bs
  {
    InsertSkips(bs, n, p, i);
    assert bs[i..][1..] == bs[i + 1..];
    assert bs == bs[..i] + bs[i..];
  }

  lemma InsertAtEnd(t: seq<Block>, n: nat, p: seq<Byte>)
    requires t != [] && n == t[0].End()
    ensures Insert(t, n, p) == if |t| > 1 && n + |p| == t[1].start
                               then [Block(t[0].start, t[0].data + p + t[1].data, true)] + t[2..]
                               else [Block(t[0].start, t[0].data + p, true)] + t[1..]
  {
  }

  lemma InsertGrows(bs: seq<Block>, n: nat, p: seq<Byte>, i: nat)
    requires Skipped(bs, n, i) && i < |bs| && n == bs[i].End() && (i + 1 < |bs| ==> n + |p| != bs[i + 1].start)
    ensures Insert(bs, n, p) == bs[i := Block(bs[i].start, bs[i].data + p, true)]
  {
    hide Insert;
    InsertSkips(bs, n, p, i);
    InsertAtEnd(bs[i..], n, p);
    SplitAt(bs, i, Block(bs[i].start, bs[i].data + p, true));
  }

  lemma SplitAt(bs: seq<Block>, i: nat, b: Block)
    requires i < |bs|
    ensures bs[i..][0] == bs[i] && bs[i..][1..] == bs[i + 1..] && bs[..i] + ([b] + bs[i..][1..]) == bs[i := b]
    ensures |bs[i..]| > 1 ==> i + 1 < |bs| && bs[i..][1] == bs[i + 1]
  {
  }

  lemma InsertJoins(bs: seq<Block>, n: nat, p: seq<Byte>, i: nat)
    requires Skipped(bs, n, i) && i + 1 < |bs| && n == bs[i].End() && n + |p| == bs[i + 1].start
    ensures var b, next := bs[i], bs[i + 1];
            Insert(bs, n, p) == Without(bs[i := Block(b.start, b.data + p, true)],
                i + 1)[i := Block(b.start, b.data + p + next.data, true)]
  {
    hide Insert;
    InsertSkips(bs, n, p, i);
    InsertAtEnd(bs[i..], n, p);
    var b := Block(bs[i].start, bs[i].data + p + bs[i + 1].data, true);
    assert bs[i..][2..] == bs[i + 2..];
    assert bs[..i] + ([b] + bs[i + 2..]) == Without(bs[i := Block(bs[i].start, bs[i].data + p, true)], i + 1)[i := b];
  }

  /** Nodes stay where they are. */
  lemma MovedSame(nodes: seq<ContiguousBlock>, bs: seq<Block>, n: nat, p: seq<Byte>, i: nat)
    requires |nodes| == |bs| && Skipped(bs, n, i) && i < |bs| && n <= bs[i].End()
    requires n < bs[i].End() ==> n + |p| >= bs[i].start
    requires n == bs[i].End() && i + 1 < |bs| ==> n + |p| != bs[i + 1].start
    ensures Moved(nodes, nodes, bs, n, p)
  {
    forall k | 0 <= k < |bs|
      ensures PlaceAfter(bs, n, p, k) == Some(k)
    {
      PlaceSkips(bs, n, p, i, k);
    }
  }

  /** A new node pushes the nodes behind it one place on. */
  lemma MovedNew(nodes: seq<ContiguousBlock>, bs: seq<Block>, n: nat, p: seq<Byte>, i: nat, cb: ContiguousBlock)
    requires |nodes| == |bs| && Skipped(bs, n, i) && (i < |bs| ==> n < bs[i].End() && n + |p| < bs[i].start)
    ensures Moved(nodes, InsertedAt(nodes, i, cb), bs, n, p)
  {
    forall k | 0 <= k < |bs|
      ensures PlaceAfter(bs, n, p, k) == Some(if k < i then k else k + 1)
    {
      PlaceSkips(bs, n, p, i, k);
    }
  }

  /** A merged node leaves, and the nodes behind it move one place back. */
  lemma MovedMerged(nodes: seq<ContiguousBlock>, bs: seq<Block>, n: nat, p: seq<Byte>, i: nat)
    requires |nodes| == |bs| && Listed(nodes)
    requires Skipped(bs, n, i) && i + 1 < |bs| && n == bs[i].End() && n + |p| == bs[i + 1].start
    ensures Moved(nodes, Without(nodes, i + 1), bs, n, p)
  {
    forall k | 0 <= k < |bs|
      ensures PlaceAfter(bs, n, p, k) == if k == i + 1 then None else Some(if k <= i then k else k - 1)
    {
      PlaceSkips(bs, n, p, i, k);
    }
  }

  // ---------- sweeps on values ----------

  /** The list after one grep call that found record r in block i. */
  function GrepResult(bs: seq<Block>, i: nat, r: Found, stray: int -> Byte): seq<Block>
    requires i < |bs| && r.Record? && r.at + r.size <= |bs[i].data|
  {
    var trimmed := bs[i := Block(bs[i].start + r.at + r.size, bs[i].data[r.at + r.size..], bs[i].modified)];
    if r.at == 0 then trimmed else InsertedAt(trimmed, i, Stray(bs[i].start, r.at, stray))
  }

  /** bs with block i replaced by some blocks. */
  function Spliced(bs: seq<Block>, i: nat, some: seq<Block>): seq<Block>
    requires i < |bs|
  {
    bs[..i] + some + bs[i + 1..]
  }

  /** What one grep call leaves: the list, the place of the node, and what it took out. */
  datatype Grepped = Grepped(blocks: seq<Block>, at: nat, taken: seq<Part>)

  function GrepOnce(bs: seq<Block>, i: nat, stray: int -> Byte): Grepped
    requires i < |bs|
  {
    ScanInside(bs[i].data, 0);
    var r := Scan(bs[i].data, 0);
    if r.Nothing? then Grepped(bs[i := bs[i].(modified := false)], i, [])
    else Grepped(GrepResult(bs, i, r, stray), if r.at == 0 then i else i + 1, Cutout(bs[i], r, stray))
  }

  /** Block i of bs has been swept as far as parts; what is left of it stands at place at. */
  ghost predicate SweptTo(bs: seq<Block>, i: nat, stray: int -> Byte, now: seq<Block>, at: nat, parts: seq<Part>) {
    && i < |bs| && at == i + |KeptBlocks(parts)| < |now| && now == Spliced(bs, i, KeptBlocks(parts) + [now[at]])
    && SweepBlock(bs[i], stray) == Swept(parts + SweepBlock(now[at], stray).parts, SweepBlock(now[at], stray).rest)
  }

  lemma GrepStart(bs: seq<Block>, i: nat, stray: int -> Byte)
    requires i < |bs|
    ensures SweptTo(bs, i, stray, bs, i, [])
  {
    hide SweepBlock;
    assert [] + SweepBlock(bs[i], stray).parts == SweepBlock(bs[i], stray).parts;
  }

  lemma GrepEnd(bs: seq<Block>, i: nat, stray: int -> Byte, now: seq<Block>, at: nat, parts: seq<Part>)
    requires SweptTo(bs, i, stray, now, at, parts) && (!now[at].modified || now[at].data == [])
    ensures var s := SweepBlock(bs[i], stray);
            && parts == s.parts && at == i + |KeptBlocks(parts)| && now == Spliced(bs, i, KeptBlocks(parts) + [s.rest])
  {
    assert SweepBlock(now[at], stray) == Swept([], now[at]);
    assert parts + [] == parts;
  }

  /** One more grep call. */
  lemma GrepRound(bs: seq<Block>, i: nat, stray: int -> Byte, now: seq<Block>, at: nat, parts: seq<Part>)
    requires SweptTo(bs, i, stray, now, at, parts) && now[at].modified && now[at].data != []
    ensures var g := GrepOnce(now, at, stray);
            && g.at < |g.blocks| && SweptTo(bs, i, stray, g.blocks, g.at, parts + g.taken)
            && (|g.blocks[g.at].data| < |now[at].data| || (|g.blocks[g.at].data| == |now[at].data|
                    && !g.blocks[g.at].modified))
  {
    var r := Scan(now[at].data, 0);
    ScanInside(now[at].data, 0);
    if r.Record? {
      GrepTakes(bs, i, stray, now, at, parts, r);
    } else {
      hide SweepBlock, KeptBlocks, Scan;
      SweepStep(now[at], stray);
      assert parts + [] == parts;
    }
  }

  lemma GrepTakes(bs: seq<Block>, i: nat, stray: int -> Byte, now: seq<Block>, at: nat, parts: seq<Part>, r: Found)
    requires SweptTo(bs, i, stray, now, at, parts) && now[at].modified && now[at].data != []
    requires r == Scan(now[at].data, 0) && r.Record? && r.at + r.size <= |now[at].data|
    ensures var blocks, next := GrepResult(now, at, r, stray), if r.at == 0 then at else at + 1;
            && next < |blocks| && blocks[next] == Behind(now[at], r)
            && SweptTo(bs, i, stray, blocks, next, parts + Cutout(now[at], r, stray))
  {
    hide SweepBlock, KeptBlocks, Cutout, Scan, GrepResult, Spliced;
    var b := now[at];
    SweepStep(b, stray);
    KeptJoin(parts, Cutout(b, r, stray));
    CutoutKept(b, r, stray);
    var more := SweepBlock(Behind(b, r), stray).parts;
    assert parts + (Cutout(b, r, stray) + more) == parts + Cutout(b, r, stray) + more;
    GrepSpliced(bs, i, KeptBlocks(parts), b, r, stray);
  }

  lemma SweepStep(b: Block, stray: int -> Byte)
    requires b.modified && b.data != []
    ensures Scan(b.data, 0).Nothing? ==>
              SweepBlock(b, stray) == SweepBlock(b.(modified := false), stray) == Swept([], b.(modified := false))
    ensures Scan(b.data, 0).Record? ==>
              (ScanInside(b.data, 0);
               var r := Scan(b.data, 0);
               var more := SweepBlock(Behind(b, r), stray);
               SweepBlock(b, stray) == Swept(Cutout(b, r, stray) + more.parts, more.rest))
  {
  }

  lemma GrepSpliced(bs: seq<Block>, i: nat, kept: seq<Block>, b: Block, r: Found, stray: int -> Byte)
    requires i < |bs| && r.Record? && r.at + r.size <= |b.data| && b.modified
    ensures var now, at := Spliced(bs, i, kept + [b]), i + |kept|;
            && |now| == |bs| + |kept| && now[at] == b
            && var more := kept + if r.at == 0 then [] else [Stray(b.start, r.at, stray)];
            && GrepResult(now, at, r, stray) == Spliced(bs, i, more + [Behind(b, r)])
            && i + |more| < |GrepResult(now, at, r, stray)| && GrepResult(now, at, r, stray)[i + |more|] == Behind(b, r)
  {
  }

  /** The sweep of the list has come to place i, which held block j before. */
  ghost predicate ListTo(bs: seq<Block>, stray: (nat, int) -> Byte,
                         now: seq<Block>, i: nat, j: nat, records: seq<Part>) {
    && i <= |now| && j <= |bs| && now[i..] == bs[j..]
    && SweepFrom(bs, stray, 0) == now[..i] + SweepFrom(bs, stray, j)
    && RecordsFrom(bs, stray, 0) == records + RecordsFrom(bs, stray, j)
  }

  lemma ListStart(bs: seq<Block>, stray: (nat, int) -> Byte)
    ensures ListTo(bs, stray, bs, 0, 0, [])
  {
    hide SweepFrom, RecordsFrom;
    assert bs[..0] == [];
    assert [] + RecordsFrom(bs, stray, 0) == RecordsFrom(bs, stray, 0);
    assert bs[..0] + SweepFrom(bs, stray, 0) == SweepFrom(bs, stray, 0);
  }

  lemma ListEnd(bs: seq<Block>, stray: (nat, int) -> Byte, now: seq<Block>, i: nat, j: nat, records: seq<Part>)
    requires ListTo(bs, stray, now, i, j, records) && i >= |now|
    ensures now == SweepFrom(bs, stray, 0) && records == RecordsFrom(bs, stray, 0)
  {
    assert |now[i..]| == 0 && j == |bs|;
    assert now[..i] == now && now + [] == now && records + [] == records;
  }

  /** One node's sweep, in the terms of the list's. */
  lemma ListRound(bs: seq<Block>, stray: (nat, int) -> Byte, now: seq<Block>, i: nat, j: nat, records: seq<Part>)
    requires ListTo(bs, stray, now, i, j, records) && i < |now|
    ensures j < |bs|
    ensures var s := SweepBlock(now[i], OfNode(stray, j));
            var kept := KeptBlocks(s.parts);
            var swept, at := Spliced(now, i, kept + [s.rest]), i + |kept|;
            && at < |swept| && swept[at] == s.rest
            && (s.rest.data == [] ==> ListTo(bs, stray, Without(swept, at), at, j + 1, records + Records(s.parts)))
            && (s.rest.data != [] ==> ListTo(bs, stray, swept, at + 1, j + 1, records + Records(s.parts)))
  {
    hide SweepBlock, KeptBlocks, Records;
    assert |now[i..]| > 0 && now[i] == now[i..][0] && bs[j] == bs[j..][0];
    assert now[i + 1..] == now[i..][1..] && bs[j + 1..] == bs[j..][1..];
    var s := SweepBlock(bs[j], OfNode(stray, j));
    var kept, more := KeptBlocks(s.parts), SweepFrom(bs, stray, j + 1);
    ListSpliced(now, i, kept, s.rest);
    assert records + (Records(s.parts) + RecordsFrom(bs, stray, j + 1))
        == records + Records(s.parts) + RecordsFrom(bs, stray, j + 1);
    assert now[..i] + (kept + [] + more) == now[..i] + kept + more;
    assert now[..i] + (kept + [s.rest] + more) == now[..i] + kept + [s.rest] + more;
  }

  lemma ListSpliced(now: seq<Block>, i: nat, kept: seq<Block>, rest: Block)
    requires i < |now|
    ensures var swept, at := Spliced(now, i, kept + [rest]), i + |kept|;
            && |swept| == |now| + |kept| && swept[at] == rest
            && Without(swept, at)[at..] == now[i + 1..] && Without(swept, at)[..at] == now[..i] + kept
            && swept[at + 1..] == now[i + 1..] && swept[..at + 1] == now[..i] + kept + [rest]
  {
  }

  /** The scan of grep_contiguous_block_for_chunks. */
  method FindRecord(data: seq<Byte>) returns (r: Found)
    ensures r == Scan(data, 0)
  {
    var i := 0;
    while i < |data|
      invariant i <= |data| && Scan(data, 0) == Scan(data, i)
    {
      if i + 8 + |MASK| < |data| && data[i] == RPC_HEADER && data[i + 8..i + 8 + |MASK|] == MASK {
        var size := FragmentLength(data[i..]) + 4;
        if i + size <= |data| {
          return Record(i, size);
        }
        return Nothing;
      }
      i := i + 1;
    }
    return Nothing;
  }
}
