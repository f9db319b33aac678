/** Bytes, 32-bit sequence numbers and lists of contiguous blocks. */
module Blocks {

  datatype Option<+T> = None | Some(value: T)

  type Byte = x: nat | x < 256

  const WRAP: nat := 0x1_0000_0000

  /** s without its element i. */
  function Without<T>(s: seq<T>, i: nat): seq<T>
    requires i < |s|
  {
    s[..i] + s[i + 1..]
  }

  function InsertedAt<T>(s: seq<T>, i: nat, x: T): seq<T>
    requires i <= |s|
  {
    s[..i] + [x] + s[i..]
  }

  /** `tcp_seq`: an unsigned 32-bit number (contiguous_block.h). */
  type TcpSeq = x: nat | x < 0x1_0000_0000

  function Add32(a: nat, b: nat): TcpSeq {
    (a + b) % WRAP
  }

  function Sub32(a: nat, b: nat): TcpSeq {
    (a - b) % WRAP
  }

  /** Reinterpretation of an unsigned 32-bit number as a C `int`. */
  function Signed32(a: TcpSeq): int {
    if a < 0x8000_0000 then a else a - WRAP
  }

  lemma SubRecovers(start: TcpSeq, k: nat)
    requires k < WRAP
    ensures Sub32(Add32(start, k), start) == k
  {
    if start + k < WRAP {
    } else {
      assert Add32(start, k) == start + k - WRAP;
      assert (k - WRAP) % WRAP == k;
    }
  }

  /** The value of one `ContiguousBlock`: its bytes occupy positions start, start+1, ... */
  datatype Block = Block(start: nat, data: seq<Byte>, modified: bool) {
    function End(): nat {
      start + |data|
    }

    predicate Covers(pos: int) {
      start <= pos < End()
    }
  }

  /** Sorted, non-empty blocks with at least one missing byte between neighbours. */
  ghost predicate Separated(bs: seq<Block>) {
    && (forall i :: 0 <= i < |bs| ==> bs[i].data != [])
    && (forall i, j :: 0 <= i < j < |bs| ==> bs[i].End() < bs[j].start)
  }

  ghost predicate AllModified(bs: seq<Block>) {
    forall i :: 0 <= i < |bs| ==> bs[i].modified
  }

  /** Sum of the stored block sizes. */
  function Size(bs: seq<Block>): nat {
    if bs == [] then 0 else |bs[0].data| + Size(bs[1..])
  }

  /** The byte a block list holds at a position, if any (the first block that covers it). */
  ghost function At(bs: seq<Block>, pos: int): Option<Byte> {
    if bs == [] then None
    else if bs[0].Covers(pos) then Some(bs[0].data[pos - bs[0].start])
    else At(bs[1..], pos)
  }

  lemma AtCons(b: Block, rest: seq<Block>, pos: int)
    ensures At([b] + rest, pos) == if b.Covers(pos) then Some(b.data[pos - b.start]) else At(rest, pos)
  {
    assert ([b] + rest)[1..] == rest;
  }

  lemma {:induction false} AtSome(bs: seq<Block>, pos: int) returns (i: nat)
    requires At(bs, pos).Some?
    ensures i < |bs| && bs[i].Covers(pos) && bs[i].data[pos - bs[i].start] == At(bs, pos).value
  {
    if bs[0].Covers(pos) {
      i := 0;
    } else {
      i := AtSome(bs[1..], pos);
      i := i + 1;
    }
  }

  lemma {:induction false} AtNone(bs: seq<Block>, pos: int, i: nat)
    requires i < |bs| && At(bs, pos) == None
    ensures !bs[i].Covers(pos)
  {
    if i > 0 {
      AtNone(bs[1..], pos, i - 1);
    }
  }

  lemma {:induction false} AtBlock(bs: seq<Block>, i: nat, pos: int)
    requires Separated(bs) && i < |bs| && bs[i].Covers(pos)
    ensures At(bs, pos) == Some(bs[i].data[pos - bs[i].start])
  {
    if i > 0 {
      assert bs[0].End() < bs[i].start;
      AtBlock(bs[1..], i - 1, pos);
    }
  }

  lemma SeparatedOrder(bs: seq<Block>, i: nat)
    requires Separated(bs) && 0 < i < |bs|
    ensures bs[0].start < bs[0].End() < bs[i].start
  {
  }

  lemma SeparatedCons(b: Block, rest: seq<Block>)
    requires Separated(rest) && b.data != [] && (rest != [] ==> b.End() < rest[0].start)
    ensures Separated([b] + rest)
  {
    var bs := [b] + rest;
    forall i, j | 0 <= i < j < |bs|
      ensures bs[i].End() < bs[j].start
    {
      if i > 0 {
        assert bs[i] == rest[i - 1] && bs[j] == rest[j - 1];
      } else if j > 1 {
        SeparatedOrder(rest, j - 1);
      }
    }
  }

  lemma AtBefore(bs: seq<Block>, pos: int)
    requires Separated(bs) && (bs == [] || pos < bs[0].start)
    ensures At(bs, pos) == None
  {
    if At(bs, pos).Some? {
      var i := AtSome(bs, pos);
      if i > 0 {
        SeparatedOrder(bs, i);
      }
    }
  }

  /** A separated list is the unique list of maximal runs of its view: equal views mean equal lists. */
  lemma {:induction false} CanonicalIsUnique(a: seq<Block>, b: seq<Block>)
    requires Separated(a) && Separated(b) && AllModified(a) && AllModified(b)
    requires forall pos :: At(a, pos) == At(b, pos)
    ensures a == b
  {
    if a == [] && b == [] {
    } else if a == [] {
      AtBlock(b, 0, b[0].start);
    } else if b == [] {
      AtBlock(a, 0, a[0].start);
    } else {
      FirstBlocksEqual(a, b);
      forall pos
        ensures At(a[1..], pos) == At(b[1..], pos)
      {
        AtTail(a, pos);
        AtTail(b, pos);
      }
      CanonicalIsUnique(a[1..], b[1..]);
      assert a == [a[0]] + a[1..] && b == [b[0]] + b[1..];
    }
  }

  lemma AtTail(a: seq<Block>, pos: int)
    requires a != [] && Separated(a)
    ensures At(a[1..], pos) == if a[0].Covers(pos) then None else At(a, pos)
  {
    if a[0].Covers(pos) {
      AtBefore(a[1..], pos);
    }
  }

  lemma FirstBlocksEqual(a: seq<Block>, b: seq<Block>)
    requires Separated(a) && Separated(b) && a != [] && b != []
    requires a[0].modified && b[0].modified
    requires forall pos :: At(a, pos) == At(b, pos)
    ensures a[0] == b[0]
  {
    FirstBlockStart(a, b);
    FirstBlockStart(b, a);
    FirstBlockEnd(a, b);
    FirstBlockEnd(b, a);
    forall k | 0 <= k < |a[0].data|
      ensures a[0].data[k] == b[0].data[k]
    {
      AtBlock(a, 0, a[0].start + k);
      AtBlock(b, 0, b[0].start + k);
    }
    assert a[0].data == b[0].data;
  }

  lemma FirstBlockStart(a: seq<Block>, b: seq<Block>)
    requires Separated(a) && Separated(b) && a != [] && b != []
    requires forall pos :: At(a, pos) == At(b, pos)
    ensures b[0].start <= a[0].start
  {
    AtBlock(a, 0, a[0].start);
    if a[0].start < b[0].start {
      AtBefore(b, a[0].start);
    }
  }

  lemma FirstBlockEnd(a: seq<Block>, b: seq<Block>)
    requires Separated(a) && Separated(b) && a != [] && b != [] && a[0].start == b[0].start
    requires forall pos :: At(a, pos) == At(b, pos)
    ensures a[0].End() <= b[0].End()
  {
    if b[0].End() < a[0].End() {
      AtBlock(a, 0, b[0].End());
      AtTail(b, b[0].End());
      AtBefore(b[1..], b[0].End());
    }
  }

  /** Every stored byte satisfies P at its position. */
  ghost predicate Holds(bs: seq<Block>, P: (int, Byte) -> bool) {
    forall i, k :: 0 <= i < |bs| && 0 <= k < |bs[i].data| ==> P(bs[i].start + k, bs[i].data[k])
  }

  /** Every byte of payload p at position n satisfies P. */
  ghost predicate Offers(n: int, p: seq<Byte>, P: (int, Byte) -> bool) {
    forall k :: 0 <= k < |p| ==> P(n + k, p[k])
  }

  lemma HoldsAt(bs: seq<Block>, P: (int, Byte) -> bool, pos: int)
    requires Holds(bs, P) && At(bs, pos).Some?
    ensures P(pos, At(bs, pos).value)
  {
    var i := AtSome(bs, pos);
    assert P(bs[i].start + (pos - bs[i].start), bs[i].data[pos - bs[i].start]);
  }

  lemma AtHolds(bs: seq<Block>, P: (int, Byte) -> bool)
    requires Separated(bs) && forall pos :: At(bs, pos).Some? ==> P(pos, At(bs, pos).value)
    ensures Holds(bs, P)
  {
    forall i, k | 0 <= i < |bs| && 0 <= k < |bs[i].data|
      ensures P(bs[i].start + k, bs[i].data[k])
    {
      AtBlock(bs, i, bs[i].start + k);
    }
  }

  /** All blocks end at or before len. */
  ghost predicate Within(bs: seq<Block>, len: nat) {
    forall i :: 0 <= i < |bs| ==> bs[i].End() <= len
  }

  /** Every position of [0, len) is held. */
  ghost predicate Full(bs: seq<Block>, len: nat) {
    forall pos :: 0 <= pos < len ==> At(bs, pos).Some?
  }

  /** In a separated list inside [0, len), fullness shows in the size of the first block alone. */
  lemma FullIsFirstBlock(bs: seq<Block>, len: nat)
    requires Separated(bs) && Within(bs, len) && len > 0
    ensures Full(bs, len) <==> bs != [] && |bs[0].data| >= len
    ensures Full(bs, len) ==> bs[0].start == 0 && |bs[0].data| == len && |bs| == 1
  {
    if bs != [] && |bs[0].data| >= len {
      assert bs[0].End() <= len;
      assert |bs| == 1 by {
        if |bs| > 1 {
          SeparatedOrder(bs, 1);
        }
      }
    }
    if Full(bs, len) {
      assert At(bs, 0).Some?;
      assert bs[0].start == 0 by {
        if bs[0].start > 0 {
          AtBefore(bs, 0);
        }
      }
      GapAfterFirst(bs);
      assert !(bs[0].End() < len) by {
        assert At(bs, bs[0].End()) == None;
      }
    }
  }

  lemma GapAfterFirst(bs: seq<Block>)
    requires Separated(bs) && bs != []
    ensures At(bs, bs[0].End()) == None
  {
    AtBefore(bs[1..], bs[0].End()) by {
      if |bs| > 1 {
        SeparatedOrder(bs, 1);
      }
    }
  }
}
