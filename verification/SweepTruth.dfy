/** When a sweep leaves a flow's list true to the stream. */
module SweepTruth {
  import opened Blocks
  import opened Grep

  ghost function StreamTest(S: int -> Byte): (int, Byte) -> bool {
    (pos, b) => b == S(pos)
  }

  lemma HoldsJoin(a: seq<Block>, b: seq<Block>, P: (int, Byte) -> bool)
    ensures Holds(a + b, P) <==> Holds(a, P) && Holds(b, P)
  {
    var c := a + b;
    if Holds(c, P) {
      forall i, k | 0 <= i < |a| && 0 <= k < |a[i].data|
        ensures P(a[i].start + k, a[i].data[k])
      {
        assert c[i] == a[i];
      }
      forall i, k | 0 <= i < |b| && 0 <= k < |b[i].data|
        ensures P(b[i].start + k, b[i].data[k])
      {
        assert c[|a| + i] == b[i];
      }
    }
  }

  lemma {:induction false} KeptJoin(a: seq<Part>, b: seq<Part>)
    ensures KeptBlocks(a + b) == KeptBlocks(a) + KeptBlocks(b)
  {
    if a == [] {
      assert a + b == b;
    } else {
      var x, t := if a[0].Kept? then [a[0].block] else [], KeptBlocks(a[1..]);
      assert (a + b)[0] == a[0] && (a + b)[1..] == a[1..] + b;
      KeptJoin(a[1..], b);
      assert x + (t + KeptBlocks(b)) == (x + t) + KeptBlocks(b);
    }
  }

  lemma CutoutKept(b: Block, r: Found, stray: int -> Byte)
    requires r.Record? && r.at + r.size <= |b.data|
    ensures KeptBlocks(Cutout(b, r, stray)) == if r.at == 0 then [] else [Stray(b.start, r.at, stray)]
  {
    var c := Cutout(b, r, stray);
    assert KeptBlocks([]) == [];
    if r.at == 0 {
      assert c[1..] == [];
    } else {
      assert c[1..][1..] == [];
    }
  }

  /** Splitting off what one grep call takes. */
  lemma LeftStep(b: Block, stray: int -> Byte)
    requires b.modified && b.data != [] && Scan(b.data, 0).Record?
    ensures (ScanInside(b.data, 0);
             var r := Scan(b.data, 0);
             Left(SweepBlock(b, stray))
             == (if r.at == 0 then [] else [Stray(b.start, r.at, stray)]) + Left(SweepBlock(Behind(b, r), stray)))
  {
    ScanInside(b.data, 0);
    var r := Scan(b.data, 0);
    CutoutKept(b, r, stray);
    KeptJoin(Cutout(b, r, stray), SweepBlock(Behind(b, r), stray).parts);
  }

  /** With records only at the front, what a sweep leaves are the block's own last bytes. */
  lemma {:induction false} FrontCutsLeave(b: Block, stray: int -> Byte)
    requires OnlyFrontCuts(b)
    ensures SweepBlock(b, stray).rest.data == [] ==> Left(SweepBlock(b, stray)) == []
    ensures SweepBlock(b, stray).rest.data != [] ==> Left(SweepBlock(b, stray)) == [SweepBlock(b, stray).rest]
    decreases |b.data|
  {
    if b.modified && b.data != [] && Scan(b.data, 0).Record? {
      ScanInside(b.data, 0);
      FrontCutsLeave(Behind(b, Scan(b.data, 0)), stray);
      LeftStep(b, stray);
    }
  }

  /** A record found behind other bytes leaves a block whose bytes are the stray memory. */
  lemma {:induction false} InsideCutStrays(b: Block, stray: int -> Byte) returns (i: nat)
    requires !OnlyFrontCuts(b)
    ensures var left := Left(SweepBlock(b, stray));
            i < |left| && left[i].data != [] && left[i].data[0] == stray(left[i].start)
    decreases |b.data|
  {
    ScanInside(b.data, 0);
    var r := Scan(b.data, 0);
    LeftStep(b, stray);
    if r.at > 0 {
      i := 0;
      assert Left(SweepBlock(b, stray))[0] == Stray(b.start, r.at, stray);
    } else {
      assert Left(SweepBlock(b, stray)) == Left(SweepBlock(Behind(b, r), stray));
      i := InsideCutStrays(Behind(b, r), stray);
    }
  }

  /** The exact condition for a sweep to keep the block's list true to the stream: no record is found behind other
      bytes. Whether it is so does not depend on the memory contents the cast pointer happens to read. */
  lemma SweepTruthIff(S: int -> Byte, b: Block)
    requires Holds([b], StreamTest(S))
    ensures OnlyFrontCuts(b) <==> forall stray: int -> Byte :: Holds(Left(SweepBlock(b, stray)), StreamTest(S))
  {
    if OnlyFrontCuts(b) {
      forall stray: int -> Byte
        ensures Holds(Left(SweepBlock(b, stray)), StreamTest(S))
      {
        FrontCutsLeave(b, stray);
        RestHolds(b, stray, StreamTest(S));
      }
    } else {
      var wrong: int -> Byte := pos => if S(pos) == 0 then 1 else 0;
      var i := InsideCutStrays(b, wrong);
      var left := Left(SweepBlock(b, wrong));
      assert !StreamTest(S)(left[i].start + 0, left[i].data[0]);
    }
  }

  lemma RestHolds(b: Block, stray: int -> Byte, P: (int, Byte) -> bool)
    requires Holds([b], P)
    ensures Holds([SweepBlock(b, stray).rest], P)
  {
    SweepRest(b, stray);
    var rest := SweepBlock(b, stray).rest;
    SuffixHolds(b, rest.start - b.start, rest, P);
  }

  lemma SuffixHolds(b: Block, skip: nat, rest: Block, P: (int, Byte) -> bool)
    requires Holds([b], P) && skip <= |b.data| && rest.start == b.start + skip && rest.data == b.data[skip..]
    ensures Holds([rest], P)
  {
    assert [b][0] == b;
    forall k | 0 <= k < |rest.data|
      ensures P(rest.start + k, rest.data[k])
    {
      assert P([b][0].start + (skip + k), [b][0].data[skip + k]);
    }
  }

  // ---------- positions ----------

  /** Where P accepts every byte at the positions read from memory, what a sweep leaves of the block is as P asks. */
  lemma {:induction false} SweptHolds(P: (int, Byte) -> bool, b: Block, stray: int -> Byte)
    requires Holds([b], P) && forall pos, x :: StrayAt(b, pos) ==> P(pos, x)
    ensures Holds(Left(SweepBlock(b, stray)), P)
    decreases |b.data|
  {
    if b.modified && b.data != [] && Scan(b.data, 0).Record? {
      ScanInside(b.data, 0);
      var r := Scan(b.data, 0);
      SuffixHolds(b, r.at + r.size, Behind(b, r), P);
      forall pos, x | StrayAt(Behind(b, r), pos)
        ensures P(pos, x)
      {
        assert StrayAt(b, pos);
      }
      SweptHolds(P, Behind(b, r), stray);
      LeftStep(b, stray);
      var front := if r.at == 0 then [] else [Stray(b.start, r.at, stray)];
      forall i, k | 0 <= i < |front| && 0 <= k < |front[i].data|
        ensures P(front[i].start + k, front[i].data[k])
      {
        assert StrayAt(b, b.start + k);
      }
      HoldsJoin(front, Left(SweepBlock(Behind(b, r), stray)), P);
    } else {
      RestHolds(b, stray, P);
    }
  }

  /** Position pos of some block of the list is read from memory. */
  ghost predicate ListStray(bs: seq<Block>, pos: int) {
    exists i :: 0 <= i < |bs| && StrayAt(bs[i], pos)
  }

  lemma {:induction false} SweptListHolds(P: (int, Byte) -> bool, bs: seq<Block>, stray: (nat, int) -> Byte, i: nat)
    requires Holds(bs, P) && i <= |bs| && forall pos, x :: ListStray(bs, pos) ==> P(pos, x)
    ensures Holds(SweepFrom(bs, stray, i), P)
    decreases |bs| - i
  {
    hide SweepBlock, Left, StrayAt;
    if i < |bs| {
      SweptListHolds(P, bs, stray, i + 1);
      HoldsOne(bs, i, P);
      forall pos, x | StrayAt(bs[i], pos)
        ensures P(pos, x)
      {
        assert ListStray(bs, pos);
      }
      SweptHolds(P, bs[i], OfNode(stray, i));
      HoldsJoin(Left(SweepBlock(bs[i], OfNode(stray, i))), SweepFrom(bs, stray, i + 1), P);
    }
  }

  /** What a sweep leaves counts as searched: the next sweep reads nothing from memory. */
  lemma {:induction false} LeftSearched(b: Block, stray: int -> Byte)
    ensures forall i :: 0 <= i < |Left(SweepBlock(b, stray))| ==> !Left(SweepBlock(b, stray))[i].modified
    decreases |b.data|
  {
    if b.modified && b.data != [] && Scan(b.data, 0).Record? {
      ScanInside(b.data, 0);
      LeftSearched(Behind(b, Scan(b.data, 0)), stray);
      LeftStep(b, stray);
    } else {
      assert KeptBlocks([]) == [];
    }
  }

  lemma {:induction false} SweptSearched(bs: seq<Block>, stray: (nat, int) -> Byte, i: nat)
    requires i <= |bs|
    ensures forall k :: 0 <= k < |SweepFrom(bs, stray, i)| ==> !SweepFrom(bs, stray, i)[k].modified
    decreases |bs| - i
  {
    hide SweepBlock, Left;
    if i < |bs| {
      SweptSearched(bs, stray, i + 1);
      LeftSearched(bs[i], OfNode(stray, i));
    }
  }

  // ---------- lists ----------

  ghost predicate CleanList(bs: seq<Block>) {
    forall i :: 0 <= i < |bs| ==> OnlyFrontCuts(bs[i])
  }

  lemma HoldsOne(bs: seq<Block>, i: nat, P: (int, Byte) -> bool)
    requires Holds(bs, P) && i < |bs|
    ensures Holds([bs[i]], P)
  {
    var one := [bs[i]];
    forall m, k | 0 <= m < |one| && 0 <= k < |one[m].data|
      ensures P(one[m].start + k, one[m].data[k])
    {
      assert P(bs[i].start + k, bs[i].data[k]);
    }
  }

  lemma {:induction false} CleanListHolds(P: (int, Byte) -> bool, bs: seq<Block>, stray: (nat, int) -> Byte, i: nat)
    requires Holds(bs, P) && CleanList(bs) && i <= |bs|
    ensures Holds(SweepFrom(bs, stray, i), P)
    decreases |bs| - i
  {
    hide SweepBlock, Left, OnlyFrontCuts;
    if i < |bs| {
      CleanListHolds(P, bs, stray, i + 1);
      HoldsOne(bs, i, P);
      FrontCutsLeave(bs[i], OfNode(stray, i));
      RestHolds(bs[i], OfNode(stray, i), P);
      HoldsJoin(Left(SweepBlock(bs[i], OfNode(stray, i))), SweepFrom(bs, stray, i + 1), P);
    }
  }

  /** Memory contents that differ from what P asks for at every position. */
  ghost predicate Lies(lies: int -> Byte, P: (int, Byte) -> bool) {
    forall pos :: !P(pos, lies(pos))
  }

  /** In a list that is not clean, memory contents that lie everywhere leave a lie in the list. */
  lemma {:induction false} ListLie(P: (int, Byte) -> bool, bs: seq<Block>, stray: (nat, int) -> Byte, i: nat)
    requires i <= |bs| && exists j :: i <= j < |bs| && !OnlyFrontCuts(bs[j])
    requires forall k: nat :: Lies(OfNode(stray, k), P)
    ensures !Holds(SweepFrom(bs, stray, i), P)
    decreases |bs| - i
  {
    hide SweepBlock, Left, OnlyFrontCuts;
    var one := OfNode(stray, i);
    HoldsJoin(Left(SweepBlock(bs[i], one)), SweepFrom(bs, stray, i + 1), P);
    if OnlyFrontCuts(bs[i]) {
      ListLie(P, bs, stray, i + 1);
    } else {
      var k := InsideCutStrays(bs[i], one);
      var left := Left(SweepBlock(bs[i], one));
      assert Lies(one, P);
      assert !P(left[k].start + 0, left[k].data[0]);
    }
  }

  /**
   * The exact condition for a flow's list: every sweep keeps it true, for all memory contents, if and only if it is
   * clean.
   */
  lemma CleanListIff(S: int -> Byte, bs: seq<Block>)
    requires Holds(bs, StreamTest(S))
    ensures CleanList(bs) <==> forall stray: (nat, int) -> Byte :: Holds(SweepFrom(bs, stray, 0), StreamTest(S))
  {
    hide Holds, SweepFrom, OnlyFrontCuts;
    if CleanList(bs) {
      forall stray: (nat, int) -> Byte
        ensures Holds(SweepFrom(bs, stray, 0), StreamTest(S))
      {
        CleanListHolds(StreamTest(S), bs, stray, 0);
      }
    } else {
      var wrong: (nat, int) -> Byte := (i, pos) => if S(pos) == 0 then 1 else 0;
      forall k: nat
        ensures Lies(OfNode(wrong, k), StreamTest(S))
      {
      }
      ListLie(StreamTest(S), bs, wrong, 0);
    }
  }
}
