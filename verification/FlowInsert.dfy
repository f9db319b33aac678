/** What one call of `SniffTcp::insert` does to the block list of a flow, on values. */
module FlowInsert {
  import opened Blocks

  /** Place payload p at sequence number n. */
  function Insert(bs: seq<Block>, n: nat, p: seq<Byte>): seq<Block> {
    if bs == [] then [Block(n, p, true)]
    else
      var b, end := bs[0], n + |p|;
      if n < b.End() then
        if end == b.start then [Block(n, p + b.data, true)] + bs[1..]
        else if end < b.start then [Block(n, p, true)] + bs
        else bs
      else if n == b.End() then
        var grown := Block(b.start, b.data + p, true);
        if |bs| > 1 && grown.End() == bs[1].start then
          [Block(b.start, grown.data + bs[1].data, true)] + bs[2..]
        else [grown] + bs[1..]
      else [b] + Insert(bs[1..], n, p)
  }

  /** Where list node k stands after Insert(bs, n, p); None if the insertion merged it away. */
  function PlaceAfter(bs: seq<Block>, n: nat, p: seq<Byte>, k: nat): Option<nat> {
    if bs == [] then Some(k)
    else
      var b, end := bs[0], n + |p|;
      if n < b.End() then Some(if end < b.start then k + 1 else k)
      else if n == b.End() then
        if |bs| > 1 && end == bs[1].start then
          if k == 1 then None else Some(if k > 1 then k - 1 else k)
        else Some(k)
      else if k == 0 then Some(0)
      else match PlaceAfter(bs[1..], n, p, k - 1)
        case None => None
        case Some(m) => Some(m + 1)
  }

  /** Non-empty blocks with strictly increasing starts: all that arbitrary, overlapping segments leave true. */
  ghost predicate Rising(bs: seq<Block>) {
    && (forall i :: 0 <= i < |bs| ==> bs[i].data != [])
    && (forall i, j :: 0 <= i < j < |bs| ==> bs[i].start < bs[j].start)
  }

  lemma RisingCons(b: Block, rest: seq<Block>)
    requires Rising(rest) && b.data != [] && (rest != [] ==> b.start < rest[0].start)
    ensures Rising([b] + rest)
  {
    var bs := [b] + rest;
    forall i, j | 0 <= i < j < |bs|
      ensures bs[i].start < bs[j].start
    {
      assert bs[j] == rest[j - 1];
      if i > 0 {
        assert bs[i] == rest[i - 1];
      } else if j > 1 {
        assert rest[0].start < rest[j - 1].start;
      }
    }
  }

  /** For any segment at all, starts stay strictly increasing and no block is empty. */
  lemma {:induction false} InsertRising(bs: seq<Block>, n: nat, p: seq<Byte>)
    requires Rising(bs) && p != []
    ensures Rising(Insert(bs, n, p))
    ensures Insert(bs, n, p) != []
    ensures Insert(bs, n, p)[0].start == if bs != []
            && (n + |p| > bs[0].start || n >= bs[0].End()) then bs[0].start else n
  {
    if bs != [] {
      var b, end := bs[0], n + |p|;
      if n < b.End() {
        if end == b.start {
          RisingCons(Block(n, p + b.data, true), bs[1..]);
        } else if end < b.start {
          RisingCons(Block(n, p, true), bs);
        }
      } else if n == b.End() {
        var grown := Block(b.start, b.data + p, true);
        if |bs| > 1 && grown.End() == bs[1].start {
          RisingCons(Block(b.start, grown.data + bs[1].data, true), bs[2..]);
        } else {
          RisingCons(grown, bs[1..]);
        }
      } else {
        InsertRising(bs[1..], n, p);
        RisingCons(b, Insert(bs[1..], n, p));
      }
    }
  }

  /** For any segment at all, every stored byte was stored before or offered by the segment at that position. */
  lemma {:induction false} InsertHolds(bs: seq<Block>, n: nat, p: seq<Byte>, P: (int, Byte) -> bool)
    requires Holds(bs, P) && Offers(n, p, P)
    ensures Holds(Insert(bs, n, p), P)
  {
    if bs == [] {
    } else {
      var b, end := bs[0], n + |p|;
      BlockOffers(bs, P, 0);
      HoldsTail(bs, P);
      if n < b.End() {
        if end == b.start {
          OffersJoin(n, p, b.data, P);
          HoldsCons(Block(n, p + b.data, true), bs[1..], P);
        } else if end < b.start {
          HoldsCons(Block(n, p, true), bs, P);
        }
      } else if n == b.End() {
        OffersJoin(b.start, b.data, p, P);
        var grown := Block(b.start, b.data + p, true);
        if |bs| > 1 && grown.End() == bs[1].start {
          BlockOffers(bs, P, 1);
          OffersJoin(b.start, grown.data, bs[1].data, P);
          HoldsTail(bs[1..], P);
          assert bs[1..][1..] == bs[2..];
          HoldsCons(Block(b.start, grown.data + bs[1].data, true), bs[2..], P);
        } else {
          HoldsCons(grown, bs[1..], P);
        }
      } else {
        InsertHolds(bs[1..], n, p, P);
        HoldsCons(b, Insert(bs[1..], n, p), P);
      }
    }
  }

  lemma BlockOffers(bs: seq<Block>, P: (int, Byte) -> bool, i: nat)
    requires Holds(bs, P) && i < |bs|
    ensures Offers(bs[i].start, bs[i].data, P)
  {
  }

  lemma HoldsTail(bs: seq<Block>, P: (int, Byte) -> bool)
    requires Holds(bs, P) && bs != []
    ensures Holds(bs[1..], P)
  {
  }

  lemma HoldsCons(b: Block, rest: seq<Block>, P: (int, Byte) -> bool)
    requires Offers(b.start, b.data, P) && Holds(rest, P)
    ensures Holds([b] + rest, P)
  {
    var bs := [b] + rest;
    forall i, k | 0 <= i < |bs| && 0 <= k < |bs[i].data|
      ensures P(bs[i].start + k, bs[i].data[k])
    {
      if i > 0 {
        assert bs[i] == rest[i - 1];
      }
    }
  }

  lemma OffersJoin(n: int, p: seq<Byte>, q: seq<Byte>, P: (int, Byte) -> bool)
    requires Offers(n, p, P) && Offers(n + |p|, q, P)
    ensures Offers(n, p + q, P)
  {
    forall k | 0 <= k < |p + q|
      ensures P(n + k, (p + q)[k])
    {
      if k >= |p| {
        assert P(n + |p| + (k - |p|), q[k - |p|]);
      }
    }
  }

  // ---------- segments cut from one partition of the stream ----------

  datatype Segment = Segment(n: nat, p: seq<Byte>) {
    function End(): nat {
      n + |p|
    }

    predicate Covers(pos: int) {
      n <= pos < n + |p|
    }
  }

  /** One cell of the partition of stream S whose cut points are `cut`. */
  ghost predicate Cell(S: int -> Byte, cut: int -> bool, s: Segment) {
    && s.p != [] && cut(s.n) && cut(s.n + |s.p|)
    && (forall x :: s.n < x < s.n + |s.p| ==> !cut(x))
    && (forall k :: 0 <= k < |s.p| ==> s.p[k] == S(s.n + k))
  }

  ghost predicate OnCuts(cut: int -> bool, bs: seq<Block>) {
    forall i :: 0 <= i < |bs| ==> cut(bs[i].start) && cut(bs[i].End())
  }

  /** Separated blocks that start and end at cut points. */
  ghost predicate Tidy(cut: int -> bool, bs: seq<Block>) {
    Separated(bs) && OnCuts(cut, bs) && AllModified(bs)
  }

  lemma TidyTail(cut: int -> bool, bs: seq<Block>)
    requires Tidy(cut, bs) && bs != []
    ensures Tidy(cut, bs[1..]) && cut(bs[0].start) && cut(bs[0].End())
    ensures |bs| > 1 ==> bs[0].End() < bs[1].start && cut(bs[1].start) && cut(bs[1].End()) && bs[1..][1..] == bs[2..]
  {
  }

  lemma TidyCons(cut: int -> bool, b: Block, rest: seq<Block>)
    requires Tidy(cut, rest) && b.data != [] && b.modified && cut(b.start) && cut(b.End())
    requires rest != [] ==> b.End() < rest[0].start
    ensures Tidy(cut, [b] + rest)
  {
    SeparatedCons(b, rest);
  }

  lemma {:induction false} CellShape(S: int -> Byte, cut: int -> bool, bs: seq<Block>, s: Segment)
    requires Cell(S, cut, s) && Tidy(cut, bs)
    ensures var r := Insert(bs, s.n, s.p);
            Tidy(cut, r) && r != [] && (r[0].start == s.n || (bs != [] && r[0].start == bs[0].start))
  {
    var end := s.n + |s.p|;
    if bs == [] {
      TidyCons(cut, Block(s.n, s.p, true), []);
    } else {
      var b := bs[0];
      TidyTail(cut, bs);
      if s.n < b.End() {
        if end == b.start {
          TidyCons(cut, Block(s.n, s.p + b.data, true), bs[1..]);
        } else if end < b.start {
          TidyCons(cut, Block(s.n, s.p, true), bs);
        }
      } else if s.n == b.End() {
        var grown := Block(b.start, b.data + s.p, true);
        if |bs| > 1 && grown.End() == bs[1].start {
          TidyTail(cut, bs[1..]);
          TidyCons(cut, Block(b.start, grown.data + bs[1].data, true), bs[2..]);
        } else {
          TidyCons(cut, grown, bs[1..]);
        }
      } else {
        CellShape(S, cut, bs[1..], s);
        TidyCons(cut, b, Insert(bs[1..], s.n, s.p));
      }
    }
  }

  lemma {:induction false} CellAt(S: int -> Byte, cut: int -> bool, bs: seq<Block>, s: Segment, pos: int)
    requires Cell(S, cut, s) && Separated(bs) && OnCuts(cut, bs)
    requires At(bs, pos).Some? ==> At(bs, pos).value == S(pos)
    ensures At(Insert(bs, s.n, s.p), pos) == if s.Covers(pos) then Some(S(pos)) else At(bs, pos)
  {
    var r, end := Insert(bs, s.n, s.p), s.n + |s.p|;
    assert s.Covers(pos) ==> s.p[pos - s.n] == S(s.n + (pos - s.n));
    if bs == [] {
      AtCons(Block(s.n, s.p, true), [], pos);
    } else {
      var b := bs[0];
      assert cut(b.start) && cut(b.End());
      if s.n < b.End() {
        if end == b.start {
          AtCons(Block(s.n, s.p + b.data, true), bs[1..], pos);
        } else if end < b.start {
          AtCons(Block(s.n, s.p, true), bs, pos);
        } else {
          assert b.start <= s.n && end <= b.End();
        }
      } else if s.n == b.End() {
        CellAtEnd(S, cut, bs, s, pos);
      } else {
        AtCons(b, Insert(bs[1..], s.n, s.p), pos);
        AtTail(bs, pos);
        if !b.Covers(pos) {
          CellAt(S, cut, bs[1..], s, pos);
        }
      }
    }
  }

  lemma CellAtEnd(S: int -> Byte, cut: int -> bool, bs: seq<Block>, s: Segment, pos: int)
    requires Cell(S, cut, s) && Separated(bs) && OnCuts(cut, bs) && bs != [] && s.n == bs[0].End()
    requires s.Covers(pos) ==> s.p[pos - s.n] == S(pos)
    ensures At(Insert(bs, s.n, s.p), pos) == if s.Covers(pos) then Some(S(pos)) else At(bs, pos)
  {
    var b := bs[0];
    var grown := Block(b.start, b.data + s.p, true);
    if |bs| > 1 && grown.End() == bs[1].start {
      var joined := Block(b.start, grown.data + bs[1].data, true);
      AtCons(joined, bs[2..], pos);
      assert bs[1..][1..] == bs[2..];
      AtTail(bs, pos);
      if joined.Covers(pos) && pos >= grown.End() {
        assert joined.data[pos - b.start] == bs[1].data[pos - bs[1].start];
      }
    } else {
      AtCons(grown, bs[1..], pos);
    }
  }

  /** The list after inserting the segments in order. */
  function InsertAll(ss: seq<Segment>): seq<Block> {
    if ss == [] then [] else Insert(InsertAll(ss[..|ss| - 1]), ss[|ss| - 1].n, ss[|ss| - 1].p)
  }

  ghost predicate Received(ss: seq<Segment>, pos: int) {
    exists s :: s in ss && s.Covers(pos)
  }

  ghost predicate Cells(S: int -> Byte, cut: int -> bool, ss: seq<Segment>) {
    forall s :: s in ss ==> Cell(S, cut, s)
  }

  /** After any sequence of cells the list is separated and holds exactly the received positions of the stream. */
  lemma {:induction false} InsertAllExact(S: int -> Byte, cut: int -> bool, ss: seq<Segment>)
    requires Cells(S, cut, ss)
    ensures var r := InsertAll(ss);
            && Separated(r) && OnCuts(cut, r) && AllModified(r)
            && forall pos :: At(r, pos) == if Received(ss, pos) then Some(S(pos)) else None
  {
    if ss != [] {
      var init, last := ss[..|ss| - 1], ss[|ss| - 1];
      assert ss == init + [last];
      InsertAllExact(S, cut, init);
      CellShape(S, cut, InsertAll(init), last);
      forall pos
        ensures At(InsertAll(ss), pos) == if Received(ss, pos) then Some(S(pos)) else None
      {
        CellAt(S, cut, InsertAll(init), last, pos);
        assert Received(ss, pos) <==> Received(init, pos) || last.Covers(pos);
      }
    }
  }

  /** The block list depends only on which positions were received: not on order, repeats or how often. */
  lemma InsertIsCanonical(S: int -> Byte, cut: int -> bool, ss: seq<Segment>, tt: seq<Segment>)
    requires Cells(S, cut, ss) && Cells(S, cut, tt)
    requires forall pos :: Received(ss, pos) <==> Received(tt, pos)
    ensures InsertAll(ss) == InsertAll(tt)
  {
    InsertAllExact(S, cut, ss);
    InsertAllExact(S, cut, tt);
    CanonicalIsUnique(InsertAll(ss), InsertAll(tt));
  }

  /** In particular any rearrangement, with any repeats, gives the same list. */
  lemma ArrivalOrderIrrelevant(S: int -> Byte, cut: int -> bool, ss: seq<Segment>, tt: seq<Segment>)
    requires Cells(S, cut, ss) && (forall s :: s in ss <==> s in tt)
    ensures InsertAll(ss) == InsertAll(tt)
  {
    InsertIsCanonical(S, cut, ss, tt);
  }

  /** Without a common partition the list does depend on order: overlapping segments can be dropped. */
  lemma OverlapDependsOnOrder()
    ensures var a, b := Segment(0, [1, 2]), Segment(1, [2, 3]);
            InsertAll([a, b]) != InsertAll([b, a])
  {
    var a, b := Segment(0, [1, 2]), Segment(1, [2, 3]);
    assert [a, b][..1] == [a] && [b, a][..1] == [b] && [a][..0] == [] && [b][..0] == [];
    assert InsertAll([a]) == Insert(InsertAll([]), 0, [1, 2]) == [Block(0, [1, 2], true)];
    assert InsertAll([b]) == Insert(InsertAll([]), 1, [2, 3]) == [Block(1, [2, 3], true)];
    assert InsertAll([a, b]) == [Block(0, [1, 2], true)];
    assert InsertAll([b, a]) == [Block(1, [2, 3], true)];
  }

  /** Two segments that are the same or do not overlap. */
  predicate Compatible(s: Segment, t: Segment) {
    s == t || s.n + |s.p| <= t.n || t.n + |t.p| <= s.n
  }

  /** The stream that the segments spell; 0 where there is none. */
  ghost function Spelled(ss: seq<Segment>, pos: int): Byte {
    if s :| s in ss && s.Covers(pos) then s.p[pos - s.n] else 0
  }

  /** The ends of the segments. */
  ghost predicate IsEnd(ss: seq<Segment>, pos: int) {
    exists s :: s in ss && (pos == s.n || pos == s.n + |s.p|)
  }

  ghost predicate AllCompatible(ss: seq<Segment>) {
    && (forall s :: s in ss ==> s.p != [])
    && forall s, t :: s in ss && t in ss ==> Compatible(s, t)
  }

  lemma SpelledAt(ss: seq<Segment>, s: Segment, k: nat)
    requires AllCompatible(ss) && s in ss && k < |s.p|
    ensures Spelled(ss, s.n + k) == s.p[k]
  {
    assert s.Covers(s.n + k);
    var t :| t in ss && t.Covers(s.n + k) && Spelled(ss, s.n + k) == t.p[s.n + k - t.n];
    assert Compatible(s, t);
  }

  lemma NoEndInside(ss: seq<Segment>, s: Segment, x: int)
    requires AllCompatible(ss) && s in ss && s.n < x < s.n + |s.p|
    ensures !IsEnd(ss, x)
  {
    forall t | t in ss
      ensures x != t.n && x != t.n + |t.p|
    {
      assert Compatible(s, t) && t.p != [];
    }
  }

  /** Compatible segments are cells of one partition, the one that their own ends make. */
  lemma CompatibleCells(ss: seq<Segment>)
    requires AllCompatible(ss)
    ensures Cells(pos => Spelled(ss, pos), pos => IsEnd(ss, pos), ss)
  {
    hide Spelled;
    forall s | s in ss
      ensures Cell(pos => Spelled(ss, pos), pos => IsEnd(ss, pos), s)
    {
      forall k: nat | k < |s.p|
        ensures Spelled(ss, s.n + k) == s.p[k]
      {
        SpelledAt(ss, s, k);
      }
      forall x | s.n < x < s.n + |s.p|
        ensures !IsEnd(ss, x)
      {
        NoEndInside(ss, s, x);
      }
    }
  }

  /** Segments of which no two overlap in part give one list, in whatever order and however often they come. */
  lemma CompatibleOrderIrrelevant(ss: seq<Segment>, tt: seq<Segment>)
    requires AllCompatible(ss) && forall s :: s in ss <==> s in tt
    ensures InsertAll(ss) == InsertAll(tt)
  {
    CompatibleCells(ss);
    ArrivalOrderIrrelevant(pos => Spelled(ss, pos), pos => IsEnd(ss, pos), ss, tt);
  }

  /** For two segments that is exact: order matters if and only if they overlap and differ. */
  lemma OrderIrrelevantIff(s: Segment, t: Segment)
    requires s.p != [] && t.p != []
    ensures InsertAll([s, t]) == InsertAll([t, s]) <==> Compatible(s, t)
  {
    if Compatible(s, t) {
      CompatibleOrderIrrelevant([s, t], [t, s]);
    } else {
      InsertTwo(s, t);
      InsertTwo(t, s);
    }
  }

  lemma InsertTwo(s: Segment, t: Segment)
    requires s.p != [] && t.p != [] && !Compatible(s, t)
    ensures InsertAll([s, t]) == [Block(s.n, s.p, true)]
  {
    assert [s, t][..1] == [s] && [s][..0] == [];
    assert InsertAll([s]) == [Block(s.n, s.p, true)];
  }
}
