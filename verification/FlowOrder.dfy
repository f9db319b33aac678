/** For which segments the block list of a flow does not depend on the order in which they arrive. */
module FlowOrder {
  import opened Blocks
  import opened FlowInsert

  ghost predicate SameSegments(ss: seq<Segment>, tt: seq<Segment>) {
    forall s :: s in ss <==> s in tt
  }

  ghost predicate NonEmpty(ss: seq<Segment>) {
    forall s :: s in ss ==> s.p != []
  }

  /** Whatever the order, and however often each segment comes, the list is the same. */
  ghost predicate OrderFree(ss: seq<Segment>) {
    forall tt :: SameSegments(ss, tt) ==> InsertAll(tt) == InsertAll(ss)
  }

  // ---------- one segment on a separated list ----------

  /** The segment overlaps some block, and no block ends where it starts. */
  ghost predicate Refused(bs: seq<Block>, n: nat, p: seq<Byte>) {
    && (exists i :: 0 <= i < |bs| && bs[i].start < n + |p| && n < bs[i].End())
    && forall i :: 0 <= i < |bs| ==> bs[i].End() != n
  }

  /** A segment is dropped as a whole or stored as a whole, and it is dropped exactly if it is refused. */
  lemma {:induction false} StoredOrRefused(bs: seq<Block>, n: nat, p: seq<Byte>)
    requires Separated(bs) && p != []
    ensures Refused(bs, n, p) ==> Insert(bs, n, p) == bs
    ensures !Refused(bs, n, p) ==>
              && Insert(bs, n, p) != bs && Kept(Insert(bs, n, p), Block(n, p, true))
  {
    hide Inside, Kept, Refused, Separated;
    var r, s := Insert(bs, n, p), Block(n, p, true);
    InsideItself(s);
    if bs == [] {
      RefusedByNone(n, p);
      KeptBlock(r, 0, s);
    } else {
      var b, rest := bs[0], bs[1..];
      SeparatedRest(bs);
      if n < b.End() {
        RefusedFirst(bs, n, p);
        if n + |p| <= b.start {
          InsideGrown(s, s, [], if n + |p| == b.start then b.data else [], r[0]);
          KeptBlock(r, 0, s);
          assert r[0].start == n < b.start;
        }
      } else if n == b.End() {
        NotRefusedBehind(bs, n, p, 0);
        InsideGrown(s, s, b.data, r[0].data[|b.data| + |p|..], r[0]);
        KeptBlock(r, 0, s);
        assert |r[0].data| > |b.data|;
      } else {
        StoredOrRefused(rest, n, p);
        RefusedRest(bs, n, p);
        assert r[1..] == Insert(rest, n, p);
        if !Refused(rest, n, p) {
          var j := KeptAtSome(r[1..], s);
          assert r[j + 1] == r[1..][j];
          KeptBlock(r, j + 1, s);
        }
      }
    }
  }

  lemma RefusedByNone(n: nat, p: seq<Byte>)
    ensures !Refused([], n, p)
  {
  }

  lemma NotRefusedBehind(bs: seq<Block>, n: nat, p: seq<Byte>, i: nat)
    requires i < |bs| && bs[i].End() == n
    ensures !Refused(bs, n, p)
  {
  }

  lemma RefusedFirst(bs: seq<Block>, n: nat, p: seq<Byte>)
    requires Separated(bs) && bs != [] && n < bs[0].End() && p != []
    ensures Refused(bs, n, p) <==> bs[0].start < n + |p|
  {
    forall i | 0 < i < |bs|
      ensures bs[0].End() < bs[i].start < bs[i].End()
    {
      SeparatedOrder(bs, i);
      assert bs[i].data != [];
    }
  }

  lemma RefusedRest(bs: seq<Block>, n: nat, p: seq<Byte>)
    requires bs != [] && n > bs[0].End()
    ensures Refused(bs, n, p) <==> Refused(bs[1..], n, p)
  {
    var rest := bs[1..];
    assert forall i :: 0 < i < |bs| ==> bs[i] == rest[i - 1];
    if Refused(bs, n, p) {
      var i :| 0 <= i < |bs| && bs[i].start < n + |p| && n < bs[i].End();
      assert rest[i - 1] == bs[i];
    }
    if Refused(rest, n, p) {
      var i :| 0 <= i < |rest| && rest[i].start < n + |p| && n < rest[i].End();
      assert rest[i] == bs[i + 1];
    }
  }

  // ---------- the condition ----------

  ghost predicate StartsAt(ss: seq<Segment>, pos: int) {
    exists s :: s in ss && s.n == pos
  }

  ghost predicate EndsAt(ss: seq<Segment>, pos: int) {
    exists s :: s in ss && s.End() == pos
  }

  /** Some segment starts or ends strictly inside s. */
  ghost predicate Compound(ss: seq<Segment>, s: Segment) {
    exists x :: s.n < x < s.End() && IsEnd(ss, x)
  }

  /** Segments have the same bytes where they overlap. */
  ghost predicate Agree(ss: seq<Segment>) {
    forall s, t, pos :: s in ss && t in ss && s.Covers(pos) && t.Covers(pos) ==> s.p[pos - s.n] == t.p[pos - t.n]
  }

  /** Segments that are not compound cover all of s. */
  ghost predicate Tiled(ss: seq<Segment>, s: Segment) {
    forall pos :: s.Covers(pos) ==> exists c :: c in ss && c.Covers(pos) && !Compound(ss, c)
  }

  /** Overlaps agree, and every compound segment also comes in pieces and is never the continuation of another one. */
  ghost predicate Resolvable(ss: seq<Segment>) {
    && Agree(ss)
    && forall s :: s in ss && Compound(ss, s) ==> !EndsAt(ss, s.n) && Tiled(ss, s)
  }

  // ---------- resolvable segments can come in any order ----------

  ghost function Cuts(ss: seq<Segment>): int -> bool {
    pos => IsEnd(ss, pos)
  }

  ghost function Stream(ss: seq<Segment>): int -> Byte {
    pos => Spelled(ss, pos)
  }

  ghost function OfStream(ss: seq<Segment>): (int, Byte) -> bool {
    (pos, b) => Received(ss, pos) && b == Spelled(ss, pos)
  }

  ghost function IsSegmentEnd(ss: seq<Segment>): int -> bool {
    pos => EndsAt(ss, pos)
  }

  ghost predicate BlocksEnd(bs: seq<Block>, P: int -> bool) {
    forall i :: 0 <= i < |bs| ==> P(bs[i].End())
  }

  /** Every block ends where one ended before, or where the segment ends. */
  lemma {:induction false} InsertEnds(bs: seq<Block>, n: nat, p: seq<Byte>, P: int -> bool)
    requires BlocksEnd(bs, P) && P(n + |p|)
    ensures BlocksEnd(Insert(bs, n, p), P)
  {
    if bs != [] && n > bs[0].End() {
      InsertEnds(bs[1..], n, p, P);
    }
  }

  lemma AgreeSpelled(ss: seq<Segment>, s: Segment, pos: int)
    requires Agree(ss) && s in ss && s.Covers(pos)
    ensures Received(ss, pos) && Spelled(ss, pos) == s.p[pos - s.n]
  {
    var t :| t in ss && t.Covers(pos) && Spelled(ss, pos) == t.p[pos - t.n];
  }

  lemma OffersStream(ss: seq<Segment>, s: Segment)
    requires Agree(ss) && s in ss
    ensures Offers(s.n, s.p, OfStream(ss))
  {
    hide Spelled, Agree, Received;
    forall k | 0 <= k < |s.p|
      ensures OfStream(ss)(s.n + k, s.p[k])
    {
      AgreeSpelled(ss, s, s.n + k);
    }
  }

  lemma SimpleIsCell(ss: seq<Segment>, s: Segment)
    requires Agree(ss) && NonEmpty(ss) && s in ss && !Compound(ss, s)
    ensures Cell(Stream(ss), Cuts(ss), s)
  {
    hide Spelled, Agree;
    forall k | 0 <= k < |s.p|
      ensures s.p[k] == Stream(ss)(s.n + k)
    {
      AgreeSpelled(ss, s, s.n + k);
    }
    assert s.n + |s.p| == s.End();
  }

  /** A segment that continues no block is dropped, put in front of one, or becomes one. */
  lemma {:induction false} UnjoinedShape(cut: int -> bool, bs: seq<Block>, s: Segment)
    requires Tidy(cut, bs) && s.p != [] && cut(s.n) && cut(s.End())
    requires forall i :: 0 <= i < |bs| ==> bs[i].End() != s.n
    ensures var r := Insert(bs, s.n, s.p);
            Tidy(cut, r) && r != [] && (r[0].start == s.n || (bs != [] && r[0].start == bs[0].start))
  {
    if bs == [] {
      TidyCons(cut, Block(s.n, s.p, true), []);
    } else {
      var b := bs[0];
      TidyTail(cut, bs);
      if s.n < b.End() {
        if s.End() == b.start {
          TidyCons(cut, Block(s.n, s.p + b.data, true), bs[1..]);
        } else if s.End() < b.start {
          TidyCons(cut, Block(s.n, s.p, true), bs);
        }
      } else {
        assert forall i :: 0 <= i < |bs[1..]| ==> bs[1..][i] == bs[i + 1];
        UnjoinedShape(cut, bs[1..], s);
        TidyCons(cut, b, Insert(bs[1..], s.n, s.p));
      }
    }
  }

  /** The list is canonical so far: separated blocks of the stream, each ending where a segment does. */
  ghost predicate Sane(ss: seq<Segment>, bs: seq<Block>) {
    Tidy(Cuts(ss), bs) && BlocksEnd(bs, IsSegmentEnd(ss)) && Holds(bs, OfStream(ss))
  }

  lemma SaneInsert(ss: seq<Segment>, bs: seq<Block>, s: Segment)
    requires NonEmpty(ss) && Resolvable(ss) && Sane(ss, bs) && s in ss
    ensures Sane(ss, Insert(bs, s.n, s.p))
    ensures !Compound(ss, s) ==> forall pos :: s.Covers(pos) ==> At(Insert(bs, s.n, s.p), pos).Some?
  {
    hide Spelled, Received, Agree, Compound, Tiled, At, Tidy, Holds;
    OffersStream(ss, s);
    InsertHolds(bs, s.n, s.p, OfStream(ss));
    assert EndsAt(ss, s.n + |s.p|) by {
      assert s.End() == s.n + |s.p|;
    }
    InsertEnds(bs, s.n, s.p, IsSegmentEnd(ss));
    if Compound(ss, s) {
      forall i | 0 <= i < |bs|
        ensures bs[i].End() != s.n
      {
        assert IsSegmentEnd(ss)(bs[i].End());
      }
      UnjoinedShape(Cuts(ss), bs, s);
    } else {
      SimpleIsCell(ss, s);
      CellShape(Stream(ss), Cuts(ss), bs, s);
      forall pos | s.Covers(pos)
        ensures At(Insert(bs, s.n, s.p), pos).Some?
      {
        StreamAt(ss, bs, pos);
        CellAt(Stream(ss), Cuts(ss), bs, s, pos);
      }
    }
  }

  lemma StreamAt(ss: seq<Segment>, bs: seq<Block>, pos: int)
    requires Tidy(Cuts(ss), bs) && Holds(bs, OfStream(ss))
    ensures Separated(bs) && OnCuts(Cuts(ss), bs)
    ensures At(bs, pos).Some? ==> Received(ss, pos) && At(bs, pos).value == Stream(ss)(pos)
  {
    hide Spelled, Received;
    if At(bs, pos).Some? {
      HoldsAt(bs, OfStream(ss), pos);
    }
  }

  /** Once covered, a position stays covered. */
  lemma CoveredStays(bs: seq<Block>, n: nat, p: seq<Byte>, pos: int)
    requires At(bs, pos).Some?
    ensures At(Insert(bs, n, p), pos).Some?
  {
    hide Insert, At, Inside;
    var i := AtSome(bs, pos);
    InsideItself(bs[i]);
    InsertKeeps(bs, n, p, bs[i], i);
    var r := Insert(bs, n, p);
    var j :| 0 <= j < |r| && Inside(bs[i], r[j]);
    InsideCovers(bs[i], r[j], pos);
    if At(r, pos).None? {
      AtNone(r, pos, j);
    }
  }

  lemma SaneNone(ss: seq<Segment>)
    ensures Sane(ss, [])
  {
  }

  /** Any run of segments, in any order: the list is sane, and what is not compound has been stored. */
  lemma {:induction false} SaneAll(ss: seq<Segment>, tt: seq<Segment>)
    requires NonEmpty(ss) && Resolvable(ss) && forall s :: s in tt ==> s in ss
    ensures Sane(ss, InsertAll(tt))
    ensures forall c, pos :: c in tt && !Compound(ss, c) && c.Covers(pos) ==> At(InsertAll(tt), pos).Some?
    decreases |tt|
  {
    hide Resolvable, Compound, At, Insert, Tidy, NonEmpty, Spelled, Received;
    if tt == [] {
      SaneNone(ss);
    } else {
      var init, last := tt[..|tt| - 1], tt[|tt| - 1];
      assert tt == init + [last];
      SaneAll(ss, init);
      var bs := InsertAll(init);
      SaneInsert(ss, bs, last);
      forall c, pos | c in tt && !Compound(ss, c) && c.Covers(pos)
        ensures At(InsertAll(tt), pos).Some?
      {
        if c in init {
          CoveredStays(bs, last.n, last.p, pos);
        }
      }
    }
  }

  lemma ResolvableView(ss: seq<Segment>, tt: seq<Segment>, pos: int)
    requires NonEmpty(ss) && Resolvable(ss) && SameSegments(ss, tt)
    ensures Separated(InsertAll(tt)) && AllModified(InsertAll(tt))
    ensures At(InsertAll(tt), pos) == if Received(ss, pos) then Some(Spelled(ss, pos)) else None
  {
    hide Spelled, Compound, At, InsertAll, Agree, NonEmpty, Holds;
    SaneAll(ss, tt);
    StreamAt(ss, InsertAll(tt), pos);
    if Received(ss, pos) {
      var s :| s in ss && s.Covers(pos);
      var c :| c in ss && c.Covers(pos) && !Compound(ss, c);
      assert At(InsertAll(tt), pos).Some?;
    }
  }

  lemma ResolvableIsFree(ss: seq<Segment>)
    requires NonEmpty(ss) && Resolvable(ss)
    ensures OrderFree(ss)
  {
    hide Resolvable, NonEmpty, InsertAll, Spelled, Received;
    forall tt | SameSegments(ss, tt)
      ensures InsertAll(tt) == InsertAll(ss)
    {
      forall pos
        ensures At(InsertAll(tt), pos) == At(InsertAll(ss), pos)
      {
        ResolvableView(ss, tt, pos);
        ResolvableView(ss, ss, pos);
      }
      ResolvableView(ss, tt, 0);
      ResolvableView(ss, ss, 0);
      CanonicalIsUnique(InsertAll(tt), InsertAll(ss));
    }
  }

  // ---------- what is kept whatever comes ----------

  /** The bytes of b lie inside c, at their positions. */
  predicate Inside(b: Block, c: Block) {
    c.start <= b.start && b.End() <= c.End() && c.data[b.start - c.start..b.End() - c.start] == b.data
  }

  lemma InsideItself(b: Block)
    ensures Inside(b, b)
  {
    assert b.data[0..|b.data|] == b.data;
  }

  lemma InsideCovers(b: Block, c: Block, pos: int)
    requires Inside(b, c) && b.Covers(pos)
    ensures c.Covers(pos)
  {
  }

  ghost predicate Kept(bs: seq<Block>, b: Block) {
    exists j :: 0 <= j < |bs| && Inside(b, bs[j])
  }

  /** A block that has grown at either end still has what lay inside it. */
  lemma InsideGrown(b: Block, c: Block, before: seq<Byte>, behind: seq<Byte>, d: Block)
    requires Inside(b, c) && d.data == before + c.data + behind && d.start + |before| == c.start
    ensures Inside(b, d)
  {
    var i, k := b.start - c.start, b.End() - c.start;
    assert d.data[|before| + i..|before| + k] == c.data[i..k];
  }

  lemma KeptBlock(bs: seq<Block>, j: nat, b: Block)
    requires j < |bs| && Inside(b, bs[j])
    ensures Kept(bs, b)
  {
  }

  lemma {:induction false} InsertKeeps(bs: seq<Block>, n: nat, p: seq<Byte>, b: Block, i: nat)
    requires i < |bs| && Inside(b, bs[i])
    ensures Kept(Insert(bs, n, p), b)
  {
    hide Inside, Kept;
    var r, c := Insert(bs, n, p), bs[0];
    if n < c.End() {
      if n + |p| == c.start {
        InsideGrown(b, bs[i], if i == 0 then p else [], [], r[i]);
        KeptBlock(r, i, b);
      } else if n + |p| < c.start {
        assert r[i + 1] == bs[i];
        KeptBlock(r, i + 1, b);
      } else {
        KeptBlock(r, i, b);
      }
    } else if n == c.End() {
      if |bs| > 1 && n + |p| == bs[1].start {
        if i == 0 {
          InsideGrown(b, c, [], p + bs[1].data, r[0]);
        } else if i == 1 {
          InsideGrown(b, bs[1], c.data + p, [], r[0]);
        } else {
          assert r[i - 1] == bs[i];
        }
        KeptBlock(r, if i == 0 then 0 else i - 1, b);
      } else {
        InsideGrown(b, bs[i], [], if i == 0 then p else [], r[i]);
        KeptBlock(r, i, b);
      }
    } else if i == 0 {
      KeptBlock(r, 0, b);
    } else {
      InsertKeeps(bs[1..], n, p, b, i - 1);
      var j := KeptAtSome(r[1..], b);
      assert r[j + 1] == r[1..][j];
      KeptBlock(r, j + 1, b);
    }
  }

  lemma KeptAtSome(bs: seq<Block>, b: Block) returns (j: nat)
    requires Kept(bs, b)
    ensures j < |bs| && Inside(b, bs[j])
  {
    j :| 0 <= j < |bs| && Inside(b, bs[j]);
  }

  lemma InsertAllSnoc(a: seq<Segment>, s: Segment)
    ensures InsertAll(a + [s]) == Insert(InsertAll(a), s.n, s.p)
  {
    assert (a + [s])[..|a|] == a;
  }

  lemma InsertOne(s: Segment)
    ensures InsertAll([s]) == [Block(s.n, s.p, true)]
  {
    InsertAllSnoc([], s);
    assert [] + [s] == [s];
  }

  lemma {:induction false} InsertAllKeeps(a: seq<Segment>, more: seq<Segment>, b: Block)
    requires Kept(InsertAll(a), b)
    ensures Kept(InsertAll(a + more), b)
    decreases |more|
  {
    hide InsertAll, Inside;
    if more == [] {
      assert a + more == a;
    } else {
      var init, s := more[..|more| - 1], more[|more| - 1];
      InsertAllKeeps(a, init, b);
      var bs := InsertAll(a + init);
      var i :| 0 <= i < |bs| && Inside(b, bs[i]);
      InsertKeeps(bs, s.n, s.p, b, i);
      InsertAllSnoc(a + init, s);
      assert a + init + [s] == a + more;
    }
  }

  /** Neighbours that overlap. */
  predicate Overlaps(bs: seq<Block>) {
    |bs| > 1 && (bs[0].End() > bs[1].start || Overlaps(bs[1..]))
  }

  lemma {:induction false} OverlapsStay(bs: seq<Block>, n: nat, p: seq<Byte>)
    requires Rising(bs) && Overlaps(bs) && p != []
    ensures Overlaps(Insert(bs, n, p))
  {
    var r, b, rest := Insert(bs, n, p), bs[0], bs[1..];
    assert Rising(rest) && rest[0] == bs[1];
    if n < b.End() {
      assert n + |p| < b.start ==> r[1..] == bs;
      assert n + |p| == b.start ==> r[1..] == rest;
    } else if n == b.End() {
      if n + |p| == bs[1].start {
        assert Overlaps(rest);
        assert r[1..] == bs[2..] == rest[1..];
      } else {
        assert r[1..] == rest;
      }
    } else {
      InsertRising(rest, n, p);
      assert r[1..] == Insert(rest, n, p);
      if Overlaps(rest) {
        OverlapsStay(rest, n, p);
      }
    }
  }

  lemma {:induction false} AllOverlapsStay(a: seq<Segment>, more: seq<Segment>)
    requires Rising(InsertAll(a)) && Overlaps(InsertAll(a)) && NonEmpty(more)
    ensures Rising(InsertAll(a + more)) && Overlaps(InsertAll(a + more))
    decreases |more|
  {
    hide InsertAll, Rising, Overlaps;
    if more == [] {
      assert a + more == a;
    } else {
      var init, s := more[..|more| - 1], more[|more| - 1];
      assert s in more;
      AllOverlapsStay(a, init);
      OverlapsStay(InsertAll(a + init), s.n, s.p);
      InsertRising(InsertAll(a + init), s.n, s.p);
      InsertAllSnoc(a + init, s);
      assert a + init + [s] == a + more;
    }
  }

  lemma {:induction false} SeparatedDoNotOverlap(bs: seq<Block>)
    requires Separated(bs)
    ensures !Overlaps(bs)
  {
    if |bs| > 1 {
      SeparatedDoNotOverlap(bs[1..]);
    }
  }

  // ---------- falling starts never overlap ----------

  ghost predicate Falling(ss: seq<Segment>) {
    forall i, j :: 0 <= i < j < |ss| ==> ss[i].n >= ss[j].n
  }

  lemma {:induction false} FallingInsert(ss: seq<Segment>, s: Segment) returns (tt: seq<Segment>)
    requires Falling(ss)
    ensures Falling(tt) && SameSegments(tt, ss + [s])
    decreases |ss|
  {
    if ss == [] || ss[|ss| - 1].n >= s.n {
      tt := ss + [s];
    } else {
      var init, last := ss[..|ss| - 1], ss[|ss| - 1];
      var uu := FallingInsert(init, s);
      tt := uu + [last];
      assert ss == init + [last];
      forall i | 0 <= i < |uu|
        ensures uu[i].n >= last.n
      {
        assert uu[i] in init + [s];
      }
    }
  }

  lemma {:induction false} FallingOrder(ss: seq<Segment>) returns (tt: seq<Segment>)
    ensures Falling(tt) && SameSegments(ss, tt)
    decreases |ss|
  {
    if ss == [] {
      tt := [];
    } else {
      var init, last := ss[..|ss| - 1], ss[|ss| - 1];
      assert ss == init + [last];
      var uu := FallingOrder(init);
      tt := FallingInsert(uu, last);
    }
  }

  lemma {:induction false} FallingIsSeparated(ss: seq<Segment>)
    requires Falling(ss) && NonEmpty(ss)
    ensures var r := InsertAll(ss); Separated(r) && (r != [] ==> ss != [] && r[0].start >= ss[|ss| - 1].n)
    decreases |ss|
  {
    hide Separated, Insert;
    SeparatedNone();
    if ss != [] {
      var init, s := ss[..|ss| - 1], ss[|ss| - 1];
      assert ss == init + [s];
      FallingIsSeparated(init);
      assert init != [] ==> init[|init| - 1].n >= s.n;
      FrontInsert(InsertAll(init), s);
    }
  }

  /** A segment that starts no later than the list goes in front of it or is dropped. */
  lemma FrontInsert(bs: seq<Block>, s: Segment)
    requires Separated(bs) && s.p != [] && (bs != [] ==> s.n <= bs[0].start)
    ensures var r := Insert(bs, s.n, s.p); Separated(r) && r != [] && r[0].start >= s.n
  {
    hide Separated;
    if bs == [] {
      var b := Block(s.n, s.p, true);
      SeparatedNone();
      SeparatedCons(b, []);
      assert [b] + [] == [b];
    } else {
      SeparatedRest(bs);
      if s.End() == bs[0].start {
        SeparatedCons(Block(s.n, s.p + bs[0].data, true), bs[1..]);
      } else if s.End() < bs[0].start {
        SeparatedCons(Block(s.n, s.p, true), bs);
      }
    }
  }

  lemma SeparatedNone()
    ensures Separated([])
  {
  }

  lemma SeparatedRest(bs: seq<Block>)
    requires Separated(bs) && bs != []
    ensures Separated(bs[1..]) && bs[0].start < bs[0].End() && (|bs| > 1 ==> bs[0].End() < bs[1].start)
  {
  }

  // ---------- one list for all orders means resolvable ----------

  /** The one list is separated and every segment lies inside one of its blocks. */
  lemma FreeKeepsAll(ss: seq<Segment>)
    requires NonEmpty(ss) && OrderFree(ss)
    ensures Separated(InsertAll(ss)) && forall s :: s in ss ==> Kept(InsertAll(ss), Block(s.n, s.p, true))
  {
    hide InsertAll, Separated;
    var tt := FallingOrder(ss);
    FallingIsSeparated(tt);
    forall s | s in ss
      ensures Kept(InsertAll(ss), Block(s.n, s.p, true))
    {
      var b := Block(s.n, s.p, true);
      InsertOne(s);
      assert Kept(InsertAll([s]), b) by {
        assert Inside(b, InsertAll([s])[0]);
      }
      InsertAllKeeps([s], ss, b);
      assert SameSegments(ss, [s] + ss);
    }
  }

  lemma KeptAt(bs: seq<Block>, b: Block, pos: int)
    requires Separated(bs) && Kept(bs, b) && b.Covers(pos)
    ensures At(bs, pos) == Some(b.data[pos - b.start])
  {
    var j :| 0 <= j < |bs| && Inside(b, bs[j]);
    AtBlock(bs, j, pos);
    var d := bs[j].data[b.start - bs[j].start..b.End() - bs[j].start];
    assert d[pos - b.start] == bs[j].data[pos - bs[j].start];
  }

  lemma FreeAgrees(ss: seq<Segment>)
    requires NonEmpty(ss) && OrderFree(ss)
    ensures Agree(ss)
  {
    hide InsertAll, At, Kept, Separated;
    FreeKeepsAll(ss);
    forall s, t, pos | s in ss && t in ss && s.Covers(pos) && t.Covers(pos)
      ensures s.p[pos - s.n] == t.p[pos - t.n]
    {
      KeptAt(InsertAll(ss), Block(s.n, s.p, true), pos);
      KeptAt(InsertAll(ss), Block(t.n, t.p, true), pos);
    }
  }

  function Select(ss: seq<Segment>, pos: int, covering: bool): seq<Segment> {
    if ss == [] then []
    else (if ss[0].Covers(pos) == covering then [ss[0]] else []) + Select(ss[1..], pos, covering)
  }

  lemma {:induction false} SelectMembers(ss: seq<Segment>, pos: int, covering: bool)
    ensures forall s :: s in Select(ss, pos, covering) <==> s in ss && s.Covers(pos) == covering
  {
    if ss != [] {
      assert ss == [ss[0]] + ss[1..];
      SelectMembers(ss[1..], pos, covering);
    }
  }

  lemma {:induction false} AllDropped(r: Segment, more: seq<Segment>)
    requires forall s :: s in more ==> Insert([Block(r.n, r.p, true)], s.n, s.p) == [Block(r.n, r.p, true)]
    ensures InsertAll([r] + more) == [Block(r.n, r.p, true)]
    decreases |more|
  {
    hide InsertAll, Insert;
    if more == [] {
      InsertOne(r);
      assert [r] + more == [r];
    } else {
      var init, s := more[..|more| - 1], more[|more| - 1];
      assert s in more;
      AllDropped(r, init);
      InsertAllSnoc([r] + init, s);
      assert [r] + init + [s] == [r] + more;
    }
  }

  ghost function Elsewhere(pos: int): (int, Byte) -> bool {
    (q, b) => q != pos
  }

  lemma {:induction false} StaysUncovered(a: seq<Segment>, more: seq<Segment>, pos: int)
    requires Holds(InsertAll(a), Elsewhere(pos)) && forall s :: s in more ==> !s.Covers(pos)
    ensures Holds(InsertAll(a + more), Elsewhere(pos))
    decreases |more|
  {
    hide InsertAll, Holds;
    if more == [] {
      assert a + more == a;
    } else {
      var init, s := more[..|more| - 1], more[|more| - 1];
      assert s in more;
      StaysUncovered(a, init, pos);
      InsertHolds(InsertAll(a + init), s.n, s.p, Elsewhere(pos));
      InsertAllSnoc(a + init, s);
      assert a + init + [s] == a + more;
    }
  }

  /** If r alone keeps out every segment that covers a position, some order never stores that position. */
  lemma Missed(ss: seq<Segment>, r: Segment, pos: int)
    requires NonEmpty(ss) && r in ss && !r.Covers(pos) && Received(ss, pos)
    requires forall s :: s in ss && s.Covers(pos) ==>
               Insert([Block(r.n, r.p, true)], s.n, s.p) == [Block(r.n, r.p, true)]
    ensures !OrderFree(ss)
  {
    hide InsertAll, Insert, At, Select;
    var a, b := Select(ss, pos, true), Select(ss, pos, false);
    SelectMembers(ss, pos, true);
    SelectMembers(ss, pos, false);
    AllDropped(r, a);
    StaysUncovered([r] + a, b, pos);
    var tt := [r] + a + b;
    assert SameSegments(ss, tt);
    if OrderFree(ss) {
      FreeKeepsAll(ss);
      var s :| s in ss && s.Covers(pos);
      KeptAt(InsertAll(ss), Block(s.n, s.p, true), pos);
      HoldsAt(InsertAll(tt), Elsewhere(pos), pos);
    }
  }

  /** Where a segment crosses an end, some segment starts and some segment ends. */
  lemma CrossedEnd(ss: seq<Segment>, s: Segment, x: int)
    requires NonEmpty(ss) && OrderFree(ss) && s in ss && s.n < x < s.End() && IsEnd(ss, x)
    ensures StartsAt(ss, x) && EndsAt(ss, x)
  {
    hide OrderFree;
    assert s.Covers(x) && s.Covers(x - 1);
    if !EndsAt(ss, x) {
      var r :| r in ss && r.n == x;
      forall t | t in ss && t.Covers(x - 1)
        ensures Insert([Block(r.n, r.p, true)], t.n, t.p) == [Block(r.n, r.p, true)]
      {
        assert t.End() != x;
      }
      Missed(ss, r, x - 1);
    }
    if !StartsAt(ss, x) {
      var r :| r in ss && r.End() == x;
      forall t | t in ss && t.Covers(x)
        ensures Insert([Block(r.n, r.p, true)], t.n, t.p) == [Block(r.n, r.p, true)]
      {
        assert t.n != x;
      }
      Missed(ss, r, x);
    }
  }

  lemma WedgedStart(r: Segment, q: Segment, g: Segment)
    requires r.p != [] && q.p != [] && r.End() == g.n < q.n < g.End()
    ensures var bs := InsertAll([r, q, g]); Rising(bs) && Overlaps(bs)
  {
    hide InsertAll;
    var a, b := Block(r.n, r.p, true), Block(q.n, q.p, true);
    InsertOne(r);
    InsertAllSnoc([r], q);
    InsertAllSnoc([r, q], g);
    assert [r] + [q] == [r, q] && [r, q] + [g] == [r, q, g];
    assert Insert([a], q.n, q.p) == [a, b];
    assert Insert([a, b], g.n, g.p) == [Block(r.n, r.p + g.p, true), b];
  }

  /** Segment g behind r, with q stored first somewhere inside g: the list overlaps for good. */
  lemma Wedged(ss: seq<Segment>, r: Segment, q: Segment, g: Segment)
    requires NonEmpty(ss) && r in ss && q in ss && g in ss && r.End() == g.n < q.n < g.End()
    ensures !OrderFree(ss)
  {
    hide InsertAll, Rising, Overlaps;
    WedgedStart(r, q, g);
    AllOverlapsStay([r, q, g], ss);
    assert SameSegments(ss, [r, q, g] + ss);
    if OrderFree(ss) {
      FreeKeepsAll(ss);
      SeparatedDoNotOverlap(InsertAll(ss));
    }
  }

  lemma {:induction false} LastEnd(ss: seq<Segment>, lo: int, pos: int) returns (x: int)
    requires IsEnd(ss, lo) && lo <= pos
    ensures lo <= x <= pos && IsEnd(ss, x) && forall z :: x < z <= pos ==> !IsEnd(ss, z)
    decreases pos - lo
  {
    hide IsEnd;
    if IsEnd(ss, pos) {
      x := pos;
    } else {
      x := LastEnd(ss, lo, pos - 1);
    }
  }

  lemma {:induction false} NextEnd(ss: seq<Segment>, pos: int, hi: int) returns (y: int)
    requires IsEnd(ss, hi) && pos < hi
    ensures pos < y <= hi && IsEnd(ss, y) && forall z :: pos < z < y ==> !IsEnd(ss, z)
    decreases hi - pos
  {
    hide IsEnd;
    if IsEnd(ss, pos + 1) {
      y := pos + 1;
    } else {
      y := NextEnd(ss, pos + 1, hi);
    }
  }

  /** Every received position lies in a segment that is not compound. */
  lemma FreeHasCells(ss: seq<Segment>, s: Segment, pos: int)
    requires NonEmpty(ss) && OrderFree(ss) && s in ss && s.Covers(pos)
    ensures exists c :: c in ss && c.Covers(pos) && !Compound(ss, c)
  {
    hide OrderFree, IsEnd, NonEmpty;
    Ends(ss, s);
    var x := LastEnd(ss, s.n, pos);
    var y := NextEnd(ss, pos, s.End());
    assert forall z :: x < z < y ==> !IsEnd(ss, z);
    if c :| c in ss && c.n == x && c.End() == y {
      assert c.Covers(pos) && !Compound(ss, c);
    } else {
      NoCell(ss, s, x, y);
    }
  }

  lemma Ends(ss: seq<Segment>, s: Segment)
    requires s in ss
    ensures IsEnd(ss, s.n) && IsEnd(ss, s.End())
  {
  }

  lemma NoCell(ss: seq<Segment>, s: Segment, x: int, y: int)
    requires NonEmpty(ss) && s in ss && s.n <= x < y <= s.End() && IsEnd(ss, x) && IsEnd(ss, y)
    requires forall z :: x < z < y ==> !IsEnd(ss, z)
    requires forall c :: c in ss ==> c.n != x || c.End() != y
    ensures !OrderFree(ss)
  {
    hide OrderFree, IsEnd;
    if OrderFree(ss) {
      var g := s;
      if s.n < x {
        CrossedEnd(ss, s, x);
        g :| g in ss && g.n == x;
        Ends(ss, g);
      } else {
        CrossedEnd(ss, s, y);
        var h :| h in ss && h.End() == y;
        Ends(ss, h);
        CrossedEnd(ss, h, x);
      }
      var r :| r in ss && r.End() == x;
      CrossedEnd(ss, g, y);
      var q :| q in ss && q.n == y;
      Wedged(ss, r, q, g);
    }
  }

  lemma FreeIsResolvable(ss: seq<Segment>)
    requires NonEmpty(ss) && OrderFree(ss)
    ensures Resolvable(ss)
  {
    hide OrderFree, Agree;
    FreeAgrees(ss);
    forall s | s in ss && Compound(ss, s)
      ensures !EndsAt(ss, s.n) && Tiled(ss, s)
    {
      forall pos | s.Covers(pos)
        ensures exists c :: c in ss && c.Covers(pos) && !Compound(ss, c)
      {
        FreeHasCells(ss, s, pos);
      }
      if EndsAt(ss, s.n) {
        var r :| r in ss && r.End() == s.n;
        var x :| s.n < x < s.End() && IsEnd(ss, x);
        assert s.Covers(s.End() - 1);
        var c :| c in ss && c.Covers(s.End() - 1) && !Compound(ss, c);
        assert s.n < c.n;
        Wedged(ss, r, c, s);
      }
    }
  }

  /**
   * The order of arrival is irrelevant if and only if overlapping segments agree and every segment with an end of
   * another one inside also comes in pieces and continues no other segment.
   */
  lemma OrderFreeIff(ss: seq<Segment>)
    requires NonEmpty(ss)
    ensures OrderFree(ss) <==> Resolvable(ss)
  {
    if OrderFree(ss) {
      FreeIsResolvable(ss);
    } else if Resolvable(ss) {
      ResolvableIsFree(ss);
    }
  }

  /** Not every such set is pairwise compatible: a segment that comes whole and in pieces does no harm at a start. */
  lemma WholeAndPieces()
    ensures var ss := [Segment(0, [1]), Segment(1, [2]), Segment(0, [1, 2])];
            Resolvable(ss) && !AllCompatible(ss)
  {
    var a, b, c := Segment(0, [1]), Segment(1, [2]), Segment(0, [1, 2]);
    var ss := [a, b, c];
    assert a in ss && b in ss && c in ss && !Compatible(a, c);
    assert forall s :: s in ss ==> s == a || s == b || s == c;
    assert !Compound(ss, a) && !Compound(ss, b);
    assert !EndsAt(ss, 0);
    forall pos | c.Covers(pos)
      ensures exists d :: d in ss && d.Covers(pos) && !Compound(ss, d)
    {
      assert a.Covers(0) && b.Covers(1);
    }
  }
}
