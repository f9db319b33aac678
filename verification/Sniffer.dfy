/** The sniffer object: loops and updates in place, proved against the step machine on values. */
module Sniffer {
  import opened Blocks
  import opened ChunkFill
  import opened FlowInsert
  import opened Grep
  import opened ReconstructedChunks
  import opened FlowLists
  import opened Engine
  import opened Safety

  // ---------- the index loops ----------

  /** The search loop of deal_with_pkt_without_chunkid. */
  method FindRange(infos: seq<ChunkInfo>, n: nat) returns (r: Option<ChunkInfo>)
    ensures r == Lookup(infos, n)
  {
    var i := 0;
    while i < |infos|
      invariant i <= |infos| && Lookup(infos, n) == Lookup(infos[i..], n)
    {
      if infos[i].start < n < infos[i].start + infos[i].length {
        return Some(infos[i]);
      }
      assert infos[i..][1..] == infos[i + 1..];
      i := i + 1;
    }
    return None;
  }

  /** The loop over a flow's chunk ids before a new one is listed. */
  method FindId(infos: seq<ChunkInfo>, c: ChunkId) returns (found: bool)
    ensures found <==> exists i :: 0 <= i < |infos| && infos[i].id == c
  {
    for i := 0 to |infos|
      invariant forall k :: 0 <= k < i ==> infos[k].id != c
    {
      if infos[i].id == c {
        return true;
      }
    }
    return false;
  }

  ghost function ChunkValue(chunk: ReconstructedChunk): Chunk
    reads chunk, chunk.Repr
    requires chunk.Valid()
  {
    Chunk(chunk.length, chunk.flowSeqMap, chunk.Blocks())
  }

  /** Where the nodes of a flow's list stand after the last diff bytes of a packet have gone back to the flow. */
  ghost predicate Returned(before: seq<ContiguousBlock>, after: seq<ContiguousBlock>,
                           bs: seq<Block>, n: nat, p: seq<Byte>, diff: nat)
  {
    if 0 < diff <= |p| then Moved(before, after, bs, n + |p| - diff, p[|p| - diff..]) else after == before
  }

  /** Disjoint parts of the objects in all. */
  ghost predicate Apart(chunks: map<ChunkId, set<object>>, lists: map<FlowKey, set<object>>, all: set<object>) {
    && (forall c :: c in chunks ==> chunks[c] <= all)
    && (forall f :: f in lists ==> lists[f] <= all)
    && (forall c, d :: c in chunks && d in chunks && c != d ==> chunks[c] !! chunks[d])
    && (forall f, g :: f in lists && g in lists && f != g ==> lists[f] !! lists[g])
    && (forall c, f :: c in chunks && f in lists ==> chunks[c] !! lists[f])
  }

  lemma ApartFromChunk(chunks: map<ChunkId, set<object>>,
                       lists: map<FlowKey, set<object>>, all: set<object>, c: ChunkId)
    requires Apart(chunks, lists, all) && c in chunks
    ensures (forall d :: d in chunks && d != c ==> chunks[d] !! chunks[c]) && forall f :: f in lists ==>
              lists[f] !! chunks[c]
  {
  }

  lemma ApartFromList(chunks: map<ChunkId, set<object>>, lists: map<FlowKey, set<object>>, all: set<object>, f: FlowKey)
    requires Apart(chunks, lists, all) && f in lists
    ensures (forall d :: d in chunks ==> chunks[d] !! lists[f]) && forall g :: g in lists && g != f ==>
              lists[g] !! lists[f]
  {
  }

  lemma ChunkApart(chunks: map<ChunkId, set<object>>, lists: map<FlowKey, set<object>>,
                   all: set<object>, c: ChunkId, part: set<object>)
    requires Apart(chunks, lists, all) && forall o :: o in part && o in all ==> c in chunks && o in chunks[c]
    ensures Apart(chunks[c := part], lists, all + part)
  {
  }

  lemma ListApart(chunks: map<ChunkId, set<object>>, lists: map<FlowKey, set<object>>,
                  all: set<object>, f: FlowKey, part: set<object>)
    requires Apart(chunks, lists, all) && forall o :: o in part && o in all ==> f in lists && o in lists[f]
    ensures Apart(chunks, lists[f := part], all + part)
  {
  }

  lemma SamePut<K, V>(m: map<K, V>, put: map<K, V>, k: K, v: V)
    requires put.Keys == m.Keys + {k} && put[k] == v && forall j :: j in m && j != k ==> put[j] == m[j]
    ensures put == m[k := v]
  {
  }

  lemma SameMaps<K, V>(m: map<K, V>, n: map<K, V>)
    requires m.Keys == n.Keys && forall k :: k in m ==> n[k] == m[k]
    ensures n == m
  {
  }

  // ---------- the sniffer ----------

  class SniffTcp {
    var flowList: map<FlowKey, FlowList>
    var flowChunkMap: map<FlowKey, seq<ChunkInfo>>
    var chunks: map<ChunkId, ReconstructedChunk>
    var sent: seq<Sent>
    var pulled: seq<Part>
    var numDuplicateBytes: nat
    ghost const w: World
    ghost var tainted: iset<Place>
    ghost var Repr: set<object>

    /** What each chunk object is made of. */
    ghost function ChunkParts(): (t: map<ChunkId, set<object>>)
      reads this`chunks, chunks.Values
      ensures t.Keys == chunks.Keys
      ensures forall c :: c in chunks ==> t[c] == chunks[c].Repr
    {
      map c | c in chunks :: chunks[c].Repr
    }

    /** What each block list is made of. */
    ghost function ListParts(): (t: map<FlowKey, set<object>>)
      reads this`flowList, flowList.Values
      ensures t.Keys == flowList.Keys
      ensures forall f :: f in flowList ==> t[f] == flowList[f].Repr
    {
      map f | f in flowList :: flowList[f].Repr
    }

    /** The chunk objects and the block lists do not share state; Repr is what they are made of. */
    ghost predicate Owned()
      reads this`flowList, this`chunks, this`Repr, Repr
      ensures Owned() ==> this !in Repr
    {
      && this !in Repr && chunks.Values <= Repr && flowList.Values <= Repr && Apart(ChunkParts(), ListParts(), Repr)
      && (forall c :: c in chunks ==> chunks[c].Repr <= Repr && chunks[c].Valid())
      && (forall f :: f in flowList ==> flowList[f].Repr <= Repr && flowList[f].Valid())
    }

    /** The chunk table as values. */
    ghost function Table(): (t: map<ChunkId, Chunk>)
      reads this`flowList, this`chunks, this`Repr, Repr
      requires Owned()
      ensures t.Keys == chunks.Keys
      ensures forall c :: c in chunks ==> t[c] == ChunkValue(chunks[c])
    {
      map c | c in chunks :: ChunkValue(chunks[c])
    }

    /** The flows' block lists as values. */
    ghost function FlowTable(): (t: map<FlowKey, seq<Block>>)
      reads this`flowList, this`chunks, this`Repr, Repr
      requires Owned()
      ensures t.Keys == flowList.Keys
      ensures forall f :: f in flowList ==> t[f] == flowList[f].Blocks()
    {
      map f | f in flowList :: flowList[f].Blocks()
    }

    /** The nodes of the flows' block lists. */
    ghost function Nodes(): (t: map<FlowKey, seq<ContiguousBlock>>)
      reads this`flowList, this`chunks, this`Repr, Repr
      requires Owned()
      ensures t.Keys == flowList.Keys
      ensures forall f :: f in flowList ==> t[f] == flowList[f].lcb
    {
      map f | f in flowList :: flowList[f].lcb
    }

    ghost function Model(): State
      reads this`flowList, this`flowChunkMap, this`chunks, this`sent, this`pulled, this`numDuplicateBytes, this`Repr,
          Repr
      requires Owned()
    {
      State(FlowTable(), flowChunkMap, Table(), sent, pulled, numDuplicateBytes, false)
    }

    ghost predicate Valid()
      reads this, Repr
    {
      Owned() && Inv(w, Model(), tainted)
    }

    constructor (ghost world: World)
      ensures Valid() && fresh(Repr) && w == world && Model() == INITIAL && tainted == iset{}
    {
      flowList, flowChunkMap, chunks := map[], map[], map[];
      sent, pulled, numDuplicateBytes := [], [], 0;
      w := world;
      tainted := iset{};
      Repr := {};
      new;
      StartInv(world);
      assert Model() == INITIAL;
    }

    // ---------- one object at a time ----------

    /** A chunk object none of whose state has changed. */
    twostate lemma ChunkSame(chunk: ReconstructedChunk)
      requires old(chunk.Valid()) && forall o :: o in old(chunk.Repr) ==> unchanged(o)
      ensures chunk.Repr == old(chunk.Repr) && chunk.Valid() && ChunkValue(chunk) == old(ChunkValue(chunk))
    {
      hide Separated;
      assert unchanged(chunk);
    }

    twostate lemma ListSame(list: FlowList)
      requires old(list.Valid()) && forall o :: o in old(list.Repr) ==> unchanged(o)
      ensures list.Repr == old(list.Repr) && list.Valid()
      ensures list.lcb == old(list.lcb) && list.Blocks() == old(list.Blocks())
    {
      assert unchanged(list);
      assert forall i :: 0 <= i < |list.lcb| ==>
             list.lcb[i] in old(list.Repr) && list.lcb[i].Value() == old(list.lcb[i].Value());
    }

    /** Chunks outside the changed part of Repr are as they were. */
    twostate lemma ChunksSame(new changed: set<object>, new except: set<ChunkId>)
      requires old(Owned()) && forall o :: o in old(Repr) && o !in changed ==> unchanged(o)
      requires forall d :: d in old(chunks) && d !in except ==> old(ChunkParts())[d] !! changed
      ensures forall d :: d in old(chunks) && d !in except ==>
                            && old(chunks)[d].Repr == old(ChunkParts())[d] && old(chunks)[d].Valid()
                            && ChunkValue(old(chunks)[d]) == old(Table())[d]
    {
      hide ReconstructedChunk.Valid, FlowList.Valid, ChunkValue;
      forall d | d in old(chunks) && d !in except
        ensures old(chunks)[d].Repr == old(ChunkParts())[d] && old(chunks)[d].Valid()
        ensures ChunkValue(old(chunks)[d]) == old(Table())[d]
      {
        ChunkSame(old(chunks)[d]);
      }
    }

    /** So are lists. */
    twostate lemma ListsSame(new changed: set<object>, new except: set<FlowKey>)
      requires old(Owned()) && forall o :: o in old(Repr) && o !in changed ==> unchanged(o)
      requires forall f :: f in old(flowList) && f !in except ==> old(ListParts())[f] !! changed
      ensures forall f :: f in old(flowList) && f !in except ==>
                            && old(flowList)[f].Repr == old(ListParts())[f] && old(flowList)[f].Valid()
                            && old(flowList)[f].lcb == old(Nodes())[f]
                            && old(flowList)[f].Blocks() == old(FlowTable())[f]
    {
      hide ReconstructedChunk.Valid, FlowList.Valid, FlowList.Blocks;
      forall f | f in old(flowList) && f !in except
        ensures old(flowList)[f].Repr == old(ListParts())[f] && old(flowList)[f].Valid()
        ensures old(flowList)[f].lcb == old(Nodes())[f] && old(flowList)[f].Blocks() == old(FlowTable())[f]
      {
        ListSame(old(flowList)[f]);
      }
    }

    /** Chunk c's object alone is new or has changed: so does its entry. */
    twostate lemma ChunkPut(new c: ChunkId, new chunk: ReconstructedChunk, new changed: set<object>)
      requires old(Owned()) && chunks == old(chunks)[c := chunk] && flowList == old(flowList)
      requires changed == if c in old(chunks) then old(ChunkParts())[c] else {}
      requires chunk.Valid() && fresh(chunk.Repr - changed) && Repr == old(Repr) + chunk.Repr && chunk in chunk.Repr
      requires forall o :: o in old(Repr) && o !in changed ==> unchanged(o)
      ensures Owned() && Table() == old(Table())[c := ChunkValue(chunk)]
      ensures FlowTable() == old(FlowTable()) && Nodes() == old(Nodes())
    {
      hide ReconstructedChunk.Valid, ChunkValue, FlowList.Valid, FlowList.Blocks, Apart, Table, FlowTable, Nodes,
           ChunkParts, ListParts, Owned;
      ChunkPutOthers(c, changed);
      ChunkPutOwned(c, chunk, changed);
      SamePut(old(Table()), Table(), c, ChunkValue(chunk));
      SameMaps(old(FlowTable()), FlowTable());
      SameMaps(old(Nodes()), Nodes());
    }

    twostate lemma ChunkPutOthers(new c: ChunkId, new changed: set<object>)
      requires old(Owned()) && changed == if c in old(chunks) then old(ChunkParts())[c] else {}
      requires forall o :: o in old(Repr) && o !in changed ==> unchanged(o)
      ensures forall d :: d in old(chunks) && d != c ==>
                            && old(chunks)[d].Repr == old(ChunkParts())[d] && old(chunks)[d].Valid()
                            && ChunkValue(old(chunks)[d]) == old(Table())[d]
      ensures forall f :: f in old(flowList) ==>
                            && old(flowList)[f].Repr == old(ListParts())[f] && old(flowList)[f].Valid()
                            && old(flowList)[f].lcb == old(Nodes())[f]
                            && old(flowList)[f].Blocks() == old(FlowTable())[f]
    {
      hide ReconstructedChunk.Valid, ChunkValue, FlowList.Valid, FlowList.Blocks, Apart, Table, FlowTable, Nodes,
           ChunkParts, ListParts;
      if c in old(chunks) {
        ApartFromChunk(old(ChunkParts()), old(ListParts()), old(Repr), c);
      }
      ChunksSame(changed, {c});
      ListsSame(changed, {});
    }

    twostate lemma ChunkPutOwned(new c: ChunkId, new chunk: ReconstructedChunk, new changed: set<object>)
      requires old(Owned()) && chunks == old(chunks)[c := chunk] && flowList == old(flowList)
      requires changed == if c in old(chunks) then old(ChunkParts())[c] else {}
      requires chunk.Valid() && fresh(chunk.Repr - changed) && Repr == old(Repr) + chunk.Repr && chunk in chunk.Repr
      requires forall d :: d in old(chunks) && d != c ==> chunks[d].Repr == old(ChunkParts())[d] && chunks[d].Valid()
      requires forall f :: f in old(flowList) ==> flowList[f].Repr == old(ListParts())[f] && flowList[f].Valid()
      ensures Owned()
    {
      hide ReconstructedChunk.Valid, FlowList.Valid, Apart, ChunkParts, ListParts;
      ChunkApart(old(ChunkParts()), old(ListParts()), old(Repr), c, chunk.Repr);
      SamePut(old(ChunkParts()), ChunkParts(), c, chunk.Repr);
      SameMaps(old(ListParts()), ListParts());
    }

    /** Flow f's list alone is new or has changed. */
    twostate lemma FlowPut(new f: FlowKey, new list: FlowList, new changed: set<object>)
      requires old(Owned()) && flowList == old(flowList)[f := list] && chunks == old(chunks)
      requires changed == if f in old(flowList) then old(ListParts())[f] else {}
      requires list.Valid() && fresh(list.Repr - changed) && Repr == old(Repr) + list.Repr && list in list.Repr
      requires forall o :: o in old(Repr) && o !in changed ==> unchanged(o)
      ensures Owned() && Table() == old(Table())
      ensures FlowTable() == old(FlowTable())[f := list.Blocks()] && Nodes() == old(Nodes())[f := list.lcb]
    {
      hide ReconstructedChunk.Valid, ChunkValue, FlowList.Valid, FlowList.Blocks, Apart, Table, FlowTable, Nodes,
           ChunkParts, ListParts, Owned;
      FlowPutOthers(f, changed);
      FlowPutOwned(f, list, changed);
      SameMaps(old(Table()), Table());
      SamePut(old(FlowTable()), FlowTable(), f, list.Blocks());
      SamePut(old(Nodes()), Nodes(), f, list.lcb);
    }

    twostate lemma FlowPutOthers(new f: FlowKey, new changed: set<object>)
      requires old(Owned()) && changed == if f in old(flowList) then old(ListParts())[f] else {}
      requires forall o :: o in old(Repr) && o !in changed ==> unchanged(o)
      ensures forall d :: d in old(chunks) ==>
                            && old(chunks)[d].Repr == old(ChunkParts())[d] && old(chunks)[d].Valid()
                            && ChunkValue(old(chunks)[d]) == old(Table())[d]
      ensures forall g :: g in old(flowList) && g != f ==>
                            && old(flowList)[g].Repr == old(ListParts())[g] && old(flowList)[g].Valid()
                            && old(flowList)[g].lcb == old(Nodes())[g]
                            && old(flowList)[g].Blocks() == old(FlowTable())[g]
    {
      hide ReconstructedChunk.Valid, ChunkValue, FlowList.Valid, FlowList.Blocks, Apart, Table, FlowTable, Nodes,
           ChunkParts, ListParts;
      if f in old(flowList) {
        ApartFromList(old(ChunkParts()), old(ListParts()), old(Repr), f);
      }
      ChunksSame(changed, {});
      ListsSame(changed, {f});
    }

    twostate lemma FlowPutOwned(new f: FlowKey, new list: FlowList, new changed: set<object>)
      requires old(Owned()) && flowList == old(flowList)[f := list] && chunks == old(chunks)
      requires changed == if f in old(flowList) then old(ListParts())[f] else {}
      requires list.Valid() && fresh(list.Repr - changed) && Repr == old(Repr) + list.Repr && list in list.Repr
      requires forall d :: d in old(chunks) ==> chunks[d].Repr == old(ChunkParts())[d] && chunks[d].Valid()
      requires forall g :: g in old(flowList) && g != f ==>
                 flowList[g].Repr == old(ListParts())[g] && flowList[g].Valid()
      ensures Owned()
    {
      hide ReconstructedChunk.Valid, FlowList.Valid, Apart, ChunkParts, ListParts;
      ListApart(old(ChunkParts()), old(ListParts()), old(Repr), f, list.Repr);
      SamePut(old(ListParts()), ListParts(), f, list.Repr);
      SameMaps(old(ChunkParts()), ChunkParts());
    }

    /** What Owned says about one chunk. */
    lemma ChunkEntry(c: ChunkId)
      requires Owned() && c in chunks
      ensures c in Table() && Table()[c].starts == chunks[c].flowSeqMap && Table()[c].length == chunks[c].length
      ensures chunks[c].Valid() && chunks[c].Repr <= Repr && Table()[c] == ChunkValue(chunks[c])
      ensures ChunkParts()[c] == chunks[c].Repr && chunks[c] in chunks[c].Repr && this !in Repr
    {
    }

    lemma ModelEntry(c: ChunkId)
      requires Owned() && c in Model().chunks
      ensures Model().flows == FlowTable() && c in chunks
      ensures Model().chunks[c].starts == chunks[c].flowSeqMap && Model().chunks[c].length == chunks[c].length
    {
    }

    lemma TableEntry(c: ChunkId)
      requires Owned() && c in Table()
      ensures c in chunks && Table()[c].starts == chunks[c].flowSeqMap && Table()[c].length == chunks[c].length
    {
    }

    /** What Owned says about one list. */
    lemma ListEntry(flow: FlowKey)
      requires Owned() && flow in flowList
      ensures flow in FlowTable() && FlowTable()[flow] == flowList[flow].Blocks()
      ensures |FlowTable()[flow]| == |flowList[flow].lcb|
      ensures flow in Nodes() && Nodes()[flow] == flowList[flow].lcb
      ensures forall k :: 0 <= k < |flowList[flow].lcb| ==> FlowTable()[flow][k] == flowList[flow].lcb[k].Value()
      ensures flowList[flow].Valid() && flowList[flow].Repr <= Repr
      ensures ListParts()[flow] == flowList[flow].Repr && flowList[flow] in flowList[flow].Repr && this !in Repr
    {
    }

    // ---------- flows ----------

    /** `insert`. */
    method Insert(flow: FlowKey, n: nat, payload: seq<Byte>)
      requires Valid() && payload != [] && InWindow(w, flow, n, n + |payload|) && Offers(n, payload, OfStream(w, flow))
      modifies this, Repr
      ensures Valid() && fresh(Repr - old(Repr)) && tainted == old(tainted)
      ensures Model() == InsertFlow(old(Model()), flow, n, payload)
    {
      hide Inv, InsertFlow, Owned, Offers;
      InsertFlowInv(w, Model(), flow, n, payload, tainted);
      PutIntoFlow(flow, n, payload);
    }

    method PutIntoFlow(flow: FlowKey, n: nat, payload: seq<Byte>)
      requires Owned() && n + |payload| < WRAP
      modifies this`flowList, this`Repr, Repr
      ensures Owned() && fresh(Repr - old(Repr)) && Model() == InsertFlow(old(Model()), flow, n, payload)
      ensures flow in flowList && Table() == old(Table())
      ensures flow in old(flowList) ==>
                Moved(old(Nodes()[flow]), Nodes()[flow], old(FlowTable()[flow]), n, payload)
    {
      hide Owned, Table, Nodes, FlowInsert.Insert, FlowList.Valid, FlowList.Blocks, ReconstructedChunk.Valid,
           ChunkValue, Moved;
      if flow in flowList {
        GrowList(flow, n, payload);
      } else {
        InsertLast([], n, payload);
        assert FlowInsert.Insert([], n, payload) == [Block(n, payload, true)];
        NewList(flow, n, payload);
      }
    }

    method GrowList(flow: FlowKey, n: nat, payload: seq<Byte>)
      requires Owned() && n + |payload| < WRAP && flow in flowList
      modifies this`Repr, Repr
      ensures Owned() && fresh(Repr - old(Repr)) && Table() == old(Table()) && Nodes().Keys == old(Nodes()).Keys
      ensures FlowTable() == old(FlowTable())[flow := FlowInsert.Insert(old(FlowTable()[flow]), n, payload)]
      ensures Moved(old(Nodes()[flow]), Nodes()[flow], old(FlowTable()[flow]), n, payload)
    {
      hide Owned, Apart, ChunkParts, ListParts, Table, FlowTable, Nodes, ReconstructedChunk.Valid, FlowList.Valid,
           FlowList.Blocks, ChunkValue, FlowInsert.Insert, Moved;
      var list := flowList[flow];
      ListEntry(flow);
      ghost var changed := list.Repr;
      list.InsertPayload(payload, n);
      Repr := Repr + list.Repr;
      FlowPut(flow, list, changed);
    }

    method NewList(flow: FlowKey, n: nat, payload: seq<Byte>)
      requires Owned() && n + |payload| < WRAP && flow !in flowList
      modifies this`flowList, this`Repr
      ensures Owned() && fresh(Repr - old(Repr)) && Table() == old(Table())
      ensures FlowTable() == old(FlowTable())[flow := [Block(n, payload, true)]]
    {
      hide FlowList.Valid, FlowList.Blocks, ReconstructedChunk.Valid, ChunkValue;
      var list := new FlowList(payload, n);
      flowList := flowList[flow := list];
      Repr := Repr + list.Repr;
      FlowPut(flow, list, {});
    }

    /** The last diff bytes of a packet go back to the flow. */
    method ReturnToFlow(flow: FlowKey, n: nat, payload: seq<Byte>, diff: nat)
      requires Owned() && diff <= |payload| && n + |payload| < WRAP
      modifies this`flowList, this`Repr, Repr
      ensures Owned() && fresh(Repr - old(Repr)) && Table() == old(Table())
      ensures Model() == ReturnSurplus(old(Model()), flow, n, payload, diff)
      ensures flow in old(flowList) ==>
                && flow in flowList
                && Returned(old(Nodes()[flow]), Nodes()[flow], old(FlowTable()[flow]), n, payload, diff)
    {
      hide InsertFlow, Owned, Moved;
      if diff > 0 {
        PutIntoFlow(flow, n + |payload| - diff, payload[|payload| - diff..]);
      }
    }

    // ---------- chunks ----------

    /** The call into the chunk object. */
    static method FillChunkObject(ghost ch: Chunk, chunk: ReconstructedChunk,
                                  flow: FlowKey, n: TcpSeq, payload: seq<Byte>, dups: nat)
      returns (done: bool, total: nat)
      requires chunk.Valid() && ch == ChunkValue(chunk) && flow in ch.starts && payload != []
      requires Sub32(n, ch.starts[flow]) + |payload| < WRAP
      modifies chunk.Repr
      ensures chunk.Valid() && fresh(chunk.Repr - old(chunk.Repr))
      ensures var r := Fill(ch.blocks, Sub32(n, ch.starts[flow]), payload);
              ChunkValue(chunk) == ch.(blocks := r.blocks) && total == dups + r.dups && done == Completes(r, ch.length)
    {
      hide Fill, ReconstructedChunk.Valid, Sub32, Completes;
      done, total := chunk.FillGapsInChunk(flow, payload, n, dups);
    }

    /** The fill of one chunk in the table. */
    method FillObject(ghost ch: Chunk, c: ChunkId, flow: FlowKey, n: TcpSeq, payload: seq<Byte>) returns (done: bool)
      requires Owned() && c in Table() && ch == Table()[c] && flow in ch.starts && payload != []
      requires Sub32(n, ch.starts[flow]) + |payload| < WRAP
      modifies this`numDuplicateBytes, this`Repr, Repr
      ensures Owned() && fresh(Repr - old(Repr)) && FlowTable() == old(FlowTable()) && Nodes() == old(Nodes())
      ensures var r := Fill(ch.blocks, Sub32(n, ch.starts[flow]), payload);
              && Table() == old(Table())[c := ch.(blocks := r.blocks)]
              && numDuplicateBytes == old(numDuplicateBytes) + r.dups && done == Completes(r, ch.length)
    {
      hide Owned, Apart, ChunkParts, ListParts, Table, FlowTable, Nodes, Fill, ReconstructedChunk.Valid, ChunkValue,
           FlowList.Valid, FlowList.Blocks, Sub32, Completes;
      var chunk := chunks[c];
      ChunkEntry(c);
      ghost var changed := chunk.Repr;
      done, numDuplicateBytes := FillChunkObject(ch, chunk, flow, n, payload, numDuplicateBytes);
      Repr := Repr + chunk.Repr;
      ChunkPut(c, chunk, changed);
    }

    method FillEntry(ghost st: State, c: ChunkId, flow: FlowKey, n: TcpSeq, payload: seq<Byte>) returns (done: bool)
      requires Owned() && st == Model() && c in st.chunks && flow in st.chunks[c].starts && payload != []
      requires Sub32(n, st.chunks[c].starts[flow]) + |payload| < WRAP
      modifies this`numDuplicateBytes, this`Repr, Repr
      ensures Owned() && fresh(Repr - old(Repr)) && Nodes() == old(Nodes())
      ensures ClipResult(Model(), done) == FillChunk(st, c, Sub32(n, st.chunks[c].starts[flow]), payload)
    {
      hide Fill, FillChunk, Owned, Table, FlowTable, Nodes, Sub32, Completes;
      FillChunkValue(st, c, Sub32(n, st.chunks[c].starts[flow]), payload);
      done := FillObject(st.chunks[c], c, flow, n, payload);
    }

    /** `fill_gaps_in_chunk`: clip the packet at the end of the chunk, put the rest back on the flow. */
    method FillGapsInChunk(c: ChunkId, flow: FlowKey, payload: seq<Byte>, n: TcpSeq) returns (done: bool)
      requires Owned() && Tables(w, Model(), tainted) && InChunk(w, Model(), c, flow, n, payload, tainted)
      modifies this, Repr
      ensures Owned() && fresh(Repr - old(Repr)) && tainted == old(tainted)
      ensures ClipResult(Model(), done) == ClipFill(old(Model()), c, flow, n, payload)
      ensures NodesKept(old(Nodes()), Nodes(), old(Model()), c, flow, n, payload)
    {
      hide Model, Owned, Table, FlowTable, Nodes, Tables, InChunk, ClipFill, FillChunk, Surplus, ReturnSurplus, Sub32,
           Returned;
      ghost var st := Model();
      ClipFillParts(w, st, c, flow, n, payload, tainted);
      ModelEntry(c);
      var start, length := chunks[c].flowSeqMap[flow], chunks[c].length;
      var diff := Surplus(start, length, n, |payload|);
      ReturnToFlow(flow, n, payload, diff);
      done := FillEntry(ReturnSurplus(st, flow, n, payload, diff), c, flow, n, payload[..|payload| - diff]);
    }

    /** Fill, and hand the chunk over when that completes it. */
    method FillAndSend(c: ChunkId, flow: FlowKey, payload: seq<Byte>, n: TcpSeq)
      requires Valid() && InChunk(w, Model(), c, flow, n, payload, tainted)
      modifies this, Repr
      ensures Valid() && fresh(Repr - old(Repr)) && tainted == old(tainted)
      ensures Model() == Engine.FillAndSend(old(Model()), c, flow, n, payload)
      ensures NodesKept(old(Nodes()), Nodes(), old(Model()), c, flow, n, payload)
    {
      hide Owned, Table, FlowTable, Nodes, ReconstructedChunk.Valid, Inv, Tables, InChunk, ClipFill, ChunkOk, IsFull,
           NodesKept;
      ghost var st := Model();
      InvTables(w, st, tainted);
      FillAndSendInv(w, st, c, flow, n, payload, tainted);
      ClipFillChunk(w, st, c, flow, n, payload, tainted);
      var done := FillGapsInChunk(c, flow, payload, n);
      if done {
        HandOver(c);
      }
    }

    /** The chunk's first block goes to the plugin. */
    method HandOver(c: ChunkId)
      requires Owned() && c in Table() && Table()[c].blocks != []
      modifies this`sent
      ensures Owned() && Nodes() == old(Nodes())
      ensures Model() == old(Model()).(sent := old(sent) + [Sent(c, old(Table())[c].blocks[0].data)])
    {
      hide Owned, Table, FlowTable, Nodes, ReconstructedChunk.Valid, ChunkValue;
      HasBlocks(c);
      sent := sent + [Sent(c, chunks[c].GetData())];
    }

    lemma HasBlocks(c: ChunkId)
      requires Owned() && c in chunks && Table()[c].blocks != []
      ensures chunks[c].lcb != [] && chunks[c].GetData() == Table()[c].blocks[0].data
    {
    }

    // ---------- packets ----------

    /** `deal_with_pkt_without_chunkid`. */
    method DealWithPktWithoutChunkId(flow: FlowKey, payload: seq<Byte>, n: TcpSeq)
      requires Valid() && payload != [] && InWindow(w, flow, n, n + |payload|) && Offers(n, payload, OfStream(w, flow))
      modifies this, Repr
      ensures Valid() && fresh(Repr - old(Repr)) && tainted == old(tainted)
      ensures Model() == WithoutId(old(Model()), flow, n, payload)
    {
      hide Inv, Owned, Engine.FillAndSend, InsertFlow, NodesKept;
      if flow in flowChunkMap {
        var r := FindRange(flowChunkMap[flow], n);
        if r.Some? {
          RangeInChunk(w, Model(), flow, n, payload, tainted);
          FillAndSend(r.value.id, flow, payload, n);
        } else {
          Insert(flow, n, payload);
        }
      }
    }

    /** The flow's list without one node; next is the node behind it. */
    method Erase(flow: FlowKey, li: ContiguousBlock, ghost k: nat) returns (next: ContiguousBlock?)
      requires Valid() && flow in flowList && k < |flowList[flow].lcb| && flowList[flow].lcb[k] == li
      modifies Repr
      ensures Valid() && flow in FlowTable() && k < |old(FlowTable()[flow])|
      ensures Model() == old(Model()).(flows := old(FlowTable())[flow := Without(old(FlowTable()[flow]), k)])
      ensures |flowList[flow].lcb| == |old(flowList[flow].lcb)| - 1
      ensures next == if k < |flowList[flow].lcb| then flowList[flow].lcb[k] else null
    {
      hide ReconstructedChunk.Valid, FlowList.Valid, FlowList.Blocks, Inv, Without;
      ListEntry(flow);
      EraseInv(w, Model(), flow, k, tainted);
      next := EraseNode(flow, li, k);
    }

    method EraseNode(flow: FlowKey, li: ContiguousBlock, ghost k: nat) returns (next: ContiguousBlock?)
      requires Owned() && flow in flowList && k < |flowList[flow].lcb| && flowList[flow].lcb[k] == li
      modifies Repr
      ensures Owned() && Table() == old(Table()) && k < |old(FlowTable()[flow])|
      ensures FlowTable() == old(FlowTable())[flow := Without(old(FlowTable()[flow]), k)]
      ensures |flowList[flow].lcb| == |old(flowList[flow].lcb)| - 1
      ensures next == if k < |flowList[flow].lcb| then flowList[flow].lcb[k] else null
    {
      hide Owned, Apart, ChunkParts, ListParts, Table, FlowTable, Nodes, ReconstructedChunk.Valid, FlowList.Valid,
           FlowList.Blocks, ChunkValue;
      ListEntry(flow);
      var list := flowList[flow];
      ghost var changed := list.Repr;
      next := list.EraseNode(li, k);
      FlowPut(flow, list, changed);
    }

    /** One round of the candidate loop at node li, the k-th; next is where the iterator goes on. */
    method CandidateRound(c: ChunkId, flow: FlowKey, li: ContiguousBlock, ghost k: nat)
      returns (next: ContiguousBlock?, ghost at: nat)
      requires Valid() && Sheltered(Model(), c, flow, k, tainted)
      requires flow in flowList && k < |flowList[flow].lcb| && flowList[flow].lcb[k] == li
      modifies this, Repr
      ensures Valid() && fresh(Repr - old(Repr)) && tainted == old(tainted)
      ensures flow in flowList && Sheltered(Model(), c, flow, at, tainted)
      ensures Candidates(old(Model()), c, flow, k) == Candidates(Model(), c, flow, at)
      ensures at <= |flowList[flow].lcb| && |flowList[flow].lcb| - at < |old(flowList[flow].lcb)| - k
      ensures next == if at < |flowList[flow].lcb| then flowList[flow].lcb[at] else null
    {
      hide ReconstructedChunk.Valid, FlowList.Valid, FlowList.Blocks, Inv, Owned, Engine.FillAndSend, NodeAfterFill,
           InChunk, Candidate, Candidates, NodesKept, Without, Sheltered;
      ghost var st := Model();
      ShelteredEntry(st, c, flow, k, tainted);
      TableEntry(c);
      ListEntry(flow);
      if chunks[c].flowSeqMap[flow] < li.startingSeqNumber < chunks[c].flowSeqMap[flow] + chunks[c].length {
        ghost var nodes := Nodes();
        CandidateStep(w, st, c, flow, k, tainted);
        FillAndSend(c, flow, li.contents, li.startingSeqNumber);
        at := NodeAfterFill(st, c, flow, k).value;
        NodeFound(nodes, Nodes(), st, c, flow, k);
        ListEntry(flow);
        next := Erase(flow, li, at);
      } else {
        NoCandidate(w, st, c, flow, k, tainted);
        at := k + 1;
        next := NextNode(flow, li, k);
      }
    }

    method NextNode(flow: FlowKey, li: ContiguousBlock, ghost k: nat) returns (next: ContiguousBlock?)
      requires Owned() && flow in flowList && k < |flowList[flow].lcb| && flowList[flow].lcb[k] == li
      ensures next == if k + 1 < |flowList[flow].lcb| then flowList[flow].lcb[k + 1] else null
    {
      next := flowList[flow].Successor(li, k);
    }

    /**
     * `deal_with_candidates_for_chunk`: the iterator holds a node while the list changes under it; k is that node's
     * place.
     */
    method DealWithCandidates(c: ChunkId, flow: FlowKey)
      requires Valid() && Sheltered(Model(), c, flow, 0, tainted)
      modifies this, Repr
      ensures Valid() && fresh(Repr - old(Repr)) && tainted == old(tainted)
      ensures Model() == Candidates(old(Model()), c, flow, 0)
    {
      hide Inv, Owned, Table, FlowTable, Nodes, ReconstructedChunk.Valid, FlowList.Valid, FlowList.Blocks, Candidates,
           Sheltered;
      if flow !in flowList {
        CandidatesDone(Model(), c, flow, 0);
        return;
      }
      var li: ContiguousBlock? := if flowList[flow].lcb == [] then null else flowList[flow].lcb[0];
      ghost var k: nat := 0;
      while li != null
        invariant Valid() && fresh(Repr - old(Repr)) && Sheltered(Model(), c, flow, k, tainted)
        invariant tainted == old(tainted) && flow in flowList && k <= |flowList[flow].lcb|
        invariant li == if k < |flowList[flow].lcb| then flowList[flow].lcb[k] else null
        invariant Candidates(old(Model()), c, flow, 0) == Candidates(Model(), c, flow, k)
        decreases |flowList[flow].lcb| - k
      {
        li, k := CandidateRound(c, flow, li, k);
      }
      ListEntry(flow);
      CandidatesDone(Model(), c, flow, k);
    }

    /** List the chunk in the flow's index, unless it is listed. */
    method AddInfo(flow: FlowKey, c: ChunkId, n: nat, length: nat)
      requires Owned()
      modifies this`flowChunkMap
      ensures Owned() && Table() == old(Table()) && Model() == AddToIndex(old(Model()), flow, c, n, length)
    {
      hide ReconstructedChunk.Valid, FlowList.Valid, FlowList.Blocks, ChunkValue, Owned, Table, FlowTable;
      if flow !in flowChunkMap {
        flowChunkMap := flowChunkMap[flow := [ChunkInfo(c, n, length)]];
      } else {
        var found := FindId(flowChunkMap[flow], c);
        if !found {
          flowChunkMap := flowChunkMap[flow := flowChunkMap[flow] + [ChunkInfo(c, n, length)]];
        }
      }
    }

    /** A chunk object that knows one flow. */
    static method MakeChunk(flow: FlowKey, n: TcpSeq, length: nat) returns (chunk: ReconstructedChunk)
      ensures chunk.Valid() && fresh(chunk.Repr) && ChunkValue(chunk) == Chunk(length, map[flow := n], [])
    {
      chunk := new ReconstructedChunk(length);
      chunk.SetStart(flow, n);
    }

    /** A chunk id not seen before gets an object of its own. */
    method NewEntry(flow: FlowKey, c: ChunkId, n: TcpSeq, length: nat)
      requires Owned() && c !in chunks
      modifies this`chunks, this`Repr
      ensures Owned() && fresh(Repr - old(Repr)) && FlowTable() == old(FlowTable())
      ensures Table() == old(Table())[c := Chunk(length, map[flow := n], [])]
    {
      hide ReconstructedChunk.Valid, ChunkValue, FlowList.Valid, FlowList.Blocks, Owned, Table;
      var chunk := MakeChunk(flow, n, length);
      chunks := chunks[c := chunk];
      Repr := Repr + chunk.Repr;
      ChunkPut(c, chunk, {});
    }

    /** A chunk id seen before: remember where this flow carries it. */
    method OldEntry(flow: FlowKey, c: ChunkId, n: TcpSeq)
      requires Owned() && c in chunks
      modifies Repr
      ensures Owned() && FlowTable() == old(FlowTable())
      ensures Table() == old(Table())[c := old(Table())[c].(starts := old(Table())[c].starts[flow := n])]
    {
      hide Owned, Apart, ChunkParts, ListParts, Table, FlowTable, Nodes, FlowList.Valid, FlowList.Blocks, Separated;
      var chunk := chunks[c];
      ChunkEntry(c);
      ghost var changed := chunk.Repr;
      chunk.SetStart(flow, n);
      ChunkPut(c, chunk, changed);
    }

    /** The bookkeeping before a record start is filled in. */
    method RegisterChunk(flow: FlowKey, c: ChunkId, n: TcpSeq, length: nat) returns (seen: bool)
      requires Owned()
      modifies this, Repr
      ensures Owned() && fresh(Repr - old(Repr)) && tainted == old(tainted)
      ensures Model() == Register(old(Model()), flow, c, n, length)
      ensures seen == (c in old(Model()).chunks)
    {
      hide ReconstructedChunk.Valid, Owned, AddToIndex;
      AddInfo(flow, c, n, length);
      seen := c in chunks;
      if seen {
        OldEntry(flow, c, n);
      } else {
        NewEntry(flow, c, n, length);
      }
    }

    /** The part of `handle_ip` for a payload that begins with a record mark. */
    method HandleMarked(flow: FlowKey, c: ChunkId, payload: seq<Byte>, n: TcpSeq)
      requires Valid() && |payload| >= 4
      requires c in Model().chunks || ClearOf(FlowOf(Model(), flow), flow, n, w.len(c), n + |payload|, tainted)
      requires InWindow(w, flow, n, n + |payload|) && Offers(n, payload, OfStream(w, flow))
      requires n == w.place(flow, c) && FragmentLength(payload) == w.len(c)
      requires 0 < w.len(c) <= |w.record(c)| && Carried(w, flow, c)
      modifies this, Repr
      ensures Valid() && fresh(Repr - old(Repr)) && tainted == old(tainted)
      ensures Model() == WithId(old(Model()), flow, c, n, payload)
    {
      hide ReconstructedChunk.Valid, Owned, Table, Inv, Engine.FillAndSend, Candidates, Register, InChunk, Carried,
           InWindow, Offers, FragmentLength, Model, NodesKept, ClearOf, Sheltered;
      ghost var st1 := Register(Model(), flow, c, n, FragmentLength(payload));
      MarkedFits(w, Model(), flow, c, n, payload, tainted);
      ghost var st := Model();
      if c !in st.chunks {
        SearchSheltered(w, st, flow, c, n, payload, tainted);
      }
      var seen := RegisterChunk(flow, c, n, FragmentLength(payload));
      FillAndSend(c, flow, payload, n);
      if !seen {
        DealWithCandidates(c, flow);
      }
    }

    /** `handle_ip` for one TCP payload. */
    method HandleIp(pkt: Packet)
      requires Valid() && Truthful(w, pkt) && (FirstSeen(Model(), pkt) ==> Unharmed(Model(), pkt, tainted))
      modifies this, Repr
      ensures Valid() && fresh(Repr - old(Repr)) && tainted == old(tainted) && Model() == Arrive(old(Model()), pkt)
    {
      hide ReconstructedChunk.Valid, Owned, Table, Inv, WithoutId, WithId, InsertFlow, Front, Carried, Offers,
           InWindow, Model, ClearOf;
      var flow := pkt.flow;
      match pkt.hit
      case None =>
        HandleUnmarked(flow, pkt.payload, pkt.n);
      case Some(hit) =>
        TruthfulParts(w, flow, pkt.n, pkt.payload, hit);
        MarkInRange(w, pkt, hit);
        FrontChunks(Model(), flow, pkt.n, pkt.payload[..hit.offset], hit.id);
        if hit.id !in Model().chunks {
          FrontClear(w, Model(), flow, pkt.n, pkt.payload[..hit.offset], pkt.n + hit.offset, w.len(hit.id),
                     pkt.n + |pkt.payload|, tainted);
        }
        HandleUnmarked(flow, pkt.payload[..hit.offset], pkt.n);
        HandleMarked(flow, hit.id, pkt.payload[hit.offset..], pkt.n + hit.offset);
    }

    /** Bytes without a record mark in front of them; there may be none. */
    method HandleUnmarked(flow: FlowKey, payload: seq<Byte>, n: nat)
      requires Valid() && InWindow(w, flow, n, n + |payload|) && Offers(n, payload, OfStream(w, flow))
      modifies this, Repr
      ensures Valid() && fresh(Repr - old(Repr)) && tainted == old(tainted)
      ensures Model() == Front(old(Model()), flow, n, payload)
    {
      hide ReconstructedChunk.Valid, Owned, Table, Inv, WithoutId, InsertFlow, Offers;
      if payload != [] {
        if flow !in flowChunkMap {
          Insert(flow, n, payload);
        } else {
          DealWithPktWithoutChunkId(flow, payload, n);
        }
      }
    }

    // ---------- sweeps ----------

    method GrepFlow(f: FlowKey, stray: (FlowKey, nat, int) -> Byte)
      requires Owned()
      modifies this`pulled, this`Repr, Repr
      ensures Owned() && fresh(Repr - old(Repr)) && Model() == SweepFlow(old(Model()), f, stray)
    {
      hide Owned, Apart, ChunkParts, ListParts, Table, FlowTable, Nodes, ReconstructedChunk.Valid, FlowList.Valid,
           FlowList.Blocks, ChunkValue, SweepFrom, RecordsFrom;
      if f in flowList {
        var records := GrepEntry(f, OfFlow(stray, f));
        pulled := pulled + records;
      }
    }

    method GrepEntry(f: FlowKey, stray: (nat, int) -> Byte) returns (records: seq<Part>)
      requires Owned() && f in flowList
      modifies this`Repr, Repr
      ensures Owned() && fresh(Repr - old(Repr)) && Table() == old(Table())
      ensures FlowTable() == old(FlowTable())[f := SweepFrom(old(FlowTable()[f]), stray, 0)]
      ensures records == RecordsFrom(old(FlowTable()[f]), stray, 0)
    {
      hide Owned, Apart, ChunkParts, ListParts, Table, FlowTable, Nodes, ReconstructedChunk.Valid, FlowList.Valid,
           FlowList.Blocks, ChunkValue, SweepFrom, RecordsFrom;
      var list := flowList[f];
      ListEntry(f);
      ghost var changed := list.Repr;
      records := list.GrepList(stray);
      Repr := Repr + list.Repr;
      FlowPut(f, list, changed);
    }

    /** `grep_flows_for_chunks`, over the flows in list order. */
    method GrepFlowsForChunks(order: seq<FlowKey>, stray: (FlowKey, nat, int) -> Byte)
      requires Valid()
      modifies this, Repr
      ensures Valid() && fresh(Repr - old(Repr)) && Model() == SweepFlows(old(Model()), order, stray)
      ensures tainted == old(tainted) + StrayPlaces(old(Model()), order)
    {
      hide ReconstructedChunk.Valid, Owned, Table, FlowTable, Inv, SweepFlow, StrayPlaces, Model;
      ghost var more := tainted + StrayPlaces(Model(), order);
      InvMonotone(w, Model(), tainted, more);
      SweepFlowsInv(w, Model(), order, stray, more);
      var i := 0;
      while i < |order|
        invariant i <= |order| && Owned() && fresh(Repr - old(Repr))
        invariant SweepFlows(old(Model()), order, stray) == SweepFlows(Model(), order[i..], stray)
      {
        var f := order[i];
        assert order[i..][1..] == order[i + 1..];
        GrepFlow(f, stray);
        i := i + 1;
      }
      tainted := more;
    }

    /** Positions that the lists do not hold any more are trusted again. */
    ghost method Forget()
      requires Valid()
      modifies this`tainted
      ensures Valid() && tainted == Live(Model(), old(tainted))
    {
      hide Owned, Inv, Live, Model;
      InvLive(w, Model(), tainted);
      tainted := Live(Model(), tainted);
    }

    /** The capture loop: packets and sweeps as they come. */
    method Capture(es: seq<Event>)
      requires Valid() && Model() == INITIAL && tainted == iset{} && AllAcceptable(es) && Honest(w, es)
      modifies this, Repr
      ensures Valid() && Model() == Run(es) && tainted == TaintedAfter(es)
    {
      hide ReconstructedChunk.Valid, Owned, Table, Inv, Arrive, SweepFlows, Truthful, StrayPlaces, Live, FirstSeen,
           Unharmed, Model;
      var i := 0;
      while i < |es|
        invariant i <= |es| && Valid() && fresh(Repr - old(Repr))
        invariant Model() == Run(es[..i]) && tainted == TaintedAfter(es[..i])
      {
        assert es[..i + 1][..i] == es[..i] && es[..i + 1][i] == es[i];
        match es[i] {
          case Arrival(pkt) =>
            HandleIp(pkt);
            assert tainted + iset{} == tainted;
          case Sweep(order, stray) =>
            GrepFlowsForChunks(order, stray);
        }
        Forget();
        i := i + 1;
      }
      assert es[..|es|] == es;
    }
  }

  /** What a fill does to the nodes of the flow's list. */
  ghost predicate NodesKept(before: map<FlowKey, seq<ContiguousBlock>>, after: map<FlowKey, seq<ContiguousBlock>>,
                            st: State, c: ChunkId, f: FlowKey, n: nat, p: seq<Byte>) {
    f in before && f in st.flows && c in st.chunks && f in st.chunks[c].starts ==>
      && f in after
      && Returned(before[f], after[f], st.flows[f], n, p, Surplus(st.chunks[c].starts[f], st.chunks[c].length, n, |p|))
  }

  /** The consumed node is still in the list, where the value model says. */
  lemma NodeFound(before: map<FlowKey, seq<ContiguousBlock>>,
                  after: map<FlowKey, seq<ContiguousBlock>>, st: State, c: ChunkId, f: FlowKey, k: nat)
    requires f in before && f in st.flows && |before[f]| == |st.flows[f]| && k < |before[f]|
    requires c in st.chunks && f in st.chunks[c].starts && NodeAfterFill(st, c, f, k).Some?
    requires var b := st.flows[f][k]; NodesKept(before, after, st, c, f, b.start, b.data)
    requires var b := st.flows[f][k]; Surplus(st.chunks[c].starts[f], st.chunks[c].length, b.start, |b.data|) < |b.data|
    ensures var at := NodeAfterFill(st, c, f, k).value;
            f in after && at < |after[f]| && after[f][at] == before[f][k]
  {
    hide PlaceAfter, Surplus;
  }

  lemma MarkedFits(w: World, st: State, f: FlowKey, c: ChunkId, n: nat, p: seq<Byte>, tainted: iset<Place>)
    requires Inv(w, st, tainted) && |p| >= 4 && InWindow(w, f, n, n + |p|) && Offers(n, p, OfStream(w, f))
    requires n == w.place(f, c) && FragmentLength(p) == w.len(c) && 0 < w.len(c) <= |w.record(c)| && Carried(w, f, c)
    ensures var st1 := Register(st, f, c, n, FragmentLength(p));
            Inv(w, st1, tainted) && InChunk(w, st1, c, f, n, p, tainted) && c in st1.chunks && f in st1.chunks[c].starts
  {
    RegisterInv(w, st, f, c, tainted);
    MarkedInChunk(w, st, f, c, n, p, tainted);
  }

  lemma MarkInRange(w: World, pkt: Packet, hit: Hit)
    requires Truthful(w, pkt) && pkt.hit == Some(hit)
    ensures pkt.n + hit.offset < WRAP && pkt == Packet(pkt.flow, pkt.n, pkt.payload, Some(hit))
  {
  }

  lemma FillChunkValue(st: State, c: ChunkId, m: nat, q: seq<Byte>)
    requires c in st.chunks
    ensures var r := Fill(st.chunks[c].blocks, m, q);
            FillChunk(st, c, m, q)
            == ClipResult(State(st.flows, st.index, st.chunks[c := st.chunks[c].(blocks := r.blocks)],
                                st.sent, st.pulled, st.dups + r.dups, st.fault),
                          Completes(r, st.chunks[c].length))
  {
  }

  lemma ClipFillParts(w: World, st: State, c: ChunkId, f: FlowKey, n: nat, p: seq<Byte>, tainted: iset<Place>)
    requires Tables(w, st, tainted) && InChunk(w, st, c, f, n, p, tainted)
    ensures c in st.chunks && f in st.chunks[c].starts && n + |p| < WRAP
    ensures var diff := Surplus(st.chunks[c].starts[f], st.chunks[c].length, n, |p|);
            && diff < |p|
            && var st1, rest := ReturnSurplus(st, f, n, p, diff), p[..|p| - diff];
            && c in st1.chunks && f in st1.chunks[c].starts && Sub32(n, st1.chunks[c].starts[f]) + |rest| < WRAP
            && FillChunk(st1, c, Sub32(n, st1.chunks[c].starts[f]), rest) == ClipFill(st, c, f, n, p)
  {
    hide Fill, FlowInsert.Insert, Tables, Offers, FillChunk, ClipFill, Sub32, Surplus;
    ClipFillValue(w, st, c, f, n, p, tainted);
  }

  lemma CandidatesDone(st: State, c: ChunkId, f: FlowKey, k: nat)
    requires k >= |FlowOf(st, f)|
    ensures Candidates(st, c, f, k) == st
  {
  }

  lemma NoCandidate(w: World, st: State, c: ChunkId, f: FlowKey, k: nat, tainted: iset<Place>)
    requires Sheltered(st, c, f, k, tainted) && k < |FlowOf(st, f)|
    requires var b := FlowOf(st, f)[k];
             !(st.chunks[c].starts[f] < b.start < st.chunks[c].starts[f] + st.chunks[c].length)
    ensures Candidates(st, c, f, k) == Candidates(st, c, f, k + 1) && Sheltered(st, c, f, k + 1, tainted)
  {
    hide Engine.FillAndSend, NodeAfterFill, ClearOf, Head;
    var ch := st.chunks[c];
    assert FlowOf(st, f)[k..][1..] == FlowOf(st, f)[k + 1..];
    ClearTail(FlowOf(st, f)[k..], f, ch.starts[f], ch.length, ch.starts[f] + Head(ch.blocks),
              ch.starts[f] + Head(ch.blocks), tainted);
  }

  lemma ShelteredEntry(st: State, c: ChunkId, f: FlowKey, k: nat, tainted: iset<Place>)
    requires Sheltered(st, c, f, k, tainted)
    ensures c in st.chunks && f in st.chunks[c].starts
  {
  }

  /** One round of the candidate loop. */
  lemma CandidateStep(w: World, st: State, c: ChunkId, f: FlowKey, k: nat, tainted: iset<Place>)
    requires Inv(w, st, tainted) && Sheltered(st, c, f, k, tainted) && k < |FlowOf(st, f)|
    requires var b := FlowOf(st, f)[k];
             st.chunks[c].starts[f] < b.start < st.chunks[c].starts[f] + st.chunks[c].length
    ensures var b := FlowOf(st, f)[k];
            var st1 := Engine.FillAndSend(st, c, f, b.start, b.data);
            && InChunk(w, st, c, f, b.start, b.data, tainted) && b.start < WRAP
            && Surplus(st.chunks[c].starts[f], st.chunks[c].length, b.start, |b.data|) < |b.data|
            && f in st1.flows && NodeAfterFill(st, c, f, k).Some?
            && var at := NodeAfterFill(st, c, f, k).value;
            && at < |FlowOf(st1, f)| && |FlowOf(st1, f)| - at == |FlowOf(st, f)| - k
            && var st2 := st1.(flows := st1.flows[f := Without(FlowOf(st1, f), at)]);
            && Candidates(st, c, f, k) == Candidates(st2, c, f, at) && Sheltered(st2, c, f, at, tainted)
  {
    hide Fill, Insert, ClipFill, Surplus, Engine.FillAndSend, Inv, Tables, InChunk, PlaceAfter, NodeAfterFill, ClearOf;
    var b := FlowOf(st, f)[k];
    InvTables(w, st, tainted);
    CandidateInChunk(w, st, c, f, k, tainted);
    ChunkRangeNoWrap(w, st, c, f, b.start, b.data, tainted);
    ClipFillValue(w, st, c, f, b.start, b.data, tainted);
    ShelteredNext(w, st, c, f, k, tainted);
    FillKeepsRest(st, c, f, k);
  }

  lemma ChunkRangeNoWrap(w: World, st: State, c: ChunkId, f: FlowKey, n: nat, p: seq<Byte>, tainted: iset<Place>)
    requires InChunk(w, st, c, f, n, p, tainted)
    ensures n < WRAP
  {
  }

  lemma InvTables(w: World, st: State, tainted: iset<Place>)
    requires Inv(w, st, tainted)
    ensures Tables(w, st, tainted)
  {
  }

  /** An index hit names a chunk whose range holds the packet's first byte. */
  lemma RangeInChunk(w: World, st: State, f: FlowKey, n: nat, p: seq<Byte>, tainted: iset<Place>)
    requires Inv(w, st, tainted) && p != [] && InWindow(w, f, n, n + |p|) && Offers(n, p, OfStream(w, f))
    requires f in st.index && Lookup(st.index[f], n).Some?
    ensures InChunk(w, st, Lookup(st.index[f], n).value.id, f, n, p, tainted)
  {
    var i := LookupSound(st.index[f], n);
    assert InfoOk(st, f, st.index[f][i]);
    TrulyInChunk(w, st, st.index[f][i].id, f, n, p, tainted);
  }
}
