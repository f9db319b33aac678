/** The paged chunk and descriptor transfer between two GTC daemons (xferPlugin_gtc.cc). */
module PagedTransfer {
  import opened Blocks

  type Id = seq<Byte>

  /** What an RPC call comes back with: nothing usable, or the peer's answer. */
  datatype Rpc<+T> = Lost | Answer(value: T)

  /** xfergtc_get_chunk_res. */
  datatype ChunkRes = Refused | Page(offset: nat, data: seq<Byte>, end: bool, chunkId: Id)

  /** A chunk fetch: what has arrived so far, or what the callback got. */
  datatype Fetch = Waiting(data: seq<Byte>) | Delivered(data: seq<Byte>) | Failed

  // ---------- the server ----------

  /** The page at an offset of a chunk. */
  function PageAt(chunk: seq<Byte>, id: Id, offset: nat, sendSize: nat): ChunkRes {
    if offset >= |chunk| then Refused
    else
      var rest := |chunk| - offset;
      var n := if rest < sendSize then rest else sendSize;
      Page(offset, chunk[offset..offset + n], n == rest, id)
  }

  class ChunkServer {
    const sendSize: nat
    var numChunksServed: nat
    var numBytesOfChunksServed: nat

    constructor (sendSize: nat)
      ensures this.sendSize == sendSize && numChunksServed == 0 && numBytesOfChunksServed == 0
    {
      this.sendSize := sendSize;
      numChunksServed, numBytesOfChunksServed := 0, 0;
    }

    /** `remote_get_chunk_cb`; None: no reply yet, the chunk is asked for at the next hop. */
    method RemoteGetChunkCb(lastTry: bool, servedChunk: bool, storage: Rpc<seq<Byte>>, id: Id, offset: nat)
      returns (reply: Option<ChunkRes>)
      modifies this
      ensures storage.Lost? ==> reply == if lastTry then Some(Refused) else None
      ensures storage.Answer? ==> reply == Some(PageAt(storage.value, id, offset, sendSize))
      ensures numBytesOfChunksServed == old(numBytesOfChunksServed)
              + if servedChunk && reply.Some? && reply.value.Page? then |reply.value.data| else 0
      ensures numChunksServed == old(numChunksServed) + if servedChunk && reply.Some? && reply.value.Page? then 1 else 0
    {
      if storage.Lost? {
        return if lastTry then Some(Refused) else None;
      }
      var data := storage.value;
      if offset >= |data| {
        return Some(Refused);
      }
      var numBytes := if |data| - offset < sendSize then |data| - offset else sendSize;
      var end := !(numBytes < |data| - offset);
      if servedChunk {
        numChunksServed := numChunksServed + 1;
        numBytesOfChunksServed := numBytesOfChunksServed + numBytes;
      }
      if offset > 0 {
        data := data[offset..];
      }
      assert data[..numBytes] == storage.value[offset..offset + numBytes];
      return Some(Page(offset, data[..numBytes], end, id));
    }
  }

  // ---------- the client ----------

  /** One reply: `get_chunk_internal_cb`. */
  function Absorb(hash: seq<Byte> -> Id, id: Id, data: seq<Byte>, reply: Rpc<ChunkRes>): Fetch {
    if reply.Lost? || reply.value.Refused? then Failed
    else
      var all := data + reply.value.data;
      if !reply.value.end then Waiting(all)
      else if hash(all) != id then Failed
      else Delivered(all)
  }

  /** A fetch over a sequence of replies; nothing is asked for after the callback, so later replies do not count. */
  function Play(hash: seq<Byte> -> Id, id: Id, s: Fetch, replies: seq<Rpc<ChunkRes>>): Fetch
    decreases |replies|
  {
    if replies == [] || !s.Waiting? then s
    else Play(hash, id, Absorb(hash, id, s.data, replies[0]), replies[1..])
  }

  class ChunkClient {
    const hash: seq<Byte> -> Id
    const id: Id
    var data: seq<Byte>
    var gotReply: nat

    constructor (hash: seq<Byte> -> Id, id: Id)
      ensures this.hash == hash && this.id == id && data == [] && gotReply == 0
    {
      this.hash, this.id := hash, id;
      data, gotReply := [], 0;
    }

    /**
     * `get_chunk_internal_cb`: the new state is what Absorb says; while it waits, the next offset is the buffer's
     * length.
     */
    method GetChunkInternalCb(reply: Rpc<ChunkRes>) returns (s: Fetch)
      modifies this
      ensures s == Absorb(hash, id, old(data), reply)
      ensures !s.Failed? ==> data == s.data
      ensures gotReply == old(gotReply) + if reply.Answer? && reply.value.Page? then 1 else 0
    {
      if reply.Lost? {
        return Failed;
      }
      if reply.value.Refused? {
        return Failed;
      }
      gotReply := gotReply + 1;
      data := data + reply.value.data;
      if reply.value.end {
        if hash(data) != id {
          return Failed;
        }
        return Delivered(data);
      }
      return Waiting(data);
    }
  }

  // ---------- any server ----------

  /** The bytes of all pages, in order of arrival. */
  function PageBytes(replies: seq<Rpc<ChunkRes>>): seq<Byte> {
    if replies == [] then []
    else (if replies[0].Answer? && replies[0].value.Page? then replies[0].value.data else []) + PageBytes(replies[1..])
  }

  /** Pages only, and exactly the last one says it is the end. */
  predicate Complete(replies: seq<Rpc<ChunkRes>>) {
    && replies != []
    && (forall i :: 0 <= i < |replies| ==> replies[i].Answer? && replies[i].value.Page?)
    && (forall i :: 0 <= i < |replies| ==> (replies[i].value.end <==> i == |replies| - 1))
  }

  /**
   * Whatever the server answers: a delivered buffer is the pages up to the first end, and it hashes to the id asked
   * for.
   */
  lemma {:induction false} DeliveredIsGenuine(hash: seq<Byte> -> Id, id: Id,
                                              data: seq<Byte>, replies: seq<Rpc<ChunkRes>>)
    returns (k: nat)
    ensures Play(hash, id, Waiting(data), replies).Delivered? ==>
              && k <= |replies| && Complete(replies[..k])
              && Play(hash, id, Waiting(data), replies).data == data + PageBytes(replies[..k])
              && hash(data + PageBytes(replies[..k])) == id
    decreases |replies|
  {
    k := 0;
    if replies != [] {
      var s := Absorb(hash, id, data, replies[0]);
      if s.Delivered? {
        k := 1;
        assert replies[..1] == [replies[0]];
        assert PageBytes([replies[0]]) == replies[0].value.data + PageBytes([]);
      } else if s.Waiting? {
        var j := DeliveredIsGenuine(hash, id, s.data, replies[1..]);
        k := j + 1;
        if Play(hash, id, s, replies[1..]).Delivered? {
          assert replies[..k] == [replies[0]] + replies[1..][..j];
          assert PageBytes(replies[..k]) == replies[0].value.data + PageBytes(replies[1..][..j]);
          assert data + PageBytes(replies[..k]) == s.data + PageBytes(replies[1..][..j]);
        }
      }
    }
  }

  /** And every complete run of pages with the right hash is delivered. */
  lemma {:induction false} CompleteIsDelivered(hash: seq<Byte> -> Id, id: Id, data: seq<Byte>,
                                               replies: seq<Rpc<ChunkRes>>, k: nat)
    requires k <= |replies| && Complete(replies[..k]) && hash(data + PageBytes(replies[..k])) == id
    ensures Play(hash, id, Waiting(data), replies) == Delivered(data + PageBytes(replies[..k]))
    decreases k
  {
    var r, s := replies[0], Absorb(hash, id, data, replies[0]);
    assert replies[..k][0] == r;
    assert replies[..k][1..] == replies[1..][..k - 1];
    assert data + PageBytes(replies[..k]) == data + r.value.data + PageBytes(replies[1..][..k - 1]);
    if k == 1 {
      assert r.value.end && PageBytes(replies[1..][..0]) == [];
      assert data + r.value.data + [] == data + r.value.data;
      assert Play(hash, id, s, replies[1..]) == s;
    } else {
      var rest := replies[1..][..k - 1];
      assert forall i :: 0 <= i < |rest| ==> rest[i] == replies[..k][i + 1];
      CompleteIsDelivered(hash, id, s.data, replies[1..], k - 1);
    }
  }

  /** If no other bytes share the chunk's hash, a delivered buffer is the chunk, whoever served it. */
  lemma DeliveredIsTheChunk(hash: seq<Byte> -> Id, chunk: seq<Byte>, replies: seq<Rpc<ChunkRes>>)
    requires forall other :: hash(other) == hash(chunk) ==> other == chunk
    requires Play(hash, hash(chunk), Waiting([]), replies).Delivered?
    ensures Play(hash, hash(chunk), Waiting([]), replies).data == chunk
  {
    var k := DeliveredIsGenuine(hash, hash(chunk), [], replies);
  }

  // ---------- a stable server ----------

  /** Client and server together, k replies long: each request asks for the buffer's length. */
  function Exchange(hash: seq<Byte> -> Id, id: Id, chunk: seq<Byte>, sendSize: nat, k: nat): Fetch {
    if k == 0 then Waiting([])
    else
      var s := Exchange(hash, id, chunk, sendSize, k - 1);
      if !s.Waiting? then s else Absorb(hash, id, s.data, Answer(PageAt(chunk, id, |s.data|, sendSize)))
  }

  /** How many pages of n items a list of length len takes: the quotient rounded up. */
  function Pages(len: nat, n: nat): (p: nat)
    requires n > 0
    ensures len <= p * n < len + n
  {
    (len + n - 1) / n
  }

  lemma PagesExact(len: nat, n: nat, k: nat)
    requires n > 0
    ensures k < Pages(len, n) <==> k * n < len
  {
    var p := Pages(len, n);
    if k < p {
      assert (p - 1) * n == p * n - n;
      assert k * n <= (p - 1) * n by { Monotone(k, p - 1, n); }
    } else {
      Monotone(p, k, n);
    }
  }

  lemma Monotone(a: nat, b: nat, n: nat)
    requires a <= b
    ensures a * n <= b * n
  {
    assert (b - a) * n >= 0;
    assert b * n == a * n + (b - a) * n;
  }

  /**
   * A stable server: after k replies the buffer is the chunk's first k pages, and the callback comes with reply number
   * ceil(len / sendSize). An empty chunk cannot be fetched: its first request already has an invalid offset.
   */
  lemma {:induction false} StableFetch(hash: seq<Byte> -> Id, id: Id, chunk: seq<Byte>, sendSize: nat, k: nat)
    requires sendSize > 0
    ensures Exchange(hash, id, chunk, sendSize, k) ==
              if chunk == [] then (if k == 0 then Waiting([]) else Failed)
              else if k * sendSize < |chunk| then Waiting(chunk[..k * sendSize])
              else if hash(chunk) == id then Delivered(chunk)
              else Failed
  {
    hide Exchange, Absorb, PageAt;
    FetchStart(hash, id, chunk, sendSize);
    if k > 0 {
      StableFetch(hash, id, chunk, sendSize, k - 1);
      assert k * sendSize == (k - 1) * sendSize + sendSize;
      FetchStep(hash, id, chunk, sendSize, k);
      PageStep(hash, id, chunk, sendSize, (k - 1) * sendSize);
    }
  }

  lemma FetchStart(hash: seq<Byte> -> Id, id: Id, chunk: seq<Byte>, sendSize: nat)
    ensures Exchange(hash, id, chunk, sendSize, 0) == Waiting([]) && chunk[..0] == []
  {
  }

  /** One more exchange. */
  lemma FetchStep(hash: seq<Byte> -> Id, id: Id, chunk: seq<Byte>, sendSize: nat, k: nat)
    requires k > 0
    ensures var s, t := Exchange(hash, id, chunk, sendSize, k - 1), Exchange(hash, id, chunk, sendSize, k);
            t == if s.Waiting? then Absorb(hash, id, s.data, Answer(PageAt(chunk, id, |s.data|, sendSize))) else s
  {
  }

  /** The answer to a request at an offset, and what the client makes of it. */
  lemma PageStep(hash: seq<Byte> -> Id, id: Id, chunk: seq<Byte>, sendSize: nat, at: nat)
    ensures chunk == [] ==> Absorb(hash, id, [], Answer(PageAt(chunk, id, 0, sendSize))) == Failed
    ensures at < |chunk| ==>
              Absorb(hash, id, chunk[..at], Answer(PageAt(chunk, id, at, sendSize))) ==
                if at + sendSize < |chunk| then Waiting(chunk[..at + sendSize])
                else if hash(chunk) == id then Delivered(chunk) else Failed
  {
    if at < |chunk| {
      if at + sendSize < |chunk| {
        assert chunk[..at] + chunk[at..at + sendSize] == chunk[..at + sendSize];
      } else {
        assert chunk[..at] + chunk[at..at + (|chunk| - at)] == chunk;
      }
    }
  }

  /**
   * The fetch ends, with the whole chunk, exactly at reply ceil(len / sendSize), if and only if the chunk is not empty.
   */
  lemma EndsWithLastPage(hash: seq<Byte> -> Id, chunk: seq<Byte>, sendSize: nat, k: nat)
    requires sendSize > 0
    ensures Exchange(hash, hash(chunk), chunk, sendSize, k) == Delivered(chunk) <==>
              chunk != [] && k >= Pages(|chunk|, sendSize)
    ensures k < Pages(|chunk|, sendSize) ==>
              && k * sendSize < |chunk|
              && Exchange(hash, hash(chunk), chunk, sendSize, k) == Waiting(chunk[..k * sendSize])
  {
    StableFetch(hash, hash(chunk), chunk, sendSize, k);
    PagesExact(|chunk|, sendSize, k);
  }

  /** One round of a fetch that still waits: a page more, or the refusal of an empty chunk. */
  lemma FetchRound(hash: seq<Byte> -> Id, id: Id, chunk: seq<Byte>, sendSize: nat, k: nat)
    requires sendSize > 0 && Exchange(hash, id, chunk, sendSize, k).Waiting?
    ensures var s := Exchange(hash, id, chunk, sendSize, k);
            var page := PageAt(chunk, id, |s.data|, sendSize);
            var t := Absorb(hash, id, s.data, Answer(page));
            && t == Exchange(hash, id, chunk, sendSize, k + 1)
            && if chunk == [] then page.Refused? && t.Failed? && k == Pages(|chunk|, sendSize) == 0
               else
                 && page.Page? && k < Pages(|chunk|, sendSize)
                 && (t.Waiting? ==> |t.data| == |s.data| + |page.data| < |chunk|)
                 && (!t.Waiting? ==> k + 1 == Pages(|chunk|, sendSize) && |s.data| + |page.data| == |chunk|)
  {
    hide Absorb, Exchange, Pages;
    StableFetch(hash, id, chunk, sendSize, k);
    StableFetch(hash, id, chunk, sendSize, k + 1);
    FetchStep(hash, id, chunk, sendSize, k + 1);
    PagesExact(|chunk|, sendSize, k);
    PagesExact(|chunk|, sendSize, k + 1);
    assert (k + 1) * sendSize == k * sendSize + sendSize;
    if chunk == [] {
      PagesExact(0, sendSize, 0);
      PageStep(hash, id, chunk, sendSize, 0);
    }
  }

  /** One fetch of a chunk, message by message; the counters count pages and bytes sent. */
  method FetchChunk(server: ChunkServer, client: ChunkClient, chunk: seq<Byte>) returns (s: Fetch)
    requires server.sendSize > 0 && client.data == []
    modifies server, client
    ensures s == if chunk != [] && client.hash(chunk) == client.id then Delivered(chunk) else Failed
    ensures client.gotReply == old(client.gotReply) + Pages(|chunk|, server.sendSize)
    ensures server.numChunksServed == old(server.numChunksServed) + Pages(|chunk|, server.sendSize)
    ensures server.numBytesOfChunksServed == old(server.numBytesOfChunksServed) + |chunk|
  {
    hide Exchange, PageAt, Absorb, Pages;
    FetchStart(client.hash, client.id, chunk, server.sendSize);
    ghost var k := 0;
    s := Waiting([]);
    while s.Waiting?
      invariant s == Exchange(client.hash, client.id, chunk, server.sendSize,
                                 k + if chunk == [] && s.Failed? then 1 else 0)
      invariant k <= Pages(|chunk|, server.sendSize)
      invariant s.Waiting? ==> client.data == s.data && (|s.data| < |chunk| || chunk == [])
                               && server.numBytesOfChunksServed == old(server.numBytesOfChunksServed) + |s.data|
      invariant !s.Waiting? ==> k == Pages(|chunk|, server.sendSize)
                                && server.numBytesOfChunksServed == old(server.numBytesOfChunksServed) + |chunk|
      invariant client.gotReply == old(client.gotReply) + k && server.numChunksServed == old(server.numChunksServed) + k
      decreases Pages(|chunk|, server.sendSize) - k, s.Waiting?
    {
      FetchRound(client.hash, client.id, chunk, server.sendSize, k);
      var reply := server.RemoteGetChunkCb(false, true, Answer(chunk), client.id, |client.data|);
      s := client.GetChunkInternalCb(Answer(reply.value));
      k := k + if chunk == [] then 0 else 1;
    }
    StableFetch(client.hash, client.id, chunk, server.sendSize, k);
    PagesExact(|chunk|, server.sendSize, k);
  }

  // ---------- descriptor lists ----------

  /** xfergtc_get_descriptors_res. */
  datatype DescRes<+D> = DescRefused | DescPage(offset: nat, descriptors: seq<D>, count: nat, end: bool)

  /** One call of the descriptors callback. */
  datatype Call<+D> = Descs(descriptors: seq<D>, end: bool) | CallError

  /** The callback's calls so far and the offset of the outstanding request, if any. */
  datatype Listing<+D> = Listing(calls: seq<Call<D>>, next: Option<nat>)

  /** How many descriptors the server puts into one reply. */
  function MaxDescriptors(sendSize: nat, mdSize: nat): nat
    requires mdSize > 0
  {
    sendSize * 2 / (mdSize * 5)
  }

  /** The page at an offset of a descriptor list; unlike a chunk, an empty list has a first page. */
  function DescsAt<D>(descs: seq<D>, offset: nat, maxd: nat): (r: DescRes<D>)
    ensures r.DescPage? ==> r.count == |r.descriptors|
  {
    if offset > 0 && offset >= |descs| then DescRefused
    else
      var numd := if |descs| - offset < maxd then |descs| - offset else maxd;
      DescPage(offset, descs[offset..offset + numd], numd, |descs| - offset <= maxd)
  }

  /** `remote_get_descriptors_cb`. */
  method RemoteGetDescriptorsCb<D>(offset: nat, storage: Rpc<seq<D>>, maxd: nat) returns (res: DescRes<D>)
    ensures res == if storage.Lost? then DescRefused else DescsAt(storage.value, offset, maxd)
  {
    if storage.Lost? {
      return DescRefused;
    }
    var descs := storage.value;
    if offset > 0 && offset >= |descs| {
      return DescRefused;
    }
    var numd := if |descs| - offset < maxd then |descs| - offset else maxd;
    var end := |descs| - offset <= maxd;
    var page: seq<D> := [];
    var i := offset;
    while i < offset + numd
      invariant offset <= i <= offset + numd && page == descs[offset..i]
    {
      page := page + [descs[i]];
      i := i + 1;
    }
    return DescPage(offset, page, numd, end);
  }

  /** One reply at the client; None where it would read past the reply's descriptors. */
  function AbsorbDescs<D>(s: Listing<D>, reply: Rpc<DescRes<D>>): Option<Listing<D>> {
    if reply.Lost? || reply.value.DescRefused? then Some(Listing(s.calls + [CallError], None))
    else if reply.value.count > |reply.value.descriptors| then None
    else
      Some(Listing(s.calls + [Descs(reply.value.descriptors[..reply.value.count], reply.value.end)],
                   if reply.value.end then None else Some(reply.value.count + reply.value.offset)))
  }

  class DescriptorClient<D> {
    var calls: seq<Call<D>>
    var next: Option<nat>

    constructor ()
      ensures calls == [] && next == Some(0)
    {
      calls, next := [], Some(0);
    }

    /**
     * `get_desc_internal_cb`; inside is false where it reads past the descriptors of a reply that announces more than
     * it has.
     */
    method GetDescInternalCb(reply: Rpc<DescRes<D>>) returns (inside: bool)
      modifies this
      ensures inside <==> AbsorbDescs(Listing(old(calls), old(next)), reply).Some?
      ensures inside ==> Some(Listing(calls, next)) == AbsorbDescs(Listing(old(calls), old(next)), reply)
      ensures !inside ==> calls == old(calls) && next == old(next)
      ensures reply.Lost? || reply.value.DescRefused? ==> inside && calls == old(calls) + [CallError] && next == None
      ensures reply.Answer? && reply.value.DescPage? ==>
                var page := reply.value;
                && (inside <==> page.count <= |page.descriptors|)
                && (inside ==>
                      && calls == old(calls) + [Descs(page.descriptors[..page.count], page.end)]
                      && next == if page.end then None else Some(page.offset + page.count))
    {
      if reply.Lost? || reply.value.DescRefused? {
        calls, next := calls + [CallError], None;
        return true;
      }
      var descptr: seq<D> := [];
      var i := 0;
      while i < reply.value.count
        invariant i <= reply.value.count && i <= |reply.value.descriptors| && descptr == reply.value.descriptors[..i]
        invariant calls == old(calls) && next == old(next)
      {
        if i == |reply.value.descriptors| {
          return false;
        }
        descptr := descptr + [reply.value.descriptors[i]];
        i := i + 1;
      }
      next := if !reply.value.end then Some(reply.value.count + reply.value.offset) else None;
      calls := calls + [Descs(descptr, reply.value.end)];
      return true;
    }
  }

  // ---------- any server of descriptors ----------

  /** A listing over a sequence of replies; None where the client would read past a reply. */
  function PlayDescs<D>(s: Listing<D>, replies: seq<Rpc<DescRes<D>>>): Option<Listing<D>>
    decreases |replies|
  {
    if replies == [] || s.next.None? then Some(s)
    else match AbsorbDescs(s, replies[0])
      case None => None
      case Some(t) => PlayDescs(t, replies[1..])
  }

  predicate Unusable<D>(reply: Rpc<DescRes<D>>) {
    reply.Lost? || reply.value.DescRefused?
  }

  /** A page that announces more descriptors than it has. */
  predicate Overstates<D>(reply: Rpc<DescRes<D>>) {
    !Unusable(reply) && reply.value.count > |reply.value.descriptors|
  }

  /** The call that a reply owes: an error for a lost or refused one, else its announced descriptors and its end. */
  ghost predicate Owed<D>(reply: Rpc<DescRes<D>>, call: Call<D>) {
    if Unusable(reply) then call.CallError?
    else
      && call.Descs? && call.end == reply.value.end && |call.descriptors| == reply.value.count
      && call.descriptors <= reply.value.descriptors
  }

  /** A page in order that is not the last one. */
  predicate GoesOn<D>(reply: Rpc<DescRes<D>>) {
    !Unusable(reply) && !Overstates(reply) && !reply.value.end
  }

  /**
   * Whatever the server answers: k replies are used, each for the one call it owes; all of them but the last are pages
   * that do not say end. Nothing is asked for behind an error or an end, and otherwise what follows the last page.
   */
  ghost predicate Genuine<D>(replies: seq<Rpc<DescRes<D>>>, t: Listing<D>, before: seq<Call<D>>, start: nat, k: nat) {
    && k <= |replies| && |t.calls| == |before| + k && before <= t.calls
    && (forall i :: 0 <= i < k ==> Owed(replies[i], t.calls[|before| + i]))
    && (forall i :: 0 <= i < k - 1 ==> GoesOn(replies[i]))
    && if k > 0 && !GoesOn(replies[k - 1]) then t.next == None
       else
         k == |replies| && t.next == Some(if k == 0 then start
             else replies[k - 1].value.offset + replies[k - 1].value.count)
  }

  /** Every listing is genuine, unless the first reply that does not go on overstates what it has. */
  lemma {:induction false} ListingIsGenuine<D>(s: Listing<D>, replies: seq<Rpc<DescRes<D>>>) returns (k: nat)
    requires s.next.Some?
    ensures PlayDescs(s, replies).Some? ==> Genuine(replies, PlayDescs(s, replies).value, s.calls, s.next.value, k)
    ensures PlayDescs(s, replies).None? <==>
              exists j :: 0 <= j < |replies| && Overstates(replies[j]) && forall i :: 0 <= i < j ==> GoesOn(replies[i])
    decreases |replies|
  {
    k := 0;
    if replies != [] {
      var r, rest := replies[0], replies[1..];
      assert forall i :: 0 < i < |replies| ==> rest[i - 1] == replies[i];
      if GoesOn(r) {
        var t := AbsorbDescs(s, r).value;
        k := ListingIsGenuine(t, rest);
        if PlayDescs(t, rest).Some? {
          GenuineStep(replies, PlayDescs(t, rest).value, s, t, k);
        } else {
          var j :| 0 <= j < |rest| && Overstates(rest[j]) && forall i :: 0 <= i < j ==> GoesOn(rest[i]);
          assert Overstates(replies[j + 1]);
        }
        k := k + 1;
        if exists j :: 0 <= j < |replies| && Overstates(replies[j]) && forall i :: 0 <= i < j ==> GoesOn(replies[i]) {
          OverstatesLater(replies);
        }
      } else if !Overstates(r) {
        k := 1;
      } else {
        assert Overstates(replies[0]);
      }
    }
  }

  lemma OverstatesLater<D>(replies: seq<Rpc<DescRes<D>>>)
    requires replies != [] && GoesOn(replies[0])
    requires exists j :: 0 <= j < |replies| && Overstates(replies[j]) && forall i :: 0 <= i < j ==> GoesOn(replies[i])
    ensures var rest := replies[1..];
            exists j :: 0 <= j < |rest| && Overstates(rest[j]) && forall i :: 0 <= i < j ==> GoesOn(rest[i])
  {
    var rest := replies[1..];
    var j :| 0 <= j < |replies| && Overstates(replies[j]) && forall i :: 0 <= i < j ==> GoesOn(replies[i]);
    assert Overstates(rest[j - 1]);
    assert forall i :: 0 <= i < j - 1 ==> rest[i] == replies[i + 1];
  }

  lemma GenuineStep<D>(replies: seq<Rpc<DescRes<D>>>, end: Listing<D>, s: Listing<D>, t: Listing<D>, k: nat)
    requires replies != [] && GoesOn(replies[0]) && s.next.Some? && AbsorbDescs(s, replies[0]) == Some(t)
    requires t.next.Some? && Genuine(replies[1..], end, t.calls, t.next.value, k)
    ensures Genuine(replies, end, s.calls, s.next.value, k + 1)
  {
    var rest := replies[1..];
    assert end.calls[|s.calls|] == t.calls[|s.calls|];
    forall i | 0 <= i < k + 1
      ensures Owed(replies[i], end.calls[|s.calls| + i])
    {
      if i > 0 {
        assert Owed(rest[i - 1], end.calls[|t.calls| + (i - 1)]);
      }
    }
    forall i | 0 <= i < k
      ensures GoesOn(replies[i])
    {
      if i > 0 {
        assert GoesOn(rest[i - 1]);
      }
    }
    if k > 0 {
      assert rest[k - 1] == replies[k];
    }
  }

  /**
   * What the callback is told ends as the server says, and only then: a call with end set comes from a page with end.
   */
  lemma EndIsSaid<D>(s: Listing<D>, replies: seq<Rpc<DescRes<D>>>, i: nat)
    requires s.next.Some? && PlayDescs(s, replies).Some?
    requires var t := PlayDescs(s, replies).value;
             i < |t.calls| - |s.calls| && t.calls[|s.calls| + i].Descs? && t.calls[|s.calls| + i].end
    ensures var t := PlayDescs(s, replies).value;
            && i < |replies| && replies[i].Answer? && replies[i].value.DescPage? && replies[i].value.end
            && i == |t.calls| - |s.calls| - 1 && t.next == None
  {
    var k := ListingIsGenuine(s, replies);
    assert Owed(replies[i], PlayDescs(s, replies).value.calls[|s.calls| + i]);
  }

  /** k replies of a stable server. */
  function List<D>(descs: seq<D>, maxd: nat, k: nat): (s: Listing<D>)
  {
    if k == 0 then Listing([], Some(0))
    else
      var s := List(descs, maxd, k - 1);
      if s.next.None? then s else AbsorbDescs(s, Answer(DescsAt(descs, s.next.value, maxd))).value
  }

  /** All descriptors handed to the callback. */
  function Listed<D>(calls: seq<Call<D>>): seq<D> {
    if calls == [] then []
    else Listed(calls[..|calls| - 1]) + if calls[|calls| - 1].Descs? then calls[|calls| - 1].descriptors else []
  }

  /** Every call is a page, and end is set on the last call at most. */
  predicate OnlyLastEnds<D>(calls: seq<Call<D>>, done: bool) {
    forall i :: 0 <= i < |calls| ==> calls[i].Descs? && (calls[i].end <==> done && i == |calls| - 1)
  }

  function ListPages(len: nat, maxd: nat): nat
    requires maxd > 0
  {
    if len == 0 then 1 else Pages(len, maxd)
  }

  lemma ListStart<D>(descs: seq<D>, maxd: nat)
    ensures Underway(descs, List(descs, maxd, 0), 0, 0)
  {
  }

  /** One more page. */
  lemma ListStep<D>(descs: seq<D>, maxd: nat, k: nat, at: nat)
    requires k > 0 && List(descs, maxd, k - 1).next == Some(at) && at <= |descs| && (at == 0 || at < |descs|)
    ensures var s, t := List(descs, maxd, k - 1), List(descs, maxd, k);
            var end := |descs| - at <= maxd;
            var page := if end then descs[at..] else descs[at..at + maxd];
            && t.calls == s.calls + [Descs(page, end)] && t.next == (if end then None else Some(at + maxd))
            && Listed(t.calls) == Listed(s.calls) + page
  {
    var s := List(descs, maxd, k - 1);
    var page := DescsAt(descs, at, maxd);
    assert page.descriptors[..page.count] == page.descriptors;
    assert |descs| - at <= maxd ==> page.descriptors == descs[at..];
    assert List(descs, maxd, k) == AbsorbDescs(s, Answer(page)).value;
    assert (s.calls + [Descs(page.descriptors, page.end)])[..|s.calls|] == s.calls;
  }

  /** What a listing looks like when the descriptors below at have been handed over and more are asked for. */
  ghost predicate Underway<D>(descs: seq<D>, s: Listing<D>, k: nat, at: nat) {
    && s.next == Some(at) && at <= |descs| && |s.calls| == k && Listed(s.calls) == descs[..at]
    && OnlyLastEnds(s.calls, false)
  }

  ghost predicate Finished<D>(descs: seq<D>, s: Listing<D>, k: nat) {
    s.next == None && |s.calls| == k && Listed(s.calls) == descs && OnlyLastEnds(s.calls, true)
  }

  lemma StableStep<D>(descs: seq<D>, maxd: nat, k: nat, at: nat)
    requires k > 0 && (at == 0 || at < |descs|) && Underway(descs, List(descs, maxd, k - 1), k - 1, at)
    ensures if at + maxd < |descs| then Underway(descs, List(descs, maxd, k), k, at + maxd)
            else Finished(descs, List(descs, maxd, k), k)
  {
    hide List, Listed;
    ListStep(descs, maxd, k, at);
    assert descs[..at] + descs[at..] == descs;
    if at + maxd < |descs| {
      assert descs[..at] + descs[at..at + maxd] == descs[..at + maxd];
    }
  }

  /** A stable list: the pages so far are its prefix, and the last of them, and only it, says end. */
  lemma {:induction false} StableListing<D>(descs: seq<D>, maxd: nat, k: nat)
    requires maxd > 0
    ensures k < ListPages(|descs|, maxd) ==> Underway(descs, List(descs, maxd, k), k, k * maxd)
    ensures k >= ListPages(|descs|, maxd) ==> Finished(descs, List(descs, maxd, k), ListPages(|descs|, maxd))
  {
    hide List, Listed, Pages, Underway, Finished;
    if k == 0 {
      ListStart(descs, maxd);
    } else {
      StableListing(descs, maxd, k - 1);
      PagesExact(|descs|, maxd, k - 1);
      PagesExact(|descs|, maxd, k);
      assert k * maxd == (k - 1) * maxd + maxd;
      if k - 1 < ListPages(|descs|, maxd) {
        StableStep(descs, maxd, k, (k - 1) * maxd);
      } else {
        FinishedNext(descs, List(descs, maxd, k - 1), ListPages(|descs|, maxd));
        ListStays(descs, maxd, k);
      }
    }
  }

  lemma FinishedNext<D>(descs: seq<D>, s: Listing<D>, k: nat)
    requires Finished(descs, s, k)
    ensures s.next.None?
  {
  }

  lemma ListStays<D>(descs: seq<D>, maxd: nat, k: nat)
    requires k > 0 && List(descs, maxd, k - 1).next.None?
    ensures List(descs, maxd, k) == List(descs, maxd, k - 1)
  {
  }

  /** With room for no descriptor at all, a list that is not empty is asked for at offset 0 for ever. */
  lemma {:induction false} NoRoomNeverEnds<D>(descs: seq<D>, k: nat)
    requires descs != []
    ensures List(descs, 0, k).next == Some(0) && Listed(List(descs, 0, k).calls) == []
  {
    if k > 0 {
      NoRoomNeverEnds(descs, k - 1);
      var s := List(descs, 0, k - 1);
      assert (s.calls + [Descs([], false)])[..|s.calls|] == s.calls;
    }
  }

  /** As many descriptors as fit when each takes five digests and the page twice its size. */
  lemma MaxDescriptorsFit(sendSize: nat, mdSize: nat, n: nat)
    requires mdSize > 0
    ensures n <= MaxDescriptors(sendSize, mdSize) <==> n * (mdSize * 5) <= sendSize * 2
  {
    var q, d, room := MaxDescriptors(sendSize, mdSize), mdSize * 5, sendSize * 2;
    assert room == q * d + room % d;
    if n <= q {
      assert n * d <= q * d;
    } else {
      assert n * d >= (q + 1) * d == q * d + d;
    }
  }

  lemma RoomIff(sendSize: nat, mdSize: nat)
    requires mdSize > 0
    ensures MaxDescriptors(sendSize, mdSize) > 0 <==> sendSize * 2 >= mdSize * 5
  {
    MaxDescriptorsFit(sendSize, mdSize, 1);
  }

  /** A listing ends if and only if the list is empty or a page has room: twice the page size covers five digests. */
  lemma ListingEndsIff<D>(descs: seq<D>, sendSize: nat, mdSize: nat)
    requires mdSize > 0
    ensures (exists k :: List(descs, MaxDescriptors(sendSize, mdSize), k).next.None?)
       <==> descs == [] || sendSize * 2 >= mdSize * 5
  {
    hide ListPages, Pages, MaxDescriptors;
    var maxd := MaxDescriptors(sendSize, mdSize);
    RoomIff(sendSize, mdSize);
    if maxd > 0 {
      StableListing(descs, maxd, ListPages(|descs|, maxd));
      assert List(descs, maxd, ListPages(|descs|, maxd)).next.None?;
    } else if descs == [] {
      assert List(descs, 0, 1).next.None?;
    } else {
      forall k: nat
        ensures List(descs, maxd, k).next.Some?
      {
        NoRoomNeverEnds(descs, k);
      }
    }
  }
}
