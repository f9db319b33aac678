# Verified models of Ditto's reassembly, routing, transfer and checksum code

Ditto overhears traffic in a wireless mesh. A sniffer rebuilds content-addressed chunks from the TCP segments of every flow it
hears; a planner models spanning trees over the mesh; daemons fetch chunks from each other page by page. The modules here model
that code in Dafny and prove what it computes.

**Reassembly (`src/sniffer`).** `Blocks`, `ChunkFill`, `FlowInsert`, `FlowOrder`, `Grep` and `SweepTruth` describe the list
operations on values, `Engine` the step machine of `handle_ip`, `Safety` its joint invariant and whole-run safety, `SearchTruth`
when exactly the search for a new chunk's bytes is safe, `Progress` and `Delivery` what runs do achieve, `Ledger` what becomes of
the bytes offered. `ReconstructedChunks`, `FlowLists` and `Sniffer` hold the classes with the mutable lists and tables; their
methods are proved equal to the steps on values, so the theorems about runs are theorems about the objects. `SafetyLimits` holds
the runs that show which hypotheses are needed, `Restarts` says what a chunk at two places of a flow does, and `IdealSniffer`
compares the variant in `src/ideal-sniffer`.

**Mesh planner (`swarm.c`, `rpp.c`).** `Graphs`, `ShortestPaths`, `TreeGraphs`, `TreeCounts`, `Sums`, `Routes`, `Traffic` and
`TrafficLoads` are on values, and so is `GreedyStages`, the greedy growth of a tree; `MeshGraphs`, `MeshTrees`, `MeshCounts`,
`MeshRoutes`, `MeshTraffic`, `MeshSubgraphs`, `MeshConfigurations` and `IterativeTrees` are the array-based graph object and the
methods on it. `BaseConvert` is the base converter.

**Transfer (`xferPlugin_gtc.cc`).** `PagedTransfer` has client, server and descriptor listing.

**Checksum (`crc32.cc`).** `Crc32` has the table, the loop and the frame check; `Gf2Division` the polynomial division it performs.

`dafny verify dfyconfig.toml` checks everything.

## What the code relies on

- Every TCP payload is non-empty, and the recogniser of record starts (`getChunkId`) reports real ones; it is an input of the model.
- Equal chunk id means equal record and length, and a flow carries a chunk at one place. `SafetyLimits.RestartedChunkFaults` shows
  the last one is needed: `src/sniffer/SniffTcp.cc:806-816` keeps the first place, line 885 the last. `Restarts.RestartSafeIff`
  and `Restarts.LateTrueIff` say which second places do no harm.
- A flow's packets lie within half the sequence space of each other and do not wrap; the code says it does not handle wrap-around
  (`src/sniffer/SniffTcp.cc:576`). Differences inside a chunk are modelled modulo 2^32 (section 3.3 of RFC 793).
- Link costs are non-negative, node ids run from 1, and links stay inside the graph.
- `convert` relies on `ts` and `cums` being zero although it never clears them; the model starts them at zero.

## Findings

- **Stray bytes.** When a sweep finds a record behind other bytes, the prefix block is filled from a pointer to the string object
  instead of its characters (`src/sniffer/SniffTcp.cc:1545-1547`). `Safety.CleanSweepIff` says exactly when a sweep keeps the lists
  true. The bytes are wrong at the positions of such prefixes only, and they do harm only when a chunk is first seen around them:
  then the search for the chunk's bytes can take them and a wrong chunk can be sent (`SafetyLimits.StrayPrefixReachesPlugin`).
  `SearchTruth.SearchTruthIff` says exactly when it does, for lists whose starts rise, as segments leave them; all other runs are
  safe, with sweeps after every packet or at the end (`Safety.WholeRunSafety`, `Safety.OfflineSafety`). A chunk elsewhere on the
  same flow is not concerned (`SafetyLimits.StrayElsewhere`).
- **Lost surplus.** When a listed block is moved into a new chunk, its bytes behind the chunk's end are put back into the list while
  the block is still there (`src/sniffer/SniffTcp.cc:1142`); the list drops them as known, and then the block is erased
  (`SafetyLimits.CandidateSurplusLost`). Whether a later sweep finds a record there depends on the order of arrival
  (`SafetyLimits.ResponseLost`).
- **Records not found.** A record whose length is 2^24 or more is not recognised by the sweep (`Grep.ResponseLooksLike`), and a first
  one that is not complete hides those behind it (`Grep.ScanExact`).
- **Dead branch.** The case "chunk at the end of the block" (`src/sniffer/SniffTcp.cc:1530`) asks for `i == size + 1` under
  `i <= size`; it is never taken.
- **Record length.** The chunk length is the record's fragment length, which does not count the four bytes of the record mark: a
  chunk is complete, and sent, without the last four bytes of its record. "True record" below means the record cut at that length.
- **Lost tail.** A packet that starts before a block and ends past it loses its tail (`ChunkFill.FillCoverage`).
- **reset_graph** (`swarm.c:322`) resets the fields of nodes below NUM_NODES only, so the iterative mode can start with the last
  node flagged as a member of the tree. With that node as the gateway nothing is lost; its parent entry may hold anything but
  MAX_NODES, which find_link would look up behind the array. Otherwise the result can be a cycle (`GreedyStages.StaleFlagCycle`);
  `GreedyStages.StaleFlagExact` says exactly when the answer is right for all scores.
- **Gateway without links.** A gateway without any metric link has no valid flag, but the iterative mode still takes it off the
  count of nodes to attach (`swarm.c:909-911`), so the loop stops one node early: with one valid node it never runs, and the bare
  tree is returned (`GreedyStages.LoneNode`). `GreedyStages.InvalidGatewayWrongIff` says exactly when that happens.
- **Ranks.** `execute_configuration` answers 0 where it gives up, not a negative number as its comment says (`swarm.c:1595`,
  `swarm.c:1622`), and the search counts a connected configuration of rank 0 as disconnected; one of rank 1000000 or more is
  never chosen (`MeshConfigurations.PerformExhaustiveSearch`).
- **T is too short.** `swarm.c:135` allocates the array T with the size of an `unsigned int` per node, room for half of its doubles:
  from node 50 on it is overrun. The model gives it MAX_NODES entries.
- **find_link** lets `from == MAX_NODES` through (`swarm.c:175`); the model asks callers not to pass it.
- **count_children** looks only at interface pair (0, 0) (`MeshCounts.FlowingIffAtZero`).
- **copy_graph** folds parallel links into one with the last link's cost, and marks a lower-numbered target valid again.
- **convert** computes `ol` by dividing by `to` before it checks the bases, and writes no digit for zero, although its comment says "0".
  A result of more than 128 digits is written past `sout` (`BaseConvert.Convert`), and `sout` is printed without ever being ended
  by a NUL (`swarm.c:1912-1934`), so what is shown is right only if the buffer happened to hold one (`BaseConvert.PrintedIff`).
- **Paged transfer.** An empty chunk cannot be fetched, because offset 0 is already invalid; `numChunksServed` counts pages. If twice
  the page size is below five digests, a listing never ends.
- **CRC comment.** The polynomial in the comment of `crc32.cc:38-39` lacks x^10; the table has it.

## Model

| member | source | states |
|---|---|---|
| Blocks.SubRecovers | src/sniffer/reconstructed_chunk.cc:58-59 | a position inside a chunk survives the 32-bit subtraction of the flow's start, whatever wraps |
| Blocks.CanonicalIsUnique | src/sniffer/SniffTcp.cc:1152-1260 | a list of separated blocks is determined by which bytes it holds where: equal views are equal lists |
| Blocks.FullIsFirstBlock | src/sniffer/reconstructed_chunk.cc:208-219 | for a separated list inside [0, length), looking at the first block's size alone decides whether every byte is there |
| ReconstructedChunks.ContiguousBlock.Append | src/sniffer/contiguous_block.cc:47-59 | a fresh block takes its start from the call, any block grows at the end; end number and bytes stay in step |
| ReconstructedChunks.ContiguousBlock.AppendBlock | src/sniffer/contiguous_block.cc:62-69 | appending the next block's bytes moves the end number to that block's end |
| ReconstructedChunks.ContiguousBlock.OverlappingAppend | src/sniffer/contiguous_block.cc:72-79 | only the bytes behind the overlap are appended |
| ReconstructedChunks.ContiguousBlock.Prepend | src/sniffer/contiguous_block.cc:82-96 | bytes go in front and the start number moves down |
| ChunkFill.FillExact | src/sniffer/reconstructed_chunk.cc:58-201 | exact effect of one fill on every position for every packet: the list stays sorted with a gap between neighbours and its view is given byte by byte |
| ChunkFill.FillCoverage | src/sniffer/reconstructed_chunk.cc:93-201 | coverage becomes old plus the packet, except for a packet that starts before a block and ends past it: then old plus its part up to that block's end |
| ChunkFill.FillHolds | src/sniffer/reconstructed_chunk.cc:93-201 | every stored byte was stored before or was offered at that position |
| ChunkFill.FillUnion | src/sniffer/reconstructed_chunk.cc:93-201 | when the packet agrees with what is stored and nothing is cut off, the fill is the plain union of the two views |
| ChunkFill.FillConserves | src/sniffer/reconstructed_chunk.cc:93-201 | stored bytes plus the duplicate counter grow by exactly the packet size on every path, merges and swallowed blocks included |
| ChunkFill.DuplicateExact | src/sniffer/reconstructed_chunk.cc:180-186 | a packet is reported as a duplicate exactly when one stored block already holds all of it, and then nothing changes |
| ChunkFill.CompletionExact | src/sniffer/reconstructed_chunk.cc:208-219 | with packets clipped to [0, length), true is returned on exactly the call that makes [0, length) full |
| ChunkFill.RunConserves | src/sniffer/reconstructed_chunk.cc:93-201 | over a whole run, stored bytes plus counted duplicates are all bytes offered |
| Ledger.RunBooked | src/sniffer/reconstructed_chunk.cc:93-201 | in every run of the sniffer, of whatever packets: each chunk's blocks are what the calls for it, in order, make of an empty list, and the one duplicate counter plus the bytes in all chunks are the bytes offered by all calls |
| ChunkFill.CompletionOnce | src/sniffer/reconstructed_chunk.cc:208-219 | over a whole run, completion is reported at a call exactly when that call first makes the chunk full, and never again |
| ChunkFill.CompletionReported | src/sniffer/reconstructed_chunk.cc:208-219 | a run whose packets end up covering the chunk does report completion at some call |
| ReconstructedChunks.ReconstructedChunk.MergeForward | src/sniffer/reconstructed_chunk.cc:151-178 | the loop over the following list nodes leaves the list that the merge on values gives, and counts the same duplicates |
| ReconstructedChunks.ReconstructedChunk.InsertNew | src/sniffer/reconstructed_chunk.cc:100-107 | a block of its own enters the list at the place, holding exactly the payload |
| ReconstructedChunks.ReconstructedChunk.PlaceBefore | src/sniffer/reconstructed_chunk.cc:93-128 | a packet that starts in front of a block is prepended, inserted as a new block, or pruned and prepended; the list after it is the fill's |
| ReconstructedChunks.ReconstructedChunk.PlaceInto | src/sniffer/reconstructed_chunk.cc:129-190 | a packet that starts inside or right behind a block: the object list after it is the fill's, and so are duplicate count and flag |
| ReconstructedChunks.ReconstructedChunk.FillGapsInChunk | src/sniffer/reconstructed_chunk.cc:43-220 | the method on the mutable block list computes the fill on values: list, duplicate counter, contributing flows and the completion result |
| FlowInsert.InsertRising | src/sniffer/SniffTcp.cc:1166-1240 | for arbitrary segments, starts stay strictly increasing and no block becomes empty |
| FlowInsert.InsertHolds | src/sniffer/SniffTcp.cc:1166-1240 | for arbitrary segments, every stored byte was stored before or offered at that position |
| FlowOrder.StoredOrRefused | src/sniffer/SniffTcp.cc:1166-1240 | on a separated list a segment is stored as a whole or dropped as a whole, and dropped if and only if it overlaps a block and no block ends where it starts |
| FlowInsert.InsertAllExact | src/sniffer/SniffTcp.cc:1152-1260 | for segments of any fixed partition of the stream, in any order and number, the list holds exactly the received positions and is separated |
| FlowInsert.InsertIsCanonical | src/sniffer/SniffTcp.cc:1152-1260 | the list depends only on which positions were received |
| FlowInsert.ArrivalOrderIrrelevant | src/sniffer/SniffTcp.cc:1152-1260 | any rearrangement of the segments, with any repeats, gives the same list |
| FlowInsert.CompatibleOrderIrrelevant | src/sniffer/SniffTcp.cc:1152-1260 | segments of which no two overlap in part give one list, in whatever order and however often they come |
| FlowInsert.OrderIrrelevantIff | src/sniffer/SniffTcp.cc:1189-1206 | two segments give the same list in both orders if and only if they are equal or do not overlap |
| FlowInsert.OverlapDependsOnOrder | src/sniffer/SniffTcp.cc:1189-1206 | without a common partition the list does depend on arrival order: a concrete pair of overlapping segments |
| FlowOrder.OrderFreeIff | src/sniffer/SniffTcp.cc:1152-1260 | for any set of segments: every order and number of arrivals gives the same list if and only if overlapping segments agree on their bytes, and every segment with an end of another one strictly inside also comes in pieces that have none, and starts where no segment ends |
| FlowOrder.WholeAndPieces | src/sniffer/SniffTcp.cc:1189-1206 | pairwise compatibility is not needed: a segment that comes whole and in two pieces does no harm at the start of its run |
| Grep.MarkRoundTrip | src/sniffer/SniffTcp.cc:1311-1325 | writing a record mark and reading its length back gives the length (section 11 of RFC 5531) |
| Grep.ScanExact | src/sniffer/SniffTcp.cc:1485-1509 | the scan finds a record of a size at a position if and only if that is the first position that looks like a record, the size is what its mark says, and all of it is there; otherwise it finds nothing |
| Grep.ResponseLooksLike | src/sniffer/SniffTcp.cc:1484-1500 | a response record is recognised at its mark if and only if something follows the pattern and its length is below 2^24 |
| Grep.SweepConserves | src/sniffer/SniffTcp.cc:1476-1570 | sequence ranges are conserved by the sweep of a block: kept prefixes, extracted records and the rest tile the block's range, and the records are the block's own bytes |
| Grep.SweepRest | src/sniffer/SniffTcp.cc:1291-1305 | the sweep of a block ends: what is left is empty or has been searched |
| Grep.SweepExact | src/sniffer/SniffTcp.cc:1476-1570 | what the sweep of an unsearched block takes out are records with the length their marks say, nothing it passes over looks like one, and what it leaves has no first record that is there as a whole |
| Progress.SweepPools | src/sniffer/SniffTcp.cc:1285-1305 | a flow's sweep loses no byte: each position is still listed, or its byte has been handed over in a record |
| Progress.SweepsPool | src/sniffer/SniffTcp.cc:1276-1309 | the same for a sweep over all flows |
| Progress.SweepVisits | src/sniffer/SniffTcp.cc:1276-1309 | a sweep leaves nothing unsearched on the flows it visits, and changes no other list |
| SweepTruth.SweepTruthIff | src/sniffer/SniffTcp.cc:1541-1557 | the sweep of a true block leaves true blocks, for all memory contents, if and only if it finds no record behind other bytes |
| SweepTruth.CleanListIff | src/sniffer/SniffTcp.cc:1276-1309 | the same for a flow's list: the sweep keeps it true, for all memory contents, if and only if no block of it has a record behind other bytes |
| SweepTruth.SweptListHolds | src/sniffer/SniffTcp.cc:1276-1309 | whatever the sweep finds and memory holds, only the positions that are read from memory can become wrong |
| Safety.CleanSweepIff | src/sniffer/SniffTcp.cc:1276-1309 | the same for all flows: the sweep keeps every list true to its stream, for all memory contents, if and only if every list is clean |
| FlowLists.FlowList.GrepContiguousBlock | src/sniffer/SniffTcp.cc:1476-1570 | one grep call on a list node: the first record leaves the node, and bytes in front of it become a node of their own that counts as searched; with no record the node counts as searched |
| FlowLists.FlowList.GrepNode | src/sniffer/SniffTcp.cc:1292-1296 | the loop of grep calls on one node takes out the parts and leaves the rest that the sweep of a block on values gives |
| FlowLists.FlowList.GrepList | src/sniffer/SniffTcp.cc:1285-1305 | the loop over one flow's nodes, erasing those used up, leaves the list and the records that the sweep on values gives |
| FlowLists.FlowList.InsertPayload | src/sniffer/SniffTcp.cc:1166-1240 | the search loop and its branches on the list nodes compute the insertion on values, end numbers included, and every node that stays in the list stands where PlaceAfter says |
| FlowLists.FlowList.MergeNext | src/sniffer/SniffTcp.cc:1211-1222 | a node takes over the bytes and the end number of the next one, which leaves the list |
| FlowLists.FlowList.EraseNode | src/sniffer/SniffTcp.cc:1111-1112 | the node held leaves the list, and the iterator stands on the node behind it |
| Safety.SurplusExact | src/sniffer/SniffTcp.cc:1134-1144 | within half the sequence space the signed 32-bit difference is the exact count of bytes behind the chunk |
| Safety.ClipFillValue | src/sniffer/SniffTcp.cc:1125-1150 | a clipped fill splits a packet in range exactly at the end of the chunk |
| Safety.FillAndSendInv | src/sniffer/SniffTcp.cc:1019-1031 | filling and sending keeps the joint invariant of flow lists, chunk lists, range index and sent buffers |
| Safety.CandidateStays | src/sniffer/SniffTcp.cc:1080-1119 | the iterator of the candidate loop still points at the block being consumed after that block's surplus was offered to the same list, wherever the list has stray bytes outside what the chunk may take |
| Safety.CandidatesInv | src/sniffer/SniffTcp.cc:1064-1123 | moving matching blocks from the flow list into the chunk keeps the joint invariant, if no block of the chunk's range holds stray bytes at a position the chunk may take |
| Safety.RegisterInv | src/sniffer/SniffTcp.cc:806-885 | recording a new record start keeps every index entry in step with the chunk's own entry |
| Safety.ArriveInv | src/sniffer/SniffTcp.cc:496-960 | any truthful packet keeps the joint invariant, whatever arrived before, unless it starts a new chunk whose search meets a position of the chunk that a sweep filled from memory |
| Safety.InvLive | src/sniffer/SniffTcp.cc:1080-1119 | a position that has left a flow's list is trusted again: what arrives for it later is the stream's |
| Safety.WholeRunSafety | src/sniffer/SniffTcp.cc:496-1150 | for any number of flows, any loss, reordering, duplication, overlap or cut of packets, and sweeps anywhere, provided that when a chunk is first seen no block that starts inside it, behind its mark, holds a position of it that a sweep filled from memory and the packet does not bring itself: every buffer handed over by the filling path is the chunk's true record cut at its length, each chunk is handed over at most once, and exactly when all its bytes have been pooled; no step leaves defined behaviour |
| Safety.OfflineSafety | src/sniffer/SniffTcp.cc:1812-1819 | a capture of truthful packets that sweeps only at its end is safe, whatever the sweep finds |
| Progress.MarkNames | src/sniffer/SniffTcp.cc:806-816 | after a packet with a chunk's mark the flow's index names the chunk with its place and length, for a first chunk and for later ones |
| Progress.NamesStay | src/sniffer/SniffTcp.cc:806-816 | what is named stays named, whatever arrives or is swept |
| Progress.NamesCome | src/sniffer/SniffTcp.cc:806-816 | and nothing but a packet of the flow with the chunk's mark names a chunk |
| Progress.LateHeld | src/sniffer/SniffTcp.cc:982-1031 | bytes of the flow that start inside a named chunk's range, behind its mark, are held by that chunk afterwards wherever the fill does not cut them, and exactly there |
| Progress.FrontPools | src/sniffer/SniffTcp.cc:982-1062 | no byte without a mark is lost: what neither the list nor a chunk of the flow held is held by one of them afterwards, surplus behind a chunk's end included |
| Progress.MarkHolds | src/sniffer/SniffTcp.cc:838-876 | a new chunk holds what its first packet brings, and what the flow's list had in blocks that start behind the mark, if their starts rise |
| Progress.HeldStays | src/sniffer/SniffTcp.cc:496-960 | whatever happens, a chunk keeps the positions it holds |
| Progress.NotBroughtNotHeld | src/sniffer/SniffTcp.cc:496-1150 | a position that the only flow carrying a chunk has not brought is not held by it |
| Progress.OneFlowDelivers | src/sniffer/SniffTcp.cc:496-1150 | progress over runs with any other traffic and sweeps: if one flow alone carries a chunk, brings no position of it twice, and brings every position from the chunk's mark on or has it listed behind the mark by then, the chunk's record, cut at its length, has been handed over |
| Delivery.AnyOrderDelivers | src/sniffer/SniffTcp.cc:496-1150 | in any order: a flow that carries one chunk, brings all its positions and none of its own twice has the chunk's record handed over, among any packets of other flows |
| Delivery.SecondChunkSent | src/sniffer/SniffTcp.cc:806-816 | a concrete run with two chunks on one flow: the second one is filed, completed and sent |
| SearchTruth.SearchTruthIff | src/sniffer/SniffTcp.cc:838-876 | that proviso is exact: where the starts of the flow's blocks rise, a packet that starts a new chunk leaves the chunk true for all contents of the stray positions if and only if the proviso holds at that packet |
| SearchTruth.SearchTakes | src/sniffer/SniffTcp.cc:1064-1123 | in range, the candidate loop takes every block that starts inside the chunk, behind its mark, cut at the chunk's end, and in list order |
| SearchTruth.TakeAllStores | src/sniffer/SniffTcp.cc:1064-1123 | with rising starts no candidate loses its tail: every position that some candidate covers is stored |
| SafetyLimits.StrayPrefixReachesPlugin | src/sniffer/SniffTcp.cc:1541-1555 | without the proviso safety fails: a concrete truthful run in which a chunk is first seen where a sweep stored bytes read through a cast pointer, and a wrong buffer is sent |
| SafetyLimits.StrayElsewhere | src/sniffer/SniffTcp.cc:1541-1555 | after the same packet and sweep, a chunk first seen from position 4 of the flow on meets the proviso |
| SafetyLimits.CandidateSurplusLost | src/sniffer/SniffTcp.cc:1088-1144 | on a separated list, the bytes of a candidate block behind the chunk's end are dropped by the list that still has the block, and the block is erased next |
| SafetyLimits.ResponseLost | src/sniffer/SniffTcp.cc:1088-1144 | the same two packets in two orders: in one the response behind the chunk is listed, in the other it is gone |
| SafetyLimits.RestartedChunkFaults | src/sniffer/SniffTcp.cc:806-885 | if a flow carries one chunk at two places, a concrete run clips a packet by more bytes than it has |
| Restarts.LateFaultIff | src/sniffer/SniffTcp.cc:1014-1020 | with the index at one place and the chunk's entry at another, a late packet is clipped by all its bytes or more if and only if it starts at or behind the end of the entry's range |
| Restarts.RestartSafeIff | src/sniffer/SniffTcp.cc:806-885 | no late packet of the first copy can fault if and only if its range does not reach behind the second one's: a chunk that starts again further on is safe in this respect |
| Restarts.LateTrueIff | src/sniffer/SniffTcp.cc:1125-1150 | a late packet that does not fault is stored off by the distance of the places; the chunk stays true exactly if the record repeats itself at that distance wherever the packet's bytes are taken |
| Sniffer.SniffTcp.Insert | src/sniffer/SniffTcp.cc:1152-1260 | a new flow gets a list object, a known one has the payload inserted among its nodes; the tables change as the insertion on values says, and no other object changes |
| Sniffer.SniffTcp.FillGapsInChunk | src/sniffer/SniffTcp.cc:1125-1150 | clipping, returning the surplus and filling the chunk object change the tables as the model step says, other chunks untouched |
| Sniffer.SniffTcp.FillAndSend | src/sniffer/SniffTcp.cc:1019-1031 | the fill, followed by handing the first block over when it completed the chunk, is the model step |
| Sniffer.SniffTcp.RegisterChunk | src/sniffer/SniffTcp.cc:806-885 | the bookkeeping of a record start: index entry unless listed, chunk object for a new id, start number for a known one |
| Sniffer.SniffTcp.HandleMarked | src/sniffer/SniffTcp.cc:821-899 | a payload that begins with a record mark is registered and filled, and candidates are fetched for a new chunk; stray positions count only where the search takes them |
| Sniffer.SniffTcp.DealWithPktWithoutChunkId | src/sniffer/SniffTcp.cc:982-1062 | the search through the flow's ranges and the fill or insertion that follows are the model step |
| Sniffer.SniffTcp.DealWithCandidates | src/sniffer/SniffTcp.cc:1064-1123 | the loop holds a list node while the fill changes the list under it, erases that node and goes on behind it; the result is the model step, wherever the list has stray bytes outside what the chunk may take |
| Sniffer.SniffTcp.HandleIp | src/sniffer/SniffTcp.cc:496-960 | one TCP payload changes the tables as the model step says, and the joint invariant holds afterwards, unless it starts a chunk whose search meets stray bytes |
| Sniffer.SniffTcp.GrepFlowsForChunks | src/sniffer/SniffTcp.cc:1276-1309 | the sweep over all flows is the model step; the positions it reads from memory are the ones no longer trusted |
| Sniffer.SniffTcp.Capture | src/sniffer/SniffTcp.cc:496-960 | a whole capture on the objects, sweeps in between included, is the model's run, so whole-run safety speaks about the objects |
| IdealSniffer.SameArrival | src/ideal-sniffer/SniffTcp.cc:762-816 | in every state of the invariant the variant, which looks ranges up in the chunks, handles a packet as the main sniffer does |
| IdealSniffer.IdealRunSafety | src/ideal-sniffer/SniffTcp.cc:762-816 | on every run of truthful packets the variant and the main sniffer reach the same state, and the variant's buffers are true records |
| IdealSniffer.RestartTellsThemApart | src/ideal-sniffer/SniffTcp.cc:773-777 | with a chunk at two places of a flow the two differ: the main sniffer faults, the variant returns the packet to the flow |
| Restarts.IdealLateSafe | src/ideal-sniffer/SniffTcp.cc:762-816 | the variant never faults on a packet without a mark, wherever its chunks have started again |
| ShortestPaths.DijkstraFinished | scripts/map_command_and_control/setup/code/swarm.c:543-561 | the search ends and leaves labels no link can improve, every reached node ranked behind its settled predecessor, zero-cost links included |
| ShortestPaths.NoShorterPath | scripts/map_command_and_control/setup/code/swarm.c:543-561 | no path costs less than a final label |
| ShortestPaths.DijkstraExact | scripts/map_command_and_control/setup/code/swarm.c:458-561 | for every graph with non-negative costs the final label of every node is its shortest distance, cut off at INFLEN |
| Graphs.DistanceUnique | scripts/map_command_and_control/setup/code/swarm.c:458-561 | that cut-off distance is unique, so the labels are determined |
| MeshGraphs.Graph.FindLink | scripts/map_command_and_control/setup/code/swarm.c:165-183 | the walk along the list returns the first link with the key, or nothing |
| MeshGraphs.Graph.constructor | scripts/map_command_and_control/setup/code/swarm.c:120-141 | a new graph has no links and no valid node |
| MeshGraphs.Graph.AddLink | scripts/map_command_and_control/setup/code/swarm.c:192-230 | a link with a new key goes to the head of the list, a known one gets the new cost and channel; both ends become valid |
| TreeGraphs.AddToExact | scripts/map_command_and_control/setup/code/swarm.c:192-230 | afterwards the key is found with the new cost and channel, every other link is as before, and a new link stands first |
| MeshGraphs.Graph.InitSingleSource | scripts/map_command_and_control/setup/code/swarm.c:458-482 | labels, predecessors, counters and flows are reset, the source gets 0 |
| MeshGraphs.Graph.RelaxLink | scripts/map_command_and_control/setup/code/swarm.c:492-510 | a label and its predecessor entries change together, and only downwards |
| MeshGraphs.Graph.ExtractMinQ | scripts/map_command_and_control/setup/code/swarm.c:519-532 | the first unsettled node of least label below INFLEN is found |
| ShortestPaths.ExtractMinFirst | scripts/map_command_and_control/setup/code/swarm.c:519-532 | among unsettled nodes of equal label the first one is taken |
| MeshGraphs.Graph.RelaxLinks | scripts/map_command_and_control/setup/code/swarm.c:554-559 | the inner loop relaxes the links of the settled node that lead to unsettled nodes, in list order |
| MeshGraphs.Graph.DijkstraFrom | scripts/map_command_and_control/setup/code/swarm.c:543-561 | the loops over the arrays compute the search on values, and terminate |
| TreeGraphs.InLinkFound | scripts/map_command_and_control/setup/code/swarm.c:575-592 | every look-up of the backward walk finds its link, and the label is the predecessor's plus that link's cost: the assertions hold |
| TreeGraphs.MakeTreeExact | scripts/map_command_and_control/setup/code/swarm.c:563-602 | the extraction yields exactly one link into every reached node but the root, from its predecessor |
| TreeGraphs.OneInLink | scripts/map_command_and_control/setup/code/swarm.c:563-602 | no node has two in-links |
| TreeGraphs.TreePathUnique | scripts/map_command_and_control/setup/code/swarm.c:563-602 | root paths in the tree are unique |
| TreeGraphs.TreeSpansReached | scripts/map_command_and_control/setup/code/swarm.c:563-602 | a node lies on some tree path exactly when the search reached it |
| TreeGraphs.ShortestPathTree | scripts/map_command_and_control/setup/code/swarm.c:543-602 | search and extraction together: every root path of the tree is unique and a shortest path of the graph |
| MeshTrees.WalkBackToRoot | scripts/map_command_and_control/setup/code/swarm.c:577-592 | one node's walk on the graph objects adds the links that the walk on values adds, and terminates |
| MeshTrees.MakeTreeGraph | scripts/map_command_and_control/setup/code/swarm.c:563-602 | the method builds the tree of the labels and copies labels, predecessors and their interfaces over |
| MeshTrees.ResetGraph | scripts/map_command_and_control/setup/code/swarm.c:306-334 | all lists from node 1 to NUM_NODES are emptied, but flags, gateway flags, labels and counters are reset only below NUM_NODES |
| MeshTrees.Disconnected | scripts/map_command_and_control/setup/code/swarm.c:604-616 | true exactly if some valid node has the label INFLEN |
| MeshTrees.ConstructShortestPathTree | scripts/map_command_and_control/setup/code/swarm.c:866-884 | fails exactly when a valid node is out of reach, and otherwise leaves the shortest-path tree in the tree graph |
| TreeCounts.CountIsDescendants | scripts/map_command_and_control/setup/code/swarm.c:789-803 | count_children of a node is the number of its proper descendants |
| TreeCounts.FlowIsSubtree | scripts/map_command_and_control/setup/code/swarm.c:804-810 | a link's flow is the size of the subtree it leads to |
| TreeCounts.LIsDescendants | scripts/map_command_and_control/setup/code/swarm.c:620-640 | L of a node equals its child count: its proper descendants |
| TreeCounts.DistancesByLinks | scripts/map_command_and_control/setup/code/swarm.c:620-640 | the sum of all shortest distances is the sum over all links of cost times the size of the subtree below |
| TreeCounts.TotalLoadIsTotalDistance | scripts/map_command_and_control/setup/code/swarm.c:620-640 | T summed over all nodes is the sum of all shortest distances |
| MeshCounts.CountChildren | scripts/map_command_and_control/setup/code/swarm.c:789-812 | the recursion returns the count on values, records it for exactly the nodes below, and sets exactly the flows into them that sit at interface pair (0, 0) |
| MeshCounts.FlowingIffAtZero | scripts/map_command_and_control/setup/code/swarm.c:806-809 | every link gets its flow if and only if all links sit at interface pair (0, 0), the only one looked up |
| MeshCounts.MarkLAndT | scripts/map_command_and_control/setup/code/swarm.c:620-640 | L and T of every node are the plain and the cost-weighted sum of the flows on its links |
| MeshCounts.CountAndMark | scripts/map_command_and_control/setup/code/swarm.c:823-824 | on the objects: flows are subtree sizes, ch = L = proper descendants, and T adds up to all shortest distances |
| Routes.RouteMissing | scripts/map_command_and_control/setup/code/swarm.c:1010-1030 | get_route returns NULL exactly if source and destination coincide, the destination is out of reach, or the tree path has 25 or more nodes |
| Routes.RouteExact | scripts/map_command_and_control/setup/code/swarm.c:989-1055 | otherwise the result walks along real links from source to destination at the shortest distance |
| MeshRoutes.TraceBack | scripts/map_command_and_control/setup/code/swarm.c:1010-1025 | the backward walk records the predecessor chain with its interfaces, at most 25 nodes |
| MeshRoutes.Forwards | scripts/map_command_and_control/setup/code/swarm.c:1033-1048 | every link looked up on the way forward is found, and the buffer ends as the reversed chain padded with ANY_DEST |
| MeshRoutes.GetRoute | scripts/map_command_and_control/setup/code/rpp.c:900-966 | the method fills the route buffer with the route on values, or leaves it alone and reports failure |
| Traffic.RouteConserves | scripts/map_command_and_control/setup/code/rpp.c:1283-1288 | loading a route changes no node's net load but its two ends' |
| Traffic.RouteEnds | scripts/map_command_and_control/setup/code/rpp.c:1281-1288 | a route starts at the source, ends at the destination, and meets the destination nowhere else: the do-while loop stops there |
| Traffic.FlowConservation | scripts/map_command_and_control/setup/code/rpp.c:1253-1299 | for every set of routable demands, outgoing minus incoming load changes at each node by demand sourced there minus demand sunk there |
| MeshTraffic.LoadHops | scripts/map_command_and_control/setup/code/rpp.c:1283-1288 | the loop that follows the route until the destination shows up loads exactly the route's hops |
| MeshTraffic.GenTrafficPerLink | scripts/map_command_and_control/setup/code/rpp.c:1253-1299 | on the arrays: at each node net load grows by the costs in the node's own traffic list less the costs of all traffic links to it, and every pair's load by the costs of exactly those traffic links, from node 1 on, whose shortest route goes over the pair |
| TrafficLoads.TotalIsOverLinks | scripts/map_command_and_control/setup/code/rpp.c:1271-1272 | every link of every node from 1 on stands for exactly one demand, for any figure summed over them |
| TrafficLoads.GraphConservation | scripts/map_command_and_control/setup/code/rpp.c:1253-1299 | conservation on the traffic graph: what a node's own list wants sent, less what all links to it want received |
| TrafficLoads.GraphLoads | scripts/map_command_and_control/setup/code/rpp.c:1283-1288 | each pair of nodes carries what it did plus the costs of the links whose route goes over it, once each |
| TrafficLoads.RouteNoRepeat | scripts/map_command_and_control/setup/code/rpp.c:900-966 | no route visits a node twice |
| MeshSubgraphs.DelVertex | scripts/map_command_and_control/setup/code/swarm.c:265-297 | the links of the vertex and all links to it are gone, everything else stays |
| MeshSubgraphs.CopyExact | scripts/map_command_and_control/setup/code/swarm.c:347-350 | the copy of a list has one plain link per target, at pair (0, 0), with the cost of the last link that led there |
| MeshSubgraphs.DistinctCosts | scripts/map_command_and_control/setup/code/swarm.c:347-350 | without parallel links every cost is unchanged |
| MeshSubgraphs.CopyGraph | scripts/map_command_and_control/setup/code/swarm.c:343-364 | all lists, labels, counters and gateway flags are copied; a node is valid in the copy if it was, or if a later node has a link to it |
| MeshSubgraphs.ConstructSubconfiguration | scripts/map_command_and_control/setup/code/swarm.c:1458-1493 | the subgraph is the induced one: exactly the links of g between kept nodes, at pair (0, 0); the result counts the assigned nodes |
| MeshSubgraphs.KeptNodes | scripts/map_command_and_control/setup/code/swarm.c:1471-1493 | a gateway's part keeps the gateway itself and exactly the nodes assigned to it |
| MeshSubgraphs.KeptOnce | scripts/map_command_and_control/setup/code/swarm.c:1471-1493 | if the assignment names gateways only, every node is kept by exactly one of them |
| MeshConfigurations.InducedEmbedded | scripts/map_command_and_control/setup/code/swarm.c:1458-1493 | a subgraph is embedded in the metric graph, if that graph's links sit at pair (0, 0) and have unique keys |
| MeshConfigurations.TreeAtZero | scripts/map_command_and_control/setup/code/swarm.c:563-602 | the tree extracted from such a subgraph has its links at pair (0, 0) again, which is what count_children looks at |
| MeshConfigurations.EvaluateGateway | scripts/map_command_and_control/setup/code/swarm.c:1614-1627 | subgraph, shortest-path tree and accounts, one after the other, for any configuration: the tree exists exactly if the gateway's part is connected, flows are its subtree sizes, and T adds up to its shortest distances |
| MeshConfigurations.ExecuteConfiguration | scripts/map_command_and_control/setup/code/swarm.c:1596-1632 | gateway by gateway: at the first one with a valid node of its part out of reach the answer is 0, otherwise the rank adds up share of nodes times cycle time of the marked tree over all gateways |
| MeshConfigurations.RankedIff | scripts/map_command_and_control/setup/code/swarm.c:1613-1627 | a configuration is ranked if and only if every gateway reaches all valid nodes of its part |
| MeshConfigurations.PartUnique | scripts/map_command_and_control/setup/code/swarm.c:1458-1493 | a gateway's part has the same links, counts and distances in whatever order its lists are, so whether it is connected is a matter of the configuration alone |
| MeshConfigurations.LoadsAddUp | scripts/map_command_and_control/setup/code/swarm.c:840-842 | if every node is assigned to some gateway, the gateways' shares add up to all nodes |
| MeshConfigurations.RankIsMean | scripts/map_command_and_control/setup/code/swarm.c:840-842 | so the rank is a weighted mean of the gateways' cycle times: any bounds on them bound it |
| MeshConfigurations.PerformExhaustiveSearch | scripts/map_command_and_control/setup/code/swarm.c:1635-1666 | the answer is the first configuration of least rank among those with a rank above 0 and below 1000000, or -1 if there is none |
| MeshConfigurations.BestOfMeans | scripts/map_command_and_control/setup/code/swarm.c:1648-1665 | in plain words: any configuration with a rank above 0 and below 1000000 is beaten or matched by the answer, which comes first among equals |
| IterativeTrees.AttachGrove | scripts/map_command_and_control/setup/code/swarm.c:956-962 | attaching a waiting node keeps the tree graph in step with the recorded parents; the gateway's part of it stays a tree even when the rest has a cycle |
| IterativeTrees.DelLink | scripts/map_command_and_control/setup/code/swarm.c:239-256 | the first link with the key is removed and the order of the rest kept; an id above MAX_NODES finds nothing |
| IterativeTrees.ModelPerformance | scripts/map_command_and_control/setup/code/swarm.c:846-864 | a trial leaves the tree's links and parents as they were; only flows and counts differ |
| IterativeTrees.BestAttachment | scripts/map_command_and_control/setup/code/swarm.c:918-946 | the two loops find the first of the pairs with the greatest score, or report that nothing can be attached; waiting nodes lose their flags |
| IterativeTrees.SpansArbor | scripts/map_command_and_control/setup/code/swarm.c:885-971 | recorded parents that span the graph make the tree graph an arborescence |
| IterativeTrees.ConstructIterativeTree | scripts/map_command_and_control/setup/code/swarm.c:885-971 | in any call, whatever flag is left on the last node and whether or not the gateway is valid, the method makes exactly the picks that the scores decide; with a valid gateway and a harmless flag a spanning arborescence rooted at it is returned if and only if every valid node is reachable from it through valid nodes; with a gateway that is not valid what is returned misses a valid node |
| GreedyStages.LeftOverRight | scripts/map_command_and_control/setup/code/swarm.c:948-951 | NULL is never a wrong answer: nodes are left over only if one of them is out of the gateway's reach |
| GreedyStages.GreedyUnique | scripts/map_command_and_control/setup/code/swarm.c:914-962 | the scores decide every pick of the loop |
| GreedyStages.BestIsGreatest | scripts/map_command_and_control/setup/code/swarm.c:918-946 | in plain words, the pick of a round: no waiting node scores more at any flagged node with a link to it, and among equal scores the first pair wins |
| GreedyStages.StaleFlagExact | scripts/map_command_and_control/setup/code/swarm.c:885-971 | the answer is right for all scores if and only if the flag left on a node is harmless: some valid node can be reached neither from the gateway nor from the flagged node, or no way leads from the flagged node on to other valid nodes (and back to it, if it is valid itself) that does not pass the gateway |
| GreedyStages.NoLinkHarmless | scripts/map_command_and_control/setup/code/swarm.c:885-971 | in particular a clear flag is harmless, and so is a flag on a node that no metric link at pair (0, 0) leaves for another valid node but the gateway |
| GreedyStages.StaleFlagCycle | scripts/map_command_and_control/setup/code/swarm.c:322-333 | three nodes, gateway 1, links 2 to 3 and back, node 3's flag left over: whatever the scores, the result is a cycle of 2 and 3, where NULL is owed |
| GreedyStages.InvalidGatewayMisses | scripts/map_command_and_control/setup/code/swarm.c:901-915 | a gateway that is not valid is taken off the count without being part of it: the loop stops with a valid node still waiting |
| GreedyStages.InvalidGatewayWrongIff | scripts/map_command_and_control/setup/code/swarm.c:901-915 | so a tree is returned where NULL is owed if and only if all valid nodes but one, at least, are reachable from it |
| GreedyStages.LoneNode | scripts/map_command_and_control/setup/code/swarm.c:909-915 | a gateway without links and one valid node: the loop never runs and the bare tree is returned |
| BaseConvert.EnoughDigits | scripts/map_command_and_control/setup/code/swarm.c:1815 | from < to^(from/to + 1): the digits reserved per input digit are enough |
| BaseConvert.DigitIff | scripts/map_command_and_control/setup/code/swarm.c:1841-1850 | the characters for digits are the places of 0-9 and A-Z, and nothing else is a digit |
| BaseConvert.Twelve | scripts/map_command_and_control/setup/code/swarm.c:1841-1929 | twelve in bases 10, 2 and 16 |
| BaseConvert.ReadDigits | scripts/map_command_and_control/setup/code/swarm.c:1838-1863 | the digits are read last character first, and refused exactly if the string is not a numeral of the base |
| BaseConvert.FixUp | scripts/map_command_and_control/setup/code/swarm.c:1881-1888 | the carry loop ends inside the array, keeps the value, and leaves no digit it touched too large |
| BaseConvert.AddDigit | scripts/map_command_and_control/setup/code/swarm.c:1871-1889 | one input digit adds digit times the current power to the result, all digits proper |
| BaseConvert.NextPower | scripts/map_command_and_control/setup/code/swarm.c:1891-1908 | the power is multiplied by the input base, all digits proper |
| BaseConvert.Evaluate | scripts/map_command_and_control/setup/code/swarm.c:1866-1909 | the result digits have the value of the input digits |
| BaseConvert.WriteDigits | scripts/map_command_and_control/setup/code/swarm.c:1912-1931 | the characters written mean the digits' value and have no leading zero, zero gives none, and nothing behind them changes; the buffer is too small exactly if the value is not below to^size |
| BaseConvert.Convert | scripts/map_command_and_control/setup/code/swarm.c:1808-1935 | of all bases, negative ones included, it refuses exactly those outside 2 to 36 and strings that are no numeral of the input base, writes past sout[128] exactly if the value is to^128 or more, and otherwise leaves in sout the numeral of the same value |
| BaseConvert.PrintedIff | scripts/map_command_and_control/setup/code/swarm.c:1912-1934 | what is printed is the numeral exactly if the buffer held a NUL right behind it before |
| BaseConvert.CanonicalUnique | scripts/map_command_and_control/setup/code/swarm.c:1808-1935 | numerals without leading zeros are unique, so converting there and back gives the input without its leading zeros |
| BaseConvert.CanonicalLength | scripts/map_command_and_control/setup/code/swarm.c:1819 | the result has at most n digits exactly when the value is below to^n; the buffer has room for n = 128 |
| PagedTransfer.ChunkServer.RemoteGetChunkCb | src/gtcd/xfer/xferPlugin_gtc.cc:531-594 | the reply is the page of the chunk at the offset; the counters count pages and bytes sent |
| PagedTransfer.ChunkClient.GetChunkInternalCb | src/gtcd/xfer/xferPlugin_gtc.cc:885-931 | a reply's bytes go to the end of the buffer; the last page is followed by the hash check |
| PagedTransfer.DeliveredIsGenuine | src/gtcd/xfer/xferPlugin_gtc.cc:885-931 | whatever the server answers: delivered data are the pages up to the first end, and hash to the id asked for |
| PagedTransfer.CompleteIsDelivered | src/gtcd/xfer/xferPlugin_gtc.cc:885-931 | and every complete run of pages with the right hash is delivered |
| PagedTransfer.DeliveredIsTheChunk | src/gtcd/xfer/xferPlugin_gtc.cc:916-922 | if nothing else shares the chunk's hash, what is delivered is the chunk |
| PagedTransfer.StableFetch | src/gtcd/xfer/xferPlugin_gtc.cc:531-594 | with a stable server the buffer is the chunk's first k pages after k replies |
| PagedTransfer.EndsWithLastPage | src/gtcd/xfer/xferPlugin_gtc.cc:558-575 | the whole chunk is there from reply ceil(len/SEND_SIZE) on and not before; an empty chunk can never be fetched |
| PagedTransfer.FetchChunk | src/gtcd/xfer/xferPlugin_gtc.cc:725-743 | client and server together, message by message: result, number of replies, pages and bytes counted |
| PagedTransfer.RemoteGetDescriptorsCb | src/gtcd/xfer/xferPlugin_gtc.cc:375-424 | the reply is the page of the list at the offset |
| PagedTransfer.DescriptorClient.GetDescInternalCb | src/gtcd/xfer/xferPlugin_gtc.cc:680-723 | a reply becomes one call of the callback, and the next offset is the reply's offset plus its count; a reply that announces more descriptors than it has is read past its end |
| PagedTransfer.ListingIsGenuine | src/gtcd/xfer/xferPlugin_gtc.cc:680-723 | whatever the server answers: each reply gives the one call it owes, an error for a lost or refused one and its announced descriptors and end otherwise; nothing is asked for behind an error or an end; and the client reads past a reply exactly if the first one that does not go on announces more than it has |
| PagedTransfer.EndIsSaid | src/gtcd/xfer/xferPlugin_gtc.cc:705-723 | a call with end set comes from a page that says end, and is the last one |
| PagedTransfer.MaxDescriptorsFit | src/gtcd/xfer/xferPlugin_gtc.cc:396-402 | n descriptors go into a reply if and only if n times five digests fit into twice the page size |
| PagedTransfer.StableListing | src/gtcd/xfer/xferPlugin_gtc.cc:375-424 | with a stable list the pages concatenate to it, and end is set on the last page only |
| PagedTransfer.ListingEndsIff | src/gtcd/xfer/xferPlugin_gtc.cc:398-402 | the listing ends if and only if the list is empty or one page has room for a descriptor |
| Crc32.TableExact | src/sniffer/crc32.cc:42-95 | all 256 table entries are their index divided bit by bit |
| Crc32.TableStep | src/sniffer/crc32.cc:115 | one table step is eight steps of bit-at-a-time reflected division |
| Crc32.Crc32CcittSeed | src/sniffer/crc32.cc:108-119 | for every buffer, length and seed the table loop computes bit-at-a-time division, complemented |
| Crc32.Crc32Ccitt | src/sniffer/crc32.cc:102-106 | the same from the seed of all ones |
| Crc32.Crc32Of802 | src/sniffer/crc32.cc:129-143 | the result is the CRC's four bytes in the opposite order |
| Gf2Division.LongDivision | src/sniffer/crc32.cc:108-119 | dividend = quotient times generator plus register, over the two-element field, with the quotient written out |
| Gf2Division.RemainderUnique | src/sniffer/crc32.cc:108-119 | division by the generator has one remainder |
| Gf2Division.FeedIsTheRemainder | src/sniffer/crc32.cc:36-42 | the register after a message is the one remainder of seed * x^n + message * x^32 by the 802.3 generator (section 3.2.9 of IEEE Std 802.3-2008), and no other register is |
| Crc32.BurstDetected | src/sniffer/crc32.cc:108-119 | two messages that differ only within four consecutive bytes never have the same CRC |
| Crc32.ResidueIff | src/sniffer/crc32.cc:108-143 | the register ends at the residue exactly when the message's own CRC follows it |
| Crc32.FcsOkIff | src/sniffer/SniffTcp.cc:1984-2002 | the 802.11 frame check accepts exactly the frames that divide to the residue |
| Crc32.CorruptionCaught | src/sniffer/SniffTcp.cc:1984-2002 | changing any four consecutive bytes of a good frame makes the check fail |

## Left out

- Packet capture and filters, Ethernet, IP, 802.11 and LLC headers, sockets, the event loop, RPC marshalling and storage plugins: input and output.
- The byte patterns that `getChunkId` and `rpc_header_in_stream` search for: what they report is an input.
- Time stamps, timing counters, printing, file readers and writers, configuration parsing and all scripts.
- The interference model (`check_int`, `get_b` and the square roots): a trial's score is any non-negative number.
- Floating-point rounding: costs, loads and distances are reals.
- Memory allocation and `free`; the width of `int` where the values stay small.
- Connection reference counts, wait queues and the caches of the transfer plugin, bitmap paging, and the error argument of `get_chunk_int`, after which that code reports and still goes on.
- `swarm.h` is not part of the repository; the constants are those of `rpp.h`.
- `SniffTcpv2.cc`, an earlier copy of the engine with the same list and range logic.
- The sweep of the ideal variant, which also registers the chunks it finds; the comparison is over packets.
- Safety.WholeRunSafety: says nothing about runs in which the search for a new chunk's bytes meets a position that a sweep filled from memory, where the code is unsafe; records handed over by the sweep itself are described by Grep.SweepConserves only.
- Delivery.AnyOrderDelivers: is about flows that carry a single chunk in packets that do not overlap; overlapping packets can lose their tails (ChunkFill.FillCoverage), and several chunks on a flow are the matter of Progress.OneFlowDelivers.
- Sniffer.SniffTcp.Capture: the linked list of a flow's nodes is a sequence of node objects. The duplicate counter has no upper bound.
- Grep.SweepConserves: the bytes of a kept prefix block are arbitrary memory, so only its range is stated; a record length so large that the 32-bit index would wrap is not modelled.
- ReconstructedChunks.ReconstructedChunk.FillGapsInChunk: asks that position plus payload size stay below 2^32, which clipping guarantees.
- MeshGraphs.Graph.FindLink: asks that `from` not be MAX_NODES, for which the code reads behind the array.
- IterativeTrees.DelLink: asks the same of its `from`.
- MeshGraphs.Graph.constructor: gives T the MAX_NODES entries that the code means it to have.
- MeshConfigurations.EvaluateGateway: is about the shortest-path mode.
- MeshConfigurations.ExecuteConfiguration: is about the shortest-path mode, with at least one node that is no gateway; the interference model that turns a marked tree into a cycle time is any function.
- MeshRoutes.GetRoute: the dirty flag always asks for a new search and is left out; the three path buffers are one array of records.
- MeshTraffic.GenTrafficPerLink: for demands that can be routed, since the code follows a null route otherwise.
- IterativeTrees.ConstructIterativeTree: asks that no valid node lie above NUM_NODES, for which the array Q is too short, and that the parent entry of a last-node gateway not be MAX_NODES; the links' flows at the end are not stated.
- BaseConvert.Convert: the output base 0, and negative bases for which the arrays declared first would have no positive size, are outside the contract; what a write past the buffer does to other memory is not modelled.
- PagedTransfer.FetchChunk: storage returns the whole chunk at every request and nothing is lost; lost and refused replies are covered by PagedTransfer.DeliveredIsGenuine.
