# A verified model of the sharded HNSW vector store

The system stores vectors under keys (a client id and that client's label) in HNSW graphs,
one per shard. A shard logs every write, keeps a snapshot, and recovers from both after a
crash; a coordinator routes writes by key hash and merges the shards' search answers. This
project models the parts where something can go subtly wrong and proves what they keep:

- **The index** (`include/hnsw.hpp`). The flat link blocks, the visited list with its 16-bit
  stamp, greedy descent, beam search, the diversity heuristic, linking with re-pruning, soft
  deletes, search, and the snapshot file. `HnswIndex.Index` is the class; the link structure is
  a value that its methods replace. Every insertion keeps the graph invariant
  (`IndexRuns.IndexInvariant` spells it out) and is exactly what Algorithm 1 of Malkov and
  Yashunin (arXiv:1603.09320) prescribes, up to ties, in terms of the stored vectors' distances
  (`Placement`, `HnswIndex.NewLinks`, `HnswIndex.FullNeighbour`); every search returns live keys at
  their true distances, and is exact when the beam is wide enough. `SnapshotBytes` gives the
  snapshot file byte by byte.
- **The entry-point protocol** of concurrent insertions, as a step system over any number of
  threads and any interleaving.
- **The write-ahead log** byte by byte: the codec's exact bound, torn tails, crash cycles.
- **Crash recovery** (`go/durable/durable.go`): step systems with a crash possible between any
  two steps and in the middle of a write. `Durable` applies a write in one step. `DurableSlots`
  has the real steps: `addPoint` looks its label up, claims a slot and enters the label into the
  map in three separate steps (`include/hnsw.hpp:217-239`), so two writers can race; memory is
  slots and label map, and a snapshot is the slots, from which the map is rebuilt. Durability is
  proved of the real steps directly (`DurableSlotsProof`); exact recovery is proved of the atomic
  system (`DurableProof`, `DurableHistory`) and carried over by a refinement (`DurableRefine`,
  `DurableExact`). `DurableRaces`, `DurableClash` and `DurableLimits` show, for each condition,
  runs of the step systems that lose the promise without it. The sequential methods are proved to
  be runs of the atomic system, and `DurableFiles` composes the bytes of both files with the real
  index.
- **The cluster**: FNV-1a routing makes the shards together behave as one index, and the
  scatter-gather search agrees with searching that one index, for every order of arrival.

Reading order: `KeyTable`, `Beam`, `LayerSearch`, `Neighbors`, `LinkArena`, `LayerGraph`,
`GraphStore`, `Insertion`, `Orphans`, `Placement`, `HnswIndex`, `IndexRuns`; `SnapshotCodec`,
`SnapshotFormat`, `SnapshotBytes`, `IndexSnapshot`; `EntryPoint`; `WalFormat`, `WalFile`, `Replay`, `Durable`, `DurableKeys`,
`DurableProof`, `DurableHistory`, `DurableOrder`, `DurableClash`, `DurableLimits`, `DurableIndex`;
`SlotStore`, `LabelRace`, `DurableSlots`, `SlotReplay`, `SlotMemory`, `DurableSlotsProof`, `SlotShown`,
`DurableRefine`, `DurableExact`, `DurableRaces`, `DurableFiles`; `TopK`, `Gather`, `Router`,
`Cluster`, `ClusterSearch`.

Conventions. Distances are `real` and given by a function, a vector is the sequence of its
floats' bit patterns, and the checksum is any function of the payload. A heap is the set of
its entries; which of several equally far entries it gives first is left open, so everything
holds for every tie-break. The random level is an argument. Where an operation reports an
error in the source, the model returns an outcome.

Some properties do not hold of the code as it stands. Each is kept with an input or a run of
the step system that shows it, and with the exact condition under which it holds:

- Every written record can be read back: `WalFormat.CodecBound`, with
  `DurableLimits.OversizeHidesTheRest` and `OversizeAddIsLost` for what follows on recovery.
- A label has one slot, and the label map is the inverse of the labels: with concurrent inserts if
  and only if no step gives a second slot to a key (`LabelRace.InverseIffNeverDoubles`). No two
  inserts of one absent label under way together is enough (`LabelRace.AloneRunsNeverDouble`) and,
  while there is room, necessary (`LabelRace.BrokenGuardDoubles`).
- An acknowledged Add survives whatever writers are in flight: `DurableSlotsProof.Durability` with the
  guard that two Adds of an absent key in flight have one stored vector;
  `DurableRaces.ClashingAddIsLost` shows the guard to be exact.
- Memory is recovered exactly, whatever writers are in flight: `DurableExact.ExactRecovery` with the
  guard that no two of them clash, where two Adds of an absent key clash even if their vectors are
  equal. `DurableRaces.RacedDeleteIsUndone` and `DurableRaces.RacedSlotBlocksOpen` are what such a pair
  leads to. With atomic applications the clash is an if-and-only-if
  (`DurableKeys.CommuteUnlessClash`, `DurableClash.ClashDiverges`), and equal vectors would be
  harmless there.
- A log can be replayed over what it already produced: `Replay.ReplayTwice`,
  `Replay.ReplayOverlap`, and for the snapshot's rename `DurableProof.RenameIsExact`, with
  `DurableLimits.EarlyDeleteReturns`.
- A stopped index can be opened again: `DurableSlotsProof.OpensExactlyIf`, counted in slots, and
  `DurableExact.OpensExactlyIf` and `DurableExact.RecoversWholeHistory`, counted in keys, with
  `DurableLimits.RefusedAddBlocksOpen`, `DurableRaces.RacedSlotBlocksOpen` and
  `DurableLimits.TornOpenIsForever`.
- Every inserted point can be found: a new node that every selected neighbour gives up has no link
  to it (`Orphans.OrphanedIff`, an if-and-only-if, with `Orphans.AnOrphan`).
- A snapshot compacts the log: `DurableIndex.Index.Snapshot` says exactly when, with
  `DurableLimits.LeftoverBlocksRotation` and `DurableLimits.AbandonedSnapshot`.
- A cluster answers as one index: `Cluster.StepAgrees` per write, `Cluster.NoneFillsFromEmpty` for
  whole runs, with `Cluster.HashShardRefuses`.

Where code and documentation differ, the code is followed: `WAL.md:48` describes the record
payload without the client id, while `go/wal/wal.go:139-147` writes it.

## Model

| member | source | states |
|---|---|---|
| VisitedLists.VisitedList.constructor | include/hnsw.hpp:118 | A new list answers "visited" for every slot until the first reset. |
| VisitedLists.VisitedList.Reset | include/hnsw.hpp:120-126 | After a reset the list is empty, whatever the stamp was, including at the 16-bit wrap. |
| VisitedLists.VisitedList.TestAndSet | include/hnsw.hpp:127-131 | Reports membership, then inserts the slot and nothing else. |
| VisitedLists.RunStampedList | include/hnsw.hpp:116-136 | Over every run of resets and visits the stamped list gives the answers of a plain set. |
| Candidates.Nearest | include/hnsw.hpp:456-460 | The min-heap's top is an entry no other entry is nearer than. |
| Candidates.Farthest | include/hnsw.hpp:452-459 | The max-heap's top is an entry no other entry is farther than. |
| Candidates.Sort | include/hnsw.hpp:585-588 | Draining and sorting lists exactly the heap's entries, ascending by distance, then id. |
| Neighbors.Scan | include/hnsw.hpp:601-604 | A candidate is kept exactly if no kept one is strictly closer to it than the base point is. |
| Neighbors.FirstPass | include/hnsw.hpp:597-607 | The first pass, with its early stop, divides the prefix it saw into uncovered and covered candidates. |
| Neighbors.Refill | include/hnsw.hpp:609-612 | Discarded candidates fill the list up in order of distance, up to the limit. |
| Neighbors.SelectNeighbors | include/hnsw.hpp:584-614 | The two passes with their early exits compute the closed form `Choose`, which mentions no limit while judging candidates. |
| Neighbors.ChooseCounts | include/hnsw.hpp:590-613 | Exactly min(candidates, M) distinct candidates are chosen and the nearest comes first. |
| Neighbors.KeptAreDiverse | include/hnsw.hpp:599-607 | Of two heuristically kept candidates the later one is at least as far from the earlier as from the base point. |
| Neighbors.RejectedHaveWitness | include/hnsw.hpp:599-607 | Every candidate the pass rejected has a chosen one strictly closer to it than the base point is. |
| Neighbors.PruneDropsOne | include/hnsw.hpp:584-614 | Choosing m of m + 1 drops exactly one: the farthest covered candidate, or the farthest if none is covered. |
| LinkArena.BlockWordsIsProduct | include/hnsw.hpp:468-477 | Block offsets are the product of index and stride. |
| LinkArena.BlocksInBounds | include/hnsw.hpp:468-479 | Every word of every block of every node lies inside its array. |
| LinkArena.BlockLayout | include/hnsw.hpp:468-487 | Where a list lies: node and layer give the offset `id * (2M + 1)` or `(level - 1) * (M + 1)`, where the number of links stands and after it the links in order. |
| LinkArena.WriteFrame | include/hnsw.hpp:468-487 | Blocks do not overlap: a write to one word changes no other word of any block. |
| LinkArena.SetLinks | include/hnsw.hpp:481-487 | The block then holds the list, cut to capacity; no other block changes. |
| LinkArena.AppendLink | include/hnsw.hpp:636-640 | The block's list grows by the one link; no other block changes. |
| Beam.StartInv | include/hnsw.hpp:535-544 | The search's start satisfies its invariant. |
| Beam.ExpandKeepsInv | include/hnsw.hpp:546-550 | Popping a frontier node for expansion keeps the invariant. |
| Beam.SkipKeepsInv | include/hnsw.hpp:563-566 | A new node no nearer than a full beam may be left out. |
| Beam.PassKeepsInv | include/hnsw.hpp:566-568 | A tombstoned node enters the frontier only, and the invariant stays. |
| Beam.PushKeepsInv | include/hnsw.hpp:566-573 | Push, overflow pop and the refresh of `worst` keep: results are the ef best live nodes visited, with true distances, and `worst` is their maximum. |
| Beam.PathStaysExpanded | include/hnsw.hpp:546-575 | A path that starts at an expanded node and stays strictly inside the worst distance never leaves the expanded nodes. |
| Beam.StoppedIsComplete | include/hnsw.hpp:546-577 | When the loop stops: returned nodes were expanded; along such a path every live node is returned; with fewer than ef results every reachable live node is returned. |
| Beam.WideBeamIsExact | include/hnsw.hpp:530-578 | If ef is at least the number of live reachable nodes, the results are exactly those. |
| LayerSearch.Admit | include/hnsw.hpp:565-573 | One newly visited node is admitted as the invariant requires. |
| LayerSearch.VisitLinks | include/hnsw.hpp:552-574 | All links of the expanded node are visited and the invariant kept. |
| LayerSearch.GreedyDescend | include/hnsw.hpp:509-525 | Ends, on a reachable node no farther than the start and none of whose links is closer. |
| LayerSearch.SearchLayer | include/hnsw.hpp:530-578 | Terminates with sound and complete results, for every recycled visited list and every width. |
| LayerGraph.PruneConserves | include/hnsw.hpp:643-649 | Re-pruning a full node keeps its degree and gives up exactly one of its links and the newcomer. |
| LayerGraph.UpdatedIsOk | include/hnsw.hpp:631-650 | A neighbour's list stays well formed and does not get shorter when the newcomer links back. |
| LayerGraph.RelinkKeepsOk | include/hnsw.hpp:620-652 | Connecting a node keeps its layer well formed, leaves no node without links and shortens no list. |
| Orphans.MissingIffGivenUp | include/hnsw.hpp:631-650 | A linked-back node lacks the newcomer if and only if its block is full and the newcomer is the one that re-pruning drops. |
| Orphans.OrphanedIff | include/hnsw.hpp:631-650 | A new node ends up without a link to it if and only if every node it selected is full and gives it up. |
| Orphans.AnOrphan | include/hnsw.hpp:620-652 | Such an insertion between sound layers: four points of the plane, M = 1, layer 0. |
| Orphans.SquaredIs | include/hnsw.hpp:496-499 | Squared L2 distances of the plane have the distances the instance needs. |
| Placement.ChoiceIsSelected | include/hnsw.hpp:584-614 | The heuristic's pick by distances alone: all if there is no choice; otherwise m of them, first diverse ones nearest first, then covered ones nearest first; whatever is left out is covered and farther than those, or comes after m diverse ones. |
| Placement.FirstIsNearest | include/hnsw.hpp:597-607 | The first link of any such pick is a nearest one of all that was found. |
| Placement.LeftOutFor | include/hnsw.hpp:584-614 | Something left out has a picked node closer to it than the base is, or no picked node is farther from the base. |
| Placement.FullNodeGivesUp | include/hnsw.hpp:643-649 | A full node that links back keeps its degree and gives up exactly one of its links and the newcomer, for the reason just stated. |
| Placement.SearchFinds | include/hnsw.hpp:530-578 | What an insertion's search finds, by distances: reachable nodes, at most as many as the beam is wide and all if they are fewer, and no link from them to one closer than one of them leads outside. |
| Placement.InsertedIsPlaced | include/hnsw.hpp:216-290 | The whole insertion by distances: a climb per layer down to the node's level, on each shared layer such a search and such a pick, linked back by the picked nodes only; every other layer unchanged. |
| GraphStore.WriteChangesOneList | include/hnsw.hpp:481-487 | Writing one block changes one list of one layer. |
| GraphStore.StoreList | include/hnsw.hpp:626-629 | A node's list on a layer is replaced; every other list on every layer stays. |
| GraphStore.ExtendList | include/hnsw.hpp:636-640 | A node's list on a layer grows by one link; every other list stays. |
| GraphStore.NodeStartsIsolated | include/hnsw.hpp:241-243 | Claiming a slot adds one node without links to the layers up to its level and changes nothing else. |
| GraphStore.EmptyGraphOk | include/hnsw.hpp:199-207 | The freshly allocated arrays form a sound empty graph. |
| GraphSearch.Descend | include/hnsw.hpp:272-277 | One completed hill climb on every layer passed, each starting where the last ended. |
| GraphSearch.SearchGraph | include/hnsw.hpp:329-342 | Descent, then a sound and complete beam search; exact if the beam covers the live part around its start. |
| Linking.GatherPool | include/hnsw.hpp:643-648 | The pool holds the node's links and the newcomer with their distances, and nothing else. |
| Linking.LinkBack | include/hnsw.hpp:631-650 | The neighbour appends the newcomer if it has room, else re-prunes; only its list changes. |
| Linking.LinkAllBack | include/hnsw.hpp:631-650 | Exactly the selected nodes take the newcomer in. |
| Linking.ConnectNewElement | include/hnsw.hpp:620-652 | The new node's links are the heuristic's choice from the search results, the chosen nodes link back, nobody else changes; the nearest chosen node is returned. |
| Insertion.ClaimIsPartial | include/hnsw.hpp:223-243 | A claimed slot leaves every layer well formed with the new node unconnected. |
| Insertion.ConnectStep | include/hnsw.hpp:280-283 | Connecting one layer completes it and disturbs no other. |
| Insertion.ConnectLayer | include/hnsw.hpp:281-282 | Beam search, heuristic and linking of one layer, as the relation `Connection`, with the invariant kept. |
| Insertion.ConnectAll | include/hnsw.hpp:280-283 | All shared layers are connected from the top down, each search starting at the previous layer's nearest choice. |
| Insertion.LinkNode | include/hnsw.hpp:267-283 | Descent to the node's level, then the connections. |
| Insertion.InsertNode | include/hnsw.hpp:241-283 | The whole insertion keeps the graph sound, shortens no list and satisfies the relation `Inserted`. |
| NodeSlots.NodeAdded | include/hnsw.hpp:229-239 | A new slot keeps the label map the exact inverse of the labels and adds one live entry. |
| NodeSlots.NodeFlagged | include/hnsw.hpp:294-312 | Flipping a tombstone changes one entry's flag and the number of set flags by one. |
| Hits.CutTo | include/hnsw.hpp:343 | Popping keeps k entries, none farther than one popped. |
| Hits.FillBackwards | include/hnsw.hpp:345-349 | The answer lists the heap's entries once each, ascending. |
| Hits.Answer | include/hnsw.hpp:343-350 | The answer is a k nearest list of the result heap. |
| HnswIndex.Index.constructor | include/hnsw.hpp:179-211 | A valid, empty index with the given parameters. |
| HnswIndex.Index.MarkDeleted | include/hnsw.hpp:294-302 | Succeeds exactly on a live label and sets its tombstone; nothing else changes. |
| HnswIndex.Index.UnmarkDeleted | include/hnsw.hpp:304-312 | Succeeds exactly on a tombstoned label and clears it; nothing else changes. |
| HnswIndex.Index.Link | include/hnsw.hpp:241-283 | The newest slot's node is linked as Algorithm 1 prescribes and the graph stays sound. |
| HnswIndex.Index.Promote | include/hnsw.hpp:261-265 | The new node becomes the entry point exactly if it is the first or the highest; the entry point stays on top. |
| HnswIndex.Index.LinkAndPromote | include/hnsw.hpp:241-289 | Both together keep the graph sound and the entry point on top. |
| HnswIndex.Index.AddPoint | include/hnsw.hpp:216-290 | Duplicate and full are refused without change; otherwise the table gains the key, the insertion is Algorithm 1's at the distances of the stored vectors and with a beam of efConstruction (`LinkedInto`, which `NewLinks` and `FullNeighbour` read out), the entry point is updated, and the invariant holds. |
| HnswIndex.NewLinks | include/hnsw.hpp:584-629 | What AddPoint's relation says of the new node on a shared layer, by the distances of the stored vectors: its links are all that was found or M of it, the first is a nearest one, the diverse ones are no closer to each other than to it, and all others, linked or left out, have a diverse link closer to them than it is. |
| HnswIndex.FullNeighbour | include/hnsw.hpp:631-650 | And of a full neighbour: it keeps its degree and gives up one of its links and the newcomer, one that something it kept is closer to than it is, or one that nothing it kept is farther than. |
| HnswIndex.Index.Search | include/hnsw.hpp:316-351 | The answer lists at most k distinct live keys of the index, ascending, each at the distance of its stored vector from the prepared query. It is a k nearest list of the live entries around the end of the descent if those number at most max(ef, k), and misses none of them if it is shorter than k. Search is the descent and a sound and complete beam search. |
| IndexRuns.PerformAll | include/hnsw.hpp:216-312 | Every sequence of insertions with arbitrary levels, deletes and undeletes keeps the invariant, answers and stores what the table specification says, and shortens no node's list on any layer. |
| IndexRuns.NodeLinks | include/hnsw.hpp:468-487 | Per node and layer: block in bounds, degree at most 2M or M, no self-link or duplicate, neighbours exist and reach the layer, and a link as soon as the layer has a second node. |
| IndexRuns.IndexInvariant | include/hnsw.hpp:216-290 | The same for all nodes; the entry point's level is the maximum; the label map inverts the labels below count; numDeleted counts the flags. |
| SnapshotCodec.RowGives | include/hnsw.hpp:393-397 | A node's upper blocks are read back, cut to their length modulo 2^32. |
| SnapshotFormat.LoadOfSave | include/hnsw.hpp:372-443 | Reading a written file, whatever follows it, gives back header and arrays. |
| SnapshotFormat.RoundTripExact | include/hnsw.hpp:393-397 | The round trip of the format is exact if and only if every row's length fits in 32 bits. |
| IndexSnapshot.DrawnLevelsFit | include/hnsw.hpp:657-666 | The levels the random draw can give with M at least 2 keep every row's length far below 2^32, so for the indexes the code builds the round trip is exact. |
| SnapshotFormat.TruncatedIsRefused | include/hnsw.hpp:401-435 | Every strict prefix of a snapshot file is refused, as the code's final stream check intends; see "Left out" for what the code does with the values of a short read before that check. |
| SnapshotBytes.LayoutIff | include/hnsw.hpp:384-443 | A file starts with the written index if and only if its bytes are laid out so: magic, version and the nine header fields at their fixed offsets, then each array where the one before ends, words little-endian, tombstone bytes 1 and 0. |
| IndexSnapshot.WrongStart | include/hnsw.hpp:406-411 | A file of eight bytes or more is turned away as no index, or for its version, exactly by its first and second word. |
| IndexSnapshot.BadHeader | include/hnsw.hpp:194-197 | A file with magic, version and the nine header fields is refused for its parameters if and only if the constructor would refuse them, or there are more nodes than slots or too many slots for the ids. |
| IndexSnapshot.WriteFile | include/hnsw.hpp:384-397 | The writes one after the other produce the file format. |
| IndexSnapshot.ReadFile | include/hnsw.hpp:405-435 | The reads one after the other, with the checks in the code's order, parse the file format; a short header counts as truncated and an impossible one as bad parameters, see "Left out". |
| IndexSnapshot.RebuildLabels | include/hnsw.hpp:441 | The loop rebuilds the label map from the labels in order. |
| IndexSnapshot.RebuiltLabels | include/hnsw.hpp:441 | For every reachable index the rebuilt map equals the original one. |
| IndexSnapshot.CopyOk | include/hnsw.hpp:425-434 | Copying the stored blocks into a fresh arena gives a sound graph with the same links on every layer. |
| IndexSnapshot.ImageRestored | include/hnsw.hpp:372-443 | What the file of a valid index restores: the same entries, tombstones, label map, levels and links. |
| IndexSnapshot.Save | include/hnsw.hpp:372-399 | Byte by byte, the file of a valid index holds its parameters at the header's offsets, then its vectors, levels, labels, tombstones (1 if deleted, else 0), layer 0 blocks and counted upper rows, each array where the one before ends; and it parses back to exactly those. |
| IndexSnapshot.Load | include/hnsw.hpp:401-443 | Refuses, or fills a fresh index from the file; which inconsistent files are refused is listed under "Left out". |
| IndexSnapshot.LoadBytes | include/hnsw.hpp:401-443 | Conversely, of any file whose bytes are laid out like this, load makes an index that holds what the bytes say. |
| IndexSnapshot.SaveThenLoad | include/hnsw.hpp:372-443 | Loading a saved index gives a valid index with the same contents, parameters, entry point, levels and links. |
| EntryPoint.StepKeepsInv | include/hnsw.hpp:247-288 | Every step of every thread keeps the protocol's invariant; entry and maxLevel change only under the exclusive lock. |
| EntryPoint.RunsKeepInv | include/hnsw.hpp:247-288 | The invariant holds over every interleaving and maxLevel never falls. |
| EntryPoint.EntryPointSafety | include/hnsw.hpp:247-288 | In every reachable state the entry's level is maxLevel and the maximum of the finished nodes; a thread on the shared path has an entry and no promotion to make; the locks exclude each other. |
| EntryPoint.WritesAreExclusive | include/hnsw.hpp:261-288 | A step that changes the pair is the exclusive holder's, with no reader, and does not lower maxLevel. |
| EntryPoint.ExclusiveIsAlone | include/hnsw.hpp:247-288 | In every reachable state in which a thread holds the exclusive lock, no other thread takes a step. |
| EntryPoint.SharedTogether | include/hnsw.hpp:247-283 | Insertions that do not raise the top level do not wait for each other: any number of them can hold the shared lock together. |
| EntryPoint.NoDeadlock | include/hnsw.hpp:247-259 | While an insertion is unfinished some thread can move. |
| SlotStore.RebuiltMeaning | include/hnsw.hpp:441 | Rebuilding the map from slots knows exactly their labels and leads to a slot of the label, also when a label is on several. |
| SlotStore.LoadedInverse | include/hnsw.hpp:441 | From distinct labels it rebuilds their exact inverse. |
| LabelRace.StepKeepsInv | include/hnsw.hpp:216-239 | In every interleaving of check, claim and label steps and marks, the map leads to slots of the right label, and every slot's label is in the map or about to be. |
| LabelRace.InverseIffNeverDoubles | include/hnsw.hpp:216-312 | Over every interleaving, once all writers are done the label map is the inverse of the labels if and only if no step gave a second slot to a key. |
| LabelRace.AloneRunsNeverDouble | include/hnsw.hpp:217-239 | If no insert of an absent label enters while another one is under way, no key gets a second slot. |
| LabelRace.BrokenGuardDoubles | include/hnsw.hpp:217-239 | Whenever that guard is broken and two slots are left, both inserts can succeed and the label is on two slots. |
| WalFormat.PayloadRoundTrip | go/wal/wal.go:138-183 | Decoding an encoded payload gives the record back. |
| WalFormat.CodecBound | go/wal/wal.go:130-257 | A record is read back with exactly its own bytes consumed if and only if its op is known and it has at most 4194298 components. |
| WalFormat.RecordLayout | go/wal/wal.go:130-155 | The bytes of a record: length, op, client id, label, dimension, components and checksum of the payload, each at its offset. |
| WalFormat.HeaderBytes | go/wal/wal.go:83-92 | The eight bytes every log starts with. |
| WalFormat.ReadExactlyIf | go/wal/wal.go:228-257 | A record is read if and only if its length is within bounds and within the file, the stored checksum is that of the payload, and the payload decodes to it. |
| WalFormat.FoundUnreadIff | go/wal/wal.go:228-257 | A complete frame of acceptable length is not read if and only if its checksum is another than its payload's or the payload does not decode. |
| WalFormat.OversizeUnread | go/wal/wal.go:233-236 | What the encoder accepted beyond that is not read at all. |
| WalFormat.TornUnread | go/wal/wal.go:228-246 | A record cut anywhere is not read, for any checksum function. |
| WalFormat.ReadAllComplete | go/wal/wal.go:211-225 | Complete records before something unreadable are read exactly, with the offset where they end. |
| WalFormat.ScanTorn | go/wal/wal.go:185-226 | The same for a whole file with header; cutting at the offset leaves the file of the complete records. |
| WalFormat.DamageStopsScan | go/wal/wal.go:185-257 | After complete records such a frame, whatever follows it, ends the scan with exactly those records if and only if its checksum is wrong or its payload does not decode. |
| WalFormat.CrashCycles | go/wal/wal.go:65-108 | Over any number of lives that each end in a torn append, the file holds exactly the records appended in full. |
| WalFile.Put | go/wal/wal.go:142-153 | Writing into a buffer replaces exactly the bytes at the offset. |
| WalFile.EncodeRecord | go/wal/wal.go:130-155 | Filling the buffer piece by piece gives the encoding; an Add without and a delete with a vector are refused. |
| WalFile.DecodePayload | go/wal/wal.go:157-183 | The loop over the vector computes the decoding. |
| WalFile.ReadRecords | go/wal/wal.go:211-225 | The reading loop returns all readable records and their end. |
| WalFile.ScanLog | go/wal/wal.go:185-226 | Replay's scan of the file, header checks included, as the function whose results `ReadExactlyIf`, `DamageStopsScan` and `ScanTorn` determine. |
| WalFile.Wal.Create | go/wal/wal.go:48-63 | A new log file is the header alone. |
| WalFile.Wal.OpenForAppend | go/wal/wal.go:65-81 | The existing file, cut or padded with zeros to the given length unless that is negative. |
| WalFile.Wal.Append | go/wal/wal.go:94-108 | Appends the record's bytes or refuses; a well-formed log becomes the log with one more record. |
| WalFile.Recover | go/wal/wal.go:65-81 | Scanning and cutting a torn log gives its complete records and a log of exactly those. |
| Replay.ReplayMeaning | go/durable/durable.go:113-137 | Replay runs to the end if and only if every Add has the index's dimension and the distinct keys fit; then each key's entry is the fold of its own records. |
| Replay.AppliedByOp | go/durable/durable.go:113-137 | One record by its op byte: 1 inserts an absent key live and leaves a present one alone, 2 sets and 3 clears the tombstone of a present key; anything else, a wrong dimension or no room ends the replay; other keys stay. |
| Replay.FoldPresent | go/durable/durable.go:113-137 | A key that is present keeps its vector; its last delete or undelete decides the tombstone. |
| Replay.FoldAbsent | go/durable/durable.go:113-137 | An absent key enters with its first Add, and only later deletes and undeletes count. |
| Replay.ReplayTwice | go/durable/durable.go:113-137 | Replaying a key's records over their own result changes nothing if and only if the key has no late tombstone. |
| Replay.ReplayOverlap | go/durable/durable.go:113-137 | The same for whole tables; the second replay always runs to the end. |
| Durable.DiesInsideAppend | go/wal/wal.go:94-108 | The process can die in an append with any proper prefix of the record on disk. |
| Durable.DiesInsideCreateLog | go/wal/wal.go:48-63 | And in creating the next log, with any proper prefix of it on disk. |
| Durable.DiesInsideOpen | go/wal/wal.go:48-63 | And in creating the first log. |
| DurableKeys.CommuteUnlessClash | go/durable/durable.go:28-31 | With atomic applications, two writes of one key in flight lead to the same entry in either order if and only if they do not clash: two Adds of different vectors, or an Add and a delete, of an absent key; a delete and an undelete of a present one. |
| DurableKeys.AppendKeepsMatch | go/durable/durable.go:139-150 | Logging a record that clashes with none in flight keeps, per key, that recovery equals memory with the records in flight applied. |
| DurableKeys.ApplyKeepsMatch | go/durable/durable.go:139-170 | Applying a record in flight keeps that agreement. |
| DurableKeys.RebaseKeepsMatch | go/durable/durable.go:186-192 | Putting the snapshot in place before the log is rotated keeps it if and only if the key has no late tombstone. |
| DurableProof.StepKeepsInv | go/durable/durable.go:139-221 | Every step of the system with atomic applications keeps the recovery invariant. |
| DurableProof.RunsKeepInv | go/durable/durable.go:55-221 | So does every run. |
| DurableProof.Durability | go/durable/durable.go:55-221 | With atomic applications, over every run in which no two Adds of different vectors for one absent key are in flight together and vectors are within the reader's limit: whenever Open succeeds, each acknowledged Add is there with its vector; the log is a suffix of the history that begins no later than the snapshot. |
| DurableProof.OpensExactlyIf | go/durable/durable.go:55-75 | With atomic applications, in every reachable state, running or stopped, Open succeeds if and only if the log has its header and its Adds have the right dimension and fit over the snapshot. |
| DurableProof.DyingChangesNothing | go/durable/durable.go:139-221 | With atomic applications, however a process dies, Open makes of the files what it would have made of them just before. |
| DurableProof.ExactRecovery | go/durable/durable.go:55-221 | With atomic applications, if no two writes in flight clash and no key has a late tombstone at a snapshot's rename: however the process dies, in the middle of a write included, Open recovers memory with its tombstones as it would be once the writers in flight finish, in whatever order. |
| DurableProof.RenameIsExact | go/durable/durable.go:186-192 | With atomic applications, right after the snapshot's rename Open recovers memory if and only if no key has a late tombstone in the log. |
| DurableHistory.RecoversWholeHistory | go/durable/durable.go:55-221 | With atomic applications, as long as all keys ever logged fit, Open succeeds if and only if the log file has its header, and then recovers the whole logged history replayed from the empty index; running or stopped, after torn writes too. |
| DurableOrder.OrderlyRunsAreDisciplined | go/durable/durable.go:139-170 | If no delete is logged before its key's first Add and no writes in flight clash, every condition of exact recovery holds at every snapshot of every run. |
| DurableClash.ClashingAddIsLost | go/durable/durable.go:139-150 | With atomic applications, in every reachable state an Add of an absent key with another vector in flight can be acknowledged at once, and Open then recovers the other vector. |
| DurableClash.ClashDiverges | go/durable/durable.go:139-170 | With atomic applications, for every clash, whoever else is in flight for the key: if the clashing write finishes first, others in any order after it and the one it clashes with last, memory and recovery disagree. |
| DurableLimits.SameKeyInFlightLosesAdd | go/durable/durable.go:139-150 | Two Adds of one key in flight, applied in the other order than logged: the acknowledged vector is replaced on recovery. |
| DurableLimits.RefusedAddBlocksOpen | go/durable/durable.go:143-148 | An Add refused because the index is full stays in the log and makes Open fail. |
| DurableLimits.EarlyDeleteReturns | go/durable/durable.go:152-160 | A delete of a missing key, logged before it fails, deletes the key added later when the process dies between the two renames. |
| DurableLimits.OversizeAddIsLost | go/durable/durable.go:139-150 | An acknowledged Add beyond the reader's limit is gone after the next Open. |
| DurableLimits.OversizeHidesTheRest | go/wal/wal.go:233-236 | Logged in any reachable state, such a record and everything after it are invisible to Open. |
| DurableLimits.TornOpenIsForever | go/wal/wal.go:48-57 | A crash while the first Open creates the log leaves a file that no Open ever accepts. |
| DurableLimits.LeftoverBlocksRotation | go/durable/durable.go:194-198 | Once a crash leaves the new log's file behind, no snapshot rotates the log again, in any run. |
| DurableLimits.CrashBeforeRotationIsForever | go/durable/durable.go:194-214 | A crash between creating and renaming the new log is such a crash. |
| DurableLimits.AbandonedSnapshot | go/durable/durable.go:182-221 | A run from the empty disk that gets there: the first snapshot dies before its last rename, and the log is never rotated. |
| DurableIndex.ReplayInto | go/durable/durable.go:61-66 | The replay loop with apply as callback computes the replay function. |
| DurableIndex.Index.Submit | go/durable/durable.go:139-170 | Log, then apply: a run of two steps, with the index's outcome as answer. |
| DurableIndex.Index.Add | go/durable/durable.go:139-150 | The same for an Add; an empty vector is refused unlogged. |
| DurableIndex.Index.MarkDeleted | go/durable/durable.go:152-160 | The same for a delete, logged whether or not it succeeds. |
| DurableIndex.Index.UnmarkDeleted | go/durable/durable.go:162-170 | The same for an undelete. |
| DurableIndex.Index.Snapshot | go/durable/durable.go:182-221 | A run of the snapshot's steps: the snapshot is memory; the log is rotated unless a leftover file is in the way. |
| DurableIndex.OpenIndex | go/durable/durable.go:55-111 | Open succeeds exactly if load and replay do, and starts on what they recovered with the torn tail cut. |
| SlotReplay.ReplayAllMeaning | go/durable/durable.go:113-137 | Replay into slots runs to the end if and only if every Add has the index's dimension and there is a slot for every logged key that has none; then every key has a slot and every slot the vector its key had first. |
| DurableSlots.DiesInsideAppend | go/wal/wal.go:94-108 | With the real steps too, the process can die in an append with any proper prefix of the record on disk. |
| SlotMemory.EnterKeepsMemOk | go/durable/durable.go:139-150 | A writer that keeps to the guard on vectors leaves all slots and inserts of a label with one vector. |
| SlotMemory.AdvanceKeepsMemOk | include/hnsw.hpp:216-239 | So does every check, claim and label step and every mark, in whatever interleaving. |
| SlotMemory.AdvanceKeepsVecOk | include/hnsw.hpp:216-239 | Every slot and every insert under way keeps the vector recovery gives its key, unless there is no slot left for it; and no logged key is forgotten, unless for lack of a slot. |
| DurableSlotsProof.StepKeepsInv | go/durable/durable.go:139-221 | Every step of the system with the real steps of addPoint keeps the durability invariant, racing Adds included. |
| DurableSlotsProof.Durability | go/durable/durable.go:55-221 | With the real steps, over every run in which Adds of one absent key in flight together have one stored vector and vectors are within the reader's limit: whenever Open succeeds, each acknowledged Add is there with its stored vector; the log is a suffix of the history that begins no later than the snapshot. |
| DurableSlotsProof.OpensExactlyIf | go/durable/durable.go:55-75 | With the real steps, races or not: Open succeeds if and only if the log has its header, its Adds have the right dimension, and the snapshot's slots leave one for every logged key that has none. |
| SlotShown.AdvanceShown | include/hnsw.hpp:216-239 | As long as no two writes in flight clash, each step of a writer is one atomic application of its record or no change at all. |
| SlotShown.ReplayShown | go/durable/durable.go:113-137 | Replay into slots with distinct labels is replay into the table, key by key, with the vectors as the index stores them. |
| DurableRefine.StepRefines | go/durable/durable.go:55-221 | Each step of the system with the real steps is matched by the same step of the atomic system, or by none. |
| DurableRefine.RefinesAtomic | go/durable/durable.go:55-221 | Every disciplined run with the real steps is matched by a disciplined run of the atomic system, with the same log and the tables that show its slots. |
| DurableExact.ExactRecovery | go/durable/durable.go:55-221 | With the real steps, if no two Adds, and no Add and delete, of an absent key and no delete and undelete of a present one are in flight together and no key has a late tombstone at a snapshot's rename: however the process dies, Open answers every key, tombstones included, as memory would once the writers in flight have taken their remaining steps in whatever order; both label maps are exact inverses. |
| DurableExact.RecoversWholeHistory | go/durable/durable.go:55-221 | With the real steps and that guard, as long as all keys ever logged fit: Open succeeds if and only if the log file has its header, and answers every key as the whole logged history replayed from the empty index. |
| DurableExact.OpensExactlyIf | go/durable/durable.go:55-75 | With the real steps and that guard, no snapshot has a label on two slots, and Open succeeds if and only if the log has its header, its Adds have the right dimension, and the distinct keys of snapshot and log fit. |
| DurableRaces.BothAddsSucceed | include/hnsw.hpp:217-239 | Two racing Adds of one absent key and one vector are both acknowledged, take two slots, and leave a map that is not the inverse of the labels. |
| DurableRaces.RacedDeleteIsUndone | include/hnsw.hpp:441 | After such a race an acknowledged delete is undone by snapshot and reopening. |
| DurableRaces.RacedSlotBlocksOpen | include/hnsw.hpp:223-227 | After such a race an index whose logged keys all fit cannot be opened again. |
| DurableRaces.ClashingAddIsLost | go/durable/durable.go:139-150 | With the real steps, in every reachable state with a slot left, an Add of an absent key whose stored vector differs from one in flight can be acknowledged at once, and Open then recovers the other. |
| DurableFiles.ApplyTo | go/durable/durable.go:113-137 | apply on the real index: exactly what applying the record, its vector as stored, does to the index's contents. |
| DurableFiles.ReplayTo | go/durable/durable.go:61-66 | The replay loop on the real index keeps it valid and computes the replay of the records, stopping at the first it refuses. |
| DurableFiles.OpenFiles | go/durable/durable.go:55-75 | Open over a snapshot file that save wrote and the bytes of a log: a valid index with the saved contents and the log replayed over them. |
| DurableFiles.SaveThenOpen | go/durable/durable.go:55-221 | From the bytes save and the log write, torn tail included, to the index Open comes back with. |
| TopK.TopKDistancesUnique | go/coordinator/gather.go:94-97 | Any two k nearest lists of one collection have the same distances. |
| TopK.MergeIsTopK | go/coordinator/gather.go:81-97 | Sorting and cutting the parts' k nearest lists gives a k nearest list of the whole. |
| TopK.InsideCutoffIsListed | go/coordinator/gather.go:94-97 | Every hit strictly inside the cutoff is listed. |
| Gather.SortByDistance | go/coordinator/gather.go:94 | The same hits, ascending. |
| Gather.Collect | go/coordinator/gather.go:53-88 | All answers in order of arrival and the number of failures. |
| Gather.Search | go/coordinator/gather.go:50-104 | Aborts exactly on a failure without allowPartial; else healthy plus failed is queried, and the result is a k nearest list of all that the healthy shards returned; if they returned their exact k nearest, it is one of what they hold. |
| Gather.ConcatenatedHits | go/coordinator/gather.go:81-92 | What is merged: every hit as often as the shards that answered returned it. |
| Gather.ArrivalOrderIrrelevant | go/coordinator/gather.go:59-92 | What there is to find and the failures do not depend on the order of arrival. |
| Gather.GatherMatchesOneIndex | go/coordinator/gather.go:50-104 | For every order of arrival: the distances of one big index's answer, and every hit strictly inside the cutoff. |
| Gather.AskingForFewerIsWrong | go/coordinator/gather.go:35-38 | For every k' < k there is a placement for which no cut of the shards' k' nearest is right. |
| Router.Fnv1a64 | src/shard_sim.cpp:39-46 | The loop computes the FNV-1a fold. |
| Router.HashKeyByShifts | src/shard_sim.cpp:48-53 | Filling the buffer by shifts hashes the key's 16 little-endian bytes. |
| Router.HashKey | go/coordinator/router.go:42-49 | The router's hash equals the simulation's on every key. |
| Router.OwnerOf | go/coordinator/router.go:35-37 | The owner is the remainder of the key's hash. |
| Router.OwnerAgrees | src/shard_sim.cpp:48-53 | For both ways to hash a key, the router's and the simulation's: one hash h, and the owner among n shards is h modulo n. |
| Router.KnownAnswers | src/shard_sim.cpp:39-46 | The published FNV-1a 64 values of the empty string and of "a". |
| Router.HashParity | src/shard_sim.cpp:39-46 | The lowest bit of a hash is the parity of the start value and of all the bytes' lowest bits. |
| Router.OwnerOfTwo | go/coordinator/router.go:35-49 | Of two shards the second owns a key exactly if an even number of its 16 bytes is odd. |
| Router.LowBitMovesKey | go/coordinator/router.go:35-49 | So changing the lowest bit of one byte of a key moves it to the other of two shards. |
| Router.PrimeIsInvertible | src/shard_sim.cpp:43 | Multiplying by the FNV prime modulo 2^64 loses nothing. |
| Router.TailsKeepApart | src/shard_sim.cpp:41-44 | Different hash states stay different over any common rest. |
| Router.OneByteApart | src/shard_sim.cpp:39-46 | Byte strings that differ in exactly one place never collide. |
| Cluster.StepRefines | go/coordinator/server.go:43-86 | A routed write answers as the single index does and keeps every key on its owner only. |
| Cluster.MalformedIff | go/coordinator/server.go:43-86 | Turned away are exactly the inserts without a vector, and they change nothing; a delete never is. |
| Cluster.InsertOnOwner | go/coordinator/server.go:43-68 | A routed insert succeeds if and only if its owner has the dimension, a slot and not yet the key, and then adds the live entry there; otherwise nothing changes, and the answer tells why. |
| Cluster.DeleteOnOwner | go/coordinator/server.go:70-86 | A routed delete succeeds if and only if the key is live on its owner, and then sets the tombstone there; otherwise it finds nothing and changes nothing. |
| Cluster.OthersUntouched | go/coordinator/server.go:43-86 | No other shard changes. |
| Cluster.RoomChanges | go/coordinator/server.go:43-68 | The capacity of the one index compared with is the sum of the shards': a shard's capacity changes it by as much, and (`RoomOfEqual`) n shards of capacity c have room for n * c. |
| Cluster.OwnerFillsFirst | go/coordinator/server.go:43-68 | A single index of the shards' total capacity is never full before the owning shard is. |
| Cluster.StepAgrees | go/coordinator/server.go:43-86 | The two answers differ if and only if the write needs a new slot, its owner is full, and the single index of the total capacity is not. |
| Cluster.UnionIsSingle | go/coordinator/router.go:35-49 | The union of the shards' maps is the single map. |
| Cluster.RunRefines | go/coordinator/server.go:43-86 | The same answers and refinement over every sequence of writes for whose keys the shards have room, for any routing function. |
| Cluster.NoneFillsIff | go/coordinator/server.go:43-68 | From any state no answer is Full if and only if each shard has room for the distinct new keys its inserts bring. |
| Cluster.NoneFillsFromEmpty | go/coordinator/server.go:43-68 | From empty shards no answer is Full if and only if the distinct keys of the well-formed inserts of the right dimension that each shard owns number at most its capacity. |
| Cluster.ClusterIsOneIndex | go/coordinator/server.go:43-86 | From empty shards, for every sequence of writes whose keys fit their hash shards: equal answers, each key on its hash shard only, union equal to the single map. |
| Cluster.SharedShardRefuses | go/coordinator/server.go:43-68 | Two keys of one shard of capacity 1 beside another: the cluster refuses the second insert, one index of capacity 2 takes it. |
| Cluster.HashShardRefuses | go/coordinator/router.go:35-37 | Among any three keys two have the same of two hash shards, so such a run exists for them. |
| ClusterSearch.ShardsHoldEverything | go/coordinator/gather.go:50-104 | Together the shards hold exactly the single index's hits. |
| ClusterSearch.SearchAfterWrites | go/coordinator/gather.go:50-104 | After any writes whose keys fit their hash shards, and given the shards' exact k nearest, the gathered answer is a k nearest list of the one index that took the same writes. |

## Left out

- Float rounding, NaN, the AVX kernels and cosine normalisation: distance and normalisation are function parameters, distance into `real`.
- Random level generation: the level is an argument. Recall figures are not modelled.
- Update in place of `data_`, `levels_`, `linksL0_` and `linksUpper_`: the fields of `HnswIndex.Index` hold values the methods replace; only the visited list is an array. Sharing of the arrays is therefore not captured.
- The visited-list pool: the caller hands in any valid list; `searchLayer` resets it first, so what a recycled list holds does not matter.
- Link-level invariants under concurrent insertions, and the per-node link locks: the code does not keep those invariants; only the entry-point protocol is modelled concurrently.
- Indexes of 2^32 - 1 or more slots, where ids would meet the "no entry point" value.
- HnswIndex.Index.AddPoint: a vector of the wrong dimension is a precondition here, as the C++ method reads exactly dim floats; the outcome WrongDimension is part of `KeyTable.Add`.
- IndexSnapshot.Load: for a file that save did not write, the code may go on with uninitialised header fields (`include/hnsw.hpp:406-424`) or an uninitialised row count (`include/hnsw.hpp:431-432`) after a short read, or write past its arrays; the model refuses a short file as truncated, and a header with more nodes than slots or with an unusable slot count as bad parameters.
- IndexSnapshot.ReadFile: the same holds of the reads on their own.
- SnapshotFormat.TruncatedIsRefused: states the reader the code intends, without the undefined values a short read leaves behind.
- IndexSnapshot.Save: levels, which the model leaves unbounded, must fit the file's 32-bit fields.
- The step systems take a snapshot file as the slots, or the table, it restores; `IndexSnapshot` and `DurableFiles` prove that its bytes restore the index. The system `Durable` stores vectors as they are given; `DurableSlots` and `DurableFiles` store them as the index does, normalised for cosine.
- DurableKeys.CommuteUnlessClash: speaks of applications in one step; two equal Adds of an absent key commute there and race with the real steps, see `LabelRace`.
- DurableProof.ExactRecovery: speaks of applications in one step; `DurableExact.ExactRecovery` is the statement about the real steps, with its narrower guard.
- DurableProof.OpensExactlyIf: as above; `DurableSlotsProof.OpensExactlyIf` counts the slots races take.
- DurableHistory.RecoversWholeHistory: as above; `DurableExact.RecoversWholeHistory` is the statement about the real steps.
- I/O errors after which the process goes on, short writes, power loss and missing fsync of the snapshot, and Windows rename retries: the crash model is process death.
- CRC-32 itself: the torn-tail theorems hold for any checksum function, and detection strength is not claimed.
- gRPC servers, the connection pool, metrics, health endpoints, the C interface, cancellation of outstanding shard calls, and the shard number carried by a merged candidate.
- ClusterSearch.SearchAfterWrites: takes exact answers of the shards as given; `HnswIndex.Index.Search` says when a shard's answer is exact.
- Deadlines and starvation: `EntryPoint.NoDeadlock` says that some thread can move, not that each one does.
