# A verified model of kvtier

kvtier is a log-structured SSD cache for the KV data of language models. This project models its
hard parts in Dafny and proves what they promise, for all inputs, all interleavings and all crash
points. `dafny verify dfyconfig.toml` checks everything.

How the modules follow the program:

- **Crash recovery.** `Fields`, `PageLog`, `JournalRecord`, `Journal` and `JournalMutations` are the
  journal from bytes to index mutations. `Mutations` is what the parts of plain, hot and striped puts
  publish and record, `Replay` the replay of records with its table of stripes, and `Effects` the small
  algebra in which both are compared; `Plans` ties them to the bytes of a put. `Recovery` is the index,
  its checkpoint and its journals as a state machine that can crash between any two steps, those of an
  opening included, and `RecoveryRuns` has runs of it. `Checkpoint` is the checkpoint file; `Superblock` is the pair of superblock pages.
- **Regions and garbage collection.** `Leaves` is the leaf of one key and how a completed write is
  published into it. `Geometry`, `Regions`, `Batch`, `Generations` and the class `Store` are leaves,
  regions, cursors, device pages, live-byte counters and every operation that changes them; `Batching`
  is how a writer fills a batch.
- **Concurrency.** `MpscRing`, `Reclaim` and `Ack` are state machines whose steps are single atomic
  loads, stores, compare-and-swaps and frees; `Admission` is how a put comes to be one of `Ack`'s.
- **Fast structures.** `Probe`, `SideTable`, `Edges`, `Radix` and `RadixTree` are the index tables;
  `Sieve`, `Arena`, `Dram` and `DramCache` the read cache; `Cuckoo` the filter.
- **Data path and layout.** `Chunks` is how bytes become pages and stripes. `NodeLife` is the history of
  one node of the index, `Puts` what its leaf says about a put after any history, `DataPath` a get of a
  node, and `Service` any run of batches and collections, the node of a key, and the way from a put to
  a get; `PutRuns` has runs of the store. `Layout` is the tuning arithmetic.

Conventions. Hash functions and the CRC are parameters: nothing is assumed of a hash, and a get is
claimed to be exact unless a device returns other bytes with the same checksum. Clocks are inputs.
Integers are unbounded except in `Layout`, `Chunks.Split` and `RadixTree.Tree.HitAscend`, where 16-,
32- and 64-bit arithmetic is written out. Links between nodes and between cache entries are indices
into a pool and lists. What holds the index lock exclusively is one step. A member whose name ends in
`Inv` states that a step keeps the invariant of its module. `Store` carries as history what was published
into each node and when its leaf was dropped; its invariant says that leaves and pages follow from that.

Where the code does less than its documentation or a reader would expect, the model follows the code,
a lemma gives the case that fails, and the exact condition is proved:

- A pop of the ring can return nothing while a completed push waits behind an unpublished one
  (`MpscRing.NullDespiteCompletedPush`); it finds an item exactly if the head position is published.
- A failed cuckoo insertion keeps the new key and loses another fingerprint (`Cuckoo.Filter.Insert`).
- A crash between the rename of a checkpoint and the reset of a journal can bring a deleted key or a
  deleted replica back (`RecoveryRuns.DeletedKeyReturns`, `RecoveryRuns.DeletedReplicaReturns`);
  `Effects.ReplayOver` and `Recovery.RecoverResetting` say exactly when it does not.
- Replay publishes a stripe only when it has gathered as many records as the stripe has slices. So a
  flushed slice is lost if a checkpoint came between it and the others
  (`RecoveryRuns.CheckpointSplitsStripe`) or it is the only one (`RecoveryRuns.LoneSliceLost`), a
  deleted slice comes back (`RecoveryRuns.DeletedSliceReturns`), the leaf that a flushed slice had
  replaced comes back (`RecoveryRuns.OlderLeafReturns`), and the 257th stripe of a replay is lost
  (`RecoveryRuns.StripeTableFull`); `Recovery.RecoverRunning` and `Recovery.RecoverStripe` say exactly
  when recovery finds the leaf.
- An opening drops leaves and journals that from the first page on, before its own checkpoint. If it is
  interrupted, a dropped key can come back (`RecoveryRuns.OpeningDropReturns`), and with 65 drops an old
  page of records is overwritten and a flushed put is lost (`RecoveryRuns.OpeningLosesPut`);
  `Recovery.RecoverOpening` and `Recovery.RecoverAgain` say exactly when the next opening finds the same.
- A leaf 128 groups deep, which a put accepts, makes a checkpoint unloadable
  (`Checkpoint.DeepLeafStopsLoading`).
- A shape without any record comes back from the journal as no shape (`JournalMutations.PutRoundTrip`).
- An empty chunk at the end of a full region is counted in the next region (`Geometry.ChunkRegion`), and
  a put without any byte cannot be read (`DataPath.GetPlain`).
- A leaf that is dropped between the parts of a striped put makes the put unreadable although it is
  acknowledged, exactly if not every part is published after the drop (`Puts.DropSplits`,
  `PutRuns.SplitPut`).
- A leaf of a hot put whose first replica has not been published yet names no device in the address
  that a get reads first (`PutRuns.SecondFirst`; `Puts.FirstReplica` and `DataPath.Get` say exactly when).
- The expiry of a striped put is never looked at (`Puts.Expires`).
- A put lands at the node of the first path that came with its key; a get with another path looks
  elsewhere (`Service.Index.Find`).
- The checksum of a striped put covers bytes behind the end of its buffer, so a stream that does not
  fill its last page can fail its own check (`DataPath.SlackFails`, `DataPath.SlackDecides`).
- A stripe unit of 4 GiB or more is cut to 32 bits when the parts are counted (`Chunks.Split`).
- An edge for hash zero is lost with the next edge of its node (`Edges.ZeroHashLost`).
- With the default settings an accepted entry leaves its shard of the read cache over its budget
  (`DramCache.DefaultEntryOverBudget`); `DramCache.Cache.Evict` says exactly when a shard ends within it.
- A request that goes back to a ring which has filled up meanwhile is lost (`Batching.FormBatch`,
  `Batching.LosesRequest`), and its put is never acknowledged (`Ack.LostNeverAcked`, `Ack.LostRun`).
- A large put is refused if the stripe unit is a multiple of 4 GiB or the stream takes more than 1024
  slices; its context is then let go without an acknowledgement (`Admission.Admit`).
- A region that is freed while a reader has pinned a leaf in it keeps that leaf
  (`Store.Store.PinnedStays`) and loses its pages (`Store.Store.ForceFree` says exactly when).
- A model with more than 256 KV layers gets a tuned layout that the core refuses (`Layout.ConfigValues`).

## Model

| member | source | states |
|---|---|---|
| `MpscRing.Init` | src/writer.cpp:17-31 | The ring has a power of two of at least 16 slots, slot i stamped i. |
| `MpscRing.StampMeaning` | src/writer.cpp:44-52 | A stamp equal to the position read means the position is inside the window; a smaller one means that the ring is full. |
| `MpscRing.StepInv` | src/writer.cpp:38-68 | Every atomic step of any producer or of the consumer keeps the ring's invariant. |
| `MpscRing.ExecutionInv` | src/writer.cpp:17-68 | Every state of every run, with any number of producers, satisfies it. |
| `MpscRing.RefinesQueue` | src/writer.cpp:38-68 | The ring refines a FIFO queue: the winning compare-and-swap enqueues, the store that frees a slot dequeues the oldest item, no other step changes the queue. |
| `MpscRing.PushReturns` | src/writer.cpp:38-55 | Over any interleaving a producer keeps the item it began to push, through lost swaps and retries, and returns only after it found the ring full and its item got no position, or after its item got exactly one position and was published. |
| `MpscRing.PushAlone` | src/writer.cpp:38-55 | A producer that runs alone reports full if every slot is taken and otherwise publishes its item behind all others. |
| `MpscRing.NeverStuck` | src/writer.cpp:38-55 | A producer inside a push always has a step of its own, and only one, but that a swap may win or lose. |
| `MpscRing.PoppedIsPrefix` | src/writer.cpp:38-68 | Over any interleaving the items popped are a prefix of the items accepted in ticket order, both only grow, and never more than the capacity is in flight. |
| `MpscRing.FullMeansFull` | src/writer.cpp:43-52 | A push that reports full read its stamp at a moment when the ring was full. |
| `MpscRing.NoOverwrite` | src/writer.cpp:47-49 | Storing an item touches no slot that holds an unconsumed item. |
| `MpscRing.PopFindsPublished` | src/writer.cpp:57-68 | A pop finds an item if and only if the queue is not empty and no producer is still inside a push of the oldest position. |
| `MpscRing.PopReturns` | src/writer.cpp:57-68 | Over any interleaving a pop took nothing and found the head unpublished, or took exactly the one item that it returns, the oldest one not yet taken. |
| `MpscRing.PopAlone` | src/writer.cpp:57-68 | A consumer that runs alone takes the oldest item if its position is published, and otherwise changes nothing. |
| `MpscRing.PopNeverStuck` | src/writer.cpp:57-68 | A consumer inside a pop always has exactly one step. |
| `MpscRing.NullDespiteCompletedPush` | src/writer.cpp:57-63 | A run in which a pop returns nothing although a push has completed. |
| `Ack.StepInv` | src/writer.cpp:77-98 | Every step of every part keeps: references count the parts not yet gone, the error is set exactly if a part failed, the last reference is gone exactly if all parts are. |
| `Ack.AckAfterLast` | src/writer.cpp:77-91 | In every run the put is acknowledged at most once and only after its last part; the code is OK if and only if every part was published and flushed. |
| `Ack.AckCode` | src/writer.cpp:77-98 | The code acknowledged is the first error that any part recorded, and OK if and only if no part was refused, failed to be written or found no node. |
| `Ack.GoneWasPublished` | src/writer.cpp:179-250 | A part that finished with success was written, then published, then its journal flushed, before it let go of the context. |
| `Ack.NotUsedAfterAck` | src/writer.cpp:77-91 | After the acknowledgement, which deletes the context, no step of any part can touch it. |
| `Ack.AckedUnlessLost` | src/writer.cpp:381-387 | When nothing can happen any more, the put was acknowledged if and only if no part was pushed back to a full ring. |
| `Ack.AckedUnlessFull` | src/writer.cpp:381-387 | In terms of the run: if and only if no part was ever pushed back to a full ring. |
| `Ack.Progress` | src/writer.cpp:160-255 | Every step except pushing a part back brings the put nearer to its end. |
| `Ack.LostNeverAcked` | src/writer.cpp:381-387 | In every run in which a part is lost, the put is never acknowledged. |
| `Ack.LostRun` | src/writer.cpp:381-387 | A run in which the only part is lost and which ends without an acknowledgement. |
| `Admission.Admit` | src/cache.cpp:1187-1361 | A put is refused if and only if it is out of range, or large and its unit is 0 modulo 2^32 or its stream takes more than 1024 slices; then nothing is acknowledged. Otherwise it starts with one queued part and one reference a part: the slices, two replicas, or one. |
| `Admission.SharesCover` | src/cache.cpp:1268-1285 | Below 4 GiB the parts of a large put are exactly the slices that cover its stream. |
| `Reclaim.StepInv` | src/cache.cpp:175-197 | Every step of readers, writer and reaper keeps: pin counts are the numbers of pinning readers, index and deferred list hold different unfreed leaves, no leaf is lost. |
| `Reclaim.PinnedNotFreed` | src/cache.cpp:1435-1459 | In every run a leaf that a reader has pinned, or has looked up under the lock, is not freed. |
| `Reclaim.FreedOnce` | src/cache.cpp:175-197 | In every run each leaf is freed at most once, and an unfreed leaf is in the index or on the deferred list. |
| `Reclaim.FreesUnpinned` | src/cache.cpp:175-197 | Whatever is freed, at once or by the reaper, is unfreed and unpinned at that moment. |
| `Reclaim.ExamineDecides` | src/cache.cpp:175-183 | Whoever disposes of a leaf frees it at once if and only if no reader has pinned it, and defers it otherwise. |
| `Reclaim.ReapFrees` | src/cache.cpp:186-197 | In every run a deferred leaf that nobody pins during a pass of the reaper is freed by that pass. |
| `Reclaim.ReapKeeps` | src/cache.cpp:186-197 | One that a reader keeps pinned during the pass stays on the list unfreed. |
| `Reclaim.ReapEmpties` | src/cache.cpp:186-197 | A pass during which nothing on the list is pinned empties it. |
| `Reclaim.ReapGoesOn` | src/cache.cpp:186-197 | The reaper always has a step, and each leaves less to do: every pass ends. |
| `Reclaim.ReapUndisturbed` | src/cache.cpp:186-197 | No step of a reader or writer changes what is left to the reaper. |
| `Reclaim.ReadProtocol` | src/cache.cpp:1435-1459 | Entering, looking up, pinning and leaving adds one pin to the leaf of the key; the unpin undoes it all. |
| `Reclaim.DisposeProtocol` | src/cache.cpp:397-423 | Under the exclusive lock the key gets a new leaf or none, the old one is freed if unpinned and deferred otherwise, and nothing else changes. |
| `Reclaim.UnpinEnabled` | src/cache.cpp:1590 | A reader that unpins always finds the pin it takes back: the count never goes below zero. |
| `Fields.PackRoundTrip` | src/journal.cpp:65-106 | Packed little-endian fields read back as they were written, whatever follows them. |
| `JournalRecord.ParseEncode` | src/journal.cpp:65-199 | Replay reads back exactly the record that was appended, whatever follows it. |
| `JournalRecord.ParseAccepts` | src/journal.cpp:162-197 | On the bytes: replay takes a record if and only if its first byte is a known operation, path and lengths are at most 256, all the bytes it announces are there and the checksum field is that of the bytes around it. |
| `JournalRecord.EncodeParse` | src/journal.cpp:65-199 | The other way round: bytes that replay takes, with the unused second byte zero, are exactly the bytes that appending the record writes. |
| `JournalRecord.RecordFitsPage` | src/journal.cpp:65-79 | Every well-formed record fits a page, so an append fails only for lack of pages. |
| `JournalRecord.RecCodecSound` | src/journal.cpp:28-46 | Records and zero bytes are told apart as the page log needs. |
| `PageLog.ReplayLayout` | src/journal.cpp:155-199 | New pages in front of old ones, the current one partly written, replay to the new records and then those of the old pages that are left. |
| `PageLog.BlankFirstPage` | src/journal.cpp:162-168 | A journal whose first page is blank reads as empty. |
| `Journal.Journal.FlushPage` | src/journal.cpp:48-53 | Writes at most the one current page; afterwards all accepted records are on the device. |
| `Journal.Journal.NextPage` | src/journal.cpp:55-63 | Leaves the stage page and keeps the log. |
| `Journal.Journal.Append` | src/journal.cpp:65-106 | Puts the record behind the last one if it fits the page and at the start of the next page if not; refuses it if and only if it is larger than a page or there is no such page; a full journal stays full; writes at most one page, inside the journal. |
| `Journal.Journal.WellUsed` | src/journal.cpp:81-88 | Every two neighbouring pages that were left hold more than one page of records together. |
| `Journal.Journal.Reopened` | src/cache.cpp:1057-1066 | A journal opened over pages that replay can read is valid with an empty log, and all the old records are still there. |
| `Journal.Journal.Reset` | src/journal.cpp:201-214 | Empties the journal; after each single page write it already reads as empty. |
| `Journal.Journal.ReplayPage` | src/journal.cpp:162-197 | The scan of one page finds what the reference scan finds. |
| `Journal.Journal.Replay` | src/journal.cpp:155-199 | The loop over the pages finds what the reference replay finds. |
| `Journal.Journal.CrashPrefix` | src/journal.cpp:48-199 | In every reachable state, also of a journal reopened over old pages, the device replays to a prefix of the accepted records that contains every flushed one, and then the records of the old pages that are not overwritten. |
| `JournalMutations.PutRoundTrip` | src/cache.cpp:241-276 | Replay reads back exactly the put that was journalled, plain, replicated or striped, with its slot, index, count and length, if and only if its shape is not an empty one. |
| `JournalMutations.DelRoundTrip` | src/journal.cpp:135-143 | Replay applies exactly the deletion that was journalled. |
| `JournalMutations.TrimIgnored` | src/cache.cpp:671-786 | A record of any other operation changes nothing. |
| `JournalMutations.PutRecWellFormed` | src/journal.cpp:108-133 | Every put within the cache's limits, of any kind, has a record that the journal accepts. |
| `JournalMutations.RecordSizes` | src/journal.cpp:65-106 | A deletion takes 64 bytes and a put at least 76. |
| `JournalMutations.CrashedJournal` | src/cache.cpp:671-786 | From bytes to mutations, at any crash: replay reads the mutations of a prefix that contains every flushed one, and then those of the old pages that are left. |
| `Mutations.PublishJoins` | src/cache.cpp:278-395 | Publishing part p of version v, plain, hot or striped, joins it to what the leaf has: a newer version replaces an older one, parts of one version come together, and the leaf stays the one that the put of its version describes. |
| `Effects.ReplayOver` | src/cache.cpp:790-802 | Replaying the flushed records over what all records led to changes nothing if and only if they are harmless: with a deletion among them, what they put is what all put; otherwise an unflushed deletion is followed by all they put. |
| `Effects.ReplayCut` | src/cache.cpp:1057-1066 | When replaying what is left of the records gives what replaying all of them gave, for any leaf. |
| `Effects.CutInTwo` | src/cache.cpp:1057-1066 | If each record has its own effect and those in front are gone, that is so if and only if a deletion is left, or one is gone and what is left joins the leaf as it joined what they put, or nothing they put is missing. |
| `Replay.ReplayRefines` | src/cache.cpp:637-786 | The replay loop, with its table of at most 256 stripes and slices published only when all were gathered, does to every key what the key's own records do by the reference meaning, and keeps every leaf one of the put of its version. |
| `Plans.PublishesAsked` | src/cache.cpp:1245-1342 | What each part of a plan publishes is what its put asked for, with the length of the whole stream, its checksum and expiry, at the place where the part lies. |
| `Plans.RecoveredLeaf` | src/cache.cpp:742-786 | For every run and crash, a leaf that recovery finds with any part tells of its put, part by part, what a leaf of a running store tells; a stripe has the length of the whole stream. |
| `Replay.PubRelates` | src/cache.cpp:671-786 | For any records, what replaying them puts under a key is what publishing them put, except that a stripe is there whole or not at all. |
| `Replay.EffBelow` | src/cache.cpp:742-786 | Replay forgets exactly when publishing forgets, and without a deletion puts nothing that publishing did not. |
| `Replay.RecoverableIff` | src/cache.cpp:742-786 | Replaying records over the leaf they started from gives the leaf they led to if and only if that leaf is not striped, or is the one they started from, or has all of at least two slices, none of them from before, in a stripe that the table took. |
| `Replay.StripeKeptIff` | src/cache.cpp:742-786 | Replaying the flushed records gives the striped leaf that all records led to if and only if that is the leaf they started from, or it has all of at least two slices, none from before and none unflushed, in a stripe that the table took. |
| `Replay.RecordStays` | src/cache.cpp:671-786 | What a replayed put record brings, once it takes effect, is in what the records put, with its version or a newer one, unless a deletion of the key follows. |
| `Recovery.StepInv` | src/cache.cpp:278-423 | Issuing puts of any kind, publishing their parts in any order, dropping, flushing, turning a page, checkpointing, resetting, crashing, reopening and the drops and writes of an opening keep the recovery invariant. |
| `Recovery.RecoverKey` | src/cache.cpp:1057-1066 | Recovery does to each key what the records of its own journal do to its checkpointed leaf: the other journals do not matter. |
| `Recovery.RecoverRunning` | src/cache.cpp:1057-1066 | After a crash outside a checkpoint a key is as after the flushed prefix of its mutations if and only if the leaf of that prefix is not striped, or is that of the checkpoint, or has all its slices, at least two, all recorded since the checkpoint, in one of the first 256 stripes. |
| `Recovery.UnstripedRunning` | src/cache.cpp:1057-1066 | So a key with plain and hot puts only is always as after the flushed prefix of its mutations. |
| `Recovery.RecoverStripe` | src/cache.cpp:742-786 | A crash finds the striped leaf that the index had if and only if it is that of the checkpoint, or has all its slices, at least two, all recorded since the checkpoint and flushed, in one of the first 256 stripes. |
| `Recovery.RecoverResetting` | src/cache.cpp:790-802 | A crash between rename and reset brings back the checkpointed leaf if and only if the journal is cleared or the records of the key are harmless; without striped puts flushed records are, and with plain puts it otherwise brings back the flushed prefix. |
| `Recovery.RecoverAgain` | src/cache.cpp:1057-1138 | A crash after an opening renamed its checkpoint recovers the same leaf of a key if and only if the journal is cleared or the records left change nothing; for a dropped key, if and only if none of its puts is left; an undropped key without striped puts is always the same. |
| `Recovery.RecoverOpening` | src/cache.cpp:1088-1103 | A crash before that finds a key as the index has it if and only if, for a dropped key, none of its records is left and its deletion was flushed or the checkpoint has no leaf of it, and otherwise the overwritten records did not matter; if nothing was written yet, it finds what the opening found. |
| `Recovery.UndroppedOpening` | src/cache.cpp:1093 | An opening that drops no leaf can be interrupted anywhere and the next one finds the same index. |
| `Recovery.PrefixConsistent` | src/cache.cpp:1057-1066 | For every run, every crash point and every key, with plain, hot and striped puts: exactly when recovery finds the state after the flushed prefix of the key's mutations, the checkpointed leaf, or what an interrupted opening had. |
| `Recovery.FlushedPutSurvives` | src/cache.cpp:671-786 | A flushed put record that takes effect, which for a slice means that it completes its stripe, and that no flushed deletion follows is in the index after a crash, or a newer version is. |
| `RecoveryRuns.DeletedKeyReturns` | src/cache.cpp:790-802 | A run in which a deleted key is in neither the index nor the checkpoint and comes back. |
| `RecoveryRuns.DeletedReplicaReturns` | src/cache.cpp:790-802 | A run in which the index and the checkpoint have one replica of a hot put and recovery finds the deleted one, too. |
| `RecoveryRuns.CheckpointSplitsStripe` | src/cache.cpp:790-802 | A run in which both slices of a put are published and flushed, with a checkpoint between them, and recovery finds the first only. |
| `RecoveryRuns.DeletedSliceReturns` | src/cache.cpp:742-776 | A run with the records slice 0, deletion, slice 1, all flushed, in which the index has slice 1 only and recovery finds both. |
| `RecoveryRuns.OlderLeafReturns` | src/cache.cpp:742-776 | A run in which a flushed slice has replaced an older leaf and recovery finds the older leaf. |
| `RecoveryRuns.LoneSliceLost` | src/cache.cpp:779-784 | A run in which the only slice of a flushed stripe is lost. |
| `RecoveryRuns.StripeTableFull` | src/cache.cpp:644-663 | A run with 257 flushed stripes in which the last one is lost. |
| `RecoveryRuns.OpeningDropReturns` | src/cache.cpp:1088-1103 | A run in which an opening drops a key, is interrupted, and the key comes back. |
| `RecoveryRuns.OpeningLosesPut` | src/cache.cpp:1088-1103 | A run in which an interrupted opening makes 65 drops, the page of the first 64 overwrites a page of 53 put records, and a flushed put is lost. |
| `Checkpoint.Intern` | src/cache.cpp:144-167 | Interning returns the position of the shape and adds it only if it is new. |
| `Checkpoint.LoadShapes` | src/journal.cpp:386-432 | Loading the stored shapes in order gives every shape its stored position again. |
| `Checkpoint.StoreRoundTrip` | src/journal.cpp:221-288 | A stored leaf resolves to the same leaf with the same shape. |
| `Checkpoint.Load` | src/journal.cpp:433-642 | The loop with its stack of 128 nodes loads what the reference loader loads. |
| `Checkpoint.PathsAreWalks` | src/journal.cpp:221-288 | The paths of the loaded nodes are the walks of the written tree. |
| `Checkpoint.CheckpointRoundTrip` | src/journal.cpp:221-642 | A checkpoint loads if and only if every leaf is at most 127 and every node at most 128 groups deep, and then gives the same leaf under every path and the same leaf count. |
| `Checkpoint.DeepLeafStopsLoading` | src/journal.cpp:567-579 | A single leaf 128 groups deep makes the file unloadable. |
| `Superblock.Load` | src/region.cpp:28-55 | Loading takes the valid superblock with the highest epoch. |
| `Superblock.LoadsCommitted` | src/region.cpp:28-78 | Whatever is being written, loading finds the last superblock that was written completely. |
| `Superblock.WriteCommits` | src/region.cpp:57-78 | A superblock that was written completely, torn in between or not (then its page is not valid meanwhile), is what loading finds next, with the next epoch and its own stamp. |
| `Superblock.ReopenGoesOn` | src/region.cpp:28-55 | After a crash a device can be opened and goes on from the superblock that loading finds. |
| `Superblock.NeverLost` | src/region.cpp:57-78 | Over any run with crashes anywhere a completed superblock is never lost and epochs never go back. |
| `Leaves.Publish` | src/cache.cpp:284-395 | The version of a leaf never decreases and is at least that of the write. |
| `Leaves.PublishDescribes` | src/cache.cpp:284-395 | After each write the leaf says exactly what the newest version wrote so far, slot by slot and part by part. |
| `Leaves.PublishConfluent` | src/cache.cpp:284-395 | Any two completion orders of the same plain, replicated or striped writes of a key, with their stamps, end in the same leaf. |
| `Leaves.ConfluentUnstamped` | src/writer.cpp:215-235 | If each order stamps its writes with its own times, the two leaves differ at most in these stamps. |
| `Geometry.PublishShare` | src/cache.cpp:284-395 | How publishing changes the bytes a leaf has in each region. |
| `Geometry.ChunkRegion` | src/cache.cpp:209-225 | A chunk is counted in the region it was written to if and only if it is not empty or the region is not full. |
| `Store.Store.constructor` | src/cache.cpp:1016-1035 | A fresh cache satisfies the invariant: one open region a device, nothing indexed. |
| `Store.Store.LiveAdd` | src/cache.cpp:209-216 | Adds the bytes of an extent to the counter of its region and no other. |
| `Store.Store.LiveSub` | src/cache.cpp:218-225 | Subtracts them from that counter and no other. |
| `Store.Store.LeafSubLive` | src/cache.cpp:227-239 | Subtracts all extents of a leaf. |
| `Store.Store.RecomputeLive` | src/cache.cpp:481-504 | Recomputation from the leaves finds exactly the incremental counters. |
| `Store.Store.LeafPublish` | src/cache.cpp:278-395 | Publishes a write, keeps the counters equal to recomputation, and journals if and only if the write is not stale. |
| `Store.Store.LeafDrop` | src/cache.cpp:397-423 | Drops a leaf, notes it in the history of its node and keeps the whole invariant. |
| `Store.Store.TrimRegion` | src/cache.cpp:425-436 | Discards exactly the data pages of the region; the invariant survives if and only if no indexed chunk lies in it. |
| `Store.Store.DropRegion` | src/cache.cpp:438-479 | Drops exactly the unpinned leaves that touch the region. |
| `Store.Store.InRegion` | src/cache.cpp:449-467 | The two loops over replicas and parts find whether any extent of the leaf starts in the region. |
| `Store.Store.PinnedStays` | src/cache.cpp:438-479 | Afterwards something is left in the region if and only if it belongs to a pinned leaf. |
| `Store.Store.ForceFree` | src/gc.cpp:151-178 | Frees the first of the frozen regions, other than the one to avoid, with the fewest live bytes, and fails if and only if there is none; the invariant survives if and only if no pinned leaf has a page there. |
| `Store.Store.FreezeAndRotate` | src/writer.cpp:117-158 | Rotation always succeeds; it opens the next region of the ring if that is free, dropping nothing, and otherwise the frozen one with the fewest live bytes; only the old and the new region change; the invariant survives if and only if no pinned leaf has a page in the region that is opened. |
| `Store.Store.PlaceBatch` | src/writer.cpp:288-330 | The batch lies behind the cursor, apart from every indexed chunk; an empty chunk only needs a region to be counted in. |
| `Store.Store.PublishBatch` | src/writer.cpp:179-235 | The history of every node grows by exactly its requests of the batch, in order; each is indexed with exactly its pages or a newer version is; other leaves are untouched. |
| `Store.Store.SubmitBatch` | src/writer.cpp:257-355 | Rotates if and only if the batch does not fit the region, and otherwise writes behind the cursor and drops nothing; the invariant is kept, the history of every node grows by at most one drop and then exactly its requests, and every request lands. |
| `Store.Store.ReadExtent` | src/cache.cpp:1364-1382 | Reading an indexed extent returns the pages it was written with: live pages are never reused. |
| `Store.Store.SweepExpired` | src/gc.cpp:19-36 | Drops exactly the expired leaves that are not pinned. |
| `Store.Store.TrimEmpty` | src/gc.cpp:38-47 | Frees exactly the frozen regions without live bytes whose epoch is over. |
| `Store.Store.SumLive` | src/gc.cpp:62-71 | The sums over all regions are the live bytes and the capacity. |
| `Generations.LiveIsIndexed` | src/gc.cpp:62-71 | The live bytes of the regions that are not free are the bytes of all indexed extents, each counted once. |
| `Store.Store.AboveMeans` | src/gc.cpp:72-79 | A mark is exceeded if and only if the indexed pages take more than that percentage of all pages. |
| `Store.Store.OldestEpoch` | src/gc.cpp:91-104 | Finds the lowest epoch among the regions that may be discarded. |
| `Store.Store.DrainRound` | src/gc.cpp:90-117 | With nothing pinned exactly the frozen regions of the oldest generation become free and exactly the leaves that touch one of them are dropped; pinned leaves always stay. |
| `Store.Store.DrainTick` | src/gc.cpp:61-120 | Draining starts if and only if the start mark is exceeded and goes on if and only if the stop mark is; a draining tick above the stop mark discards exactly the configured number of oldest generations, or all there are, and any other tick changes nothing. |
| `Store.Store.GcTick` | src/gc.cpp:9-120 | A whole tick sweeps the expired leaves when due, frees exactly the empty regions whose epoch is over, and then starts, goes on or stops draining exactly as the marks say; with nothing pinned a leaf is dropped if and only if it has expired or touches a drained region. |
| `Store.Store.DrainToStop` | src/gc.cpp:61-120 | From any store, draining or not: without writes or pins, ticks above the start mark bring it to or below the stop mark or leave no frozen region; below it they change nothing. |
| `Batching.FormBatch` | src/writer.cpp:368-390 | Whatever is pushed meanwhile, the batch is a nonempty prefix of what was in the ring or came, has at most 512 requests and fits its buffer; it ends with an empty ring, a full batch, enough bytes, a head that is claimed and not filled, or a request that would not fit, which goes to the end of the ring, and is lost if and only if the ring is full by then. |
| `Batching.LosesRequest` | src/writer.cpp:381-387 | One call, with a ring of 4096 places, that loses a request. |
| `Batching.BatchFitsRegion` | src/writer.cpp:10-15 | A batch that fits its buffer fits every region larger than the buffer. |
| `Probe.Seek` | src/cache.cpp:133-141 | A linear probe ends, at the key if it is bound and at a free cell if it is not. |
| `Probe.Written` | src/cache.cpp:74-88 | Writing at the cell where the probe ended binds that key and keeps every other binding reachable. |
| `Probe.Rehash` | src/cache.cpp:46-65 | Rehashing into a table of another size keeps exactly the same bindings. |
| `SideTable.Table.Put` | src/cache.cpp:67-89 | Binds the key, doubling the table at 70 percent. |
| `SideTable.Table.Get` | src/cache.cpp:128-142 | Returns exactly the binding of the key. |
| `Edges.GetEdge` | src/radix.cpp:25-51 | Finds exactly the edges of the node, inline or in the overflow table. |
| `Edges.Migrate` | src/radix.cpp:79-102 | Moving eight inline edges to an overflow table of 16 cells keeps all of them. |
| `Edges.AddEdge` | src/radix.cpp:104-136 | Adding an edge keeps every other edge except one for hash zero; it stays inline if and only if a slot is free, and the table doubles if and only if it would be more than seven tenths full. |
| `Edges.LoadEdge` | src/journal.cpp:479-566 | The loader's own copy of the code gives the node the same bindings, count and table size that AddEdge gives. |
| `Edges.LoadEdges` | src/journal.cpp:440-566 | Loading different hashes one after the other, inline and in the overflow table, numbers the children in that order. |
| `Edges.NumberingMeans` | src/journal.cpp:440-566 | Then each hash leads to its own child and no other hash anywhere. |
| `Edges.AddKeeps` | src/radix.cpp:104-136 | Every edge but one for hash zero is kept; the new one is found if and only if its hash is not zero or an inline slot was free. |
| `Edges.ZeroHashLost` | src/radix.cpp:25-136 | An edge for hash zero is gone after the next edge. |
| `Edges.Children` | src/radix.cpp:212-224 | Lists each child with a nonzero hash once. |
| `Radix.FollowUnique` | src/radix.cpp:138-158 | Different paths lead to different nodes. |
| `Radix.AttachedPath` | src/radix.cpp:138-158 | Every node of the tree is reached by a path without zeros. |
| `Radix.PathAttached` | src/radix.cpp:138-158 | Every path without zeros that leads somewhere leads to a node of the tree. |
| `RadixTree.Tree.Walk` | src/radix.cpp:138-158 | Without creation the result is where the path leads; with creation the path then leads to the result, old paths lead where they led, only prefixes of the path are new, and old nodes change at most in their edges. |
| `RadixTree.Tree.HotCheck` | src/hot.cpp:6-44 | The second copy of the lookup reaches the node that Walk reaches and looks at its hits and its parent's. |
| `RadixTree.Tree.HitAscend` | src/radix.cpp:160-166 | Adds to the hits of exactly the node and its ancestors, in 32 bits. |
| `RadixTree.Tree.Visit` | src/radix.cpp:186-229 | A traversal that is not stopped visits every node of the tree exactly once; a stopped one returns the callback's code. |
| `Sieve.EffortBound` | src/dram.cpp:168-200 | Evicting all but the newest of n entries takes at most 2n iterations, whatever is marked and wherever the hand is. |
| `Sieve.EffortReached` | src/dram.cpp:168-200 | The bound is reached. |
| `Arena.PickClass` | src/dram.cpp:88-93 | The smallest class that holds the entry. |
| `Arena.Arena.BlocksDisjoint` | src/dram.cpp:95-113 | Two carved blocks never overlap. |
| `Arena.Arena.BlockInside` | src/dram.cpp:95-113 | No carved block reaches beyond the arena. |
| `Arena.Arena.Alloc` | src/dram.cpp:95-113 | Hands out the last block given back to the class, or carves one, or goes to the heap if and only if the class is too large or the arena is used up; nobody else has the block, and live and free blocks tile what was carved. |
| `Arena.Arena.Free` | src/dram.cpp:115-123 | Gives a block back to its class and keeps the tiling. |
| `Dram.ShardCount` | src/dram.cpp:215-218 | The largest power of two of shards, up to 64, that have at least 1 MiB each. |
| `DramCache.Cache.constructor` | src/dram.cpp:202-230 | An empty cache satisfies the invariant. |
| `DramCache.Cache.Find` | src/dram.cpp:265-271 | The hash chain finds the entry of a key if and only if there is one. |
| `DramCache.Cache.EntryPlace` | src/dram.cpp:81-86 | Header, descriptors and data of an entry in the arena lie one behind the other inside its block. |
| `DramCache.Cache.EntriesApart` | src/dram.cpp:81-113 | The bytes of two entries never overlap. |
| `DramCache.Cache.ShardCounts` | src/dram.cpp:81-86 | The counter of a shard is the sum of the headers, descriptors and data of its entries, so never less than their data. |
| `DramCache.Cache.RemoveEntry` | src/dram.cpp:133-166 | Unlinks an entry everywhere and keeps chains, queue, counters and blocks consistent; the hand moves only if it stood at the entry, and then to the next one. |
| `DramCache.Cache.SweepStep` | src/dram.cpp:170-196 | Each iteration clears the mark of the entry under the hand, evicts it if it has none or passes the protected entry, and lowers the remaining effort by exactly one. |
| `DramCache.Cache.Evict` | src/dram.cpp:168-200 | Never evicts the new entry and evicts no more than the budget takes; with at most 2048 entries, or effort within the guard, the shard ends within its budget if and only if the new entry alone fits it. |
| `DramCache.Cache.Put` | src/dram.cpp:301-353 | Refuses exactly values that are empty or whose header, descriptors and data exceed the entry limit or the budget, keeps the same or a later version, otherwise caches the value; nothing else appears, nothing is evicted if there is room, and the budget holds as for Evict. |
| `DramCache.Cache.Get` | src/dram.cpp:273-299 | A hit is a value put under that key with the version asked for and not expired; a miss means there is none; a hit marks exactly that entry. |
| `DramCache.Cache.Invalidate` | src/dram.cpp:355-369 | Removes the entry of the key and no other. |
| `DramCache.Cache.WithinBudget` | src/dram.cpp:219-222 | If every shard is within its budget, the cache is. |
| `DramCache.DefaultEntryOverBudget` | src/dram.cpp:202-222 | With the defaults the first entry of more than 4 MiB is cached and its shard is then over its budget. |
| `Cuckoo.XorLowInvolution` | src/cuckoo.cpp:34-36 | The alternative bucket of the alternative bucket is the bucket itself. |
| `Cuckoo.XorLowBits` | src/cuckoo.cpp:34-36 | Bit by bit it is the exclusive or of bucket and hash. |
| `Cuckoo.SameFingerprint` | src/cuckoo.cpp:27-32 | Two keys share a fingerprint if and only if their hashes have the same low byte, 0 and 1 being the same. |
| `Cuckoo.Filter.Kick` | src/cuckoo.cpp:103-112 | A kick swaps one stored fingerprint for another. |
| `Cuckoo.Filter.Insert` | src/cuckoo.cpp:89-115 | For each fingerprint and bucket pair the stored copies grow by the new key; without a free slot each fingerprint that is kicked out goes to its own other bucket; it fails only after 500 kicks and then loses the last fingerprint; a full filter always fails. |
| `Cuckoo.Filter.Lookup` | src/cuckoo.cpp:117-123 | True if and only if the fingerprint is stored in the bucket pair. |
| `Cuckoo.Filter.Delete` | src/cuckoo.cpp:125-135 | Removes one copy, and keeps copies equal to keys inserted minus deleted. |
| `Cuckoo.Filter.Present` | src/cuckoo.cpp:117-123 | No false negatives: while every insertion succeeded, each key inserted and not deleted is found. |
| `Chunks.StreamSlice` | src/cache.cpp:1394-1410 | Record i lies in the stream at the sum of the lengths before it. |
| `Chunks.PagesFlat` | src/writer.cpp:297-319 | Pages hold the bytes followed by zeros up to the page. |
| `Chunks.FillChunk` | src/writer.cpp:304-319 | Gathering the records gives the padded pages of the stream. |
| `Chunks.Split` | src/chunk.cpp:113-121 | The parts cover the stream if and only if the unit is positive and below 2^32, or the stream fits the unit cut to 32 bits. |
| `Chunks.Reassemble` | src/cache.cpp:1509-1531 | Copying the pieces to their offsets gives them one behind the other, for any unit and any bytes. |
| `Chunks.SlicesJoin` | src/cache.cpp:1523-1531 | Pieces that start with the slices of a stream, joined, are the stream. |
| `DataPath.ShapeFill` | src/cache.cpp:1394-1410 | Each layer is found at the sum of the lengths before it; no shape, no answer. |
| `DataPath.ReadChunk` | src/cache.cpp:1364-1382 | Returns what arrived if and only if the chunk is not empty, the read does not fail and the checksum is that of the address. |
| `DataPath.GetPlain` | src/cache.cpp:1549-1577 | Goes astray if and only if the first replica was not published since the last drop. Otherwise there is an answer if and only if the payload is not empty and the first replica passes its check, or the second one was published, too, and passes; it is exact unless other bytes had the same checksum. |
| `DataPath.GetStriped` | src/cache.cpp:1486-1548 | There is an answer if and only if every part was published since the last drop, no read fails and the checksum of what arrived, with what lies behind it, is the put's; it is exact unless other bytes had the same checksum. |
| `DataPath.ReadParts` | src/cache.cpp:1509-1531 | All parts are read, each as it arrives, if and only if every one is there and no read fails. |
| `DataPath.GoodAssembled` | src/cache.cpp:1509-1531 | If every device returns what it should, the stream that was put comes out. |
| `DataPath.WholePagesPass` | src/cache.cpp:1532-1535 | A stream of whole pages then passes its check. |
| `DataPath.SlackFails` | src/cache.cpp:1532-1535 | A checksum, a stream of one byte and bytes behind it with which the get fails although all is there and every read is good. |
| `DataPath.SlackDecides` | src/cache.cpp:1262 | Only a stream that does not fill its last page can fail that way. |
| `DataPath.ServeCached` | src/cache.cpp:1461-1484 | Hits if and only if the read cache holds this version of the key, unexpired; a hit is exact, and nothing is cached or evicted. |
| `DataPath.Remember` | src/cache.cpp:1579-1589 | The answer is cached if and only if it fits and no same or later version is; an exact one is right for its key and version. |
| `DataPath.Get` | src/cache.cpp:1443-1592 | There is an answer if and only if the leaf is fresh and the read cache holds its version or the devices can serve the put of that version, and then the read cache holds it if it fits; unless other bytes had the same checksum it gives for each layer exactly the bytes that were put. It goes astray if and only if it comes to the devices for a leaf that is not striped and has no first replica. |
| `DataPath.GoodServed` | src/cache.cpp:1486-1577 | A put all of which was published since the last drop is served by devices that return what they should, if the bytes behind a stream are the same. |
| `NodeLife.LiveSince` | src/cache.cpp:397-423 | The leaf and its pages owe nothing to what was published before the last drop. |
| `NodeLife.BatchEventsExact` | src/writer.cpp:179-235 | What a batch publishes at a node is exactly its requests for that node. |
| `Puts.LeafOfPut` | src/cache.cpp:284-395 | After any history a leaf of a put's version, plain, hot or striped, has exactly the parts published since the last drop, with their pages and checksums; every other slot is marked unused. |
| `Puts.NewestWins` | src/cache.cpp:284-395 | The leaf is there if and only if something was published since the last drop, and has the newest version of that. |
| `Puts.ScriptSuits` | src/cache.cpp:1240-1361 | Requests of puts with one version each always suit the leaves that such requests led to. |
| `Puts.ScriptedBatch` | src/writer.cpp:179-235 | A batch of such requests keeps the histories those of such puts. |
| `Puts.ScriptedDrops` | src/cache.cpp:397-423 | So do drops. |
| `Puts.PresentStays` | src/cache.cpp:284-395 | A published part stays present until the leaf is dropped. |
| `Puts.DropSplits` | src/cache.cpp:397-423 | With a drop between its parts a stripe is whole if and only if every part was published behind the drop; the missing parts are marked unwritten. |
| `Puts.Expires` | src/cache.cpp:319-345 | The expiry of a put counts if and only if it is not striped and its first replica is there. |
| `Puts.FirstReplica` | src/cache.cpp:1555 | The first address names a device if and only if the first replica was published since the last drop; for a plain put it always was. |
| `PutRuns.SplitPut` | src/cache.cpp:397-423 | A run with slice 0, a drop of the leaf and slice 1: both were published, the leaf has their version, and a get has no answer. |
| `PutRuns.SecondFirst` | src/cache.cpp:1555 | A run with the second replica first: the first address names no device and a get goes astray. |
| `Service.Run` | src/writer.cpp:179-355 | Over any run of batches, for known and new keys, and collections, store and index stay valid, each key keeps its node, and the history of each node is exactly the requests for it, in order, with drops between them; it stops early only at a batch that ends in an empty chunk. |
| `Service.RunOne` | src/writer.cpp:179-355 | The same for one batch or collection: a batch that does not end in an empty chunk is always done, and a collection drops every expired leaf when that is due. |
| `Service.AskedPresent` | src/writer.cpp:179-235 | A part is present if and only if its request was made. |
| `Service.StripeWhole` | src/writer.cpp:179-235 | A stripe is whole if and only if the request of every part was published since the last drop. |
| `Service.Index.NodeOf` | src/writer.cpp:184-190 | A put goes to the node of its key, which the path of the first put made. |
| `Service.Index.Find` | src/cache.cpp:1437-1438 | A get finds the node of the key if and only if its path is that of the first put. |
| `Service.GetByPath` | src/cache.cpp:1420-1592 | A get by its path answers nothing without a leaf at the end of the path, and otherwise as a get of that node. |
| `Service.PutParts` | src/cache.cpp:1240-1361 | A plain, hot or striped put, each part in its own batch with any other batches, of any keys, and collections between: all its parts are in the history of the key's node. |
| `Service.AskedWhole` | src/writer.cpp:179-235 | If the node was not dropped since the put began, the put is whole. |
| `Service.PutThenGet` | src/cache.cpp:1187-1592 | If moreover no newer version came and the put has not expired, a get by the put's path, from devices that return what they should, gives exactly what was put. |
| `Service.AdmittedParts` | src/cache.cpp:1268-1342 | A put that is taken starts with one reference for each of its parts. |
| `Layout.Gcd` | src/model_profile.cpp:7-14 | Euclid's loop finds the greatest common divisor. |
| `Layout.Lcm` | src/model_profile.cpp:16-20 | The least common multiple, without overflow when the product fits 64 bits. |
| `Layout.AlignUpValue` | src/model_profile.cpp:22-26 | Rounding up gives the next multiple unless the sum overflows. |
| `Layout.AlignDownValue` | src/model_profile.cpp:28-32 | Rounding down gives the last multiple. |
| `Layout.Pow2Floor` | src/model_profile.cpp:34-39 | The largest power of two that does not exceed the number. |
| `Layout.SizesFit` | src/model_profile.cpp:41-95 | For every profile the sizes are the exact products, far enough from 2^64. |
| `Layout.ThresholdValue` | src/model_profile.cpp:138-144 | For any target the threshold is the greatest multiple of the group up to it, or for a larger group the least page multiple from it on. |
| `Layout.BatchValue` | src/model_profile.cpp:146-155 | For any target the batch holds target and group in whole pages, and in whole groups if the threshold holds one, but is cut to the pages of the threshold and is never empty. |
| `Layout.DefaultBatch` | src/model_profile.cpp:146-155 | With the default targets it is the threshold rounded down to pages. |
| `Layout.Tune` | src/model_profile.cpp:107-167 | Every profile with a nonzero group, and no other, gets a layout: for any targets without overflow the stripe unit is the least common multiple of page and layer from the target on, the threshold is as above and regions hold whole groups; with the default ones the alignment is the greatest common divisor with the page, and nothing overflows. |
| `Layout.ConfigValues` | src/model_profile.cpp:169-186 | The tuned configuration passes the core's check if and only if the model has at most 256 KV layers. |
| `Layout.DeepModelRefused` | src/model_profile.cpp:169-186 | A profile with 257 KV layers gets a layout but has more layers than the core takes. |

## Left out

- System calls, asynchronous I/O and failed writes: a device is an array of pages; a batch is written and published in one step, and only reads can fail.
- Concurrency inside the read cache: its operations are sequential, as its allocator is shared by all shards.
- DramCache.Cache.Put: sizes are unbounded; a buffer within a megabyte of 4 GiB would make the 32-bit size wrap.
- DataPath.Get: payloads of 4 GiB or more, whose length is cut to 32 bits at the put, are not modelled, and neither are stripe units of 4 GiB or more.
- Service.Run: nobody reads meanwhile, so nothing is pinned; Store.Store.SubmitBatch has pins.
- Service.PutParts: the node of the key is found or made before the other work instead of when the first part completes.
- Service.PutThenGet: a path with the hash zero, which the tree does not store, is excluded.
- Recovery.PrefixConsistent: all records of a key are in one journal; hot and striped puts on several devices, whose records are spread over several journals, are not modelled.
- Store.Store.LeafDrop: the journalled deletion is a step of Recovery, and the removal of the key from the read cache is DramCache.Cache.Invalidate.
- Store.Store.SubmitBatch: a region is larger than the batch by its header page, an empty chunk is not placed behind the last page of the last region, the parts of one version belong to one put, and no reader has pinned a leaf of the region that is freed; Store.Store.FreezeAndRotate says exactly what a pinned leaf there breaks.
- Checkpoint.Load: nodes are loaded with the hashes of their edges; in which inline slot or overflow cell an edge ends up is Edges.LoadEdge, not part of the file model.
- Checkpoint.CheckpointRoundTrip: it is about the records of the file and the leaf under every path, not about the bytes of a record.
- Region runs that continue after a reopen, where an old open region stays open.
- Update in place of radix nodes, hash chains and queue links through references: these are values in a pool and lists, so aliasing between them is not modelled.
- RadixTree.Tree.Walk: the claim about new paths is made for paths without the hash zero, which the tree does not store.
- Failure of memory allocation.
- The direct-mapped tombstone table, which loses entries by design and depends on the clock.
- The chunk header format of src/chunk.cpp, which puts and gets do not use.
- Halving of hit counts, statistics, metrics and command-line tools: nothing that is proved here depends on them.
- Model presets are constants, and model descriptions are scanned for substrings; both only supply the profile that Layout.Tune takes for any values.
- The drain of a writer that is stopped, and closing the cache.
- Migration of regions, which has no caller.
