# Ordinum, verified

Ordinum is the write side of an LSM storage engine: a lock-free skip list and the memtable over it, the commit
queue and its admission semaphore, a concurrent arena, and the machinery that owns batches, thread-local rows and
hazard records. This project models those parts in Dafny and proves what they promise.

Two kinds of model appear side by side. A concurrent protocol is a state machine whose steps are the single atomic
accesses of the code, and its theorems are about every run of any number of threads, each access taking effect at
once. The same code as one thread sees it is a class or a method with the code's own loops, proved against the same
specification. The two are tied together: a thread of the protocol that nobody disturbs is shown to do what the
one-thread code does.

| module | what it models |
|---|---|
| `Ordering`, `InternalKey` | byte strings, the internal key and its two comparators |
| `Towers`, `Chains` | the nodes of the skip list, their levels as chains, what linking a node does |
| `ConcurrentSkipList`, `SkipListRuns`, `SkipListAlone` | any number of inserting and searching threads, one atomic access at a time; what their runs promise; a thread left alone |
| `SkipList`, `Iterators`, `Ranges` | search, insert, cursors and ranges of one thread |
| `Memtable`, `MemtableRuns` | writes and snapshot reads over the list, against the history of writes, of one thread and of many |
| `Bits`, `HeadTail`, `CommitQueue` | masks and shifts, the packed head/tail word, the ring of one thread |
| `BatchQueue`, `QueueRuns`, `QueueFailures` | one producer and any number of consumers on the ring: the protocol, what its runs promise, the runs in which it fails |
| `Counting`, `Admission`, `AdmissionRuns` | the counting semaphore with its fast path and its condition variable, and how a permit is taken |
| `SequenceBase` | the sequence numbers that `prepare` stamps |
| `Arena`, `ConcurrentArena`, `ArenaRuns` | the bump arena, of one thread and of many, and what a thread is told |
| `ThreadMatrix`, `ThreadRows` | the thread-by-column matrix as a value, and as linked rows |
| `BatchPool`, `PoolRuns`, `PoolStacks` | the two-tier pool of many threads, where its batches come from and go to, and its arrays |
| `VarInt`, `RecordFormat`, `Batch` | varints, the record log and its parser, the batch that writes it |
| `HazardDomain`, `HazardRuns`, `HazardAlone`, `HazardFailures`, `HazardRecords` | the hazard records' lists: of many threads, with what runs promise and when they fail, and of one |
| `Sequences`, `Digits`, `Runs` | options, lists without repetition, places of numbers to a base, runs that lead from one state to another |

`dafny verify dfyconfig.toml` checks the whole project.

## Where the code departs from its comments

Each of these is modelled as the code has it, with a run or an input that shows the departure and the exact
condition under which the promise holds.

- `enqueue` promises to wait until its slot is null, but looks once and goes on. `QueueFailures.LostBatch` is a run
  that loses a batch. `QueueRuns.SkippingTheWaitIsSafeIffNull` gives the condition. The theorems about all runs are
  about those in which each such look finds null (`BatchQueue.Waits`).
- A consumer's compare-and-swap cannot tell a word from the same word 2^32 dequeues later. In
  `QueueFailures.ReturnedTwice` a consumer sleeps that long and then returns a batch a second time, in place of the
  one at the front. `QueueRuns.ClaimKeepsOrderIffFresh` gives the condition: fewer than 2^32 dequeues since the load.
  The theorems about all runs are about those in which that holds (`BatchQueue.Fresh`).
- `prepare` subtracts the batch's count from a value that is already the old one. `SequenceBase.SharedNumber` has two
  batches that share a number and `SequenceBase.FirstBatchUnderflows` a first batch whose base is below zero.
  `SequenceBase.NumbersSoundIff` gives the condition for neither to happen; from zero, where the counter starts, it
  fails as soon as a batch has an operation (`SequenceBase.UnderflowFromZero`).
- `try_acquire_available` starts its walk from the head it loaded before it set the lock bit, not from the one on
  which it set it. `HazardFailures.SharedRecord` is a run after which two threads hold one record. The theorems about
  all runs are about those in which the two are the same (`HazardDomain.Fresh`), which is what taking the lock and
  reading the head in one step would give; `HazardFailures.LockSoundIffFresh` shows that exactly then the walk loses no
  record, shares none, and follows no link of what is no record.
- A range with an excluded start yields the start key if it is there (`Ranges.ExcludedStartShown`). Its end bound is
  compared as raw bytes even on a list ordered otherwise, so on the memtable's list it can end before keys that are
  within the bound (`Ranges.OlderVersionMissed`). `Ranges.RangeExactIff` gives the condition for both, and
  `Ranges.EveryEndAgreesIff` says for which lists no end bound does harm.
- After `reset` the retained chunks but the first are out of use. `Arena.OneBlockAfterReset` is an arena of two chunks
  that holds one afterwards; `Arena.BlocksUntilFull` counts what is left, and `Arena.CapacityRestoredIff` says that it is
  the full capacity only if there was one chunk.
- A node keeps its key's length in 16 bits and its value's in 32 and copies all of both; `Memtable.NodeReadsBackIff`
  gives the lengths for which it gives them back.
- `put_with` appends a record without counting it. The header count is the number of `put`s, and
  `Batch.BatchInner.ReadBack` relates it to the number of records.

## Model

| member | source | states |
|---|---|---|
| `SkipListRuns.RunRefinesMap` | crates/engine/src/utils/skiplists/mem_skip_list.rs:515-605 | At every point of every interleaving of inserts and lookups, the entries on the bottom level are exactly a keep-first map of the publications so far, and every publication is of a key that was absent |
| `SkipListRuns.LevelsAlwaysSorted` | crates/engine/src/utils/skiplists/mem_skip_list.rs:438-605 | At every point of every interleaving each level is a finite chain from the sentinel in strictly increasing key order, holding exactly the nodes linked there, and each level is a subsequence of the one below |
| `SkipListRuns.ReachableInv` | crates/engine/src/utils/skiplists/mem_skip_list.rs:438-714 | The invariant of the towers and of every thread in mid-operation holds throughout every run |
| `ConcurrentSkipList.NextKeepsInv` | crates/engine/src/utils/skiplists/mem_skip_list.rs:438-714 | Every single atomic access of any thread keeps that invariant |
| `SkipListRuns.SwingExact` | crates/engine/src/utils/skiplists/mem_skip_list.rs:544-605 | A compare-and-swap that succeeds puts the node between the two nodes that were neighbours at that instant, and the node's own slot holds the successor it was swung in front of, although null successors are never stored |
| `SkipListRuns.NextGrows` | crates/engine/src/utils/skiplists/mem_skip_list.rs:541-605 | No step takes a node off a level, changes a key or value, or turns a slot that was not null into null |
| `SkipListRuns.NextRefinesMap` | crates/engine/src/utils/skiplists/mem_skip_list.rs:515-571 | A step changes the mapping only by a publication on the bottom level, which adds one absent key with its value; an insert that finds the key present changes nothing |
| `SkipListRuns.FinishedInsertStays` | crates/engine/src/utils/skiplists/mem_skip_list.rs:515-605 | Once an insert has returned, its node, key and value are on the bottom chain for the rest of the run |
| `SkipListRuns.TowerComplete` | crates/engine/src/utils/skiplists/mem_skip_list.rs:573-605 | An insert that returns by its own last swap has linked its node on every level of its tower |
| `SkipListRuns.FinishedTowerStays` | crates/engine/src/utils/skiplists/mem_skip_list.rs:573-605 | And for the rest of the run the node is on the chain of every one of those levels |
| `SkipListAlone.FinishesAlone` | crates/engine/src/utils/skiplists/mem_skip_list.rs:438-714 | From any reachable state, a thread anywhere inside a search or an insert finishes if it is left alone, whatever stale neighbours it carries |
| `SkipListAlone.InsertWithAlone` | crates/engine/src/utils/skiplists/mem_skip_list.rs:610-714 | An undisturbed insert of an allocated node leaves the keep-first update, with the node on all its levels if its key was absent and the list as it was otherwise |
| `SkipListAlone.ProbeAlone` | crates/engine/src/utils/skiplists/mem_skip_list.rs:515-520 | An undisturbed first search of an insert ends the insert exactly if the key is there, and else has both neighbours on every level |
| `SkipListAlone.AllocatedAlone` | crates/engine/src/utils/skiplists/mem_skip_list.rs:529-605 | And after it has allocated its node the pair is added and the node linked on all its levels |
| `SkipListAlone.LookupAlone` | crates/engine/src/utils/skiplists/mem_skip_list.rs:438-502 | An undisturbed lookup ends, with the first node not below its key |
| `SkipListRuns.InProgressWasRequested` | crates/engine/src/utils/skiplists/mem_skip_list.rs:515-605 | The pair a thread is inserting is the one asked for by the latest insert that thread began |
| `SkipListRuns.LookupExact` | crates/engine/src/utils/skiplists/mem_skip_list.rs:438-502 | A search under any interference returns the first node not below its key of the bottom level as it is at the search's last load, so it misses no insert published before |
| `SkipListRuns.NoWildAccess` | crates/engine/src/utils/skiplists/mem_skip_list.rs:438-605 | No thread ever dereferences a null or foreign node, or a tower slot above a node's height |
| `ConcurrentSkipList.CasCanLink` | crates/engine/src/utils/skiplists/mem_skip_list.rs:544-605 | A compare-and-swap succeeds only where the node may be linked: after the last node below its key and before the first not below it, on the level next above those it has |
| `Towers.LinkKeepsOrdered` | crates/engine/src/utils/skiplists/mem_skip_list.rs:544-605 | Linking a node between its neighbours keeps every level ordered and keys unique |
| `Towers.Neighbours` | crates/engine/src/utils/skiplists/mem_skip_list.rs:452-480 | A node below the key whose successor is not below it is the last node below the key of its level, and that successor the first not below it |
| `Chains.ChainMembers` | crates/engine/src/utils/skiplists/mem_skip_list.rs:504-513 | Following the links from a node visits exactly the later nodes of its level |
| `Chains.ChainIncreasing` | crates/engine/src/utils/skiplists/mem_skip_list.rs:504-513 | Following the links from a node goes through strictly increasing keys |
| `Chains.LevelsNest` | crates/engine/src/utils/skiplists/mem_skip_list.rs:541-605 | The chain of a level is a subsequence of the chain below it |
| `Chains.LinkContents` | crates/engine/src/utils/skiplists/mem_skip_list.rs:544-571 | Linking a node at the bottom adds exactly its pair to the contents; linking it higher up adds nothing |
| `SkipList.SkipList.WalkLevel` | crates/engine/src/utils/skiplists/mem_skip_list.rs:452-480 | One level's walk ends at the last node below the key and the first not below it, and says whether that is the key |
| `SkipList.SkipList.Search` | crates/engine/src/utils/skiplists/mem_skip_list.rs:438-496 | On every level the predecessor is the last node below the key and the successor the first not below it, the levels above the current height are (sentinel, null), and a node is found exactly when the key is present |
| `SkipList.SkipList.LinkOne` | crates/engine/src/utils/skiplists/mem_skip_list.rs:544-605 | One link: the slot of the predecessor and of the node afterwards, the other levels unchanged, and the contents with the pair if the level is the bottom |
| `SkipList.SkipList.LinkLevels` | crates/engine/src/utils/skiplists/mem_skip_list.rs:541-605 | A new node is linked on all its levels and the contents gain exactly its pair |
| `SkipList.SkipList.Insert` | crates/engine/src/utils/skiplists/mem_skip_list.rs:515-605 | The contents become the keep-first update, and the node returned has the key and is on the bottom level |
| `SkipList.SkipList.InsertWith` | crates/engine/src/utils/skiplists/mem_skip_list.rs:610-714 | The contents become the keep-first update and the node returned has the key, also when the node is filled before the search for its place |
| `Iterators.Cursor.SeekToFirst` | crates/engine/src/memtable/memtable.rs:315-318 | All entries are still to be shown, each once, in comparator order |
| `Iterators.Cursor.Seek` | crates/engine/src/memtable/memtable.rs:320-323 | Exactly the entries not below the key are still to be shown, each once, in comparator order |
| `Iterators.Cursor.Next` | crates/engine/src/memtable/memtable.rs:325-331 | The first of the entries still to be shown is taken off |
| `Iterators.Cursor.Drain` | crates/engine/src/memtable/memtable.rs:310-331 | Repeated next shows exactly the entries that were still to be shown |
| `Iterators.Cursor.CollectFrom` | crates/engine/src/utils/skiplists/mem_skip_list.rs:721-735 | Seek and then next until the end yields exactly the entries not below the key, in order, each once |
| `Ranges.CollectRange` | crates/engine/src/utils/skiplists/mem_skip_list.rs:737-820 | On a list of any order a range shows, ascending and each once, the keys from the start bound on, read as included, up to the first key beyond the end bound |
| `Ranges.RangeIter.Next` | crates/engine/src/utils/skiplists/mem_skip_list.rs:797-818 | The first of the nodes still to be returned is taken off, or null when there is none |
| `Ranges.ShownWithin` | crates/engine/src/utils/skiplists/mem_skip_list.rs:797-818 | Nothing shown is beyond a bound; an excluded end is not shown itself |
| `Ranges.RangeSetMeans` | crates/engine/src/utils/skiplists/mem_skip_list.rs:737-818 | The range asked for is the entries at or after an included start, after an excluded one, up to an included end and before an excluded one |
| `Ranges.RangeExactIff` | crates/engine/src/utils/skiplists/mem_skip_list.rs:737-818 | What is shown is the range asked for if and only if no key beyond the end comes, in the list's order, before one within it, and the start key is not excluded, stored and within the end |
| `Ranges.EveryEndAgreesIff` | crates/engine/src/utils/skiplists/mem_skip_list.rs:806-812 | No end bound cuts a list short if and only if the list is ascending by raw bytes too |
| `Ranges.InternalAgainstRaw` | crates/engine/src/key/comparator.rs:41-52 | On internal keys the memtable's order is opposite to byte order among the versions of a user key, and the same when neither user key begins with the other |
| `Ranges.VersionsDisagree` | crates/engine/src/utils/skiplists/mem_skip_list.rs:806-812 | With two versions of one user key in the memtable's list some end bound cuts it short |
| `Ranges.PrefixFreeAgrees` | crates/engine/src/utils/skiplists/mem_skip_list.rs:806-812 | With one version of each user key and no user key the beginning of another none does |
| `Ranges.ExcludedStartShown` | crates/engine/src/utils/skiplists/mem_skip_list.rs:737-760 | A concrete list of one key whose range of everything after the key contains it |
| `Ranges.OlderVersionMissed` | crates/engine/src/utils/skiplists/mem_skip_list.rs:797-818 | A concrete list of two versions whose range up to the older one is empty |
| `InternalKey.EncodeInto` | crates/engine/src/key/mod.rs:27-35 | The front of the buffer becomes the user key and trailer, the rest is untouched |
| `InternalKey.DecodeEncode` | crates/engine/src/key/internal_key.rs:160-175 | Decoding an encoded key gives back user key, sequence number and kind, for all sequence numbers below 2^56 |
| `InternalKey.EncodeInjective` | crates/engine/src/key/internal_key.rs:112-126 | Two encoded keys are equal only if all three parts are |
| `InternalKey.EncodedBytes` | crates/engine/src/key/internal_key.rs:28-126 | The bytes of an encoded key: the user key, the sequence number in seven bytes, most significant first, and the kind, 1 for a put, 2 for a delete, 3 for a merge, 4, 5 and 255 for the others |
| `InternalKey.KindFromRawExact` | crates/engine/src/key/internal_key.rs:68-82 | A stored kind byte is read as exactly the kind it was written for, and only puts, deletes, merges and lookups are read |
| `InternalKey.KindsInOrder` | crates/engine/src/key/comparator.rs:41-52 | Of one user key and sequence number a lookup comes first, then a merge, a delete and a put |
| `InternalKey.BigEndianRoundTrip` | crates/engine/src/key/internal_key.rs:119-121 | A big-endian number is read back |
| `InternalKey.BigEndianBytes` | crates/engine/src/key/internal_key.rs:119-121 | Byte i of a big-endian number of n bytes is the number divided by 256^(n - 1 - i), modulo 256 |
| `InternalKey.BigEndianOrder` | crates/engine/src/key/internal_key.rs:119-121 | Byte order of big-endian numbers of one width is their numeric order |
| `InternalKey.InternalCompareIsLogical` | crates/engine/src/key/comparator.rs:41-52 | The byte comparator is user key ascending, then sequence descending, then kind descending |
| `InternalKey.InternalTotalOrder` | crates/engine/src/key/comparator.rs:41-52 | It is a total order on internal keys |
| `Ordering.BytesTotalOrder` | crates/engine/src/key/comparator.rs:25-27 | The default comparator is a total order on byte strings |
| `Ordering.BytesLexicographic` | crates/engine/src/key/comparator.rs:25-27 | One string is below another exactly when it is a proper beginning of it or has the smaller byte where they first differ |
| `InternalKey.LookupKeyPosition` | crates/engine/src/key/comparator.rs:41-52 | A lookup key for (u, s) sorts right before the versions of u not newer than s: what is below it is smaller users and newer versions of u |
| `Memtable.NodeReadsBackIff` | crates/engine/src/utils/skiplists/mem_skip_list.rs:143-145 | The key and value copied into a node are what it gives back if and only if they are at most 65535 and 2^32 - 1 bytes long |
| `Memtable.Memtable.Insert` | crates/engine/src/memtable/memtable.rs:253-258 | The history gains the version, and the list stays the keep-first map of the history |
| `Memtable.Memtable.InsertDirect` | crates/engine/src/memtable/memtable.rs:260-278 | The history gains the encoded version, and the list stays the keep-first map of the history |
| `Memtable.Memtable.FirstGe` | crates/engine/src/memtable/memtable.rs:242-251 | The first entry of the list not below the key |
| `Memtable.Memtable.Get` | crates/engine/src/memtable/memtable.rs:161-182 | The answer is that of a scan over the whole history: NotFound without a visible version, and else, by the newest one's kind byte, the value for 1, deleted for 2, a merge for 3 |
| `Memtable.WriteIsRead` | crates/engine/src/memtable/memtable.rs:161-182 | A put, delete or merge of u at s, of an internal key not written before, is what every lookup of u from s on answers until a newer version comes within its snapshot: the put's value, deleted, or merge |
| `Memtable.FirstNotBelowAnswers` | crates/engine/src/memtable/memtable.rs:161-182 | The first entry not below the lookup key is the newest visible version of its user if it is of that user, and otherwise there is none |
| `Memtable.NewestIsMaximal` | crates/engine/src/memtable/memtable.rs:161-182 | The scan returns a visible version that no visible version of the history is newer than, with the value the memtable kept for it |
| `Memtable.SnapshotRead` | crates/engine/src/memtable/memtable.rs:161-182 | A read of (u, s) answers by the kind byte and value of the stored version of u with the greatest sequence number not above s, and NotFound exactly when there is none |
| `Memtable.PointKindsNeverPanic` | crates/engine/src/memtable/memtable.rs:161-182 | With puts, deletes and merges only, get never reaches its panic |
| `Memtable.SnapshotStable` | crates/engine/src/memtable/memtable.rs:161-182 | Versions that a lookup cannot see do not change its answer |
| `Memtable.SnapshotIgnoresNewer` | crates/engine/src/memtable/memtable.rs:161-182 | A snapshot read is not changed by any number of later inserts above its sequence number |
| `MemtableRuns.LookupScansPublished` | crates/engine/src/memtable/memtable.rs:161-182 | Under any interleaving with concurrent inserts a lookup answers like a scan of the versions published by its last load, whenever it then reads the node it found |
| `MemtableRuns.ConcurrentSnapshotRead` | crates/engine/src/memtable/memtable.rs:161-182 | So a read of (u, s) beside any writers answers by the kind byte and value of the published version of u with the greatest sequence number not above s, and NotFound exactly when there is none |
| `MemtableRuns.PublishedIsRead` | crates/engine/src/memtable/memtable.rs:161-182 | A published put, delete or merge is what a lookup beside any other threads answers until a newer version is published within its snapshot: the put's value, deleted, or merge |
| `MemtableRuns.PublishedOnce` | crates/engine/src/utils/skiplists/mem_skip_list.rs:515-571 | No internal key is ever published twice |
| `MemtableRuns.FinishedWriteIsRead` | crates/engine/src/memtable/memtable.rs:161-182 | A write of u up to s that returned before the lookup's last load is read, or a newer one is |
| `QueueRuns.DequeuesInOrder` | crates/engine/src/db/write_pipeline.rs:144-207 | In every run in which enqueue waits for a null slot and no word recurs within a dequeue, the batches claimed are a prefix of those enqueued, each once and each applied; no published slot is overwritten or erased; the full-queue panic is never reached |
| `QueueRuns.ReachableInv` | crates/engine/src/db/write_pipeline.rs:144-207 | The invariant of the ring, its permits and all producers and consumers in mid-operation holds throughout those runs |
| `BatchQueue.NextKeepsInv` | crates/engine/src/db/write_pipeline.rs:144-207 | Every atomic access of the producer or of any consumer keeps the invariant of the queue |
| `QueueRuns.ClaimReturnsFront` | crates/engine/src/db/write_pipeline.rs:189-204 | A tail compare-and-swap that succeeds claims exactly the oldest batch; one that loses changes nothing, and the call goes round again with the word as it is unless the queue is empty |
| `QueueRuns.NothingIff` | crates/engine/src/db/write_pipeline.rs:172-204 | A step ends a call with none if and only if it finds the queue empty, at the start or after a lost compare-and-swap, or the slot null, or the batch it read not applied |
| `QueueRuns.NothingMeans` | crates/engine/src/db/write_pipeline.rs:172-204 | Over runs a call that ends with none found the queue empty or its batch not applied at that step, or lost the batch of its word to another consumer's claim after it loaded the word |
| `QueueRuns.ClaimedMeanwhile` | crates/engine/src/db/write_pipeline.rs:172-204 | A call whose position has been claimed loaded its word before that claim, and another call made it |
| `QueueRuns.DequeueAlone` | crates/engine/src/db/write_pipeline.rs:172-207 | An undisturbed call returns the front batch and nulls its slot if there is one and it is applied, and otherwise returns none and changes nothing |
| `QueueRuns.PanicsIffFull` | crates/engine/src/db/write_pipeline.rs:144-150 | `enqueue` panics exactly when n batches are published and not claimed |
| `QueueFailures.PublishAlone` | crates/engine/src/db/write_pipeline.rs:144-168 | An undisturbed `enqueue` with room stores its batch in the slot of the head and advances the head |
| `QueueRuns.SlotReadAtFront` | crates/engine/src/db/write_pipeline.rs:180-186 | A consumer that reads its slot while its word's batch is the oldest reads the oldest batch |
| `QueueRuns.ClaimKeepsOrderIffFresh` | crates/engine/src/db/write_pipeline.rs:189-204 | When such a consumer's compare-and-swap succeeds the batches returned are still a prefix of those enqueued if and only if fewer than 2^32 batches were dequeued since it loaded its word |
| `QueueFailures.ReturnedTwice` | crates/engine/src/db/write_pipeline.rs:189-204 | A run of the code as written, with every enqueue waiting as promised, in which a consumer sleeps through 2^32 dequeues and then returns its batch a second time and skips the one at the front |
| `QueueRuns.ReachableOwned` | crates/engine/src/db/write_pipeline.rs:83-84 | Throughout those runs a slot that is not null is published, being published, or claimed and not yet cleared |
| `QueueRuns.SkippingTheWaitIsSafeIffNull` | crates/engine/src/db/write_pipeline.rs:154-161 | Going on without the wait, as the code does, leaves every published batch intact whatever a consumer does next if and only if the slot is null |
| `QueueRuns.UnclearedSlotIsErased` | crates/engine/src/db/write_pipeline.rs:154-201 | If the slot belongs to a consumer that has not cleared it, that consumer's store erases the batch just published |
| `QueueFailures.LostBatch` | crates/engine/src/db/write_pipeline.rs:154-201 | A concrete run of the code as written, with two slots and two consumers, at whose end a published batch is lost |
| `BatchQueue.RoomForHeld` | crates/engine/src/db/write_pipeline.rs:145-150 | A batch with a permit that is not enqueued yet always finds room |
| `CommitQueue.CommitQueue.Enqueue` | crates/engine/src/db/write_pipeline.rs:144-168 | Without interference the batch goes behind the others, across wrap-around of the 32-bit counters, and the panic happens exactly when n are queued |
| `CommitQueue.CommitQueue.TryDequeue` | crates/engine/src/db/write_pipeline.rs:172-207 | Without interference the oldest batch is returned and taken off exactly when it has been applied |
| `HeadTail.WordParts` | crates/engine/src/db/write_pipeline.rs:44-62 | Unpacking a packed word gives both logical counters modulo 2^32 |
| `HeadTail.BumpHeadAdvances` | crates/engine/src/db/write_pipeline.rs:163-167 | Adding 1 << 32 advances the head alone, across wrap-around of either counter |
| `HeadTail.RepackAdvancesTail` | crates/engine/src/db/write_pipeline.rs:187-195 | The dequeuer's new word advances the tail alone, across wrap-around |
| `HeadTail.MaskIsModulo` | crates/engine/src/db/write_pipeline.rs:152-182 | Masking a 32-bit counter with n - 1 is the logical counter modulo n, for powers of two up to 1024 |
| `HeadTail.FullTestExact` | crates/engine/src/db/write_pipeline.rs:148-150 | The wrapping full test is exact while at most n batches are queued |
| `HeadTail.EmptyTestExact` | crates/engine/src/db/write_pipeline.rs:177-179 | The empty test is exact while at most n batches are queued |
| `HeadTail.WordInjective` | crates/engine/src/db/write_pipeline.rs:189-204 | Within 2^32 dequeues two equal words mean equal counters |
| `HeadTail.WordRepeats` | crates/engine/src/db/write_pipeline.rs:189-204 | After exactly 2^32 more enqueues and dequeues the word is the same again |
| `Admission.ReachableInv` | crates/engine/src/db/write_pipeline.rs:252-309 | Throughout every run free plus held permits is the limit, the mutex has one owner, and whenever a thread sleeps the free permits are at most the awake slow-path threads plus a release in progress |
| `Admission.NextKeepsInv` | crates/engine/src/db/write_pipeline.rs:261-309 | Every step of any thread keeps the semaphore's invariant |
| `Admission.AtMostLimitHeld` | crates/engine/src/db/write_pipeline.rs:252-309 | Never more permits are held than the limit, and the count is what is left |
| `Admission.SleepersWaitForHolders` | crates/engine/src/db/write_pipeline.rs:279-309 | If a thread sleeps and no thread is on its way, every permit is held |
| `AdmissionRuns.FreePermitIsTaken` | crates/engine/src/db/write_pipeline.rs:279-309 | In every run, while a thread sleeps and a permit is free, the threads in the middle of a call can go on, with no new call, until one that waited holds a permit |
| `AdmissionRuns.RefusedOnlyAtZero` | crates/engine/src/db/write_pipeline.rs:261-297 | A thread is refused, goes from its slow attempt back to the count, or decides to sleep, only in a step that finds the count zero |
| `AdmissionRuns.TryAcquireAlone` | crates/engine/src/db/write_pipeline.rs:261-277 | An undisturbed `try_acquire` takes a free permit, exactly one, in its two steps |
| `AdmissionRuns.SlowAcquireAlone` | crates/engine/src/db/write_pipeline.rs:279-297 | A thread on the slow path that has the mutex takes a free permit and gives the mutex back |
| `AdmissionRuns.WaiterAcquiresAlone` | crates/engine/src/db/write_pipeline.rs:279-297 | A thread that waits for the mutex does so once the mutex is free |
| `AdmissionRuns.ReleaseAddsOne` | crates/engine/src/db/write_pipeline.rs:299-303 | A release adds one permit, under the mutex |
| `AdmissionRuns.NotifyWakesOne` | crates/engine/src/db/write_pipeline.rs:305-309 | And then wakes exactly one sleeper, if there is one |
| `Admission.ReleaseHasRoom` | crates/engine/src/db/write_pipeline.rs:299-309 | The release assertion holds for every thread that has a permit |
| `SequenceBase.DisjointIffNoLargerFollows` | crates/engine/src/db/write_pipeline.rs:526-535 | With the base as written, batches get disjoint sequence numbers if and only if no batch with operations is larger than the last such batch prepared before it |
| `SequenceBase.NumbersSoundIff` | crates/engine/src/db/write_pipeline.rs:526-535 | They are disjoint and no subtraction overflows if and only if, besides, the counter starts no lower than the size of the first batch with operations |
| `SequenceBase.NoUnderflowIff` | crates/engine/src/db/write_pipeline.rs:526-535 | No subtraction overflows if and only if each batch is no larger than the number of operations counted before it |
| `SequenceBase.UnderflowFromZero` | crates/engine/src/version/mod.rs:26-33 | With the counter starting at zero no subtraction overflows if and only if no batch has any operation |
| `SequenceBase.FirstBatchUnderflows` | crates/engine/src/version/mod.rs:26-33 | The very first batch, of one operation, has base -1 |
| `SequenceBase.SharedNumber` | crates/engine/src/db/write_pipeline.rs:526-535 | Two concrete batches that share a sequence number |
| `ConcurrentArena.AllocationsSound` | crates/engine/src/arena/arena.rs:246-329 | Under any interleaving of allocators, rollovers and resets the ranges handed out since the last reset are pairwise disjoint, inside their chunk, aligned, and padded by less than their alignment; every finished allocation is one of them; the chunks never exceed the cap |
| `ConcurrentArena.ReachableInv` | crates/engine/src/arena/arena.rs:246-329 | The invariant of the memory and of every thread in mid-allocation holds throughout every run |
| `ConcurrentArena.NextKeepsInv` | crates/engine/src/arena/arena.rs:246-382 | Every step keeps the invariant of the arena, with weak compare-and-swaps failing at will, although a thread may bump an old chunk while its length check reads the current one |
| `ConcurrentArena.OwnersDisjoint` | crates/engine/src/arena/arena.rs:246-292 | Over every run no two threads hold overlapping memory at the same time |
| `ArenaRuns.ToldRightly` | crates/engine/src/arena/arena.rs:246-329 | In every run, as long as a thread is told the arena is full, its layout does not fit the current chunk and there are as many chunks as the cap allows; and it is told its layout is too large exactly if that is larger than a chunk |
| `ArenaRuns.AllocAlone` | crates/engine/src/arena/arena.rs:246-329 | An undisturbed allocation does what the one-thread code does: the memory and the answer are those of `AllocNext`, and the counters follow |
| `ConcurrentArena.FullMeansCapReached` | crates/engine/src/arena/arena.rs:308-312 | The check of the cap turns a thread away exactly when there are as many chunks as the cap allows |
| `Arena.MaskRoundsUp` | crates/engine/src/arena/arena.rs:174-178 | The add-and-mask of the alignment check is the next multiple of the alignment |
| `Arena.RoundUpBounds` | crates/engine/src/arena/arena.rs:174-178 | Rounding up to an alignment wastes less than the alignment |
| `Arena.RangesDisjoint` | crates/engine/src/arena/arena.rs:246-292 | Ranges recorded in a good memory are pairwise disjoint and within the block size |
| `Arena.Arena.TryNewChunk` | crates/engine/src/arena/arena.rs:295-329 | Succeeds exactly when the layout fits after all or the cap leaves room, and then the current chunk has room |
| `Arena.Arena.Alloc` | crates/engine/src/arena/arena.rs:246-292 | The memory and the answer are those of `AllocNext` |
| `Arena.AllocAnswers` | crates/engine/src/arena/arena.rs:246-292 | A fresh range is added to those handed out, from the current or one new chunk, or the exact reason there is none and no change |
| `Arena.Arena.ResetAll` | crates/engine/src/arena/arena.rs:360-382 | All ranges are given up and every chunk is kept with its bump at zero |
| `Arena.BlocksUntilFull` | crates/engine/src/arena/arena.rs:308-382 | After a reset that keeps k chunks exactly cap / block size - (k - 1) blocks can be allocated, and then the arena is full |
| `Arena.CapacityRestoredIff` | crates/engine/src/arena/arena.rs:308-382 | So a reset restores the capacity of a new arena if and only if there was one chunk |
| `Arena.OneBlockAfterReset` | crates/engine/src/arena/arena.rs:308-382 | A concrete arena for two blocks that after a reset holds one |
| `ThreadMatrix.ExactlyOnce` | crates/engine/src/thread_local_storage/thread_local_ptr.rs:289-323 | Through any run of registrations, installations, thread teardowns and column drops, a pointer installed in a column with a handler is handed to that handler at most once, to no other, and exactly once if and only if it is in no cell any more |
| `ThreadMatrix.GoneFromCells` | crates/engine/src/thread_local_storage/thread_local.rs:192-235 | A torn-down row or a dropped column takes the last cell of each of its pointers with it |
| `ThreadMatrix.NoHandlerNoCall` | crates/engine/src/thread_local_storage/thread_local_ptr.rs:312-318 | Every handler call is of an installed pointer with the handler its column had |
| `ThreadMatrix.FreshColumnIsClean` | crates/engine/src/thread_local_storage/thread_local_ptr.rs:71-103 | Live and free ids partition the ids given out without repetition; a new handle's id is not live; even a recycled id has only null cells and exactly the new handler |
| `ThreadMatrix.IdsAreReused` | crates/engine/src/thread_local_storage/thread_local_ptr.rs:71-103 | A column gets an id never given out before exactly if all ids given out are live, and otherwise a free one |
| `ThreadMatrix.RowCallsInOrder` | crates/engine/src/thread_local_storage/thread_local.rs:212-235 | A torn-down row's handler calls come in cell order |
| `ThreadMatrix.ColumnCallsInOrder` | crates/engine/src/thread_local_storage/thread_local_ptr.rs:300-318 | A dropped column's come in row order |
| `ThreadMatrix.FirstInstallWins` | crates/engine/src/thread_local_storage/thread_local_ptr.rs:237-260 | A cell is filled once, later accesses find the first pointer, and no other cell changes |
| `ThreadMatrix.ReachableInv` | crates/engine/src/thread_local_storage/thread_local_ptr.rs:71-323 | The invariant of ids, cells, handlers and the ledger of pointers holds throughout every run |
| `ThreadMatrix.NextKeepsInv` | crates/engine/src/thread_local_storage/thread_local_ptr.rs:71-323 | Every operation keeps the invariant of the matrix |
| `ThreadRows.LinkBehind` | crates/engine/src/thread_local_storage/thread_local.rs:144-190 | Registration keeps the list one circle, forwards and backwards, with the new row right behind the sentinel |
| `ThreadRows.Unlink` | crates/engine/src/thread_local_storage/thread_local.rs:200-210 | Unlinking a registered row keeps the circle of the others and nulls the row's own links |
| `ThreadRows.ThreadMeta.NewWithHandler` | crates/engine/src/thread_local_storage/thread_local_ptr.rs:71-103 | The step of the matrix that makes a column |
| `ThreadRows.ThreadMeta.EnsureRegistered` | crates/engine/src/thread_local_storage/thread_local.rs:144-190 | Registers an unregistered row and leaves a registered one alone |
| `ThreadRows.ThreadMeta.WithTlpPtr` | crates/engine/src/thread_local_storage/thread_local.rs:248-269 | The row is registered and has a cell for the id, all cells keeping their pointers |
| `ThreadRows.ThreadMeta.GetOrInit` | crates/engine/src/thread_local_storage/thread_local_ptr.rs:150-189 | Returns the pointer in the cell, installed first if it was null |
| `ThreadRows.ThreadMeta.DropRow` | crates/engine/src/thread_local_storage/thread_local.rs:192-235 | The row leaves the list, its cells are nulled, and the handler calls are those of the matrix, in cell order |
| `ThreadRows.ThreadMeta.RemoveColumn` | crates/engine/src/thread_local_storage/thread_local_ptr.rs:289-323 | The walk round the circle clears the column in every row, makes the matrix's handler calls in row order, and frees the id |
| `BatchPool.Conserved` | crates/engine/src/db/batch_pool.rs:506-633 | Through any interleaving each batch ever allocated is in exactly one place, once: with a caller, in one cache, in one shard, in the hand of one call, or dropped |
| `BatchPool.StoredIdle` | crates/engine/src/db/batch_pool.rs:124-238 | What caches and shards store is idle and within their capacity; live batches are not idle |
| `BatchPool.HandedOutAcquired` | crates/engine/src/db/batch_pool.rs:492-573 | Every batch a caller gets is acquired |
| `BatchPool.DroppedOnlyBySpillOrTeardown` | crates/engine/src/db/batch_pool.rs:528-627 | A batch is let go only when its holder drops it unreleased, a thread's cache is torn down or a cache spills into a full shard: refilling never lets one go |
| `BatchPool.DroppedForGood` | crates/engine/src/db/batch.rs:448-452 | A batch that was let go is never cached, shared or handed out again |
| `BatchPool.SpillMakesRoom` | crates/engine/src/db/batch_pool.rs:161-166 | After the spill the released batch goes on top of the cache: the unreachable branch is unreachable |
| `PoolRuns.MadeOnlyWhenEmpty` | crates/engine/src/db/batch_pool.rs:511-526 | In every run a batch is made only for an acquire whose cache and shard are both empty, and then exactly one |
| `PoolRuns.AcquireFromCache` | crates/engine/src/db/batch_pool.rs:492-504 | An acquire hands out the top of a cache that is not empty and leaves every other list alone |
| `PoolRuns.AcquireAlone` | crates/engine/src/db/batch_pool.rs:506-573 | With an empty cache an undisturbed acquire hands out the shard's top, or a new batch, and fills the cache from the rest of the shard, top first, up to half |
| `PoolRuns.ReleaseToCache` | crates/engine/src/db/batch_pool.rs:589-611 | A release into a cache with room puts the batch on top and leaves every other list alone |
| `PoolRuns.SpillAlone` | crates/engine/src/db/batch_pool.rs:611-627 | A release into a full cache spills it, top first, down to one below the target into the shard while that has room, lets the others go, and puts the batch on top |
| `BatchPool.ReachableInv` | crates/engine/src/db/batch_pool.rs:492-633 | The invariant of places, states and bounds holds throughout every run |
| `BatchPool.NextKeepsInv` | crates/engine/src/db/batch_pool.rs:492-633 | Every step of any thread keeps the invariant of the pool |
| `PoolStacks.Stack.Push` | crates/engine/src/db/batch_pool.rs:124-144 | The batch goes on top, or nothing changes when the array is full |
| `PoolStacks.Stack.Pop` | crates/engine/src/db/batch_pool.rs:146-159 | The top comes off, or nothing when the array is empty |
| `PoolStacks.Spill` | crates/engine/src/db/batch_pool.rs:161-166 | The cache keeps one below its target; the rest go top first to the shard while it has room and are dropped after that |
| `PoolStacks.HydrateCache` | crates/engine/src/db/batch_pool.rs:529-542 | The cache takes from the top of the shard until it is half full or the shard is empty, and nothing is lost |
| `PoolStacks.RefillTlsCache` | crates/engine/src/db/batch_pool.rs:506-566 | The shard's top batch or the new one is returned, and the cache is hydrated from what is left |
| `PoolStacks.AcquireObject` | crates/engine/src/db/batch_pool.rs:568-573 | The cache's top batch, or with an empty cache the shard's or a new one, the cache being hydrated |
| `PoolStacks.Release` | crates/engine/src/db/batch_pool.rs:589-633 | The batch ends on top of the cache, after a spill exactly when the cache was full |
| `VarInt.RoundTrip` | crates/engine/src/utils/var_int.rs:20-53 | An encoding followed by any bytes decodes to the value, and exactly its own bytes are read |
| `VarInt.EncodeBytes` | crates/engine/src/utils/var_int.rs:20-36 | Byte i of an encoding is the value's i-th group of seven bits, with the top bit set in all but the last |
| `VarInt.EncodeMinimal` | crates/engine/src/utils/var_int.rs:20-36 | No other bytes that decode to the value are fewer |
| `VarInt.EncodedSize` | crates/engine/src/utils/var_int.rs:16-36 | Five bytes suffice for 32 bits and three for a key length |
| `VarInt.New` | crates/engine/src/utils/var_int.rs:20-36 | The loop fills the buffer with exactly the encoding |
| `VarInt.Decode` | crates/engine/src/utils/var_int.rs:38-53 | The loop computes the value of the bytes up to the end of the encoding, cut to 32 bits, and their number; a sixth byte overflows its shift |
| `VarInt.DecodeUndoesEncode` | crates/engine/src/utils/var_int.rs:20-53 | On the encoding of any 32-bit value, whatever follows, that is the value and the encoding's length |
| `RecordFormat.ParseEncodedAll` | crates/engine/src/db/batch.rs:1126-1132 | A parser of the documented layout that reads lengths with the program's decoder returns exactly the records written, in order |
| `RecordFormat.ParseEncoded` | crates/engine/src/db/batch.rs:1126-1132 | One record is read back whatever follows it |
| `RecordFormat.UniquelyDecodable` | crates/engine/src/db/batch.rs:1126-1132 | Two lists of records with the same bytes are the same |
| `RecordFormat.RecordBytes` | crates/engine/src/db/batch.rs:1130-1132 | The bytes of a record: kind (1 for a put), column family in eight bytes, least significant first, key length, key, value length, value |
| `RecordFormat.LittleEndianBytes` | crates/engine/src/db/batch.rs:1543 | Byte i of a fixed-width number is the number divided by 256^i, modulo 256 |
| `RecordFormat.KindOfExact` | crates/engine/src/db/batch.rs:149-182 | A kind is read back from its own code alone, and codes 0 and above 5 are no kinds |
| `Batch.LayoutExact` | crates/engine/src/db/batch.rs:1426-1468 | The size computed beforehand is the size of the encoding, and is computed exactly for keys up to 65535 bytes and values below 2^32 |
| `Batch.BatchInner.ReadBack` | crates/engine/src/db/batch.rs:1138-1192 | The bytes after the header parse to exactly the records; bytes 8 to 11 are the number counted, least significant first; 12 + 11 * records is at most the length, and the length at most the limit, so the count cannot overflow |
| `Batch.OutcomeExact` | crates/engine/src/db/batch.rs:1328-1468 | Which error a write returns and what it says: key too large above 65535, value too large above 2^32 - 1, record too large exactly if a batch with nothing in it could not take it, batch full exactly if such a batch could and this one cannot |
| `Batch.BatchInner.ReserveOperation` | crates/engine/src/db/batch.rs:1328-1384 | Zero bytes for the record are appended, behind a fresh header if the buffer was empty, exactly when they fit; otherwise the exact error and no change |
| `Batch.BatchInner.Put` | crates/engine/src/db/batch.rs:1526-1566 | The record is appended and counted in field and header, or the exact error and no change |
| `Batch.BatchInner.Prepare` | crates/engine/src/db/batch.rs:1470-1522 | The reservation holds a record's encoding with its key and value regions disjoint and inside it, or the exact error and no change |
| `Batch.BatchInner.FillKey` | crates/engine/src/db/batch.rs:1052-1057 | Writing the key region changes the key of the reserved record and nothing else |
| `Batch.BatchInner.FillValue` | crates/engine/src/db/batch.rs:1059-1064 | Writing the value region changes the value of the reserved record and nothing else |
| `Batch.BatchInner.Finish` | crates/engine/src/db/batch.rs:1089-1091 | The record as filled in joins the batch, uncounted |
| `Batch.BatchInner.Rollback` | crates/engine/src/db/batch.rs:1093-1108 | The batch is byte for byte what it was before the reservation |
| `Batch.BatchInner.PutWith` | crates/engine/src/db/batch.rs:1582-1606 | The record is appended and not counted, or the closure unwound and the batch is as before (with its header), or the exact error and no change |
| `Batch.BatchInner.Clear` | crates/engine/src/db/batch.rs:1608-1631 | An empty buffer and count |
| `Batch.BatchInner.AssignSeqNumOnce` | crates/engine/src/db/batch.rs:1276-1286 | The first eight bytes are the number, least significant first, and no other byte changes |
| `HazardRuns.RecordsPartitioned` | crates/mem/src/hazard/domain.rs:252-427 | In every run in which a head is still the head when its lock bit is set, the free list is the chain from its head to null, each record is on it or with exactly one thread, once, and on the list of all records unless it is just being made |
| `HazardRuns.ArrayExact` | crates/mem/src/hazard/domain.rs:252-281 | An array of n is n distinct records linked in order and ending in null, which is what the release assertion wants |
| `HazardRuns.FreeListStep` | crates/mem/src/hazard/domain.rs:334-427 | The free list is always the chain from its head to null; only the end of a walk takes from it, its first n records or all of them; only a release adds, in front and in order; the rest is untouched |
| `HazardRuns.PublishedGrows` | crates/mem/src/hazard/domain.rs:211-240 | Records on the first list stay there |
| `HazardAlone.AcquireAlone` | crates/mem/src/hazard/domain.rs:252-382 | An undisturbed acquire of n ends with the first n free records, or all of them and new ones for the rest, in that order, and leaves the rest of the free list |
| `HazardAlone.ReleaseAlone` | crates/mem/src/hazard/domain.rs:389-427 | An undisturbed release puts the array in front of the free list, in its order |
| `HazardFailures.LockSoundIffFresh` | crates/mem/src/hazard/domain.rs:289-382 | After setting the lock bit on a free list a thread's own steps keep the real links sound (the chain from the head and the held arrays part all records, and no link of what is no record is followed) if and only if the head loaded before is still the head |
| `HazardFailures.SharedRecord` | crates/mem/src/hazard/domain.rs:289-311 | A concrete run of the code as written after which two threads hold the same record |
| `HazardDomain.ReachableInv` | crates/mem/src/hazard/domain.rs:211-427 | The invariant of both lists, the lock bit and every thread in mid-operation holds throughout those runs |
| `HazardDomain.NextKeepsInv` | crates/mem/src/hazard/domain.rs:211-427 | Every atomic access keeps the invariant of the records |
| `HazardRecords.HzdDomain.AcquireNewRec` | crates/mem/src/hazard/domain.rs:211-240 | A new record in front of all others, counted |
| `HazardRecords.HzdDomain.TryAcquireAvailable` | crates/mem/src/hazard/domain.rs:283-382 | The first n free records, or all if there are fewer, as a chain of their own; the rest of the free list is as it was |
| `HazardRecords.HzdDomain.AcquireMany` | crates/mem/src/hazard/domain.rs:252-281 | n distinct records chained in order and ending in null, first those that were free and then new ones; the rest of the free list is as it was |
| `HazardRecords.HzdDomain.ReleaseMany` | crates/mem/src/hazard/domain.rs:389-427 | The array goes back in front of the free list, in its order |

## Left out

- Memory orderings, pointer provenance and lifetimes: every atomic access takes effect at once, nodes and records are
  indices or objects, arena memory is (chunk, offset) ranges. Alignment is of the offset within a chunk, as in the code.
- Raising the skip list's height and allocating a node are one step each; both only widen what later
  steps may do. Heights are any value from 1 to 8, which covers those the generator can return.
- Iterators are proved on a list that nobody changes meanwhile; searches under interference are in `SkipListRuns`.
- Progress is proved for a thread that is left alone, and for the semaphore's waiters; how long a thread that keeps losing its
  compare-and-swaps to others may go round is not bounded, as in the code.
- The callback of `insert_with` is its result, the key and the value it writes.
- `Memtable.Memtable.Insert`: of keys and values whose stored lengths are their own (`Memtable.Storable`), or of a key
  that is stored already. Beyond that the copy into the node overruns its block, and memory outside a node's block is
  not part of this model. A user key of 65528 to 65535 bytes passes the batch's check and is such a case.
- `Memtable.Memtable.InsertDirect`: the same bound on the encoded key and the value.
- `Ranges`: a start bound is a key of the list's own kind, because the comparator has to compare it.
- `QueueRuns.DequeuesInOrder`: about runs in which clients keep the order reserve, enqueue, apply, dequeue, release;
  `commit` does not call `prepare` yet and `commit_sync` is a stub, so that order is an assumption about clients.
- `commit_sync`, `publish`, the writer environment, the WAL and the sync waiter: stubs, I/O, or a wait cell whose
  argument repeats the semaphore's.
- The retry of a lost compare-and-swap in `try_dequeue` is in `BatchQueue` only; the class has one thread.
- The sequence counter is unbounded above; a base below zero is where the subtraction overflows.
- The allocator behind the arena: a chunk is always there when the cap allows it.
- `ThreadMatrix.ExactlyOnce`: pointers are fresh when installed and no thread uses a handle that is being dropped, as
  the callers are told to ensure; a handler is a call that is recorded.
- `ThreadRows.ThreadMeta.DropRow`: of a registered row; a row is registered on its first use, and dropping one that
  never was would follow null links.
- The pool's own drop, which comes after everything else is quiet, and its statistics.
- In `PoolStacks` batches are numbers; their states are in `BatchPool`.
- `VarInt.Decode`: a sixth continued byte is reported, where a checked build panics and an unchecked one wraps the shift.
- In `Batch`, overflow checks of sums that the limits before them keep below 2^64, and the buffer's capacity as
  opposed to its length.
- `Batch.BatchInner.PutWith`: the closure is what it leaves in the two regions and whether it returns.
- A thread that holds several arrays of hazard records counts as several threads.
- Hazard protection and reclamation: retirement is a stub, so there is no second half to prove against.
- Radix tree, tagged pointers, batch index, indexed batches, column families, superversions, the old `WBatch`, the
  level generator's random numbers, entry counters and display code: unfinished, superseded, or nothing to prove.
