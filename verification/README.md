# PromTCS, modelled and proved in Dafny

PromTCS is a time-series store. Samples are bit-packed into XOR chunks; full chunks go into memory
slabs; memory slabs are copied to disk slabs, and disk slabs are handed on to an LSM tree; blocks of
older data are compacted. This project models the parts that carry the store's promises and proves
those promises for all inputs, all runs and all interleavings.

| file | models |
|---|---|
| Words.dfy | machine words as naturals and as bits, most significant bit first |
| XorCodec.dfy | the sample code: varints, delta-of-delta times, XOR values; chunks with re-opened appenders |
| BitStream.dfy | the bit stream, written and read in place |
| XorChunk.dfy | appender, iterator and chunk over that stream |
| Headers.dfy, HeadSeries.dfy | the in-memory series with its overflow rollback and fixed-size hand-over |
| Slabs.dfy, SlabSteps.dfy, SlabRuns.dfy | the slab store as a state machine: moves, calls, runs |
| Scans.dfy, TextOrder.dfy | keys as text, and which slabs a range scan of the index meets |
| SlabQueues.dfy | what the calls do to the queues: stranded slabs, puts without an item, migrations that read other slabs |
| TreeSeries.dfy | the slab store's own loops and calls, refining those steps |
| Survival.dfy | from appended samples to bytes in the store |
| FlushDb.dfy, Handover.dfy, LsmKeys.dfy | regrouping migrated slabs by series; nothing is given up before it is handed over; no key is put twice |
| Compaction.dfy | planning, splitting, selecting, merging blocks, and rounds to the end |
| ChunkMerge.dfy | merging overlapping chunks of a series |
| ThreadPool.dfy | the thread pool as a state machine |
| StripeSeries.dfy | the striped series table with its spin locks |
| ForwardIndex.dfy | the forward index and its migration to a flat table |
| ChunkFiles.dfy | segment files of chunks |

## How the model reads

Words are naturals; a double is its 64-bit pattern, and time differences wrap modulo 2^64 where the
code's do. The bit stream's writing and reading modes are two classes. A byte read just past the end
of a stream is an arbitrary byte, and so are the bytes behind a chunk in memory.

The code that changes things in place is written as classes and loops (`BitWriter`, `XORAppender`,
`XORIterator`, `TreeMemSeries`, `TreeSeries`, `ChunkMeta`, `ForwardIndex`, `ChunkWriter`, the
compactor's and the merger's loops); each is proved to compute a step function, and the theorems are
about those step functions. The thread pool and the series table are state machines whose steps are
the critical sections and the atomic operations of the code; a run is any interleaving of them.

In the slab store each call is one step. A record is kept for every accepted chunk: where it was
written, whether the memory slab still holds it, which disk slab has its copy, and whether that slab
has been recycled. A slab left outside every queue by a flush is called loose. The index is a map
with the three operations of the ordered tree used by the code (insert if absent, remove, update if
present); queues are sequences.

A put is taken to be admissible when the ids fit the 8-bit quotients, the chunk's header names its
own series, a chunk does not end before it starts, and it starts after the series' last chunk ended.
The last condition is needed: `StartLeadsToNew` says when a start is found. A chunk may start and end
at one time. When a second chunk of such a series goes into the same slab, the code removes the old
end under the very key of the start; `StartStaysIndexed` says exactly when this happens. The model
marks the row with `Row.lost`; the real descriptor has no such field, and no step depends on it. Slab
capacity is at most 16 items, as many as a slab descriptor has rows.

The constructor sets the batch of a flush to a sixth of the memory slabs and that of a migration to a
tenth of the disk slabs (`Constructed`), and the background threads flush and migrate only while more
than a batch is full or used (`Guarded`). The theorems hold for any sizes with a flush batch of at
least one, that is for at least six memory slabs, and for calls at any time; the runs that show
failures keep to the sizes of the constructor and the guards of the threads (`Driven`).

A memory slab whose id is not an id on disk has no item to write to, and the code dereferences a null
pointer there. In the model such a put ends with the outcome `NoItem`, after the slab was acquired;
runs are defined beyond it, but the program is not.

Some statements one might expect are false of the code, and are replaced by the exact condition:

- a chunk decodes to what was appended only below 65536 samples (`ChunkRoundTrip`, `HistoryPreserved`,
  `MergeChunks`);
- a flush covers its whole batch only if the last sorted id continues the one before (`FlushStrands`,
  over runs `StrandedForGood` and `NothingStranded`, with a run in `StrandingRun`);
- a migration reads the slabs it asked for only if the sequential shortcut meets consecutive ids
  (`ReadsWhatWasAsked`, with a run in `SpanIsNotOrder`), and what is said of the LSM tree is said of
  the slabs that were read as asked (`MigratedSlabsRegroup`, `GivenUpOnlyAfterWritten`);
- a range scan meets an overlapping slab only if it does not lie inside what the slab lists
  (`ScanMeets`);
- every sample lies in the listed range of its chunk, but for the last of one that it exactly filled
  (`RangesFollow`);
- a put is safe in every run only if there are at least as many disk slabs as memory slabs
  (`PutsFindItems`);
- a chunk is found from the start of its row only if that start was not lost
  (`IndexMatchesDescriptors`, step by step `StartStaysIndexed`), which never happens in a run whose
  chunks all end later than they start (`EveryChunkFindable`);
- a stopped pool has run all it accepted only if it was started with threads, or given a size before
  the stop, or accepted nothing (`NoTaskLeftBehind`, with a run in `NoThreadsNoRun`);
- a read of too few bits is noticed only off a byte boundary (`BitReader.ReadBits`);
- segments of a directory are read back only if there are at most 1000000 of them (`NamesInOrder`) and
  all have fewer than 2^31 bytes (`RoundTrip`).

## Model

| member | source | states |
|---|---|---|
| XorCodec.VarintRoundTrip | base/Endian.cpp:220-271 | a zig-zag varint read back from any longer bit string gives the number and leaves exactly what followed it |
| XorCodec.VarintShortest | base/Endian.cpp:247-271 | no shorter bit string is read as the same number |
| XorCodec.DodRoundTrip | chunk/XORAppender.cpp:90-106 | each of the five delta-of-delta codes, with its asymmetric range, decodes to the number it was chosen for; which one is chosen, DodShortest says |
| XorCodec.DodShortest | chunk/XORAppender.cpp:90-106 | the code chosen is the shortest bit string that the reader turns into the number, and the only one of that length |
| XorCodec.TimeRoundTrip | chunk/XORIterator.cpp:39-131 | first, second and later timestamps decode to the appended ones, differences taken modulo 2^64 |
| XorCodec.ValueRoundTrip | chunk/XORAppender.cpp:23-65 | equal values, reused windows and fresh windows (64 significant bits written as 0 included) decode to the appended value and to the writer's next window |
| XorCodec.ValueWindow | chunk/XORAppender.cpp:23-65 | an unchanged value takes one bit; else the window is kept exactly when the difference has no bit outside it, and otherwise replaced by the tightest one with at most 31 leading zeros; with the exact length of each code |
| XorCodec.SampleRoundTrip | chunk/XORAppender.cpp:67-115 | a reader in step with the writer decodes the sample, leaves the bits that follow, and is in step again |
| XorCodec.RunStable | chunk/XORIterator.cpp:39-186 | what follows a chunk in memory never changes what it decodes to |
| XorCodec.HoldsAppend | chunk/XORAppender.cpp:67-115 | appending to a payload that holds a sequence gives a payload that holds the sequence and the new sample |
| XorCodec.ReopenedInStep | chunk/XORChunk.cpp:45-62 | an appender recovered by decoding is in step with the reader, although its window may be (0, 0) where the writer had none |
| XorCodec.PlayHolds | chunk/XORChunk.cpp:45-62 | after any appends and re-openings, in any order, the payload holds the whole appended sequence |
| XorCodec.ReopenRestores | chunk/XORChunk.cpp:45-62 | after any appends and re-openings, opening again restores the appender exactly, but for a writer that never had a window, which gets the window (0, 0) once it has samples |
| XorCodec.ChunkRoundTrip | chunk/XORIterator.cpp:39-186 | after any appends and re-openings a chunk decodes to exactly the appended sequence if and only if fewer than 65536 samples were appended |
| XorCodec.TimeCost | chunk/XORChunk.hpp:20-24 | a timestamp after the second costs 1 to 68 bits, the first two 8 to 80 |
| XorCodec.ValueCost | chunk/XORChunk.hpp:20-24 | a value after the first costs 1 to 77 bits |
| XorCodec.SampleCost | chunk/XORChunk.hpp:20-24 | a sample after the second costs 2 to 145 bits, the first at most 18 bytes |
| XorCodec.ChunkCost | chunk/XORChunk.hpp:20-24 | a chunk of n samples, with any re-openings, takes at least 81 + 2(n - 2) and at most 301 + 145(n - 2) bits for n from 2 on, and 72 to 144 for one |
| BitStreams.BitWriter.WriteBit | chunk/BitStream.cpp:75-86 | appends one bit to the bits written; no finished byte changes |
| BitStreams.BitWriter.WriteByte | chunk/BitStream.cpp:88-98 | appends the eight bits of a byte, across a byte boundary if need be |
| BitStreams.BitWriter.WriteBits | chunk/BitStream.cpp:106-118 | appends the low num bits of a word, most significant first |
| BitStreams.BitReader.ReadBit | chunk/BitStream.cpp:149-170 | takes the first unread bit, or fails at the end |
| BitStreams.BitReader.ReadByte | chunk/BitStream.cpp:172-201 | takes the first eight unread bits across a byte boundary |
| BitStreams.BitReader.ReadBits | chunk/BitStream.cpp:203-241 | takes the first num unread bits as a number; with fewer left it fails, except exactly where its whole bytes use up what is left and the code reads on behind the end |
| BitStreams.BitReader.ReadUnsignedVarint | chunk/BitStream.cpp:243-255 | reads the varint the specification reads, leaving the same rest, and fails exactly when no whole unread byte closes one |
| BitStreams.BitReader.ReadSignedVarint | chunk/BitStream.cpp:257-261 | reads the zig-zag varint the specification reads, and fails exactly when no whole unread byte closes one |
| XorChunks.EncodeUnsignedVarint | base/Endian.cpp:247-262 | produces the base-128 groups of the number, least significant first |
| XorChunks.XORAppender.WriteDeltaValue | chunk/XORAppender.cpp:23-65 | writes the value code of the specification and moves to its window |
| XorChunks.XORAppender.Append | chunk/XORAppender.cpp:67-115 | extends the payload by the code of the sample, counts it modulo 65536, and moves to the writer state that follows; settled bytes other than the count stay |
| XorChunks.XORIterator.ReadValue | chunk/XORIterator.cpp:133-186 | reads what the specification's value decoder reads |
| XorChunks.XORIterator.Next | chunk/XORIterator.cpp:39-131 | moves to the state and rest of the specification's sample decoder; stops at the count and after an error |
| XorChunks.ChunkDecodes | chunk/XORChunk.cpp:64-75 | the bytes of a chunk, with any bytes behind them, decode to its samples |
| XorChunks.Drain | chunk/XORIterator.cpp:35-131 | iterating to the end yields exactly the decoded samples and the decoder's final state |
| XorChunks.XORChunk.Appender | chunk/XORChunk.cpp:45-62 | recovers, from the bytes alone, the appender state that continues the chunk |
| Headers.HeaderRoundTrip | head/TreeHead.cpp:63-69 | the ids stamped into a chunk's header are the ids read from it |
| HeadSeries.StepInvariant | head/TreeMemSeries.cpp:193-239 | one append keeps: handed-over chunks and current chunk together decode to everything appended so far |
| HeadSeries.RunRecovers | head/TreeMemSeries.cpp:193-239 | for chunk sizes from 31 to 16406 bytes any run of appends is recovered in full, no sample lost or duplicated by the rollback |
| HeadSeries.CountWraps | head/TreeMemSeries.cpp:193-239 | for larger chunks a run of equal samples makes the 16-bit count wrap and is not recovered |
| HeadSeries.HistoryPreserved | head/TreeMemSeries.cpp:193-239 | for chunk sizes of at least 31 bytes, every run is recovered if and only if the size is at most 16406 |
| HeadSeries.ChunksFilled | head/TreeMemSeries.cpp:204-229 | in every run the open chunk has at least three bits left or none, and every chunk was handed over with one or two bits left, or because the next sample needed more bits than were left |
| HeadSeries.FirstSampleNeeds31 | head/TreeMemSeries.cpp:201-230 | a chunk of n bytes holds every first sample if and only if n is at least 31 |
| HeadSeries.RangesFollow | head/TreeMemSeries.cpp:193-239 | with increasing sample times the listed ranges of the chunks handed over follow each other without overlap, and every sample lies in the range of its chunk, but for the last of a chunk that it exactly filled, which is at the time from which the next chunk is listed |
| HeadSeries.TreeMemSeries.BytesAreHistory | head/TreeMemSeries.cpp:103-139 | the bytes handed over, decoded in order, followed by the current chunk, are exactly the appended history |
| HeadSeries.TreeMemSeries.FlushTree | head/TreeMemSeries.cpp:103-139 | hands over the first chunkSize bytes under the header of the series, with the times kept so far as its range, and starts an empty chunk |
| HeadSeries.TreeMemSeries.Rollback | head/TreeMemSeries.cpp:215-220 | restores the last byte and the count and zeroes what the undone append added |
| HeadSeries.TreeMemSeries.Append | head/TreeMemSeries.cpp:193-239 | adds the sample to the history that the bytes and the kept times represent; chunks and ranges handed over before stay as they are |
| SlabSteps.IdRoundTrip | TreeSeries/TreeSeries.h:80-88 | the ids are recovered from class residues and 8-bit quotients exactly when they are below 256 times the table sizes |
| Slabs.WriteInv | TreeSeries/TreeSeries.cpp:424-436 | writing an item into the next slot of an owned slab keeps roles, descriptors, index and records |
| Slabs.ListInv | TreeSeries/TreeSeries.cpp:437-462 | listing the series and moving its endpoints in the index keeps the invariant, chunks that start and end at one time included |
| Slabs.ReuseInv | TreeSeries/TreeSeries.cpp:392-415 | reusing a memory slab moves its remaining index entries to its disk copy and keeps the invariant |
| Slabs.TakeFreeInv | TreeSeries/TreeSeries.cpp:416-422 | taking a free slab keeps the invariant |
| Slabs.SealInv | TreeSeries/TreeSeries.cpp:463-467 | handing a filled slab to the full queue keeps the invariant |
| Slabs.RecycleInv | TreeSeries/TreeSeries.cpp:810-819 | taking back an evictable disk slab removes exactly its entries and keeps the invariant |
| Slabs.TransferInv | TreeSeries/TreeSeries.cpp:828-858 | copying a memory slab and its descriptor to a disk slab and queueing both keeps the invariant |
| Slabs.MigrateInv | TreeSeries/TreeSeries.cpp:1164-1167 | making a used disk slab evictable keeps its contents and the invariant |
| SlabSteps.Put | TreeSeries/TreeSeries.cpp:385-470 | a put, whether refused, stored, or stopped at a null item, keeps everything that holds between calls |
| SlabSteps.FlushGood | TreeSeries/TreeSeries.cpp:776-870 | a lazy flush keeps everything that holds between calls, and writes a batch exactly when there are full slabs, enough disk slabs, and the batch threshold is met on either side |
| SlabRuns.MigrateStepGood | TreeSeries/TreeSeries.cpp:1124-1175 | a migration happens exactly when enough slabs are used, and only moves the oldest ones from the used to the evictable queue |
| SlabRuns.ReadsWhatWasAsked | TreeSeries/TreeSeries.cpp:1146-1152 | the slabs read are the slabs asked for if and only if the sequential shortcut is taken on consecutive ids only; always so for ascending ids |
| SlabQueues.SpanIsNotOrder | TreeSeries/TreeSeries.cpp:1146-1152 | 29 calls, each one the background threads make, on a store with the batch sizes the constructor sets (13 memory slabs, 15 disk slabs): a migration then asks for disk slabs 12, 0, 14, reads 12, 13, 14 and hands over slab 0 with the contents of slab 13, which is in no queue |
| SlabRuns.PutKeeps | TreeSeries/TreeSeries.cpp:385-470 | a put is refused exactly when its class has no slab and none is free or evictable, and meets a null item exactly when the id of its slab is not below the number of disk slabs; a stored one adds one record, at the next slot of that slab, with the bytes of the value and behind them those the slot had, and none changes or gives up another |
| SlabRuns.FlushKeeps | TreeSeries/TreeSeries.cpp:776-870 | a flush gives up exactly the copies on the disk slabs it takes back, as many from the head of the evict queue as the free slabs leave over, and loses or alters no record |
| SlabRuns.Exec | TreeSeries/TreeSeries.cpp:385-470 | every state reached by any sequence of puts, flushes and migrations satisfies the whole invariant |
| SlabRuns.InitGood | TreeSeries/TreeSeries.cpp:160-195 | so does the state at the start |
| SlabRuns.NothingLost | TreeSeries/TreeSeries.cpp:776-870 | in every run an accepted chunk is byte for byte in its memory slab or its disk copy until it is recycled, and it is recycled if and only if some flush popped its disk slab from the evict queue, with the copy intact until then |
| SlabRuns.RecordsStay | TreeSeries/TreeSeries.cpp:385-470 | along a run no record changes the chunk it is about and no copy is redirected |
| SlabRuns.EverySlabHasOnePlace | TreeSeries/TreeSeries.cpp:385-470 | in every reachable state every memory and disk slab is in exactly one place once, counters equal queue lengths and add up, listed series never outnumber items, and an owned slab has room |
| SlabRuns.IndexMatchesDescriptors | TreeSeries/TreeSeries.cpp:446-462 | in every reachable state each index entry points to a slab that lists its key, every endpoint of an owned, full or on-disk slab leads to it or to the memory slab still paired with it, and a start lost by StartStaysIndexed is in the index no more |
| SlabRuns.EveryChunkFindable | TreeSeries/TreeSeries.cpp:408-415 | in every reachable state every accepted chunk whose disk slab was not recycled is found through the index, byte for byte at its slot: from an entry of its own series no earlier than its time, and, in a run without chunks that start and end at one time, from one no later as well |
| SlabRuns.StartStaysIndexed | TreeSeries/TreeSeries.cpp:446-449 | extending a listed series keeps its start indexed if and only if the row did not start and end at the same time |
| SlabRuns.StartLost | TreeSeries/TreeSeries.cpp:446-449 | a row from 5 to 5 extended to 9 loses its start key |
| SlabRuns.StartLeadsToNew | TreeSeries/TreeSeries.cpp:460-461 | a series listed anew is found from its start if and only if no other entry stood at that time |
| Scans.ScanMeets | TreeSeries/TreeSeries.cpp:1201-1227 | in every reachable state a scan of a series over [a, b) meets a slab if and only if an indexed end of what the slab lists for the series lies in [a, b); of the slabs that overlap it, with both ends indexed, it misses exactly those inside whose range [a, b) lies |
| Scans.KeyRoundTrip | TreeSeries/TreeSeries.h:90-99 | a key is read back from its 18 bytes |
| Scans.TextRange | TreeSeries/TreeSeries.cpp:1201-1206 | the keys between the texts of a series at times a and b, the second excluded, are exactly those of that series with times from a up to b |
| Scans.MetricsOutOfOrder | TreeSeries/TreeSeries.h:90-94 | across metrics the texts are not in the order of the ids: 256 comes before 1 |
| SlabRuns.FlushStrands | TreeSeries/TreeSeries.cpp:655-678 | a flush leaves nothing outside the queues if and only if the last id of its sorted batch continues the one before; otherwise exactly that memory slab and one disk slab are stranded |
| SlabQueues.PutQueues | TreeSeries/TreeSeries.cpp:385-470 | what a put does to queues, classes and clock: nothing on the disk side, one slab from the free or the evictable queue, one to the full queue when filled |
| SlabQueues.PutIndexed | TreeSeries/TreeSeries.cpp:408-462 | after a stored put the slab lists the series up to the new end, from where it was listed before or from the new start; the index has gained exactly the new end, and the start of a series not listed before, has lost exactly the former end, and leads elsewhere only from a reused slab to its copy |
| SlabQueues.FlushQueues | TreeSeries/TreeSeries.cpp:776-870 | what a flush that writes a batch does to every queue |
| SlabQueues.FlushBatch | TreeSeries/TreeSeries.cpp:776-870 | a flush writes the oldest full slabs, a batch or all there are, to the free disk slabs and then the oldest evictable ones, paired in the order of their ids; with too few disk slabs it moves the full slabs to the end of their queue; else it does nothing |
| SlabQueues.StrandedForGood | TreeSeries/TreeSeries.cpp:655-678 | in every run exactly one memory slab and one disk slab is stranded per flush whose sorted batch ends after a gap, and a stranded slab never comes back |
| SlabQueues.NothingStranded | TreeSeries/TreeSeries.cpp:655-678 | after any run no slab is outside the queues if and only if no flush of the run wrote a batch that ends after a gap |
| SlabQueues.StrandingRun | TreeSeries/TreeSeries.cpp:655-678 | 26 such calls on the same store that strand memory slab 12 |
| SlabQueues.PutsFindItems | TreeSeries/TreeSeries.cpp:531-542 | no run from the start leads to a put that dereferences a null item if and only if there are at least as many disk slabs as memory slabs |
| TreeSeriesStore.FindSinfoSubSequence | TreeSeries/TreeSeries.cpp:655-678 | the runs tile the positions in order, are id-consecutive and maximal, and cover all but a last position that stands after a gap |
| TreeSeriesStore.RunDisk | TreeSeries/TreeSeries.cpp:882-898 | one write of a run leaves the disk exactly as slab-by-slab writes do |
| TreeSeriesStore.UpdateRows | TreeSeries/TreeSeries.cpp:408-411 | redirects exactly the present endpoints of the descriptor |
| TreeSeriesStore.RemoveRows | TreeSeries/TreeSeries.cpp:814-817 | removes exactly the endpoints of the descriptor |
| TreeSeriesStore.AddSeries | TreeSeries/TreeSeries.cpp:437-462 | finds the series' row or adds one, and moves the index entries with it |
| TreeSeriesStore.TreeSeries.constructor | TreeSeries/TreeSeries.cpp:160-195 | builds the start state |
| TreeSeriesStore.TreeSeries.AcquireSlab | TreeSeries/TreeSeries.cpp:390-423 | finds a slab for the class: its own, a free one, or one whose contents are on disk, and fails otherwise |
| TreeSeriesStore.TreeSeries.FillSlab | TreeSeries/TreeSeries.cpp:424-468 | writes the item, lists the series, and seals a filled slab, as the put step says |
| TreeSeriesStore.TreeSeries.ConPutKV | TreeSeries/TreeSeries.cpp:385-470 | takes the store through the put step, the null item included, and reports the slab written |
| TreeSeriesStore.TreeSeries.WriteAdjacent | TreeSeries/TreeSeries.cpp:828-841 | writes a run in one piece, with the effect of slab-by-slab transfers |
| TreeSeriesStore.TreeSeries.WriteScattered | TreeSeries/TreeSeries.cpp:842-858 | writes a run slab by slab |
| TreeSeriesStore.TreeSeries.OptBatchWriteLazyFlush | TreeSeries/TreeSeries.cpp:776-870 | takes the store through the flush step and reports whether a batch was written |
| TreeSeriesStore.ReadSlabs | TreeSeries/TreeSeries.cpp:1044-1066 | each slab handed over comes with the contents of the slab read for it |
| TreeSeriesStore.TreeSeries.MigrateReadLazyFlush | TreeSeries/TreeSeries.cpp:1124-1175 | takes the store through the migration step and hands over the oldest used slabs |
| Survival.SamplesSurvive | head/TreeMemSeries.cpp:119-124 | in every run, the samples of a stored chunk can be decoded from its record, which is in memory or on disk and found through the index until a flush takes its disk slab back; before that a migration had handed the slab over, and the LSM tree got the bytes under the chunk's own series if that slab was the one read for it |
| Survival.HandedOverIsFit | head/TreeMemSeries.cpp:103-123 | what a series hands over has one chunk size, carries the series' own ids, and decodes to the samples it had in it |
| Survival.NextPutAdmissible | head/TreeMemSeries.cpp:103-139 | in any run whose puts of a series with increasing times are of its earlier chunks, repeated however often, the put of its next chunk, with its listed range and its bytes, is admissible |
| FlushDb.SlabRegroups | head/TreeHead.cpp:1308-1331 | every item of a slab goes into exactly one value, under its own series and the earliest time among the items of the value, in slot order, at most a slab full; no two values share a key, and every listed series has one |
| FlushDb.FlushSlab | head/TreeHead.cpp:1308-1331 | the loops put exactly the values of PutsAreValues, in row order |
| FlushDb.PutsAreValues | head/TreeHead.cpp:1308-1331 | what is put for a slab is, value by value, the key and the items of SlabRegroups |
| FlushDb.FlushAll | head/TreeHead.cpp:1300-1341 | the pass over all slabs handed over puts the values of each, in order |
| FlushDb.MigratedSlabsRegroup | head/TreeHead.cpp:1300-1341 | in every reachable state, of the slabs and contents a migration hands over: each descriptor fits its contents, and where the slab read is the slab asked for every item handed over goes into exactly one value, under its own series |
| Handovers.LeavingWasHanded | TreeSeries/TreeSeries.cpp:1160-1167 | in every run, a chunk that has been recycled, or whose disk slab waits to be, was handed over with that slab by an earlier migration, its copy intact |
| Handovers.GivenUpOnlyAfterWritten | head/TreeHead.cpp:1300-1341 | in every run, a chunk is given up only after a migration handed over its slab, and the values put for that migration have the chunk under its own series if its slab was the one read for it |
| LsmKeys.KeyHandedOnce | TreeSeries/TreeSeries.cpp:1160-1167 | in every run no two migrations hand over slabs that list a series under the same first start time |
| LsmKeys.NoKeyPutTwice | head/TreeHead.cpp:1308-1331 | in every run from the start, whatever the migrations read, no two values are put under one key, so a value that was put stays |
| Compaction.SortSorts | compact/LeveledCompactor.cpp:44-46 | the blocks, sorted by start time |
| Compaction.OverlappingDirs | compact/LeveledCompactor.cpp:98-116 | returns nothing exactly when no blocks overlap, else the first group that hangs together and overlaps nothing outside |
| Compaction.WindowHolds | compact/LeveledCompactor.cpp:181-188 | the computed window is aligned and holds the time, negative times included |
| Compaction.WindowUnique | compact/LeveledCompactor.cpp:181-188 | no other aligned window does |
| Compaction.SplitByRange | compact/LeveledCompactor.cpp:172-210 | returns exactly the maximal stretches inside one window, windows strictly increasing; a block is left out exactly when it crosses the end of its own window |
| Compaction.PartsFound | compact/LeveledCompactor.cpp:172-210 | no such stretch is missed |
| Compaction.SelectDirs | compact/LeveledCompactor.cpp:120-161 | returns the first eligible part of the smallest range, or nothing exactly when no part is eligible |
| Compaction.PlanHelper | compact/LeveledCompactor.cpp:44-77 | plans the overlapping group, else the first eligible part without the most recent block, else the latest worn block; nothing exactly when none of these exists |
| Compaction.CompactBlockMetas | compact/LeveledCompactor.cpp:297-327 | the merged block starts with the first, ends with the latest end, is one level higher than the highest, has the union of the sources, and lists its parts as parents, in order |
| Compaction.MergedAlone | compact/LeveledCompactor.cpp:297-327 | the merged block covers its sources and overlaps no block left out |
| Compaction.RoundKeepsOrder | compact/LeveledCompactor.cpp:44-77 | a round keeps blocks ordered and proper, and never brings overlap back |
| Compaction.RoundShrinks | compact/LeveledCompactor.cpp:64-75 | every round lowers the number of blocks plus the number of blocks with tombstones |
| Compaction.RoundsEnd | compact/LeveledCompactor.cpp:44-77 | any run of rounds has at most as many rounds as blocks plus blocks with tombstones, and once overlap is gone it stays gone |
| Compaction.CompactAll | compact/LeveledCompactor.cpp:44-77 | repeating plan and compaction reaches an empty plan from any blocks, whatever the data |
| ChunkMerge.MergeAscends | chunk/ChunkUtils.cpp:57-107 | the merge of ascending samples is ascending |
| ChunkMerge.MergeMeans | chunk/ChunkUtils.cpp:57-107 | the merge has at each time the second chunk's value if there is one, else the first's |
| ChunkMerge.AddAllMeans | chunk/ChunkUtils.cpp:112-142 | merging chunks that touch gives separate ascending ranges with ascending samples, and at each time the value of the last input chunk that has one |
| ChunkMerge.AddAllGroups | chunk/ChunkUtils.cpp:112-142 | a time lies in a range of the result if and only if it lies in a range of the input, and a range of the result starts at a time if and only if some input chunk starts there after all earlier ones have ended |
| ChunkMerge.MergeChunks | chunk/ChunkUtils.cpp:57-107 | on encoded chunks: the result decodes to the merge if and only if it has fewer than 65536 samples |
| ChunkMerge.MergeOverlappingChunks | chunk/ChunkUtils.cpp:112-142 | updates the chunk objects in place to the merged list if and only if every merged chunk has fewer than 65536 samples; for chunks in the order of their start times the ranges of that list are separate and are those of AddAllGroups |
| ThreadPools.NextKeeps | base/ThreadPool.hpp:139-218 | every step keeps the invariant, with threads or without, and the sizes asserted when workers are started are as asserted |
| ThreadPools.NoTaskLeftBehind | base/ThreadPool.hpp:109-117 | in every interleaving from any number of threads in-flight is queued plus running; when the destructor can end, none is in flight if and only if the pool was started with threads, or was given a size before the stop, or accepted nothing, and then every accepted task has run |
| ThreadPools.ThreadsFollowSize | base/ThreadPool.hpp:139-159 | in every interleaving before the stop the threads below the size last asked for (the constructor's, or at least one from set_pool_size) run and can take a waiting task, and an idle thread is to leave if and only if its number is not below it; never are there more threads than the largest size asked for |
| ThreadPools.AllAtOnce | base/ThreadPool.hpp:73-78 | a pool of n threads starts with exactly the threads 0 to n - 1 running, and any n tasks can all be running at once |
| ThreadPools.QueueFollowsLimit | base/ThreadPool.hpp:92-103 | a task is accepted if and only if the pool is not stopped and fewer tasks wait than the limit last asked for, 100000 at first; never do more wait than the largest limit asked for |
| ThreadPools.TasksRunOnce | base/ThreadPool.hpp:166-214 | in every interleaving the tasks taken, in the order they are taken, followed by the queue, are the tasks accepted in the order they were accepted; no task ends twice or before it is taken; and all have ended when a pool that had threads is through |
| ThreadPools.ShutdownGoesOn | base/ThreadPool.hpp:166-208 | after the stop some worker can always take a step, or the destructor can end |
| ThreadPools.ShutdownEnds | base/ThreadPool.hpp:109-117 | after the stop the workers take a bounded number of further steps, in any order |
| ThreadPools.NoThreadsNoRun | base/ThreadPool.hpp:73-78 | a pool started with no threads accepts a task, is stopped and destroyed with the task in flight |
| StripeSeries.PutThenLookup | head/SeriesHashmap.cpp:6-38 | after a set the series is found under its hash and labels and every other lookup is unchanged |
| StripeSeries.NextLocks | head/LFStripeSeries.cpp:13-41 | every step keeps the meaning of every lock word |
| StripeSeries.LockWordsMean | head/LFStripeSeries.cpp:13-41 | in every interleaving -1 means exactly one writer and no reader, n means exactly n readers and no writer |
| StripeSeries.WriterAlone | head/LFStripeSeries.cpp:28-41 | a call in the write section of a stripe is alone there |
| StripeSeries.NoRace | head/LFStripeSeries.cpp:116-183 | no call is inside the lock of a hash map or an id map while another is there to write it |
| StripeSeries.UnhinderedFinishes | head/LFStripeSeries.cpp:13-41 | a call with no other inside a stripe it needs, except readers beside a reader, can finish by its own steps alone |
| StripeSeries.OneSeriesInEveryRun | head/LFStripeSeries.cpp:162-183 | in every interleaving all finished calls for the same hash and labels return one series, exactly one call created it, and the id table only names series of the hash map |
| StripeSeries.LookupsAgree | head/LFStripeSeries.cpp:129-136 | a lookup by hash that finds a series finds the one the getting and setting calls return; when it finds one, LookupByHashFinds says |
| StripeSeries.LookupByHashFinds | head/LFStripeSeries.cpp:129-136 | in every interleaving a lookup by hash that begins after a getting or setting call for the same hash and labels has ended finishes with the series that call returned |
| StripeSeries.LookupByIdFinds | head/LFStripeSeries.cpp:116-127 | in every interleaving a lookup by id that begins after the creating call ended finds the created series, if no other call creates one with that id |
| StripeSeries.LookupByIdSound | head/LFStripeSeries.cpp:116-127 | in every interleaving a lookup by id returns nothing but a series that some call created with that id |
| ForwardIndexes.ForwardIndex.Set | head/TreeHead.cpp:1505-1516 | outside the flat table an entry that is there stays and a new one is then found; inside it, readers see no change; no other entry changes |
| ForwardIndexes.ForwardIndex.Migrate | head/TreeHead.cpp:666-733 | first or growing, no reader of any source and metric id from 1 on sees a difference; succeeds exactly when covered already or when it would not shrink the table and the metric is known; the migrated ids, and no others, leave the maps |
| ForwardIndexes.FlatGrown | head/TreeHead.cpp:695-717 | the larger table holds the old cells at their new places and the maps' entries elsewhere |
| ChunkFiles.DecodeUnsignedVarint | base/Endian.cpp:220-236 | decodes an encoded number and its length |
| ChunkFiles.ChunkWriter.WriteChunks | chunk/ChunkWriter.cpp:64-98 | starts a segment exactly when the size rule says so; at every reference stand the length, the encoding, the data and, big-endian in four bytes, the checksum modulo 2^32 of that chunk; nothing written before moves; segments stay within their size and header when every batch fits one |
| ChunkFiles.ChunkWriter.WriteChunk | chunk/ChunkWriter.cpp:79-97 | writes one such record at the end of the segment and returns its reference |
| ChunkFiles.FoundStays | chunk/ChunkWriter.cpp:41-62 | a chunk found under a reference, with its encoding and checksum, stays found as segments grow and are added |
| ChunkFiles.HeadedValidates | chunk/ChunkReader.cpp:32-40 | a segment written, of fewer than 2^32 bytes, passes the reader's check if and only if it has fewer than 2^31; its bytes 4 to 7 are the format version |
| ChunkFiles.OpenReader | chunk/ChunkReader.cpp:16-30 | one segment that does not pass leaves the reader with none and an error; otherwise all are open |
| ChunkFiles.ReadChunk | chunk/ChunkReader.cpp:48-79 | in open segments of fewer than 2^31 bytes, a reference handed out for some data reads exactly that data; without open segments nothing is read |
| ChunkFiles.WriteAll | chunk/ChunkWriter.cpp:64-98 | from an empty directory, every reference of every batch leads to its data, encoding and checksum after all batches are written; segments keep to their size when every batch fits one |
| ChunkFiles.NamesInOrder | chunk/ChunkUtils.cpp:24-37 | the names of the first n segments fit their buffer if and only if n is at most 1000000, and then sort as text in the order of the segments; the next one sorts before the 100002nd |
| ChunkFiles.SequenceFiles | chunk/ChunkUtils.cpp:40-53 | the files of a directory, sorted by name |
| ChunkFiles.ListedInOrder | chunk/ChunkUtils.cpp:40-53 | however the directory lists them, at most 1000000 segments come out in the order in which they were written |
| ChunkFiles.RoundTrip | chunk/ChunkUtils.cpp:24-53 | all batches written from an empty directory, listed in any order, sorted by name, opened and read by their references: in at most 1000000 segments of fewer than 2^32 bytes every chunk comes back if all segments have fewer than 2^31, and none does otherwise; every chunk stands with its encoding and checksum at its reference; all segments have fewer than 2^31 when every batch fits one of such a size |

## Left out

- Masstree, thmap, the lock-free queues, LevelDB and the write-ahead logs: taken as plain maps, queues and stores.
- Disk and network I/O: files and the SSD are sequences; reads and writes always succeed in full.
- Overlap of background disk writes with slab reuse: a flush copies a slab before it queues it.
- Concurrency inside the slab store: each put, flush and migration is one step.
- Counters, queues and lock words are unbounded numbers; memory orders weaker than sequential are not modelled.
- Wake-ups of the thread pool: a waiting thread may go on whenever its condition holds.
- BatchWrite, OptBatchWrite, PutKV, GetMemSlabID, ForceFlush and recovery of disk slabs: off the lazy path.
- Undefined shifts and reads on corrupt bit streams: no promise is made for bytes that were not written by the writer.
- The rollback's zeroing loop goes one byte past the stream in the code; the model stops at the end.
- Global minimum and maximum times and transaction numbers of TreeMemSeries, and the 64-bit wrap of negative times: listed times are integers, and puts are shown admissible for times that are not negative.
- MemSeries::_flush: its header does not fit its reserve, so nothing is claimed of it.
- 64-bit overflow in block times, the floating-point rounding of the five-percent rule, and unequal orders of equal start times in the sort by start time.
- Series set inside the flat rectangle: readers do not see them, and `ForwardIndex.Set` says so.
- Lookups by id in the striped table: the model reads the entry under the lock; the code finds it there but dereferences its iterator after unlocking (head/LFStripeSeries.cpp:125-126), so a rehash in between is not modelled.
- Readers of the forward index during a migration: the version check is not modelled.
- Deletion of series, epoch garbage collection, tombstone rewriting of chunks, postings and labels indexes.
- SlabSteps.Put: covers admissible puts only, that is chunks of one series whose times move forward, with ids in range.
- ChunkFiles.ReadChunk: says what is read only for references handed out by the writer; offsets of 2^32 and more, which the code would merge into the segment number, and bytes mapped behind the end of a file are not modelled.
- Survival.SamplesSurvive: speaks of values no longer than the slot they are written to, which holds as both are one chunk size.
