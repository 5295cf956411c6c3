# Models and proofs for the flash file system and the UART rings

The project models the log-structured flash file system under `src/lib/fs_yaffs2` and the DMA-fed UART rings under
`src/lib/driver`, and proves what they are for.

The file system never writes a page in place. Every chunk of a file and every file header goes to a fresh page of
the block that is being filled, tagged with its object, its chunk number (0 is the header) and the sequence number
of the block. Old pages fall out of use, blocks with enough of them are collected, and a mount rebuilds everything
from the tags. Each part of this is proved against something simpler:

- **`FlashState`, `FlashDevice`** — allocator, summaries, deletion, erasure, collection and checkpoint accounting as
  methods of one class over one state. All counters, bitmaps and block states agree after every step (`Valid`), no
  page is programmed twice between two erases, writes go to ever later places, and over any run of operations
  (`Run`), with hardware failures anywhere, every chunk of every file reads what was last written to it.
- **`MountScan`, `LogCollection`, `LogState`, `LogAppend`, `LogErase`, `LogMount`, `LogHoles`, `LogRun`** — the log as a
  sequence of tags. Scanning it backwards gives the same map as replaying it forwards; writing headers, copying pages
  and erasing a block are judged by what a *later mount* makes of the log that remains, which is where the shrink-header
  and hole rules come from. Over every run of single steps (a page written or copied in any order, a file pruned,
  resized, unlinked or deleted, a block admitted to collection or erased, power cut and the log scanned) a mount at any
  moment reads back every chunk that was written and not cut since, and nothing else but ghosts: chunks being cut whose
  header is not written yet, and stale chunks that a header has brought back. Which those are is stated exactly, and by
  the rule for holes there are none. An admission to collection, given once, stays good through whatever is written and
  erased since.
- **`FileCacheState`, `FileCache`** — the short-operation cache, reads, writes, flushes, evictions and resizes. A
  file is a flat byte array, and neither cache nor flash can be noticed; what is written through is on flash.
- **`Arith`, `Options`, `ObjectIds`, `Answers`** — a few shared lemmas, types and constants.
- **`Words`, `TnodeLeaf`, `TnodeTree`, `TnodeCheckpt`** — bit-packed leaves, the radix tree over them as a map from
  chunk to page, and saving and restoring it.
- **`Bytes`, `ByteBits`, `CheckptFormat`, `CheckptStream`** — the checkpoint stream: what is read is what was written,
  for every way of splitting it up; and whatever is on flash, nothing is read but what passed every check.
- **`Hweight`, `ColumnParity`, `Ecc`, `PackedTags`** — the error-correcting code and the tags it protects, for
  every flip of one or two bits.
- **`NameVal`** — name-value records in a byte buffer as a finite map. **`Summary`**, **`Bitmap`** — block
  summaries and chunk bitmaps.
- **`Ring`, `UartTransmit`, `UartReceive`** — the two rings as state machines over every interleaving of thread,
  DMA, interrupt and poll steps: no byte is lost, repeated or reordered, and none is stuck.

Main theorems: `FlashDevice.Device.Run`, `FlashDevice.Device.GcBlock`, `MountScan.Mount.ScanBackwards`,
`LogCollection.HeaderKeepsReads`, `LogCollection.EraseExact`, `LogErase.EraseKeeps`, `LogAppend.HeaderExact`,
`LogRun.MountReadsBack`, `LogRun.MountReadsAll`, `LogRun.CollectionInRun`, `FileCache.FileSystem.Run`,
`TnodeCheckpt.SaveAndRestore`, `CheckptStream.RoundTrip`, `Ecc.TwoBits`, `PackedTags.SafeSequenceNumbers`,
`NameVal.NameVals.Run`, `UartTransmit.TransmitSafety`, `UartTransmit.EverythingGoesOut`, `UartReceive.ReceiveSafety`,
`UartReceive.EverythingIsRead`.

Conventions. A page is a pair of block and page number, blocks count from 0, and no page is `None`. What
the hardware answers (whether an erase, a write or an erased-check succeeds), and whether the file layer finds room for
more, is any sequence of answers, given from outside and taken one by one (`Answers`). The parameter `loose` that many contracts of `FlashDevice` carry names the pages that are in use but belong to no file at
that moment; between operations it is empty. The state is looked at through the value `Core`, so that what one step
does to it can be proved on values.

Where the code does less than its documentation or its callers expect, the exact condition is proved, in both
directions:

- Two blocks sort by age only if their sequence numbers are less than 2^31 apart (`MountScan.OldestFirst`).
- A header written over an older one means the same to a later mount unless stale chunks resurface between the two
  sizes (`LogCollection.HeaderKeepsReads`, with an instance in `LogCollection.UnmarkedHoleResurfaces`). A header with the
  stored size does so exactly when a chunk is stale: hidden by nothing but the size in the header before
  (`LogAppend.HeaderExact`). The rule for holes rules that out as long as chunks reach the flash without a gap or behind a
  marker (`LogRun.MountReadsAll`). Chunks that overtake others on their way to the flash, in a cache flushed in the order of
  its slots, by eviction, or past the cache, need not: then a header written before the others, and be it a copy made
  by collection, brings back what they held before the file was cut (`LogRun.OvertakingResurfaces`).
- Erasing a block with nothing in use keeps what a mount reads unless the block was all that cut off an older page of a
  chunk that nothing newer decides (`LogCollection.EraseExact`). No block that is admitted is (`LogErase.EraseKeeps`).
- The oldest dirty number fails to cover a full block exactly when collection dropped the block's summary, moved none
  of its pages, and the block is older than the number (`FlashDevice.Device.GcBlock`, `FlashState.DropCovers`, with an
  instance in `FlashState.FirstCopyFails`).
- The reader of a checkpoint looks for at most one block in sixteen and two more; the writer has no such bound.
  A longer stream is written without complaint and read back short; the bound is stated in the length of the stream
  (`CheckptStream.RoundTrip`, with an instance in `CheckptStream.TooLongForReader`).
- The result of the last flush of a checkpoint is not looked at. A checkpoint whose last chunk finds no block is
  reported as saved although it is not, and that is the only one (`CheckptStream.RoundTrip`, with an instance in
  `CheckptStream.LastByteLost`). A byte is stored behind the chunk buffer exactly when a write ends on the byte that
  the stream is lost with and another one follows (`CheckptStream.Save`, with an instance in
  `CheckptStream.ByteBehindBuffer`).
- Packed tags survive every single wrong bit only if their sequence number has two zero bits; otherwise one flip
  makes it all ones, which stands for an unused page and is looked at before the code is
  (`PackedTags.SafeSequenceNumbers`, with an instance in `PackedTags.HighestBitLost`).
- A name-value record is found again only if it leaves a byte of the buffer to spare, and what is written stays inside
  the buffer only if it leaves four (`NameVal.NameVals.SetThenGet`, `NameVal.StaysInside`, with an instance in
  `NameVal.ExactFitLost`).
- A byte that has been received wakes a waiting reader only when its transfer, of up to 255 bytes, is complete or the
  exported update is called; no interrupt or poll does before (`UartReceive.WakesUp`).
- The exported UART functions keep the rings intact only at certain moments (`UartTransmit.StartAnytime`,
  `UartTransmit.UpdateUnloaded` and their counterparts in `UartReceive`).

## Model

| member | source | states |
|---|---|---|
| FlashDevice.Device.constructor | src/lib/fs_yaffs2/yaffs_guts.c:4779-4798 | a formatted device satisfies every invariant, with all chunks free and all blocks erased, and no collection begun |
| FlashDevice.Device.CheckptErase | src/lib/fs_yaffs2/yaffs_checkptrw.c:87-124 | block by block, exactly the checkpoint blocks change: to empty, or to dead where the flash would not erase them; free-chunk and erased-block counts stay exact; no page in use is touched |
| FlashDevice.Device.CheckptInvalidate | src/lib/fs_yaffs2/yaffs_yaffs2.c:944-952 | afterwards no checkpoint is left and no page in use has changed |
| FlashDevice.Device.CalcOldestDirtySeq | src/lib/fs_yaffs2/yaffs_yaffs2.c:42-79 | finds a full block with discarded pages of the least sequence number there is; if there is none the number stays as it was |
| FlashDevice.Device.BlockOkForGc | src/lib/fs_yaffs2/yaffs_yaffs2.c:119-134 | a block with a shrink header is admitted exactly when it is no newer than the oldest dirty number, which where it is not known is the least sequence number of all full blocks with discarded pages; while that number is tracked, no strictly older full block then holds discarded pages |
| FlashDevice.Device.ClearOldestDirtySeq | src/lib/fs_yaffs2/yaffs_yaffs2.c:87-98 | the number is forgotten exactly when it is that of the block whose number becomes invalid |
| FlashDevice.Device.RetireBlock | src/lib/fs_yaffs2/yaffs_guts.c:591-631 | a block with nothing in use becomes dead and its pages stop counting as free; the oldest dirty number is forgotten if it was that of the block; all other busy blocks are untouched |
| FlashDevice.Device.CleanBlock | src/lib/fs_yaffs2/yaffs_guts.c:2426-2440 | an erased block is empty again and none of its pages is programmed |
| FlashDevice.Device.BlockBecameDirty | src/lib/fs_yaffs2/yaffs_guts.c:2363-2440 | a block without pages in use ends empty and erased exactly when it was not marked for retirement and the flash erases it, else dead; no checkpoint is left; a collection of it is over; invariants hold and no page in use changes |
| FlashState.NothingRefersToErased | src/lib/fs_yaffs2/yaffs_guts.c:2363-2440 | no tnode or header refers to a page of an empty, dead or checkpoint block |
| FlashDevice.Device.ChunkDel | src/lib/fs_yaffs2/yaffs_guts.c:2985-3041 | exactly the deleted page falls out of use; the block is erased, or retired, exactly when that was its last page, it has no shrink header and is not being allocated from; the oldest dirty number follows |
| FlashDevice.Device.FindAllocBlock | src/lib/fs_yaffs2/yaffs_guts.c:359-403 | a block is found if and only if the erased count says there is one; it is the first empty one in turn, gets the next sequence number, and nothing else changes |
| FlashDevice.Device.OpenBlock | src/lib/fs_yaffs2/yaffs_guts.c:405-414 | at most one allocation block, which is the newest block |
| FlashDevice.Device.NextPage | src/lib/fs_yaffs2/yaffs_guts.c:428-449 | the page given out was neither in use nor programmed and is later than every page written so far |
| FlashDevice.Device.AllocChunk | src/lib/fs_yaffs2/yaffs_guts.c:405-455 | fails exactly when only the reserve is left and may not be used, or no block can be opened; a page given out without the reserve leaves at least the reserved blocks and those the checkpoint still wants, and one chunk, free |
| FlashDevice.Device.SkipRestOfBlock | src/lib/fs_yaffs2/yaffs_guts.c:474-485 | the allocation block becomes full, all invariants kept |
| FlashDevice.Device.ProgramPage | src/lib/fs_yaffs2/yaffs_nand.c:48-75 | write-once: it can be called only for a page not programmed since its block was erased |
| FlashDevice.Device.SummaryWrite | src/lib/fs_yaffs2/yaffs_summary.c:117-175 | succeeds exactly if all its pages do, and then they hold the numbered pages of the summary; only summary pages come into use, each on an unprogrammed page, and the counters stay exact at every page, failed ones included |
| FlashDevice.Device.SummaryAdd | src/lib/fs_yaffs2/yaffs_summary.c:245-273 | with the last page that the summary covers the block is given up, marked as having a summary exactly if that is complete; the page written stays written and newest, and everything in use stays in use |
| FlashDevice.Device.WrChunkTagsNand | src/lib/fs_yaffs2/yaffs_nand.c:48-75 | the page carries the sequence number of its block and is appended to a strictly ascending log of places |
| FlashState.AscendingEverywhere | src/lib/fs_yaffs2/yaffs_guts.c:359-455 | of any two writes in the log the earlier one went to the earlier place |
| FlashDevice.Device.AbandonPage | src/lib/fs_yaffs2/yaffs_guts.c:212-248 | a failed page falls out of use and nothing else does; a block to be retired is marked or dead |
| FlashDevice.Device.NoteOnBlock | src/lib/fs_yaffs2/yaffs_guts.c:194-248 | the flags on a block change and nothing else |
| FlashDevice.Device.WriteTaken | src/lib/fs_yaffs2/yaffs_guts.c:510-575 | a page just taken is written, or abandoned with one failure counted; unless the block is known to need no check, success means that the page was found erased and read back right, and only a page that was erased and then failed marks its block for retirement |
| FlashDevice.Device.TryWrite | src/lib/fs_yaffs2/yaffs_guts.c:487-585 | one attempt: refused exactly when there is no space; else a page failure is counted, or the page returned holds exactly the data and tags and is newer than all others in use that are not part of a summary; nothing in use changes |
| FlashDevice.Device.WriteNewChunk | src/lib/fs_yaffs2/yaffs_guts.c:487-585 | the same over all attempts; afterwards no checkpoint is left; without a page there is no space, or every one of the attempts met a page failure; failures are counted only where the flash says no |
| FlashDevice.Device.SummaryGc | src/lib/fs_yaffs2/yaffs_summary.c:292-309 | exactly the pages from the summary on fall out of use, and each is counted as free again |
| FlashDevice.Device.GcDetachPage | src/lib/fs_yaffs2/yaffs_guts.c:2442-2583 | afterwards no file refers to the page, and every chunk of every file reads what it did; it fails only if there is no space or every attempt met a page failure |
| FlashDevice.Device.GcCopyPage | src/lib/fs_yaffs2/yaffs_guts.c:2519-2583 | the file, and nothing else, is redirected to a copy with the same data and tags, save that a header is no shrink header any more; a failed copy changes nothing that a file refers to |
| FlashDevice.Device.GcProcessChunk | src/lib/fs_yaffs2/yaffs_guts.c:2442-2586 | the page leaves its block without any read changing; a failure leaves block and files as they were |
| FlashDevice.Device.StartCollection | src/lib/fs_yaffs2/yaffs_guts.c:2588-2615 | the block enters collection without shrink mark and without exactly the pages of its summary; no other block changes |
| FlashDevice.Device.GcPages | src/lib/fs_yaffs2/yaffs_guts.c:2628-2643 | exactly five pages, or all that the block has, are moved if nothing was left behind before and no page fails; no read changes |
| FlashDevice.Device.PauseCollection | src/lib/fs_yaffs2/yaffs_guts.c:2649-2654 | an unfinished block is full again; the oldest dirty number stays tracked when it covers the block |
| FlashDevice.Device.GcBlock | src/lib/fs_yaffs2/yaffs_guts.c:2588-2687 | collection, partial or whole, with failures anywhere, changes no read; a whole one without failure erases or retires the block, a partial one that too or takes five pages out of it; it fails only if there is no space or every attempt met a page failure; the oldest dirty number goes on covering every full block with discarded pages, except exactly when a summary was dropped from an older block and then not one page was moved |
| FlashDevice.Device.GcWork | src/lib/fs_yaffs2/yaffs_guts.c:2617-2643 | the block is erased if nothing is in use, else its pages are moved |
| FlashDevice.Device.StopCollection | src/lib/fs_yaffs2/yaffs_guts.c:2649-2654 | whether the number still covers everything once the block is back, in both directions |
| FlashDevice.Device.EndCollection | src/lib/fs_yaffs2/yaffs_guts.c:2655-2682 | a collection is over exactly when its block is no longer full |
| FlashDevice.Device.SelectBlock | src/lib/fs_yaffs2/yaffs_yaffs2.c:119-193 | a block is selected if and only if it is full and no full block is older, or it has no shrink header, or no full block with discarded pages is older; the last by the oldest dirty number where that is known |
| FlashDevice.Device.Collect | src/lib/fs_yaffs2/yaffs_guts.c:2858-2948 | which block a round of collection works on, namely the one begun with or else the one proposed if it may be collected, and that it works on it: erased or retired, or five pages less and to be gone on with; without a block nothing changes; no read changes; it fails only if there is no space or every attempt met a page failure; as long as no round fails, nothing is left behind and the oldest dirty number covers every full block with discarded pages |
| FlashState.AllInUse | src/lib/fs_yaffs2/yaffs_yaffs2.c:42-134 | a full block holds no discarded pages if and only if every page of it is in use and none is soft deleted |
| FlashState.DropCovers | src/lib/fs_yaffs2/yaffs_yaffs2.c:42-134 | dropping the summary of a covered block and moving no page keeps it covered if and only if it had no summary pages or is no older than the oldest dirty number |
| FlashState.FirstCopyFails | src/lib/fs_yaffs2/yaffs_guts.c:2588-2654 | a state that satisfies all invariants in which refreshing a block and failing its first copy breaks the cover |
| FlashDevice.Device.ReplaceChunk | src/lib/fs_yaffs2/yaffs_guts.c:3043-3108 | afterwards the chunk reads the new data from a page with the new tags, and every other chunk of every file reads what it did; on failure nothing reads differently, and there is no space or every attempt met a page failure |
| FlashDevice.Device.WrDataObj | src/lib/fs_yaffs2/yaffs_guts.c:3043-3108 | the same for the data chunks of a file, whose pages never carry the tag of a shrink |
| FlashDevice.Device.UpdateOh | src/lib/fs_yaffs2/yaffs_guts.c:3388-3433 | the same for its header, whose page carries the tag of a shrink exactly if asked to; then its block is marked |
| FlashDevice.Device.CreateObj | src/lib/fs_yaffs2/yaffs_guts.c:1972-2025 | a new object has no chunks and no other reads differently |
| FlashDevice.Device.DeleteFileChunk | src/lib/fs_yaffs2/yaffs_guts.c:3706-3754 | exactly this chunk of this file reads as absent |
| FlashDevice.Device.SoftDelChunk | src/lib/fs_yaffs2/yaffs_guts.c:1248-1262 | the page counts as free but stays in use; accounting stays exact |
| FlashDevice.Device.SoftDelFile | src/lib/fs_yaffs2/yaffs_guts.c:1727-1750 | all data pages of the file are soft deleted and no other file changes |
| FlashDevice.Device.CheckptWriteBlocks | src/lib/fs_yaffs2/yaffs_checkptrw.c:435-469 | only empty blocks change, to checkpoint blocks, the first ones first; the counters put right at close are exact again; no read changes; it succeeds exactly when the erased count allows it |
| FlashDevice.Device.Do | src/lib/fs_yaffs2/yaffs_guts.c:5096-5119 | every operation keeps all invariants, the exact free-chunk count among them, and has exactly its effect on what the files read and on the tags of their pages; a write is refused only for want of space or after failures in every attempt; a collection does what `Collect` says, and only one that fails can end the cover of the oldest dirty number; what is not allowed changes nothing |
| FlashDevice.Device.Run | src/lib/fs_yaffs2/yaffs_guts.c:5096-5119 | over every run, collections, failures and checkpoints included: files read what was last written, all bookkeeping agrees, writes went to ascending places, and if no collection failed the oldest dirty number covers every full block with discarded pages |
| FlashState.UpdateCounts | src/lib/fs_yaffs2/yaffs_guts.c:5096-5119 | how the recounted free chunks and block states change with one block |
| FlashState.AfterErase | src/lib/fs_yaffs2/yaffs_guts.c:2363-2440 | erasing a block keeps the whole device state consistent |
| FlashState.AfterDelete | src/lib/fs_yaffs2/yaffs_guts.c:2985-3041 | clearing a page's bit keeps it consistent, the oldest dirty number included |
| FlashState.AfterPageTaken | src/lib/fs_yaffs2/yaffs_guts.c:428-449 | so does allocating a page |
| FlashState.AfterSkip | src/lib/fs_yaffs2/yaffs_guts.c:474-485 | so does giving up the allocation block |
| FlashState.AfterSoftDeleted | src/lib/fs_yaffs2/yaffs_guts.c:1248-1262 | so does soft deletion |
| FlashState.AfterCheckptTaken | src/lib/fs_yaffs2/yaffs_checkptrw.c:276-331 | so does claiming an empty block for the checkpoint, once the counters are put right |
| FlashState.PageTakenIsNewest | src/lib/fs_yaffs2/yaffs_guts.c:428-449 | a page just allocated is later than every page in use that is not part of a summary |
| FlashState.CopyKeepsReads | src/lib/fs_yaffs2/yaffs_guts.c:2519-2581 | redirecting a chunk to a copy of its page keeps all reads |
| MountScan.BackwardIsForward | src/lib/fs_yaffs2/yaffs_yaffs2.c:1212-1371 | the first chunk met going backwards, below the smallest shrink size met, is the chunk that replaying forwards with last write wins and pruning leaves |
| MountScan.SplitAt | src/lib/fs_yaffs2/yaffs_yaffs2.c:1212-1257 | the same at any point of the scan: newer entries decide first and let through what the older part holds below their shrink size |
| MountScan.SizeFromLastHeader | src/lib/fs_yaffs2/yaffs_yaffs2.c:1260-1371 | nothing older than the last header of a file contributes to its size |
| MountScan.PageInLog | src/lib/fs_yaffs2/yaffs_yaffs2.c:1196-1257 | a used, readable page with its block's sequence number, a file number and a chunk number in range, and no more bytes than a chunk has, is in the log as what its tags say: a full chunk of data too, and a header except of the two directories that stand for deletion |
| MountScan.OnlySoundPages | src/lib/fs_yaffs2/yaffs_yaffs2.c:1196-1211 | and no page that breaks any one of these conditions is |
| MountScan.LogInOrder | src/lib/fs_yaffs2/yaffs_yaffs2.c:1640-1687 | of two pages in the log, the one in the later block, or further on in the same block, comes later |
| MountScan.BaseWraps | src/lib/fs_yaffs2/yaffs_yaffs2.c:1212-1257 | where a chunk begins is right below 2^31 and otherwise off by a multiple of 2^32, within the signed type |
| MountScan.NewestIsChosen | src/lib/fs_yaffs2/yaffs_yaffs2.c:1212-1257 | the newest page of a chunk, with no header of the file after it, is the one that a mount reads it from |
| MountScan.Mount.ScanData | src/lib/fs_yaffs2/yaffs_yaffs2.c:1212-1257 | one data page keeps the files, sizes and page bits what the backward rules say |
| MountScan.Mount.ScanHeader | src/lib/fs_yaffs2/yaffs_yaffs2.c:1260-1371 | one header does too, and the newest header of a file is the one kept |
| MountScan.Mount.ScanBlock | src/lib/fs_yaffs2/yaffs_yaffs2.c:1640-1687 | so does one block, newest page first |
| MountScan.Mount.ScanBackwards | src/lib/fs_yaffs2/yaffs_yaffs2.c:1524-1711 | after the scan every chunk of every file is on the page that forward replay gives it, and a page bit is set exactly for pages in use; in terms of the blocks, the newest page of a chunk with no later header is the page the file has, and the newest header page the header it has |
| MountScan.OldestFirst | src/lib/fs_yaffs2/yaffs_yaffs2.c:1094-1105 | the signed comparison sorts the older block first if and only if the numbers are less than 2^31 apart |
| MountScan.TiesByBlock | src/lib/fs_yaffs2/yaffs_yaffs2.c:1094-1105 | of blocks with the same number the one with the lower block number comes first |
| LogCollection.WriteData | src/lib/fs_yaffs2/yaffs_guts.c:3043-3108 | a data page appended to the log redirects its chunk for a later mount, and nothing else |
| LogCollection.WriteHeader | src/lib/fs_yaffs2/yaffs_guts.c:3787-3823 | what a header appended over an older one means to a later mount, chunk by chunk |
| LogCollection.HeaderKeepsReads | src/lib/fs_yaffs2/yaffs_yaffs2.c:1003-1085 | it means a mere cut to the new size if and only if no stale chunk resurfaces or vanishes, which holes and shrink headers are there to rule out |
| LogCollection.UnmarkedHoleResurfaces | src/lib/fs_yaffs2/yaffs_yaffs2.c:1003-1085 | an instance: without a hole rule a chunk that had been cut off comes back |
| LogCollection.DeadBlock | src/lib/fs_yaffs2/yaffs_guts.c:2442-2586 | what a block without a last header of a file adds to the scan of that file |
| LogCollection.EraseChunkExact | src/lib/fs_yaffs2/yaffs_guts.c:2363-2440 | erasing a block that has nothing of a chunk in use keeps what a mount reads for it if and only if the block was not all that cut off an older page of it |
| LogCollection.EraseExact | src/lib/fs_yaffs2/yaffs_guts.c:2363-2440 | erasing a block with nothing in use keeps the mounted map if and only if that holds of every chunk |
| LogCollection.EraseKeepsReads | src/lib/fs_yaffs2/yaffs_yaffs2.c:119-134 | which is so when at that moment it has no shrink header or no older page holds discarded data; `LogErase` carries an admission on to any later moment |
| LogCollection.CopyHeader | src/lib/fs_yaffs2/yaffs_guts.c:2531-2562 | copying a header with its shrink mark cleared keeps the mounted map when the stored size covers what is in use and hides nothing, which `LogHoles.StoredFits` shows for the files in the tree by the rule for holes |
| LogCollection.CopyAll | src/lib/fs_yaffs2/yaffs_guts.c:2588-2687 | copying everything in use out of a block leaves nothing in use in it and keeps every read, for stored sizes that fit |
| LogCollection.CollectionKeepsReads | src/lib/fs_yaffs2/yaffs_guts.c:2588-2687 | copying a block and erasing it in one go changes nothing that a later mount reads, for stored sizes that fit (`LogRun.CollectionInRun` does without either) |
| LogAppend.StaleResurfaces | src/lib/fs_yaffs2/yaffs_guts.c:3279-3433 | the chunks that a header with the stored size brings back are just the stale ones, and it loses none |
| LogAppend.StaleHidden | src/lib/fs_yaffs2/yaffs_yaffs2.c:1211-1246 | a stale chunk is not there for a mount before that |
| LogAppend.OwnMounted | src/lib/fs_yaffs2/yaffs_guts.c:3279-3433 | such a header cuts what a mount reads of its file to its size, chunk by chunk, but for the stale ones |
| LogAppend.HeaderExact | src/lib/fs_yaffs2/yaffs_yaffs2.c:1003-1085 | as long as the file has no ghosts, it changes nothing that a mount reads if and only if no chunk of the file is stale |
| LogAppend.NewMounted | src/lib/fs_yaffs2/yaffs_guts.c:1972-2025 | the first header of a new file leaves nothing readable of an older file with the same number |
| LogAppend.UnlinksAfter | src/lib/fs_yaffs2/yaffs_guts.c:1377-1422 | a header that unlinks a file is never all that cuts off an older page, unless it is the file's last: so it stays when anything is written |
| LogAppend.DataKeeps | src/lib/fs_yaffs2/yaffs_guts.c:3043-3108 | writing a data page keeps every invariant of log and memory, wherever in its file the chunk is and whatever has been written of it |
| LogAppend.HeaderKeeps | src/lib/fs_yaffs2/yaffs_guts.c:3279-3433 | so does writing a header |
| LogErase.AdmittedIsHarmless | src/lib/fs_yaffs2/yaffs_yaffs2.c:119-134 | a block admitted when no older page has been discarded can be erased without bringing an older page or an older file back, as far as what its headers cut and delete goes |
| LogErase.UnmarkedIsHarmless | src/lib/fs_yaffs2/yaffs_yaffs2.c:119-134 | a block without a shrink header can be at any time |
| LogAppend.HarmlessAfter | src/lib/fs_yaffs2/yaffs_guts.c:2588-2687 | an admission stays good when anything is written, pages that make older ones discarded included |
| LogErase.HarmlessStays | src/lib/fs_yaffs2/yaffs_guts.c:2588-2687 | and when another block is erased |
| LogErase.HarmlessIsSpare | src/lib/fs_yaffs2/yaffs_guts.c:2363-2440 | once nothing in the block is in use, all that it cuts off or deletes is cut off or deleted by others too, even where the last header of a file has been dropped without a successor |
| LogErase.MountStays | src/lib/fs_yaffs2/yaffs_guts.c:2363-2440 | so erasing it changes nothing that a mount reads of a chunk in memory, or of one that is no ghost |
| LogErase.EraseKeeps | src/lib/fs_yaffs2/yaffs_guts.c:2363-2440 | and keeps every invariant of log and memory |
| LogHoles.NoStaleAfterData | src/lib/fs_yaffs2/yaffs_guts.c:3043-3108 | a chunk written without a gap, or to a file that a marker seals, makes nothing stale |
| LogHoles.NoStaleAfterHeader | src/lib/fs_yaffs2/yaffs_guts.c:3279-3433 | nor does a header, which makes everything of its file current |
| LogHoles.NoStaleAfterErase | src/lib/fs_yaffs2/yaffs_guts.c:2363-2440 | nor erasing a block, though it takes away the pages that stood for others |
| LogHoles.NoStaleAfterRestart | src/lib/fs_yaffs2/yaffs_yaffs2.c:1524-1711 | nor a mount with no cut half done |
| LogHoles.SealedByMarker | src/lib/fs_yaffs2/yaffs_yaffs2.c:1075-1081 | a marker cuts off for good all that lies beyond the stored size |
| LogHoles.NothingHidden | src/lib/fs_yaffs2/yaffs_yaffs2.c:1003-1085 | where a chunk is not stale, no header that records the stored size or less, or any size of a sealed file, brings it back or loses it |
| LogHoles.StoredFits | src/lib/fs_yaffs2/yaffs_yaffs2.c:1003-1085 | the stored size of a file in the tree then fits its last header at any moment |
| LogMount.ScannedSize | src/lib/fs_yaffs2/yaffs_yaffs2.c:1211-1246 | the size that a scan finds is the least that covers the last header and all that was written since |
| LogMount.FoundWithin | src/lib/fs_yaffs2/yaffs_yaffs2.c:1211-1246 | where a file has no ghosts it reaches into no chunk beyond the stored size and the one in the last header |
| LogMount.RestartKeeps | src/lib/fs_yaffs2/yaffs_yaffs2.c:1524-1711 | what a mount finds satisfies every invariant, whatever the moment |
| LogMount.PlacedForward | src/lib/fs_yaffs2/yaffs_yaffs2.c:1524-1711 | the scan finds the same chunks wherever on the device the blocks are |
| LogRun.HeaderStep | src/lib/fs_yaffs2/yaffs_guts.c:3279-3433 | a header of a file in the tree cuts the mounted map to the stored size, changes nothing else in it but stale chunks, and keeps the invariant |
| LogRun.MakeFileStep | src/lib/fs_yaffs2/yaffs_guts.c:1972-2025 | a new file, whose number may have been used before, has no chunks and no ghosts |
| LogRun.WriteStep | src/lib/fs_yaffs2/yaffs_guts.c:3043-3108 | a chunk written anywhere in its file, in any order, shows; one written to an unlinked file shows to those who have it open |
| LogRun.RecordStep | src/lib/fs_yaffs2/yaffs_guts.c:3279-3433 | a header with the stored size, as a marker or not, changes nothing that memory reads and leaves no ghosts beyond that size |
| LogRun.PruneStep | src/lib/fs_yaffs2/yaffs_guts.c:3706-3754 | pruning cuts what is read of a file from memory, though the blocks of what it lost may be erased before the header is written; below the new size a mount in between reads the file as it is |
| LogRun.ResizeStep | src/lib/fs_yaffs2/yaffs_guts.c:3756-3785 | the stored size follows |
| LogRun.CutInRun | src/lib/fs_yaffs2/yaffs_guts.c:3756-3823 | pruning, resizing and the header together cut what a mount reads of the file, at and beyond the size completely, and keep what is below |
| LogRun.UnlinkStep | src/lib/fs_yaffs2/yaffs_guts.c:1377-1422 | unlinking a file removes it from what a mount reads, leaves its stored size and what those read who have it open |
| LogRun.DeleteStep | src/lib/fs_yaffs2/yaffs_guts.c:1707-1727 | deleting it removes it from both |
| LogRun.DropStep | src/lib/fs_yaffs2/yaffs_guts.c:1707-1727 | its last header may fall out of use without a successor, and its number is free for a new file |
| LogRun.CopyEntryStep | src/lib/fs_yaffs2/yaffs_guts.c:2442-2586 | a copy made for collection, of data, of a header in the tree or of one that is not, changes nothing that is read |
| LogRun.SelectStep | src/lib/fs_yaffs2/yaffs_yaffs2.c:119-134 | a block is admitted to collection by the rule of the code, and that makes it harmless |
| LogRun.EraseStep | src/lib/fs_yaffs2/yaffs_guts.c:2363-2440 | erasing a block with nothing in use, if it has no shrink header or has been admitted at any time since, changes nothing that is read; what its pages held is gone |
| LogRun.RestartStep | src/lib/fs_yaffs2/yaffs_yaffs2.c:1524-1711 | a mount keeps the files in the tree, and the run can go on from what it finds |
| LogRun.MountReadsBack | src/lib/fs_yaffs2/yaffs_yaffs2.c:1524-1711 | every run of these operations, from an empty flash on, mounts included, leaves a log of which a mount makes exactly the files in the tree, reads back every chunk written to them and not cut since, and nothing else but ghosts; memory reads the same, and that of unlinked open files too |
| LogRun.RuleStep | src/lib/fs_yaffs2/yaffs_yaffs2.c:1003-1085 | by the rule for holes no operation makes a chunk stale |
| LogRun.NoNewGhosts | src/lib/fs_yaffs2/yaffs_yaffs2.c:1003-1085 | and none but pruning raises a ghost |
| LogRun.MountReadsAll | src/lib/fs_yaffs2/yaffs_yaffs2.c:1524-1711 | so over every run by that rule, with no mount in the midst of a cut, a mount reads exactly the files as they are, but for chunks pruned whose header is not written yet |
| LogRun.MarkerCovers | src/lib/fs_yaffs2/yaffs_guts.c:3787-3823 | after a marker writing any chunk of the file is by the rule, whatever headers and copies of it follow, until the file is resized, unlinked or mounted |
| LogRun.CollectionInRun | src/lib/fs_yaffs2/yaffs_guts.c:2588-2687 | once a block has been admitted, and whatever has been done since short of a mount, it can be collected to the end page by page, and all files read on what they read; by the rule for holes no ghosts are raised |
| LogRun.Remount | src/lib/fs_yaffs2/yaffs_yaffs2.c:1524-1711 | the scan of blocks that hold such a log, wherever on the device they are, finds what the files in the tree held, and the sizes and pages with which a run goes on |
| LogRun.OvertakingResurfaces | src/lib/fs_yaffs2/yaffs_guts.c:1474-1576 | an instance of what the rule rules out: a chunk reaches the flash before one ahead of it, and the header copied then brings that one back until it is written |
| FileCacheState.AfterWriteBack | src/lib/fs_yaffs2/yaffs_guts.c:1453-1472 | writing a slot to flash keeps cache and flash coherent and every view the same |
| FileCacheState.AfterDirect | src/lib/fs_yaffs2/yaffs_guts.c:3669-3678 | a whole chunk written past the cache shows, and only there |
| FileCacheState.AfterPut | src/lib/fs_yaffs2/yaffs_guts.c:3628-3647 | bytes changed in a slot show, and only there |
| FileCacheState.ShrunkBytes | src/lib/fs_yaffs2/yaffs_guts.c:3756-3785 | a shrunk file keeps its bytes up to the new size and reads as zeros beyond |
| FileCacheState.StoredOnFlash | src/lib/fs_yaffs2/yaffs_guts.c:3638-3647 | a chunk that has been stored and has no dirty slot is on flash as it reads |
| FileCache.FileSystem.constructor | src/lib/fs_yaffs2/yaffs_guts.c:1972-2025 | empty files and an empty cache satisfy every invariant and read as empty arrays |
| FileCache.FileSystem.AddrToChunk | src/lib/fs_yaffs2/yaffs_guts.c:48-72 | the chunk and the place in it that an offset falls on |
| FileCache.FileSystem.RdDataObj | src/lib/fs_yaffs2/yaffs_guts.c:2967-2983 | the chunk on flash, or zeros if there is none |
| FileCache.FileSystem.WrDataObj | src/lib/fs_yaffs2/yaffs_guts.c:3043-3108 | the chunk is replaced exactly if the write works, and otherwise nothing is written |
| FileCache.FileSystem.FindChunkCache | src/lib/fs_yaffs2/yaffs_guts.c:1579-1597 | the slot of the chunk, if it is cached |
| FileCache.FileSystem.UseCache | src/lib/fs_yaffs2/yaffs_guts.c:1600-1621 | only use counts change: the slot gets the next one, and all but the first slot start anew when the counter has run over |
| FileCache.FileSystem.FlushSingle | src/lib/fs_yaffs2/yaffs_guts.c:1453-1472 | the slot is clean, or free, and no file reads differently as long as no write fails; a clean slot is not written |
| FileCache.FileSystem.FlushFileCache | src/lib/fs_yaffs2/yaffs_guts.c:1474-1492 | all slots of the file are clean, or free; nothing reads differently |
| FileCache.FileSystem.FlushWholeCache | src/lib/fs_yaffs2/yaffs_guts.c:1495-1514 | afterwards no slot is dirty, and flash alone holds what every file reads |
| FileCache.FileSystem.GrabChunkCache | src/lib/fs_yaffs2/yaffs_guts.c:1521-1576 | a free slot, or the least recently used one after it has been flushed; nothing reads differently |
| FileCache.FileSystem.InvalidateChunkCache | src/lib/fs_yaffs2/yaffs_guts.c:1627-1637 | exactly the slot of the chunk is given up |
| FileCache.FileSystem.InvalidateWholeCache | src/lib/fs_yaffs2/yaffs_guts.c:1642-1654 | exactly the slots of the file are given up |
| FileCache.FileSystem.LoadChunk | src/lib/fs_yaffs2/yaffs_guts.c:3478-3492 | the chunk is cached in one slot; nothing reads differently |
| FileCache.FileSystem.ReadChunk | src/lib/fs_yaffs2/yaffs_guts.c:3445-3522 | the bytes of the file in that part of the chunk; through the cache, unless there is none or the chunk is wanted whole and not cached |
| FileCache.FileSystem.FileRd | src/lib/fs_yaffs2/yaffs_guts.c:3445-3522 | every byte read is the byte of the file at its offset, and no file changes |
| FileCache.FileSystem.WriteChunk | src/lib/fs_yaffs2/yaffs_guts.c:3524-3695 | exactly the piece of the file changes; refused, nothing does; written through, the chunk is not left dirty, and otherwise it is, unless it went past the cache, and then it is on flash |
| FileCache.FileSystem.WriteCached | src/lib/fs_yaffs2/yaffs_guts.c:3593-3649 | the same through the cache: refused exactly if there is no room and no dirty slot to hold it; written through, the chunk is clean, and otherwise dirty |
| FileCache.FileSystem.WriteDirect | src/lib/fs_yaffs2/yaffs_guts.c:3650-3678 | the same past the cache: the chunk is on flash and has no slot |
| FileCache.FileSystem.Writeback | src/lib/fs_yaffs2/yaffs_guts.c:3558-3586 | the bytes written back reach to the end of the piece, or of what the file has behind it in the chunk, and no further |
| FileCache.FileSystem.DoFileWr | src/lib/fs_yaffs2/yaffs_guts.c:3524-3695 | exactly the accepted bytes of the file change, and the size grows to their end at most; written through, every chunk that they lie in is on flash as it reads and not dirty; all are accepted unless room is refused |
| FileCache.FileSystem.PruneChunks | src/lib/fs_yaffs2/yaffs_guts.c:3706-3754 | exactly the chunks beyond the new size are removed |
| FileCache.FileSystem.ResizeFileDown | src/lib/fs_yaffs2/yaffs_guts.c:3756-3785 | bytes below the new size stay, all from there on are zero |
| FileCache.FileSystem.HandleHole | src/lib/fs_yaffs2/yaffs_yaffs2.c:1003-1085 | small holes are filled with zeros if there is room, so that no chunk in them is missing, otherwise a marker with the old size is written; nothing reads differently either way |
| FileCache.FileSystem.MarkHole | src/lib/fs_yaffs2/yaffs_yaffs2.c:1075-1081 | a header with the size before the hole is recorded |
| FileCache.FileSystem.WrFile | src/lib/fs_yaffs2/yaffs_guts.c:3697-3702 | the flat array of the file takes the accepted bytes, with zeros in the gap before them; written through, every chunk that they lie in is on flash as it reads and not dirty; the gap is filled chunk by chunk, or a marker with the old size is written; unless a small gap is refused, no file is recorded to reach beyond its size |
| FileCache.FileSystem.ResizeFile | src/lib/fs_yaffs2/yaffs_guts.c:3787-3823 | the flat array is cut off or goes on in zeros; a gap is filled or marked as for a write, and no slot of a file cut is left |
| FileCache.FileSystem.ReadFile | src/lib/fs_yaffs2/yaffs_guts.c:3445-3522 | what is read is a part of the flat array, zero past its end |
| FileCache.FileSystem.Do | src/lib/fs_yaffs2/yaffs_guts.c:3445-3823 | every operation does to the files what it does to flat arrays; writes with write-through reach the flash and flushes leave nothing dirty |
| FileCache.FileSystem.Run | src/lib/fs_yaffs2/yaffs_guts.c:3445-3823 | over any sequence of writes, reads, flushes and resizes, every read shows the latest bytes written, as if there were no cache and no flash; as long as nothing is refused, no file is recorded to reach beyond its size |
| TnodeLeaf.LoadedReadsBack | src/lib/fs_yaffs2/yaffs_guts.c:801-859 | for every even width from 16 to 30 a loaded slot reads back and the other fifteen stay, also where slots straddle words |
| TnodeLeaf.LoadedNumber | src/lib/fs_yaffs2/yaffs_guts.c:801-859 | the same for page numbers that fit the width |
| TnodeLeaf.StoredIsLoaded | src/lib/fs_yaffs2/yaffs_guts.c:801-830 | the words after loading a slot are determined |
| TnodeLeaf.ZeroLeaf | src/lib/fs_yaffs2/yaffs_guts.c:1767-1808 | the words of a leaf are all zero if and only if its slots are |
| TnodeLeaf.GetGroupBase | src/lib/fs_yaffs2/yaffs_guts.c:832-859 | the shifts and masks on one or two words read the slot |
| TnodeLeaf.LoadTnode0 | src/lib/fs_yaffs2/yaffs_guts.c:801-830 | the shifts and masks on one or two words store the slot and leave every other bit |
| TnodeTree.DepthSuffices | src/lib/fs_yaffs2/yaffs_guts.c:887-897 | the depth computed from the chunk number suffices if and only if the number is in range |
| TnodeTree.RaisedLeaf | src/lib/fs_yaffs2/yaffs_guts.c:952-968 | a level added at the top changes no leaf |
| TnodeTree.AddedLeaf | src/lib/fs_yaffs2/yaffs_guts.c:970-1014 | adding the path to a leaf settles that leaf and leaves all others |
| TnodeTree.PrunedLeaf | src/lib/fs_yaffs2/yaffs_guts.c:1767-1808 | pruning takes away only leaves of zeros |
| TnodeTree.PrunedLive | src/lib/fs_yaffs2/yaffs_guts.c:1767-1808 | what pruning leaves standing, though it could have gone, holds a chunk |
| TnodeTree.PrunedIsPruned | src/lib/fs_yaffs2/yaffs_guts.c:1767-1808 | the result of pruning has no subtree left that could go |
| TnodeTree.ShortenedLeaf | src/lib/fs_yaffs2/yaffs_guts.c:1825-1846 | taking off the top of a tree of which only the first entry is in use changes no leaf |
| TnodeTree.TallForAReason | src/lib/fs_yaffs2/yaffs_guts.c:1825-1846 | in a pruned tree an entry beside the first leads to a chunk out of the first one's reach |
| TnodeTree.FileVar.constructor | src/lib/fs_yaffs2/yaffs_guts.c:1972-2025 | a new file has one leaf of zeros |
| TnodeTree.FileVar.FindTnode0 | src/lib/fs_yaffs2/yaffs_guts.c:869-910 | the leaf that the map has for the chunk, or none |
| TnodeTree.FileVar.AddFindTnode0 | src/lib/fs_yaffs2/yaffs_guts.c:924-1017 | afterwards the chunk has a leaf, fresh, as before, or the one passed in, and every other leaf is as before |
| TnodeTree.FileVar.Grow | src/lib/fs_yaffs2/yaffs_guts.c:952-968 | the tree is tall enough and stands for the same map |
| TnodeTree.FileVar.PruneTree | src/lib/fs_yaffs2/yaffs_guts.c:1810-1850 | the map stays the same, and the tree is no taller than its chunks need |
| TnodeTree.FileVar.Shorten | src/lib/fs_yaffs2/yaffs_guts.c:1825-1846 | no leaf changes and the root is never lost |
| TnodeTree.FileVar.PutChunk | src/lib/fs_yaffs2/yaffs_guts.c:1115-1246 | only this chunk of the map changes; a scan keeps a chunk that is there |
| TnodeTree.FileVar.LoadSlot | src/lib/fs_yaffs2/yaffs_guts.c:801-830 | the map has the new page for this chunk and is otherwise unchanged |
| TnodeCheckpt.RecordsAreLeaves | src/lib/fs_yaffs2/yaffs_yaffs2.c:571-613 | the saved records are exactly the leaves, under their own numbers, for every shape and height |
| TnodeCheckpt.SaveWorker | src/lib/fs_yaffs2/yaffs_yaffs2.c:571-613 | the words written are the encoded records of the subtree |
| TnodeCheckpt.WrCheckptTnodes | src/lib/fs_yaffs2/yaffs_yaffs2.c:615-632 | and of the file, with the end marker |
| TnodeCheckpt.HoldsNext | src/lib/fs_yaffs2/yaffs_yaffs2.c:634-680 | a record is never taken for the end marker, and what follows it is the rest |
| TnodeCheckpt.RestoreOne | src/lib/fs_yaffs2/yaffs_yaffs2.c:634-680 | fails exactly on a short record or an impossible chunk, else plugs in exactly this leaf |
| TnodeCheckpt.RdCheckptTnodes | src/lib/fs_yaffs2/yaffs_yaffs2.c:634-680 | plugs in every leaf of the list and leaves the rest of the stream |
| TnodeCheckpt.SaveAndRestore | src/lib/fs_yaffs2/yaffs_yaffs2.c:571-680 | for every tree shape and height a fresh file restored from the stream has the same map |
| CheckptFormat.HeaderAccepted | src/lib/fs_yaffs2/yaffs_checkptrw.c:47-75 | the reader accepts the header that the writer makes and no other |
| CheckptFormat.HeaderSays | src/lib/fs_yaffs2/yaffs_checkptrw.c:47-58 | the words of the header are the version, the number of the chunk, the total of all bytes before modulo 2^32, and their exclusive-or |
| CheckptFormat.SumIsTotal | src/lib/fs_yaffs2/yaffs_checkptrw.c:347-348 | the running sum is the plain total of the bytes modulo 2^32 |
| CheckptFormat.XorIsParity | src/lib/fs_yaffs2/yaffs_checkptrw.c:347-348 | each bit of the running exclusive-or is the parity of that bit over all bytes |
| CheckptFormat.WrongByteNoticed | src/lib/fs_yaffs2/yaffs_checkptrw.c:62-75 | with one wrong byte in what has gone before, the next header does not match |
| CheckptFormat.OneByteRefused | src/lib/fs_yaffs2/yaffs_checkptrw.c:379-421 | where a chunk has been accepted whose header is as written, what was read before it differs from what was written in no single byte |
| CheckptFormat.ChunkAccepted | src/lib/fs_yaffs2/yaffs_checkptrw.c:398-412 | every chunk of a stream on flash passes all checks of the reader |
| CheckptFormat.FoundIsNext | src/lib/fs_yaffs2/yaffs_checkptrw.c:160-208 | the next tagged block from the hint on is the one the writer went on in |
| CheckptFormat.NoneIsLeft | src/lib/fs_yaffs2/yaffs_checkptrw.c:160-208 | when none is found the writer had stopped there |
| CheckptFormat.ZerosUncounted | src/lib/fs_yaffs2/yaffs_checkptrw.c:276-331 | zeros that fill up the last chunk do not change the running checks |
| CheckptStream.Writer.Open | src/lib/fs_yaffs2/yaffs_checkptrw.c:210-265 | opens exactly when more blocks are erased than are held in reserve, with an empty stream, the old checkpoint erased, and every empty block still to be taken |
| CheckptStream.Writer.Erase | src/lib/fs_yaffs2/yaffs_checkptrw.c:87-124 | exactly the checkpoint blocks become empty, or dead where erasing fails, and the erased ones are counted |
| CheckptStream.Writer.FindErasedBlock | src/lib/fs_yaffs2/yaffs_checkptrw.c:126-158 | the first empty block from the cursor on, unless only the reserve is left |
| CheckptStream.Writer.InitChunk | src/lib/fs_yaffs2/yaffs_checkptrw.c:47-60 | the buffer holds the header for the stream so far, and zeros |
| CheckptStream.Writer.FlushBuffer | src/lib/fs_yaffs2/yaffs_checkptrw.c:276-331 | succeeds exactly when there is room, and then the chunk is on the next page; on failure all empty blocks have been taken |
| CheckptStream.Writer.WritePage | src/lib/fs_yaffs2/yaffs_checkptrw.c:276-331 | the page written follows all before it in its block and was not programmed, and a block is counted with its first page |
| CheckptStream.Writer.Write | src/lib/fs_yaffs2/yaffs_checkptrw.c:333-361 | the counted bytes are the stream's; a stream is lost at one exact length, which all bytes are counted up to; after that one byte of each write is counted and stored behind the buffer |
| CheckptStream.Writer.Close | src/lib/fs_yaffs2/yaffs_checkptrw.c:435-469 | always succeeds; whether the whole stream, padded with zeros, is on flash depends on the last flush, whose result is discarded |
| CheckptStream.Reader.constructor | src/lib/fs_yaffs2/yaffs_checkptrw.c:210-265 | reading starts at the beginning, with the bound on blocks, whatever is on flash |
| CheckptStream.Reader.FindBlock | src/lib/fs_yaffs2/yaffs_checkptrw.c:160-208 | finds the first good block with the tag from the hint on, or that there is none, or that one more would be too many |
| CheckptStream.Reader.LoadChunk | src/lib/fs_yaffs2/yaffs_checkptrw.c:379-421 | takes the next chunk of a stream exactly if there is one within the bound |
| CheckptStream.Reader.CheckChunk | src/lib/fs_yaffs2/yaffs_checkptrw.c:391-421 | whatever is on flash, a page is accepted exactly if its tags say that it is the next chunk and its header matches the checks of all bytes read so far |
| CheckptStream.Reader.Read | src/lib/fs_yaffs2/yaffs_checkptrw.c:363-433 | whatever is on flash, all that is read before coming up short is from pages that passed every check and hold exactly the header for the bytes before; of a stream as written the bytes returned are the next ones, short only at its end or bound |
| CheckptStream.RoundTrip | src/lib/fs_yaffs2/yaffs_checkptrw.c:210-469 | for every split into writes and reads: on flash if and only if the blocks needed, computed from the length, are empty ones; reported as saved if and only if those needed without the last chunk are; read back exactly, with the same block count, if and only if they are no more than the reader looks for |
| CheckptStream.Save | src/lib/fs_yaffs2/yaffs_yaffs2.c:842-888 | what is on flash and what is reported, each exactly; a byte is stored behind the buffer if and only if a part ends on the byte that the stream is lost with and more is to come |
| CheckptStream.WriteParts | src/lib/fs_yaffs2/yaffs_yaffs2.c:842-888 | the stream is lost if and only if it reaches the length that the empty blocks and one buffer take |
| CheckptStream.LastByteLost | src/lib/fs_yaffs2/yaffs_checkptrw.c:333-469 | an instance of a checkpoint that is reported as saved and is not |
| CheckptStream.ByteBehindBuffer | src/lib/fs_yaffs2/yaffs_checkptrw.c:333-361 | an instance of a byte stored behind the buffer |
| CheckptStream.TooLongForReader | src/lib/fs_yaffs2/yaffs_checkptrw.c:210-265 | an instance of a checkpoint that is saved and cannot be read back |
| CheckptFormat.BlocksCounted | src/lib/fs_yaffs2/yaffs_checkptrw.c:126-158 | the first k chunks of a stream lie in k divided by the chunks of a block, rounded up, blocks |
| CheckptFormat.BlocksOfStream | src/lib/fs_yaffs2/yaffs_checkptrw.c:276-331 | so a stream takes up the blocks that its bytes need, padding or no padding |
| CheckptFormat.TooManyBytes | src/lib/fs_yaffs2/yaffs_checkptrw.c:126-158 | a full buffer with no block to go to means that more blocks are needed than were taken |
| CheckptFormat.FitsBrim | src/lib/fs_yaffs2/yaffs_checkptrw.c:276-361 | so many bytes fit into e blocks and one more buffer if and only if all chunks but the last need no more than e blocks |
| UartTransmit.StepKeepsInv | src/lib/driver/uart.c:226-271 | every step of writer, DMA, interrupt and poll keeps the invariant |
| UartTransmit.TransmitSafety | src/lib/driver/uart.c:182-326 | over every interleaving, bytes on the wire, then queued, then held by the writer are those submitted, in order; the queue leaves two slots free; a transfer covers only queued bytes |
| UartTransmit.OneTransferAtATime | src/lib/driver/uart.c:226-271 | a new transfer is loaded only when the one before has moved all its bytes |
| UartTransmit.PollStartsQueued | src/lib/driver/uart.c:315-326 | with no transfer under way the poll starts one if and only if bytes are queued |
| UartTransmit.DueBringsNearer | src/lib/driver/consprod.c:61-95 | in every state that can be reached with something not gone out there is a step that brings it nearer: the writer moves, a byte goes out, or an interrupt or a poll starts the next transfer; no ring is ever stuck full |
| UartTransmit.NeverBack | src/lib/driver/uart.c:183-272 | no step but a further call takes anything of that back |
| UartTransmit.EverythingGoesOut | src/lib/driver/uart.c:183-330 | from every state that can be reached, all bytes submitted go out on the wire, in order, and the call of the writer ends |
| UartTransmit.StartAnytime | src/lib/driver/uart.c:226-254 | starting anew keeps the order of bytes if and only if no transfer is under way, or nothing is to be sent, or nothing has gone out that cons has not passed |
| UartTransmit.UpdateUnloaded | src/lib/driver/uart.c:182-193 | updating from a register never loaded keeps it if and only if the register reads as cons |
| UartTransmit.RoomForOne | src/lib/driver/consprod.c:61-95 | after its wait the writer can publish a byte without prod meeting cons |
| UartTransmit.StoresOutsideQueue | src/lib/driver/consprod.c:61-95 | the writer stores where no queued byte is |
| UartTransmit.UartSoftc.Start | src/lib/driver/uart.c:226-254 | the transfer set up is the contiguous part of the queue, whenever it is called |
| UartTransmit.UartSoftc.Update | src/lib/driver/uart.c:182-193 | cons follows what the control register reads as, whenever it is called |
| UartTransmit.UartSoftc.InterruptHandler | src/lib/driver/uart.c:265-271 | the finished transfer is accounted for and the next one started |
| UartTransmit.UartSoftc.PollTransmit | src/lib/driver/uart.c:315-326 | the poll step of the protocol |
| UartReceive.StepKeepsInv | src/lib/driver/uart.c:164-223 | every step of DMA, interrupt, poll and reader keeps the invariant |
| UartReceive.ReceiveSafety | src/lib/driver/uart.c:164-326 | over every interleaving, bytes returned, then held by the reader, then unread are those DMA stored, in order; prod never meets cons; armed transfers keep off unread data; a read of non-zero length returns between one byte and what was asked for |
| UartReceive.DmaWritesFreeSlot | src/lib/driver/uart.c:196-223 | the slot that DMA writes holds no unread byte |
| UartReceive.PollArms | src/lib/driver/uart.c:315-326 | with no transfer armed the poll arms one if and only if prod is not right behind cons |
| UartReceive.ReadAlone | src/lib/driver/consprod.c:26-58 | a reader left alone ends its call, with exactly as many bytes as it was asked for or as it can see, whichever is less |
| UartReceive.ShortOnlyAtEnd | src/lib/driver/consprod.c:26-58 | a call comes up short only when it has taken all that it can see |
| UartReceive.WakesUp | src/lib/driver/uart.c:165-330 | a reader waits only while it has taken all that it can see; it is woken if and only if something unread has been stored and an update is made, by a caller or at the end of the transfer |
| UartReceive.EverythingIsRead | src/lib/driver/uart.c:165-303 | after an update a call left alone returns the first of all bytes stored and not yet read, as many as asked for |
| UartReceive.LineGoesOn | src/lib/driver/uart.c:165-283 | a byte from the line is taken as long as a transfer is under way; the interrupt after its last byte shows all that has been stored and arms the next one if there is room |
| UartReceive.StartAnytime | src/lib/driver/uart.c:196-223 | arming anew keeps everything if and only if no transfer is armed, or nothing is free, or prod is up with what has been stored |
| UartReceive.UpdateUnloaded | src/lib/driver/uart.c:164-179 | updating from a register never loaded keeps everything if and only if it changes nothing |
| UartReceive.AdvanceKeepsOff | src/lib/driver/consprod.c:26-58 | the reader never moves cons onto prod or onto the slot being filled |
| UartReceive.UartSoftc.Start | src/lib/driver/uart.c:196-223 | the transfer armed is the contiguous free part of the ring, whenever it is called |
| UartReceive.UartSoftc.Update | src/lib/driver/uart.c:164-179 | prod follows what the control register reads as, whenever it is called |
| UartReceive.UartSoftc.InterruptHandler | src/lib/driver/uart.c:274-280 | the finished transfer is accounted for and the next one armed |
| UartReceive.UartSoftc.PollReceive | src/lib/driver/uart.c:315-326 | the poll step of the protocol |
| Ring.ReachedIsPosition | src/lib/driver/uart.c:164-193 | the control register of a transfer gives back where in the buffer it stands |
| Hweight.TableRight | src/lib/fs_yaffs2/yaffs_hweight.c:19-43 | each of the 256 entries is the number of ones of its index |
| ColumnParity.TableRight | src/lib/fs_yaffs2/yaffs_ecc.c:34-67 | each of the 256 entries is the sum of the columns of its index's bits |
| ColumnParity.TableLinear | src/lib/fs_yaffs2/yaffs_ecc.c:34-67 | flipping one bit adds its column |
| Ecc.CalcOther | src/lib/fs_yaffs2/yaffs_ecc.c:204-228 | the code of the data, of any length |
| Ecc.ZeroCode | src/lib/fs_yaffs2/yaffs_ecc.c:204-228 | the code of zeros is zero |
| Ecc.CodeLinear | src/lib/fs_yaffs2/yaffs_ecc.c:204-228 | the code of the exclusive-or of two data strings is that of their codes |
| Ecc.LineParity | src/lib/fs_yaffs2/yaffs_ecc.c:204-228 | the line parity has each bit set exactly if the bytes of odd parity with that bit in their number are odd in number, and its complement likewise |
| Ecc.RawFlipped | src/lib/fs_yaffs2/yaffs_ecc.c:204-228 | how the code changes when one bit of the data does |
| Ecc.DriftFlipped | src/lib/fs_yaffs2/yaffs_ecc.c:230-280 | every flip, in data or code, adds its own share to the difference the reader sees |
| Ecc.CorrectOther | src/lib/fs_yaffs2/yaffs_ecc.c:230-280 | the in-place correction is the decision on which the theorems below are stated |
| Ecc.Unspoiled | src/lib/fs_yaffs2/yaffs_ecc.c:230-280 | data and code as written give 0 and stay |
| Ecc.OneDataBit | src/lib/fs_yaffs2/yaffs_ecc.c:230-280 | any one wrong data bit gives 1 and is put right |
| Ecc.OneCodeBit | src/lib/fs_yaffs2/yaffs_ecc.c:230-280 | any one wrong bit of the code gives 1, with the data unchanged and the code put right |
| Ecc.TwoBits | src/lib/fs_yaffs2/yaffs_ecc.c:230-280 | any two wrong bits among data and code give -1 and nothing is touched |
| PackedTags.TagsRoundTrip | src/lib/fs_yaffs2/yaffs_packedtags2.c:75-166 | packing and unpacking gives back the meaning of the tags, plain or with extra header information |
| PackedTags.ExtraKept | src/lib/fs_yaffs2/yaffs_packedtags2.c:63-107 | the extra header information is kept exactly for headers that have it, unless they are of a file so large that the highest bit of its size is set |
| PackedTags.UnusedSaysNothing | src/lib/fs_yaffs2/yaffs_packedtags2.c:125-141 | a chunk reads as used exactly if its sequence number is not all ones, and an unused one says nothing else |
| PackedTags.ReadBack | src/lib/fs_yaffs2/yaffs_packedtags2.c:113-207 | so it does through bytes and code, without error |
| PackedTags.UnpackTags2 | src/lib/fs_yaffs2/yaffs_packedtags2.c:168-207 | what spoilt tags are taken to say, and what is put right in place |
| PackedTags.SafeSequenceNumbers | src/lib/fs_yaffs2/yaffs_packedtags2.c:168-207 | tags survive every single wrong bit, as fixed, if and only if their sequence number has two zero bits |
| PackedTags.TwoFlips | src/lib/fs_yaffs2/yaffs_packedtags2.c:168-207 | two wrong bits are reported as not fixed and nothing is put right, unless they make the chunk look unused |
| PackedTags.HighestBitLost | src/lib/fs_yaffs2/yaffs_packedtags2.c:168-207 | an instance: with sequence number 0x7fffffff a flip of the highest bit makes the chunk read as unused |
| NameVal.NameVals.constructor | src/lib/fs_yaffs2/yaffs_nameval.c:32-60 | a cleared buffer holds no records |
| NameVal.NameVals.Find | src/lib/fs_yaffs2/yaffs_nameval.c:32-60 | where the record of the name is, or that there is none; the last record is seen if and only if it ends before the buffer does |
| NameVal.NameVals.Used | src/lib/fs_yaffs2/yaffs_nameval.c:62-79 | the total length of the records that can be seen |
| NameVal.NameVals.Del | src/lib/fs_yaffs2/yaffs_nameval.c:81-97 | exactly this name leaves the map, or it was not in it; nothing behind the buffer is touched |
| NameVal.NameVals.Set | src/lib/fs_yaffs2/yaffs_nameval.c:99-142 | the map has the new value for exactly this name, or one of the errors applies and nothing is changed; the buffer still ends in a zero if and only if a byte is spare; what becomes of the bytes behind the buffer |
| NameVal.NameVals.Get | src/lib/fs_yaffs2/yaffs_nameval.c:144-182 | the value the map of visible records has, its length, or the error |
| NameVal.MapFinds | src/lib/fs_yaffs2/yaffs_nameval.c:32-60 | searching the records agrees with the map |
| NameVal.MapWithout | src/lib/fs_yaffs2/yaffs_nameval.c:81-97 | a record taken out takes exactly its name out of the map |
| NameVal.AfterDelete | src/lib/fs_yaffs2/yaffs_nameval.c:81-97 | shifting the rest down over a record leaves the layout of the others |
| NameVal.AfterSet | src/lib/fs_yaffs2/yaffs_nameval.c:132-141 | writing a record at the end extends the layout |
| NameVal.NameVals.SetThenGet | src/lib/fs_yaffs2/yaffs_nameval.c:99-182 | a value just set is read back if and only if its record left a byte of the buffer to spare |
| NameVal.StaysInside | src/lib/fs_yaffs2/yaffs_nameval.c:132-141 | setting leaves the bytes behind the buffer alone, whatever they are, if and only if four bytes are spare |
| NameVal.ExactFitLost | src/lib/fs_yaffs2/yaffs_nameval.c:99-142 | an instance: a record that fits exactly is accepted and not found, and four bytes behind the buffer are cleared |
| NameVal.NameVals.Do | src/lib/fs_yaffs2/yaffs_nameval.c:81-182 | every operation does to the buffer what it does to the map |
| NameVal.NameVals.Run | src/lib/fs_yaffs2/yaffs_nameval.c:81-182 | over every run, reads give the last value set under every name, up to a record that fills the buffer |
| Summary.SummaryFits | src/lib/fs_yaffs2/yaffs_summary.c:72-98 | for all geometries that leave room for data, the summary fits between the data and the end of the block |
| Summary.UsedSuffices | src/lib/fs_yaffs2/yaffs_summary.c:79-87 | the chunks set aside suffice for the tags of all chunks of a block, with no more to spare than the formula rounds up |
| Summary.BlockSummary.Gather | src/lib/fs_yaffs2/yaffs_summary.c:245-273 | exactly the tags of this chunk are recorded, and the summary is due with the last data chunk and no other |
| Summary.BlockSummary.Write | src/lib/fs_yaffs2/yaffs_summary.c:117-175 | succeeds exactly if every page does, and then the summary is on them; only pages after the data and within the block are written, so it never sets itself off again |
| Summary.BlockSummary.Read | src/lib/fs_yaffs2/yaffs_summary.c:177-243 | what is read is what the pages say, with the right tags on every page and the header of the last page right for it; if the pages can be read so, it is read |
| Summary.BlockSummary.WrittenIsReadable | src/lib/fs_yaffs2/yaffs_summary.c:117-243 | a summary that was written can be read so |
| Summary.SumIsTotal | src/lib/fs_yaffs2/yaffs_summary.c:100-115 | the sum in the header is the plain total of the bytes modulo 2^32 |
| Summary.TagsBack | src/lib/fs_yaffs2/yaffs_summary.c:37-41 | the tags of a chunk are three words, least significant byte first, in this order, and come back |
| Bitmap.SetChunkBit | src/lib/fs_yaffs2/yaffs_bitmap.c:59-65 | exactly this chunk joins the set |
| Bitmap.ClearChunkBit | src/lib/fs_yaffs2/yaffs_bitmap.c:51-57 | exactly this chunk leaves it |
| Bitmap.CheckChunkBit | src/lib/fs_yaffs2/yaffs_bitmap.c:67-73 | membership |
| Bitmap.StillSomeChunks | src/lib/fs_yaffs2/yaffs_bitmap.c:75-86 | whether the set is empty |
| Bitmap.CountChunkBits | src/lib/fs_yaffs2/yaffs_bitmap.c:88-98 | its size, by adding up table entries |

## Left out

- FlashDevice.Device.Run: soft deletion is not among its operations, because YAFFS2 empties a file before it soft deletes it; `SoftDelFile` is proved on its own. The mount scan does not establish the exact free-chunk count when summaries leave spare pages unscanned, so the count is proved as kept by run-time steps from a formatted device.
- FlashDevice.Device.GcBlock: the urgency of collection and the cleanup list of soft deleted files are left to the caller; collection of a checkpoint block, which the code can express but never reaches, is not modelled. A header copy keeps its data as it is in the device; the stored size that the code updates in it is the subject of `LogCollection.CopyHeader`.
- FlashDevice.Device.SelectBlock: of the candidates that the search weighs up by their pages in use it models the admission of one; the fallback to the recorded oldest dirty block is admitted by the same rule, its sequence number being that of the record.
- FlashDevice.Device.Collect: the device's pages carry no file sizes, so what a mount would make of them is proved on the log of tags (`LogRun`) and not joined to the device's state.
- FlashDevice.Device.SummaryWrite: what the summary says is modelled in `Summary`, not in the device.
- FlashDevice.Device.RetireBlock: the bad-block marker written to the block is not modelled.
- FlashDevice.Device.CheckptWriteBlocks: the pages of a checkpoint block are filled in one step; the stream in them is modelled in `CheckptStream`.
- FlashDevice.Device.WriteNewChunk: a configured limit of zero attempts, which means trying for ever, is not modelled.
- MountScan.Mount.ScanBackwards: shadowing, objects that are not files, and the erasure of blocks found without pages in use during the scan are not modelled; file offsets wrap at 2^32 as in the code.
- LogCollection.EraseKeepsReads: its condition is that of the moment of erasure; what the code asks, at the moment of selection, is the subject of `LogErase` and `LogRun`.
- LogCollection.CollectionKeepsReads: a collection in one go; rounds with anything in between are the subject of `LogRun.CollectionInRun`.
- LogRun.MountReadsBack: what a ghost reads as is not said. Writes that fail leave nothing in the log.
- LogMount.FoundWithin: speaks of chunks and not of bytes; between the steps of a cut an older page of its last chunk may reach beyond the stored size.
- LogRun.SelectStep: asks what the oldest dirty number stands for; where that number has lapsed (`FlashDevice.Device.GcBlock` says when), the code can admit a block that this does not.
- LogRun.RestartStep: a mount from a checkpoint, which finds memory as it was, is no step; the files that the scan finds in the unlinked or the deleted directory are then deleted by the operations `Delete` and `Drop`, one by one.
- FileCache.FileSystem.Run: its statements hold as long as no flash write has failed (`intact`), because a flush ignores failed writes; and offsets stay within what the callers check. Slots are never locked between calls.
- FileCache.FileSystem.WrFile: when a small hole is refused half way, the zeros already in the cache stay there, dirty, and are written beyond the size later on; what is recorded of the size is then not described. Whether the file is being deleted, in which case no marker is written, is left out.
- TnodeTree.FileVar.AddFindTnode0: the tree is a value that is replaced on the path to the root, so updating nodes in place and sharing between pointers are not captured; running out of memory is left out.
- TnodeLeaf.LoadTnode0: chunk groups are of size one.
- CheckptStream.RoundTrip: byte swapping is left out. What is reported is described for parts of other than one byte, as all parts are that the code writes.
- CheckptStream.Reader.Read: after a chunk has been refused for its header the buffer lies open to further reads, as in the code; nothing is said of what they return. A page that cannot be corrected counts as not programmed.
- CheckptStream.Writer.Open: flash writes of checkpoint pages are taken to succeed; erasing may fail.
- NameVal.NameVals.Set: is not described for a buffer that a record has filled to the brim; that record would be overwritten. Memory of at least four bytes is taken to lie behind the buffer.
- Summary.BlockSummary.Read: the sum in the header is over the gathered tags, as written; the use of a summary outside the scan, which leaves the sequence number unset, is left out.
- PackedTags.UnpackTags2: words lie in memory least significant byte first; use without the code is covered by `TagsRoundTrip`.
- Ecc.TwoBits: the data has at most 2^32 bytes, so that line numbers fit the code's words; the separate code for 256-byte sectors is left out.
- UartTransmit.TransmitSafety: the register that controls a transfer reads back the position reached, and is read only after it has been loaded; cache-line flushing and baud rate are hardware effects. Waiting loops are steps that change nothing. The ring has at least three slots.
- UartReceive.ReceiveSafety: likewise; `uart_peek`, which looks into the transmit ring, is left out.
- YAFFS1 layout and scan, inband tags, directories, hard links, renames, extended attributes on objects, Unicode names, timestamps, the timing of refreshes and endian swapping: they add members rather than difficulty.
- `nval_list`, `nval_hasvalues`, temporary buffers, free lists of tnodes and objects, tracing and statistics: bookkeeping without a property of its own.
