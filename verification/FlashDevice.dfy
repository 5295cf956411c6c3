/** The allocator, chunk deletion, block erasure and garbage collection of a mounted device (yaffs_guts.c,
    yaffs_nand.c, yaffs_summary.c and the checkpoint erase of yaffs_checkptrw.c), step by step on its state.
    What the hardware answers is any sequence of answers: every erase, write and erased-check may succeed or fail. */
module FlashDevice {
  import opened Answers
  import opened Arith
  import opened Bytes
  import opened ObjectIds
  import opened Options
  import opened FlashState

  class Device {
    const chunksPerBlock: nat
    const chunksPerSummary: nat  // zero when block summaries are off
    const summaryPages: nat
    const nReservedBlocks: nat
    const writeAttempts: nat
    const flash: nat -> bool  // the answers to the questions whether a page is erased and whether a write or an erase has worked

    var blocks: seq<BlockInfo>
    var nand: map<Addr, Page>
    var objects: map<nat, Obj>
    var nFreeChunks: int
    var nErasedBlocks: int
    var blocksInCheckpt: int
    var isCheckpointed: bool
    var checkptBlocksRequired: int
    var allocBlock: int
    var allocPage: nat
    var allocBlockFinder: int
    var seqNumber: nat
    var oldestDirtySeq: nat
    var oldestDirtyBlock: Option<nat>
    var gcBlock: Option<nat>
    var gcChunk: nat
    var asked: nat  // how many questions the flash has answered
    ghost var tracked: bool  // whether oldestDirtySeq is being kept up
    ghost var failures: nat  // how many pages have failed to take a write
    ghost var log: seq<Place>  // where the chunks of files and headers were written, in order

    ghost predicate Geometry() {
      && chunksPerBlock >= 2 && writeAttempts > 0
      && (chunksPerSummary > 0 ==> summaryPages > 0 && chunksPerSummary + summaryPages <= chunksPerBlock)
    }

    ghost function State(): Core
      reads this
    {
      Core(chunksPerBlock, chunksPerSummary, blocks, nand, nFreeChunks, nErasedBlocks, blocksInCheckpt,
           allocBlock, allocPage, seqNumber, oldestDirtySeq, tracked)
    }

    /** Everything that holds between two driver steps; the pages in loose have their bit set but belong to nobody. */
    ghost predicate Valid(loose: set<Addr>)
      reads this
    {
      && Geometry()
      && CoreOk(State())
      && (allocBlock >= 0 ==> allocPage < chunksPerBlock)
      && FilesOk(blocks, nand, objects, loose)
      && LogOk(log, seqNumber, allocBlock, allocPage)
    }

    /** Between operations, a block whose collection has begun is full again. */
    ghost predicate GcFull()
      reads this
    {
      gcBlock.Some? ==> gcBlock.value < |blocks| && blocks[gcBlock.value].state == Full
    }

    /** No page of the block in use lies before the one that collection has come to. */
    ghost predicate OnlyAhead(b: nat)
      reads this
      requires b < |blocks|
    {
      forall k :: k in blocks[b].bits ==> k >= gcChunk
    }

    /** As long as no collection has failed, it leaves nothing behind it and the oldest dirty sequence number covers
        every full block with discarded pages. */
    ghost predicate GcClean()
      reads this
    {
      tracked && (gcBlock.Some? && gcBlock.value < |blocks| ==> OnlyAhead(gcBlock.value))
    }

    /** No checkpoint is valid, in memory or on flash. */
    predicate CheckptGone()
      reads this
    {
      !isCheckpointed && blocksInCheckpt <= 0
    }

    /** A freshly formatted device of n blocks with no files. */
    constructor (n: nat, chunksPerBlock: nat, chunksPerSummary: nat, summaryPages: nat, nReservedBlocks: nat, writeAttempts: nat, seqNumber: nat, flash: nat -> bool)
      requires chunksPerBlock >= 2 && writeAttempts > 0
      requires chunksPerSummary > 0 ==> summaryPages > 0 && chunksPerSummary + summaryPages <= chunksPerBlock
      ensures Valid({}) && nFreeChunks == n * chunksPerBlock && nErasedBlocks == n && objects == map[] && log == []
      ensures GcFull() && GcClean() && gcBlock == None && gcChunk == 0 && this.flash == flash && asked == 0 && failures == 0
      ensures allocBlock == -1 && allocBlockFinder == -1 && oldestDirtySeq == 0 && CheckptGone() && checkptBlocksRequired == 0
    {
      this.chunksPerBlock, this.chunksPerSummary, this.summaryPages := chunksPerBlock, chunksPerSummary, summaryPages;
      this.nReservedBlocks, this.writeAttempts, this.seqNumber, this.flash, asked := nReservedBlocks, writeAttempts, seqNumber, flash, 0;
      blocks := seq(n, _ => BlockInfo(Empty, 0, {}, 0, {}, 0, false, false, true, false));
      nand, objects := map[], map[];
      nFreeChunks, nErasedBlocks, blocksInCheckpt, isCheckpointed, checkptBlocksRequired := n * chunksPerBlock, n, 0, false, 0;
      allocBlock, allocPage, allocBlockFinder := -1, 0, -1;
      oldestDirtySeq, oldestDirtyBlock, gcBlock, gcChunk, tracked, failures, log := 0, None, None, 0, true, 0, [];
      FormattedOk(chunksPerBlock, n);
    }

    // ----- Asking the flash -----

    ghost predicate LastAnswer()
      reads this
    {
      asked > 0 && flash(asked - 1)
    }

    method Ask(ghost loose: set<Addr>) returns (ok: bool)
      modifies this`asked
      ensures ok == flash(old(asked)) && asked == old(asked) + 1
      ensures old(Valid(loose)) ==> Valid(loose)
    {
      hide CoreOk, LogOk, FilesOk, Geometry;
      ok := flash(asked);
      asked := asked + 1;
    }

    // ----- Erasing the checkpoint -----

    lemma ValidMeans(loose: set<Addr>)
      requires Valid(loose)
      ensures Geometry() && CoreOk(State()) && FilesOk(blocks, nand, objects, loose) && (allocBlock >= 0 ==> allocPage < chunksPerBlock)
    {
    }

    /** Takes every checkpoint block out of the checkpoint: it becomes empty, or dead if it will not erase. */
    method CheckptErase(ghost loose: set<Addr>)
      requires Valid(loose)
      modifies this`blocks, this`nand, this`nFreeChunks, this`nErasedBlocks, this`blocksInCheckpt, this`asked
      ensures Valid(loose) && blocksInCheckpt == 0 && asked == old(asked) + old(blocksInCheckpt)
      ensures Keeps(old(State()), State(), {}, -1)
      ensures CheckptErased(flash, old(asked), old(blocks), blocks, |blocks|)
    {
      hide CoreOk, LogOk, ErasingCheckpt, Erased, FilesOk, Keeps, CheckptErased, CountState;
      ghost var c := State();
      StartErasing(c, flash, asked);
      var i := 0;
      while i < |blocks|
        invariant 0 <= i <= |blocks|
        invariant ErasingCheckpt(old(State()), c, i) && CheckptErased(flash, old(asked), old(blocks), blocks, i)
        invariant |blocks| == |old(blocks)| && asked == old(asked) + CountState(old(blocks)[..i], Checkpoint)
        invariant c == State().(inCheckpt := c.inCheckpt)
      {
        CheckptErasedMore(old(State()), c, flash, old(asked), i);
        if blocks[i].state == Checkpoint {
          ghost var bi := blocks[i].(state := if flash(asked) then Empty else Dead);
          EraseCheckptBlock(old(State()), c, i, flash(asked));
          c := Erased(c, i, bi, flash(asked));
          EraseOrRetire(i);
        } else {
          KeepBlock(old(State()), c, i);
        }
        i := i + 1;
      }
      blocksInCheckpt := 0;
      CheckptAllErased(old(State()), c, objects, loose);
      AllCheckptErased(old(State()), blocks);
      assert c == State();
    }

    method EraseOrRetire(i: nat)
      requires i < |blocks|
      modifies this`blocks, this`nand, this`nFreeChunks, this`nErasedBlocks, this`asked
      ensures var erased := flash(old(asked));
              && asked == old(asked) + 1
              && blocks == old(blocks)[i := old(blocks)[i].(state := if erased then Empty else Dead)]
              && nand == (if erased then WithoutBlock(old(nand), i) else old(nand))
              && nErasedBlocks == old(nErasedBlocks) + One(erased)
              && nFreeChunks == old(nFreeChunks) + if erased then chunksPerBlock else 0
    {
      var erased := Ask({});
      blocks := blocks[i := blocks[i].(state := if erased then Empty else Dead)];
      if erased {
        nand := WithoutBlock(nand, i);
        nErasedBlocks := nErasedBlocks + 1;
        nFreeChunks := nFreeChunks + chunksPerBlock;
      }
    }

    /** A change to the file system makes the checkpoint on flash stale. */
    method CheckptInvalidate(ghost loose: set<Addr>)
      requires Valid(loose)
      modifies this`blocks, this`nand, this`nFreeChunks, this`nErasedBlocks, this`blocksInCheckpt, this`isCheckpointed, this`asked
      ensures Valid(loose) && CheckptGone() && !isCheckpointed && blocksInCheckpt == 0 && old(asked) <= asked == old(asked) + old(blocksInCheckpt)
      ensures Keeps(old(State()), State(), {}, -1)
      ensures GcKept(old(blocks), gcBlock, blocks, gcBlock)
    {
      hide CoreOk, LogOk, FilesOk, CheckptErased;
      NoCheckptBlocks(State());
      if isCheckpointed || blocksInCheckpt > 0 {
        isCheckpointed := false;
        CheckptErase(loose);
        GcKeptByKeeping(old(State()), State(), {}, -1, gcBlock, gcBlock);
      }
    }

    // ----- The oldest dirty sequence number -----

    /** Looks for the oldest full block with discarded pages; finding none leaves the number as it is. */
    method CalcOldestDirtySeq(ghost loose: set<Addr>)
      requires Valid(loose)
      modifies this`oldestDirtySeq, this`oldestDirtyBlock, this`tracked
      ensures Valid(loose)
      ensures (exists i :: 0 <= i < |blocks| && HasDiscarded(chunksPerBlock, blocks[i])) ==>
                && tracked
                && (forall i :: 0 <= i < |blocks| && HasDiscarded(chunksPerBlock, blocks[i]) ==> oldestDirtySeq <= blocks[i].seqNumber)
                && exists i :: 0 <= i < |blocks| && HasDiscarded(chunksPerBlock, blocks[i]) && blocks[i].seqNumber == oldestDirtySeq && oldestDirtyBlock == Some(i)
      ensures (forall i :: 0 <= i < |blocks| ==> !HasDiscarded(chunksPerBlock, blocks[i])) ==>
                oldestDirtySeq == old(oldestDirtySeq) && oldestDirtyBlock == old(oldestDirtyBlock) && tracked
    {
      var oldest: nat := seqNumber + 1;
      var blockNo: Option<nat> := None;
      var i := 0;
      while i < |blocks|
        invariant 0 <= i <= |blocks|
        invariant forall j :: 0 <= j < i && HasDiscarded(chunksPerBlock, blocks[j]) ==> oldest <= blocks[j].seqNumber
        invariant blockNo.None? ==> oldest == seqNumber + 1
        invariant blockNo.Some? ==> blockNo.value < i && HasDiscarded(chunksPerBlock, blocks[blockNo.value]) && oldest == blocks[blockNo.value].seqNumber
      {
        hide CoreOk, LogOk, FilesOk, HasDiscarded;
        if HasDiscarded(chunksPerBlock, blocks[i]) && blocks[i].seqNumber < oldest {
          oldest, blockNo := blocks[i].seqNumber, Some(i);
        }
        i := i + 1;
      }
      hide HasDiscarded, FilesOk, BlocksOk, Counted, NandOk, SummaryOk;
      if blockNo.Some? {
        oldestDirtySeq, oldestDirtyBlock := oldest, blockNo;
      }
      tracked := true;
    }

    /** A block with a shrink header may be collected only when no strictly older full block holds discarded
        pages, so that nothing its headers hide can come back. */
    method BlockOkForGc(b: nat, ghost loose: set<Addr>) returns (ok: bool)
      requires Valid(loose) && b < |blocks|
      modifies this`oldestDirtySeq, this`oldestDirtyBlock, this`tracked
      ensures Valid(loose) && (old(tracked) ==> tracked)
      ensures ok <==> !blocks[b].hasShrinkHdr || old(Admitted(State(), b))
      ensures ok && blocks[b].hasShrinkHdr && tracked && blocks[b].seqNumber > 0 ==>
                forall i :: 0 <= i < |blocks| && HasDiscarded(chunksPerBlock, blocks[i]) ==> blocks[b].seqNumber <= blocks[i].seqNumber
    {
      hide HasDiscarded, FilesOk, BlocksOk, Counted, NandOk, SummaryOk, AllocOk;
      if !blocks[b].hasShrinkHdr { return true; }
      if oldestDirtySeq == 0 { CalcOldestDirtySeq(loose); }
      ok := blocks[b].seqNumber <= oldestDirtySeq;
    }

    /** Called when the sequence number of a block becomes invalid. */
    method ClearOldestDirtySeq(b: nat, ghost loose: set<Addr>)
      requires Valid(loose) && b < |blocks|
      modifies this`oldestDirtySeq, this`oldestDirtyBlock
      ensures Valid(loose)
      ensures oldestDirtySeq == (if blocks[b].seqNumber == old(oldestDirtySeq) then 0 else old(oldestDirtySeq))
      ensures oldestDirtyBlock == (if blocks[b].seqNumber == old(oldestDirtySeq) then None else old(oldestDirtyBlock))
    {
      hide HasDiscarded, FilesOk, BlocksOk, Counted, NandOk, SummaryOk, AllocOk;
      if blocks[b].seqNumber == oldestDirtySeq {
        oldestDirtySeq, oldestDirtyBlock := 0, None;
      }
    }

    // ----- Erasing and retiring blocks -----

    /** A block with nothing in use is given up for good, and its pages stop counting as free. */
    method RetireBlock(b: nat, ghost loose: set<Addr>)
      requires Valid(loose) && b < |blocks| && blocks[b].bits == {} && (blocks[b].state == Full || blocks[b].state == Collecting)
      modifies this`blocks, this`nand, this`nFreeChunks, this`nErasedBlocks, this`blocksInCheckpt, this`isCheckpointed, this`asked,
               this`oldestDirtySeq, this`oldestDirtyBlock
      ensures Valid(loose)
      ensures Keeps(old(State()), State(), {}, b) && blocks[b] == old(blocks)[b].(state := Dead, needsRetiring := false)
      ensures oldestDirtySeq == if old(blocks)[b].seqNumber == old(oldestDirtySeq) then 0 else old(oldestDirtySeq)
      ensures CheckptGone() && old(asked) <= asked == old(asked) + old(blocksInCheckpt)
    {
      hide CoreOk, LogOk, FilesOk, Keeps, Erased;
      CheckptInvalidate(loose);
      ghost var c1 := State();
      BusyBlockKept(old(State()), c1, b);
      ClearOldestDirtySeq(b, loose);
      var bi := blocks[b].(state := Dead, needsRetiring := false);
      ghost var c := State();
      BlockErased(c, b, bi, false, objects, loose);
      nFreeChunks := nFreeChunks - chunksPerBlock;
      blocks := blocks[b := bi];
      KeepsSame(old(State()), c1, old(State()), c, {}, -1);
      KeepsThen(old(State()), c, State(), {}, -1, b);
    }

    /** A block that has just been erased is empty again. */
    method CleanBlock(b: nat, ghost loose: set<Addr>)
      requires Valid(loose) && b < |blocks| && blocks[b].bits == {} && (blocks[b].state == Full || blocks[b].state == Collecting)
      modifies this`blocks, this`nand, this`nErasedBlocks
      ensures Valid(loose)
      ensures Keeps(old(State()), State(), {}, b)
      ensures blocks[b] == BlockInfo(Empty, 0, {}, 0, {}, 0, false, old(blocks)[b].needsRetiring, true, false)
      ensures forall a :: a in nand ==> a.block != b
    {
      hide CoreOk, LogOk, FilesOk, Keeps, Erased;
      var bi := blocks[b].(state := Empty, seqNumber := 0, pagesInUse := 0, softDelPages := 0, hasShrinkHdr := false,
                           skipErasedCheck := true, hasSummary := false, bits := {}, soft := {});
      BlockErased(State(), b, bi, true, objects, loose);
      nand := WithoutBlock(nand, b);
      blocks := blocks[b := bi];
      nErasedBlocks := nErasedBlocks + 1;
    }

    method ForgetGcBlock(b: nat, ghost loose: set<Addr>)
      requires Valid(loose)
      modifies this`gcBlock
      ensures Valid(loose) && gcBlock == if old(gcBlock) == Some(b) then None else old(gcBlock)
    {
      hide CoreOk, LogOk, FilesOk, Geometry;
      if gcBlock == Some(b) { gcBlock := None; }
    }

    /** Has the flash erase a block, of which nothing is noted yet. */
    method EraseBlock(b: nat, ghost loose: set<Addr>) returns (erasedOk: bool)
      requires Valid(loose) && b < |blocks| && Busy(blocks[b].state)
      modifies this`blocks, this`nand, this`nFreeChunks, this`nErasedBlocks, this`blocksInCheckpt, this`isCheckpointed, this`asked
      ensures Valid(loose) && Keeps(old(State()), State(), {}, -1) && b < |blocks| && blocks[b] == old(blocks)[b]
      ensures CheckptGone() && blocksInCheckpt == 0 <= old(blocksInCheckpt)
      ensures asked == old(asked) + old(blocksInCheckpt) + 1 && erasedOk == LastAnswer()
    {
      hide CoreOk, LogOk, FilesOk, Keeps, Valid;
      ghost var c := State();
      CheckptInvalidate(loose);
      BusyBlockKept(c, State(), b);
      ghost var c1 := State();
      erasedOk := Ask(loose);
      KeepsSame(c, c1, c, State(), {}, -1);
    }

    method CleanOrRetire(b: nat, erasedOk: bool, ghost loose: set<Addr>)
      requires Valid(loose) && b < |blocks| && blocks[b].bits == {} && (blocks[b].state == Full || blocks[b].state == Collecting)
      requires erasedOk ==> CheckptGone()
      modifies this`blocks, this`nand, this`nFreeChunks, this`nErasedBlocks, this`blocksInCheckpt, this`isCheckpointed, this`asked,
               this`oldestDirtySeq, this`oldestDirtyBlock
      ensures Valid(loose) && Keeps(old(State()), State(), {}, b) && b < |blocks|
      ensures blocks[b] == if erasedOk then BlockInfo(Empty, 0, {}, 0, {}, 0, false, old(blocks)[b].needsRetiring, true, false)
                           else old(blocks)[b].(state := Dead, needsRetiring := false)
      ensures erasedOk ==> forall a :: a in nand ==> a.block != b
      ensures oldestDirtySeq == if !erasedOk && old(blocks)[b].seqNumber == old(oldestDirtySeq) then 0 else old(oldestDirtySeq)
      ensures CheckptGone() && asked == old(asked) + (if erasedOk then 0 else old(blocksInCheckpt))
      ensures erasedOk || old(blocksInCheckpt) >= 0
    {
      hide CoreOk, LogOk, FilesOk, Keeps, Valid;
      if !erasedOk {
        RetireBlock(b, loose);
      } else {
        CleanBlock(b, loose);
      }
      KeepsLength(old(State()), State(), b);
    }

    /** A block whose pages are all out of use is erased, or retired if it has failed or will not erase. */
    method BlockBecameDirty(b: nat, ghost loose: set<Addr>)
      requires Valid(loose) && b < |blocks| && blocks[b].bits == {} && (blocks[b].state == Full || blocks[b].state == Collecting)
      modifies this`blocks, this`nand, this`nFreeChunks, this`nErasedBlocks, this`blocksInCheckpt, this`isCheckpointed, this`asked,
               this`oldestDirtySeq, this`oldestDirtyBlock, this`gcBlock
      ensures Valid(loose)
      ensures Keeps(old(State()), State(), {}, b) && |blocks| == |old(blocks)|
      ensures old(blocksInCheckpt) >= 0 && asked == old(asked) + old(blocksInCheckpt) + if old(blocks)[b].needsRetiring then 0 else 1
      ensures if old(blocks)[b].needsRetiring || !LastAnswer() then blocks[b] == old(blocks)[b].(state := Dead, needsRetiring := false)
              else blocks[b] == BlockInfo(Empty, 0, {}, 0, {}, 0, false, false, true, false) && forall a :: a in nand ==> a.block != b
      ensures gcBlock == if old(gcBlock) == Some(b) then None else old(gcBlock)
      ensures oldestDirtySeq == if old(blocks)[b].seqNumber == old(oldestDirtySeq) then 0 else old(oldestDirtySeq)
      ensures CheckptGone()
    {
      hide CoreOk, LogOk, FilesOk, Keeps, Valid;
      ghost var c0 := State();
      KeepsItself(c0);
      ClearOldestDirtySeq(b, loose);
      ForgetGcBlock(b, loose);
      var erasedOk := false;
      ghost var c1 := State();
      KeepsItself(c1);
      if !blocks[b].needsRetiring {
        erasedOk := EraseBlock(b, loose);
      }
      ghost var c := State();
      KeepsSame(c1, c, c0, c, {}, -1);
      CleanOrRetire(b, erasedOk, loose);
      KeepsThen(c0, c, State(), {}, -1, b);
      KeepsLength(c0, State(), b);
    }

    // ----- Deleting a page -----

    /** Whether a block that discards a page is older than all known to have discarded any. */
    ghost predicate DirtiesOldest(b: nat)
      reads this
      requires b < |blocks|
    {
      0 != oldestDirtySeq > blocks[b].seqNumber
    }

    /** The first part of a deletion: the page's bit goes and the page counts as free. */
    method FreePage(a: Addr, ghost loose: set<Addr>)
      requires Valid(loose) && a in loose && InUse(blocks, a) && a.page !in blocks[a.block].soft
      modifies this`blocks, this`nFreeChunks, this`oldestDirtySeq, this`oldestDirtyBlock
      ensures Valid(loose - {a}) && Keeps(old(State()), State(), {a}, a.block)
      ensures a.block < |blocks| == |old(blocks)| && blocks[a.block] == BitCleared(old(blocks)[a.block], a.page)
      ensures blocks[a.block].bits == {} <==> blocks[a.block].pagesInUse == 0
      ensures blocks[a.block].state in {Allocating, Full, Collecting}
      ensures oldestDirtySeq == (if old(DirtiesOldest(a.block)) then blocks[a.block].seqNumber else old(oldestDirtySeq))
      ensures oldestDirtyBlock == (if old(DirtiesOldest(a.block)) then Some(a.block) else old(oldestDirtyBlock))
      ensures oldestDirtySeq <= blocks[a.block].seqNumber
    {
      hide CoreOk, LogOk, FilesOk, Keeps, Deleted;
      var b := a.block;
      assert b < |blocks|;
      hide InUse, DirtySeq;
      PageDeleted(State(), a, objects, loose);
      if oldestDirtySeq != 0 && oldestDirtySeq > blocks[b].seqNumber {
        oldestDirtySeq, oldestDirtyBlock := blocks[b].seqNumber, Some(b);
      }
      nFreeChunks := nFreeChunks + 1;
      blocks := blocks[b := BitCleared(blocks[b], a.page)];
    }

    /** Takes a page out of use. The block is erased when that was its last page in use, unless it is still being
        allocated from or carries a shrink header. */
    method ChunkDel(a: Addr, ghost loose: set<Addr>)
      requires Valid(loose) && a in loose && InUse(blocks, a) && a.page !in blocks[a.block].soft
      modifies this`blocks, this`nand, this`nFreeChunks, this`nErasedBlocks, this`blocksInCheckpt, this`isCheckpointed, this`asked,
               this`oldestDirtySeq, this`oldestDirtyBlock, this`gcBlock
      ensures Valid(loose - {a})
      ensures Keeps(old(State()), State(), {a}, a.block)
      ensures oldestDirtySeq <= old(blocks)[a.block].seqNumber && oldestDirtySeq <= old(oldestDirtySeq)
      ensures asked >= old(asked) && |blocks| == |old(blocks)|
      ensures var bi := BitCleared(old(blocks)[a.block], a.page);
              if bi.bits == {} && !bi.hasShrinkHdr && bi.state != Allocating
              then && CheckptGone()
                   && blocks[a.block].state == (if bi.needsRetiring || !LastAnswer() then Dead else Empty) && !blocks[a.block].needsRetiring
                   && gcBlock == if old(gcBlock) == Some(a.block) then None else old(gcBlock)
              else && blocks[a.block] == bi && gcBlock == old(gcBlock)
                   && oldestDirtySeq == if old(DirtiesOldest(a.block)) then bi.seqNumber else old(oldestDirtySeq)
      ensures GcKept(old(blocks), old(gcBlock), blocks, gcBlock)
      ensures old(CheckptGone()) ==> CheckptGone()
    {
      hide CoreOk, LogOk, FilesOk, Keeps, Valid, InUse;
      var b := a.block;
      FreePage(a, loose);
      ghost var c := State();
      if blocks[b].pagesInUse == 0 && !blocks[b].hasShrinkHdr && blocks[b].state != Allocating {
        BlockBecameDirty(b, loose - {a});
        KeepsThen(old(State()), c, State(), {a}, b, b);
      }
      GcKeptByKeeping(old(State()), State(), {a}, b, old(gcBlock), gcBlock);
    }

    // ----- Allocating pages -----

    /** Whether n more chunks may be taken without touching the blocks held back for collection and checkpoint. */
    predicate AllocAvailable(n: nat)
      reads this
    {
      var checkptBlocks := if checkptBlocksRequired - blocksInCheckpt < 0 then 0 else checkptBlocksRequired - blocksInCheckpt;
      nFreeChunks > (nReservedBlocks + checkptBlocks) * chunksPerBlock + n
    }

    /** Whether no page can be had. */
    predicate NoSpace(useReserve: bool)
      reads this
    {
      (!useReserve && !AllocAvailable(1)) || (allocBlock < 0 && nErasedBlocks < 1)
    }

    /** Searches cyclically for an empty block, gives it the next sequence number and opens it for allocation. The
        search succeeds whenever the count of erased blocks says that it can. */
    method FindAllocBlock() returns (b: int)
      requires Geometry() && CoreOk(State()) && allocBlock == -1
      modifies this`blocks, this`nErasedBlocks, this`seqNumber, this`allocBlockFinder
      ensures old(nErasedBlocks) >= 1 <==> b >= 0
      ensures b < 0 ==> b == -1 && State() == old(State())
      ensures b >= 0 ==>
                && seqNumber == old(seqNumber) + 1
                && b < |blocks| == |old(blocks)| && old(blocks)[b].state == Empty
                && State().(allocBlock := b, allocPage := 0) == BlockTaken(old(State()), b)
                && blocks == old(blocks)[b := old(blocks)[b].(state := Allocating, seqNumber := seqNumber)]
                && allocBlockFinder == b && FirstEmpty(old(blocks), old(SearchStart()), b)
    {
      hide CoreOk, LogOk, BlockTaken, FirstEmpty;
      ErasedCount(State());
      if nErasedBlocks < 1 { return -1; }
      ghost var start := SearchStart();
      assert NoneEmpty(blocks, start, 0);
      hide NoneEmpty, Cyclic;
      var i, n := 0, |blocks|;
      while i < n
        invariant 0 <= i <= n == |blocks| && NoneEmpty(blocks, start, i)
        invariant State() == old(State())
        invariant i == 0 ==> start == SearchStart()
        invariant i > 0 ==> allocBlockFinder == Cyclic(start, i - 1, n)
        invariant start < n
      {
        AdvanceFinder(start, i);
        if blocks[allocBlockFinder].state == Empty {
          b := allocBlockFinder;
          FoundFirst(blocks, start, i, b);
          TakeBlock(b);
          return b;
        }
        SearchStep(blocks, start, i);
        i := i + 1;
      }
      SearchedAll(blocks, start);
      assert false;
    }

    /** Where the search for an empty block begins: behind the block found last. */
    ghost function SearchStart(): nat
      reads this
    {
      if 0 <= allocBlockFinder + 1 < |blocks| then allocBlockFinder + 1 else 0
    }

    method AdvanceFinder(ghost start: nat, ghost i: nat)
      requires i < |blocks| && start < |blocks|
      requires if i == 0 then start == SearchStart() else allocBlockFinder == Cyclic(start, i - 1, |blocks|)
      modifies this`allocBlockFinder
      ensures allocBlockFinder == Cyclic(start, i, |blocks|)
    {
      allocBlockFinder := allocBlockFinder + 1;
      if allocBlockFinder < 0 || allocBlockFinder > |blocks| - 1 { allocBlockFinder := 0; }
    }

    method TakeBlock(b: nat)
      requires b < |blocks| && blocks[b].state == Empty
      modifies this`blocks, this`nErasedBlocks, this`seqNumber
      ensures seqNumber == old(seqNumber) + 1 && |blocks| == old(|blocks|)
      ensures State().(allocBlock := b, allocPage := 0) == BlockTaken(old(State()), b)
      ensures blocks == old(blocks)[b := old(blocks)[b].(state := Allocating, seqNumber := seqNumber)]
    {
      BlockTakenFields(State(), b);
      hide BlockTaken;
      seqNumber := seqNumber + 1;
      blocks := blocks[b := blocks[b].(state := Allocating, seqNumber := seqNumber)];
      nErasedBlocks := nErasedBlocks - 1;
    }

    /** Opens a block for allocation if there is none, as far as one can be had. */
    method OpenBlock(ghost loose: set<Addr>)
      requires Valid(loose)
      modifies this`blocks, this`nErasedBlocks, this`seqNumber, this`allocBlock, this`allocPage, this`allocBlockFinder
      ensures Valid(loose) && Grows(old(State()), State())
      ensures allocBlock < 0 <==> old(allocBlock) < 0 && old(nErasedBlocks) < 1
      ensures allocBlock < 0 ==> nErasedBlocks == old(nErasedBlocks)
      ensures allocBlock >= 0 ==> NewBlock(old(blocks), Addr(allocBlock, 0)) && (old(allocBlock) >= 0 ==> State() == old(State()))
    {
      hide CoreOk, LogOk, FilesOk, Grows, BlockTaken;
      ghost var c0 := State();
      OnlyOneAllocating(c0);
      GrowsItself(c0);
      if allocBlock < 0 {
        ghost var n, k := seqNumber, allocPage;
        allocBlock := FindAllocBlock();
        NextBlockIsLater(log, n, k, allocBlock);
        allocPage := 0;
        if allocBlock >= 0 {
          AfterBlockTaken(c0, allocBlock);
          BlockTakenGrows(c0, allocBlock);
          BlockTakenFiles(c0, allocBlock, objects, loose);
        } else {
          NoBlockNoPage(c0, State());
        }
      }
    }

    /** Gives out the next page of the allocation block. */
    method NextPage(ghost loose: set<Addr>) returns (a: Addr)
      requires Valid(loose) && allocBlock >= 0
      modifies this`blocks, this`nFreeChunks, this`allocBlock, this`allocPage
      ensures a == old(Addr(allocBlock, allocPage)) && !InUse(old(blocks), a)
      ensures LogOk(log + [Place(seqNumber, a.page)], seqNumber, allocBlock, allocPage)
      ensures Valid(loose + {a}) && JustTaken(State(), a) && Grows(old(State()), State()) && nFreeChunks == old(nFreeChunks) - 1
    {
      hide CoreOk, LogOk, FilesOk, JustTaken, Grows;
      ghost var c := State();
      OnlyOneAllocating(c);
      AfterPageTaken(c);
      PageTakenIsNewest(c, objects, loose);
      a := Addr(allocBlock, allocPage);
      OneMoreWrite(log, seqNumber, allocBlock, allocPage + 1, allocPage);
      blocks := blocks[allocBlock := BitSet(blocks[allocBlock], allocPage)];
      allocPage := allocPage + 1;
      nFreeChunks := nFreeChunks - 1;
      if allocPage >= chunksPerBlock {
        blocks := blocks[allocBlock := blocks[allocBlock].(state := Full)];
        allocBlock := -1;
      }
      assert State() == PageTaken(c);
    }

    /** Takes a page for writing, unless nothing but the reserve is left or no block can be opened. */
    method AllocChunk(useReserve: bool, ghost loose: set<Addr>) returns (r: Option<Addr>)
      requires Valid(loose)
      modifies this`blocks, this`nErasedBlocks, this`nFreeChunks, this`seqNumber, this`allocBlock, this`allocPage, this`allocBlockFinder
      ensures Grows(old(State()), State())
      ensures r.None? ==> Valid(loose)
      ensures r.Some? ==> Valid(loose + {r.value}) && JustTaken(State(), r.value) && NewBlock(old(blocks), r.value) && !InUse(old(blocks), r.value)
      ensures r.Some? ==> LogOk(log + [Place(seqNumber, r.value.page)], seqNumber, allocBlock, allocPage)
      ensures r.None? <==> old(NoSpace(useReserve))
      ensures r.None? ==> NoSpace(useReserve)
      ensures r.None? <==>
                || (!useReserve && old(nFreeChunks) < (nReservedBlocks + Max(checkptBlocksRequired - blocksInCheckpt, 0)) * chunksPerBlock + 2)
                || (old(allocBlock) < 0 && old(nErasedBlocks) < 1)
      ensures r.Some? && !useReserve ==>
                nFreeChunks >= (nReservedBlocks + Max(checkptBlocksRequired - blocksInCheckpt, 0)) * chunksPerBlock + 1
    {
      hide CoreOk, LogOk, FilesOk, JustTaken;
      OpenBlock(loose);
      r := None;
      if !useReserve && !AllocAvailable(1) { return; }
      if allocBlock >= 0 {
        ghost var c := State();
        var a := NextPage(loose);
        GrowsTwice(old(State()), c, State());
        r := Some(a);
      }
    }

    // ----- Writing pages -----

    /** The driver's write. Whoever calls it has to show that the page has not been programmed since its block was
        last erased. */
    method ProgramPage(a: Addr, page: Page)
      requires a !in nand
      modifies this`nand
      ensures nand == old(nand)[a := page]
    {
      nand := nand[a := page];
    }

    /** Gives up the rest of the allocation block. */
    method SkipRestOfBlock(ghost loose: set<Addr>)
      requires Valid(loose)
      modifies this`blocks, this`allocBlock
      ensures Valid(loose) && allocBlock == -1
      ensures State() == Skipped(old(State()))
      ensures blocks == if old(allocBlock) < 0 then old(blocks)
                        else old(blocks)[old(allocBlock) := old(blocks)[old(allocBlock)].(state := Full)]
    {
      hide CoreOk, Ascending, FilesOk;
      OnlyOneAllocating(State());
      AfterSkip(State());
      if allocBlock >= 0 {
        FilesSameBits(blocks, nand, allocBlock, blocks[allocBlock].(state := Full), objects, loose);
        blocks := blocks[allocBlock := blocks[allocBlock].(state := Full)];
        allocBlock := -1;
      }
    }

    lemma RoomForSummary()
      requires Geometry() && chunksPerSummary > 0
      ensures summaryPages > 0 && chunksPerSummary + summaryPages <= chunksPerBlock
    {
    }

    /** Writes the summary of the allocation block into the pages set aside for it, until one fails. */
    method SummaryWrite(ghost loose: set<Addr>) returns (ok: bool, ghost c: Core)
      requires Valid(loose) && allocBlock >= 0 && 0 < chunksPerSummary == allocPage
      modifies this`blocks, this`nand, this`nFreeChunks, this`asked
      ensures SummaryGoing(old(State()), c, objects, loose)
      ensures c == State().(allocPage := c.allocPage) && asked > old(asked)
      ensures ok <==> AllYes(flash, old(asked), old(asked) + summaryPages)
      ensures ok ==> SummaryPages(State(), allocBlock, chunksPerSummary + summaryPages)
      ensures allocBlock < |blocks| == |old(blocks)| && blocks == old(blocks)[allocBlock := blocks[allocBlock]]
      ensures blocks[allocBlock] == old(blocks)[allocBlock].(bits := blocks[allocBlock].bits, pagesInUse := blocks[allocBlock].pagesInUse)
    {
      hide CoreOk, LogOk, FilesOk, SummaryGoing, SummaryPages, AllYes, SaidNo, SummaryPage, InUse, BitSet, Geometry;
      RoomForSummary();
      c := State();
      SummaryStarts(c, objects, loose);
      OnlyOneAllocating(c);
      var b := allocBlock;
      var k := chunksPerSummary;
      SummaryPagesNone(c, b);
      AllYesNone(flash, asked);
      ok := true;
      while ok && k < chunksPerSummary + summaryPages
        invariant chunksPerSummary <= k <= chunksPerSummary + summaryPages
        invariant SummaryGoing(old(State()), c, objects, loose)
        invariant c == State().(allocPage := k)
        invariant b == allocBlock == old(allocBlock)
        invariant asked == old(asked) + k - chunksPerSummary && (!ok ==> asked > old(asked))
        invariant if ok then AllYes(flash, old(asked), asked) else SaidNo(flash, old(asked), asked)
        invariant ok ==> SummaryPages(State(), b, k)
        invariant b < |blocks| == |old(blocks)| && blocks == old(blocks)[b := blocks[b]]
        invariant blocks[b] == old(blocks)[b].(bits := blocks[b].bits, pagesInUse := blocks[b].pagesInUse)
      {
        AllYesMore(flash, old(asked), asked);
        ok, c := NextSummaryPage(k, loose, old(State()), c);
        k := k + 1;
      }
      if !ok { SaidNoWithin(flash, old(asked), asked, old(asked), old(asked) + summaryPages); }
    }

    /** One page of a summary. A page that fails is left programmed but not in use. */
    method NextSummaryPage(k: nat, ghost loose: set<Addr>, ghost c0: Core, ghost c: Core) returns (ok: bool, ghost c': Core)
      requires SummaryGoing(c0, c, objects, loose) && c == State().(allocPage := k) && chunksPerSummary <= k < chunksPerBlock
      requires 0 <= allocBlock < |blocks| && SummaryPages(State(), allocBlock, k)
      modifies this`blocks, this`nand, this`nFreeChunks, this`asked
      ensures SummaryGoing(c0, c', objects, loose) && c' == State().(allocPage := k + 1)
      ensures ok == flash(old(asked)) && asked == old(asked) + 1
      ensures ok ==> SummaryPages(State(), allocBlock, k + 1)
      ensures var b := allocBlock;
              && |blocks| == |old(blocks)| && blocks == old(blocks)[b := blocks[b]]
              && blocks[b] == old(blocks)[b].(bits := blocks[b].bits, pagesInUse := blocks[b].pagesInUse)
    {
      hide CoreOk, LogOk, FilesOk, SummaryGoing, SummaryPages, SummaryPage, InUse, BitSet, Geometry;
      ghost var s := State();
      var page := Page(OBJECTID_SUMMARY, k - chunksPerSummary + 1, seqNumber, false, []);
      SummaryPageDone(c0, c, page, objects, loose);
      SummaryPageFailed(c0, c, page, objects, loose);
      BitSetFields(blocks[allocBlock], k);
      ok := ProgramSummaryPage(allocBlock, k, page);
      if ok {
        c' := SummaryPage(c, page);
        SummaryPagesMore(s, State(), allocBlock, k);
      } else {
        c' := c.(allocPage := k + 1, nand := nand);
      }
    }

    method ProgramSummaryPage(b: nat, k: nat, page: Page) returns (ok: bool)
      requires b < |blocks| && Addr(b, k) !in nand
      modifies this`blocks, this`nand, this`nFreeChunks, this`asked
      ensures ok == flash(old(asked)) && asked == old(asked) + 1 && nand == old(nand)[Addr(b, k) := page]
      ensures blocks == (if ok then old(blocks)[b := BitSet(old(blocks)[b], k)] else old(blocks))
      ensures nFreeChunks == old(nFreeChunks) - if ok then 1 else 0
    {
      ProgramPage(Addr(b, k), page);
      ok := Ask({});
      if ok {
        blocks := blocks[b := BitSet(blocks[b], k)];
        nFreeChunks := nFreeChunks - 1;
      }
    }

    /** The allocation block is given up, with or without a summary. */
    method FinishBlock(ok: bool)
      requires 0 <= allocBlock < |blocks|
      modifies this`blocks, this`allocBlock
      ensures allocBlock == -1
      ensures var b := old(allocBlock); blocks == old(blocks)[b := old(blocks)[b].(state := Full, hasSummary := old(blocks)[b].hasSummary || ok)]
    {
      if ok { blocks := blocks[allocBlock := blocks[allocBlock].(hasSummary := true)]; }
      blocks := blocks[allocBlock := blocks[allocBlock].(state := Full)];
      allocBlock := -1;
    }

    /** Feeds the tags of a page just written to the summary, which is written out when the last page it covers
        has been; the block is then given up whether or not its summary could be written. */
    method SummaryAdd(a: Addr, ghost p: Page, ghost loose: set<Addr>)
      requires Valid(loose) && Written(State(), a, p) && a.page < chunksPerBlock
      requires allocBlock == -1 ==> a.page + 1 == chunksPerBlock
      requires allocBlock >= 0 ==> allocBlock == a.block && allocPage == a.page + 1
      modifies this`blocks, this`nand, this`nFreeChunks, this`allocBlock, this`asked
      ensures Valid(loose) && Written(State(), a, p) && Grows(old(State()), State()) && asked >= old(asked)
      ensures if 0 < chunksPerSummary == a.page + 1
              then && allocBlock == -1 && blocks[a.block].state == Full
                   && (blocks[a.block].hasSummary <==> old(blocks)[a.block].hasSummary || AllYes(flash, old(asked), old(asked) + summaryPages))
                   && (blocks[a.block].hasSummary && !old(blocks)[a.block].hasSummary ==> SummaryPages(State(), a.block, chunksPerSummary + summaryPages))
              else State() == old(State()) && asked == old(asked)
      ensures a.block < |blocks| && a.block < |old(blocks)| && SameFlags(old(blocks)[a.block], blocks[a.block])
    {
      hide CoreOk, Ascending, FilesOk, SummaryGoing, Grows, Written, SummaryPages, AllYes;
      ghost var c0 := State();
      WrittenInUse(c0, a, p);
      GrowsItself(c0);
      if chunksPerSummary > 0 && a.page == chunksPerSummary - 1 {
        var ok;
        ghost var c;
        OnlyOneAllocating(c0);
        BitsBelowAllocPage(c0);
        ok, c := SummaryWrite(loose);
        ghost var s := State();
        SummaryFinished(c0, c, ok, objects, loose, allocPage);
        WrittenStays(c0, c, a, p, ok, objects, loose, allocPage);
        FinishBlock(ok);
        if ok { SummaryPagesStay(s, State(), a.block, chunksPerSummary + summaryPages); }
      }
    }

    /** Programs a page just taken, stamping the device's sequence number on it: a later place in the log than every
        one before. */
    method WrChunkTagsNand(a: Addr, objId: nat, chunkId: nat, isShrink: bool, data: seq<byte>, ghost loose: set<Addr>) returns (ok: bool)
      requires Valid(loose) && a in loose && JustTaken(State(), a)
      requires LogOk(log + [Place(seqNumber, a.page)], seqNumber, allocBlock, allocPage)
      modifies this`blocks, this`nand, this`nFreeChunks, this`allocBlock, this`log, this`asked
      ensures log == old(log) + [Place(old(seqNumber), a.page)]
      ensures ok == flash(old(asked)) && asked > old(asked)
      ensures a.block < |blocks| && a.block < |old(blocks)| && SameFlags(old(blocks)[a.block], blocks[a.block])
      ensures Valid(loose) && Written(State(), a, Page(objId, chunkId, old(seqNumber), isShrink, data)) && Grows(old(State()), State())
    {
      hide CoreOk, LogOk, FilesOk, Grows, Written;
      var page := Page(objId, chunkId, seqNumber, isShrink, data);
      ghost var c0 := State();
      ProgramJustTaken(c0, a, page, objects, loose);
      PageInBlock(c0, a);
      ProgramPage(a, page);
      log := log + [Place(seqNumber, a.page)];
      ok := Ask(loose);
      ghost var c := State();
      SummaryAdd(a, page, loose);
      GrowsTwice(c0, c, State());
    }

    /** Notes on a block that it is to be retired, or that its erased state need not be checked any more. */
    method NoteOnBlock(b: nat, needsRetiring: bool, skipErasedCheck: bool, ghost loose: set<Addr>)
      requires Valid(loose) && b < |blocks|
      modifies this`blocks
      ensures Valid(loose) && Keeps(old(State()), State(), {}, b)
      ensures blocks == old(blocks)[b := old(blocks)[b].(needsRetiring := needsRetiring, skipErasedCheck := skipErasedCheck)]
    {
      hide CoreOk, LogOk, FilesOk, Keeps;
      AfterFlags(State(), b, needsRetiring, skipErasedCheck, objects, loose);
      blocks := blocks[b := Flagged(blocks[b], needsRetiring, skipErasedCheck)];
    }

    ghost method CountFailure(loose: set<Addr>)
      requires Valid(loose)
      modifies this`failures
      ensures Valid(loose) && failures == old(failures) + 1
    {
      hide CoreOk, LogOk, FilesOk, Geometry;
      failures := failures + 1;
    }

    /** A page that turned out not to be erased, or whose write failed, is deleted and the rest of its block is
        skipped; a failed write also marks the block for retirement. */
    method AbandonPage(a: Addr, retire: bool, ghost loose: set<Addr>)
      requires Valid(loose + {a}) && a !in loose && InUse(blocks, a) && a.page !in blocks[a.block].soft
      modifies this`failures, this`blocks, this`nand, this`nFreeChunks, this`nErasedBlocks, this`blocksInCheckpt, this`isCheckpointed, this`asked,
               this`oldestDirtySeq, this`oldestDirtyBlock, this`gcBlock, this`allocBlock
      ensures Valid(loose) && Drops(old(State()), State(), a)
      ensures gcBlock == old(gcBlock) || (gcBlock == None && old(gcBlock) == Some(a.block))
      ensures oldestDirtySeq <= old(oldestDirtySeq) && asked >= old(asked)
      ensures old(CheckptGone()) ==> CheckptGone()
      ensures failures == old(failures) + 1
      ensures a.block < |blocks| && a.block < |old(blocks)| && (retire ==> blocks[a.block].needsRetiring || blocks[a.block].state == Dead)
      ensures blocks[a.block].needsRetiring ==> retire || old(blocks)[a.block].needsRetiring
    {
      hide GcKept, CoreOk, LogOk, FilesOk, Keeps, Drops, Skipped, Valid, DirtiesOldest, LastAnswer;
      ghost var c0 := State();
      NoteOnBlock(a.block, retire || blocks[a.block].needsRetiring, blocks[a.block].skipErasedCheck, loose + {a});
      ghost var c1 := State();
      ChunkDel(a, loose + {a});
      assert loose + {a} - {a} == loose;
      ghost var c2 := State();
      ValidMeans(loose);
      OnlyOneAllocating(c2);
      DroppedBySteps(c0, c1, c2, a);
      SkipRestOfBlock(loose);
      CountFailure(loose);
    }

    /** A page taken since c0 is given up. */
    method GiveUpPage(a: Addr, retire: bool, ghost loose: set<Addr>, ghost c0: Core)
      requires Valid(loose + {a}) && a !in loose && InUse(blocks, a) && a.page !in blocks[a.block].soft
      requires Grows(c0, State()) && NewBlock(c0.blocks, a) && !InUse(c0.blocks, a)
      modifies this`failures, this`blocks, this`nand, this`nFreeChunks, this`nErasedBlocks, this`blocksInCheckpt, this`isCheckpointed, this`asked,
               this`oldestDirtySeq, this`oldestDirtyBlock, this`gcBlock, this`allocBlock
      ensures Valid(loose) && Grows(c0, State())
      ensures GcStays(c0.blocks, old(gcBlock), gcBlock) && oldestDirtySeq <= old(oldestDirtySeq) && asked >= old(asked)
      ensures old(CheckptGone()) ==> CheckptGone()
      ensures failures == old(failures) + 1
      ensures a.block < |blocks| && a.block < |old(blocks)| && (retire ==> blocks[a.block].needsRetiring || blocks[a.block].state == Dead)
      ensures blocks[a.block].needsRetiring ==> retire || old(blocks)[a.block].needsRetiring
    {
      hide CoreOk, LogOk, FilesOk, Grows, Drops, NewBlock, Valid, InUse, GcStays;
      ghost var c1 := State();
      AbandonPage(a, retire, loose);
      TakenAndDropped(c0, c1, State(), a);
      GcStaysNew(c0.blocks, old(gcBlock), gcBlock, a);
    }

    /** Writes to a page just taken. Unless that is known to be needless, the flash is first asked whether the page is
        erased and afterwards what was written is read back; a page that was erased and did not take the write marks its
        block for retirement. */
    method WriteTaken(a: Addr, objId: nat, chunkId: nat, isShrink: bool, data: seq<byte>, ghost loose: set<Addr>, ghost c0: Core) returns (r: Option<Addr>)
      requires Valid(loose + {a}) && a !in loose && JustTaken(State(), a) && LogOk(log + [Place(seqNumber, a.page)], seqNumber, allocBlock, allocPage)
      requires Grows(c0, State()) && NewBlock(c0.blocks, a) && !InUse(c0.blocks, a)
      modifies this`blocks, this`nand, this`nFreeChunks, this`nErasedBlocks, this`blocksInCheckpt, this`isCheckpointed, this`asked,
               this`oldestDirtySeq, this`oldestDirtyBlock, this`gcBlock, this`allocBlock, this`log, this`failures
      ensures old(log) <= log
      ensures r.Some? ==> log != [] && log[|log| - 1] == Place(seqNumber, a.page)
      ensures Grows(c0, State())
      ensures r.None? ==> Valid(loose)
      ensures r.Some? ==> r.value == a && Valid(loose + {a}) && Written(State(), a, Page(objId, chunkId, seqNumber, isShrink, data))
      ensures GcStays(c0.blocks, old(gcBlock), gcBlock) && oldestDirtySeq <= old(oldestDirtySeq)
      ensures old(CheckptGone()) ==> CheckptGone()
      ensures failures == old(failures) + One(r.None?) && Blames(flash, old(asked), old(failures), asked, failures)
      ensures a.block < |blocks| && a.block < |old(blocks)|
      ensures r.Some? ==> flash(old(asked)) && blocks[a.block].skipErasedCheck && blocks[a.block].needsRetiring == old(blocks)[a.block].needsRetiring
      ensures r.Some? && !old(blocks)[a.block].skipErasedCheck ==> asked >= old(asked) + 3 && LastAnswer()
      ensures r.None? && flash(old(asked)) ==>
                !old(blocks)[a.block].skipErasedCheck && (blocks[a.block].needsRetiring || blocks[a.block].state == Dead)
      ensures r.None? && blocks[a.block].needsRetiring && !old(blocks)[a.block].needsRetiring ==>
                !old(blocks)[a.block].skipErasedCheck && flash(old(asked))
    {
      hide CoreOk, LogOk, FilesOk, Grows, Written, Drops, NewBlock, Valid, JustTaken, Keeps, InUse, GcStays;
      JustTakenPage(State(), a);
      var skipCheck, erasedOk := blocks[a.block].skipErasedCheck, false;
      r := None;
      if !skipCheck {
        erasedOk := Ask(loose + {a});
        if !erasedOk {
          GiveUpPage(a, false, loose, c0);
          return;
        }
      }
      r := ProgramTaken(a, objId, chunkId, isShrink, data, skipCheck, erasedOk, loose, c0);
    }

    method WriteAndVerify(a: Addr, objId: nat, chunkId: nat, isShrink: bool, data: seq<byte>, skipCheck: bool, ghost loose: set<Addr>)
      returns (writeOk: bool)
      requires Valid(loose) && a in loose && JustTaken(State(), a)
      requires LogOk(log + [Place(seqNumber, a.page)], seqNumber, allocBlock, allocPage)
      modifies this`blocks, this`nand, this`nFreeChunks, this`allocBlock, this`log, this`asked
      ensures log == old(log) + [Place(seqNumber, a.page)]
      ensures Valid(loose) && Written(State(), a, Page(objId, chunkId, seqNumber, isShrink, data)) && Grows(old(State()), State())
      ensures a.block < |blocks| && a.block < |old(blocks)| && SameFlags(old(blocks)[a.block], blocks[a.block])
      ensures if skipCheck then asked > old(asked) && writeOk == flash(old(asked)) else asked >= old(asked) + 2 && writeOk == LastAnswer()
      ensures !writeOk ==> SaidNo(flash, old(asked), asked)
    {
      hide CoreOk, LogOk, FilesOk, Grows, Written, Valid, JustTaken;
      writeOk := WrChunkTagsNand(a, objId, chunkId, isShrink, data, loose);
      if !skipCheck { writeOk := Ask(loose); }
    }

    method ProgramTaken(a: Addr, objId: nat, chunkId: nat, isShrink: bool, data: seq<byte>, skipCheck: bool, erasedOk: bool,
                        ghost loose: set<Addr>, ghost c0: Core) returns (r: Option<Addr>)
      requires Valid(loose + {a}) && a !in loose && JustTaken(State(), a) && LogOk(log + [Place(seqNumber, a.page)], seqNumber, allocBlock, allocPage)
      requires Grows(c0, State()) && NewBlock(c0.blocks, a) && !InUse(c0.blocks, a)
      modifies this`blocks, this`nand, this`nFreeChunks, this`nErasedBlocks, this`blocksInCheckpt, this`isCheckpointed, this`asked,
               this`oldestDirtySeq, this`oldestDirtyBlock, this`gcBlock, this`allocBlock, this`log, this`failures
      ensures old(log) <= log
      ensures r.Some? ==> log != [] && log[|log| - 1] == Place(seqNumber, a.page)
      ensures Grows(c0, State())
      ensures r.None? ==> Valid(loose)
      ensures r.Some? ==> r.value == a && Valid(loose + {a}) && Written(State(), a, Page(objId, chunkId, seqNumber, isShrink, data))
      ensures GcStays(c0.blocks, old(gcBlock), gcBlock) && oldestDirtySeq <= old(oldestDirtySeq)
      ensures old(CheckptGone()) ==> CheckptGone()
      ensures failures == old(failures) + (if r.None? then 1 else 0) && asked > old(asked)
      ensures a.block < |blocks| && a.block < |old(blocks)|
      ensures r.Some? ==> blocks[a.block].skipErasedCheck && blocks[a.block].needsRetiring == old(blocks)[a.block].needsRetiring
      ensures r.Some? ==> if skipCheck then flash(old(asked)) else asked >= old(asked) + 2 && LastAnswer()
      ensures r.None? ==> SaidNo(flash, old(asked), asked) && (skipCheck ==> !flash(old(asked)))
      ensures r.None? && erasedOk ==> blocks[a.block].needsRetiring || blocks[a.block].state == Dead
      ensures r.None? && blocks[a.block].needsRetiring ==> erasedOk || old(blocks)[a.block].needsRetiring
    {
      hide One, CoreOk, LogOk, FilesOk, Grows, Written, Drops, NewBlock, Valid, JustTaken, Keeps, InUse, GcStays, SaidNo;
      r := None;
      ghost var c1, n := State(), asked;
      var writeOk := WriteAndVerify(a, objId, chunkId, isShrink, data, skipCheck, loose + {a});
      ghost var p, q := Page(objId, chunkId, c1.seqNumber, isShrink, data), asked;
      ghost var c2 := State();
      GrowsTwice(c0, c1, c2);
      WrittenInUse(c2, a, p);
      GcStaysItself(c0.blocks, gcBlock);
      if !writeOk {
        GiveUpPage(a, erasedOk, loose, c0);
        SaidNoWithin(flash, n, q, n, asked);
        return;
      }
      NoteOnBlock(a.block, blocks[a.block].needsRetiring, true, loose + {a});
      WrittenAndFlagged(c0, c2, State(), a, p, c2.blocks[a.block].needsRetiring, true);
      r := Some(a);
    }

    /** One attempt to write a chunk: there may be no space, the page may fail, or the write is done. */
    method TryWrite(objId: nat, chunkId: nat, isShrink: bool, data: seq<byte>, useReserve: bool, ghost loose: set<Addr>)
      returns (space: bool, r: Option<Addr>)
      requires Valid(loose)
      modifies this`blocks, this`nand, this`nFreeChunks, this`nErasedBlocks, this`blocksInCheckpt, this`isCheckpointed, this`asked,
               this`oldestDirtySeq, this`oldestDirtyBlock, this`gcBlock, this`allocBlock, this`allocPage, this`allocBlockFinder, this`seqNumber, this`log, this`failures
      ensures old(log) <= log
      ensures r.Some? ==> log != [] && log[|log| - 1] == Place(seqNumber, r.value.page)
      ensures Grows(old(State()), State())
      ensures r.None? ==> Valid(loose)
      ensures r.Some? ==> space && Valid(loose + {r.value}) && !InUse(old(blocks), r.value)
                          && Written(State(), r.value, Page(objId, chunkId, seqNumber, isShrink, data))
      ensures GcStays(old(blocks), old(gcBlock), gcBlock) && oldestDirtySeq <= old(oldestDirtySeq)
      ensures old(CheckptGone()) ==> CheckptGone()
      ensures !space <==> old(NoSpace(useReserve))
      ensures !space ==> NoSpace(useReserve) && r.None?
      ensures failures == old(failures) + One(space && r.None?) && Blames(flash, old(asked), old(failures), asked, failures)
    {
      hide CoreOk, LogOk, FilesOk, Grows, Written, NewBlock, Valid, NoSpace, JustTaken;
      ghost var c0 := State();
      ValidMeans(loose);
      var taken := AllocChunk(useReserve, loose);
      if taken.None? { return false, None; }
      NotLoose(c0, objects, loose, taken.value);
      space := true;
      r := WriteTaken(taken.value, objId, chunkId, isShrink, data, loose, c0);
    }

    /** Writes a chunk to a fresh page, trying again elsewhere when a page fails. Nothing that was in use is
        touched, and the page written is newer than every other page in use that is not part of a summary. */
    method WriteNewChunk(objId: nat, chunkId: nat, isShrink: bool, data: seq<byte>, useReserve: bool, ghost loose: set<Addr>)
      returns (r: Option<Addr>)
      requires Valid(loose)
      modifies this`blocks, this`nand, this`nFreeChunks, this`nErasedBlocks, this`blocksInCheckpt, this`isCheckpointed, this`asked,
               this`oldestDirtySeq, this`oldestDirtyBlock, this`gcBlock, this`allocBlock, this`allocPage, this`allocBlockFinder, this`seqNumber, this`log, this`failures
      ensures old(log) <= log
      ensures r.Some? ==> log != [] && log[|log| - 1] == Place(seqNumber, r.value.page)
      ensures Grows(old(State()), State())
      ensures r.None? ==> Valid(loose)
      ensures r.Some? ==> Valid(loose + {r.value}) && !InUse(old(blocks), r.value)
                          && Written(State(), r.value, Page(objId, chunkId, seqNumber, isShrink, data))
      ensures GcStays(old(blocks), old(gcBlock), gcBlock) && oldestDirtySeq <= old(oldestDirtySeq)
      ensures CheckptGone()
      ensures r.None? ==> NoSpace(useReserve) || failures == old(failures) + writeAttempts + 1
      ensures Blames(flash, old(asked), old(failures), asked, failures)
    {
      hide CoreOk, LogOk, FilesOk, Grows, Written, Keeps, Valid, NoSpace, Blames, GcStays;
      BlamesNothing(flash, asked, failures);
      GcStaysItself(blocks, gcBlock);
      ghost var n0 := asked;
      CheckptInvalidate(loose);
      BlamesMore(flash, n0, failures, n0, asked, failures);
      KeepsIsGrowth(old(State()), State());
      var attempts := 0;
      r := None;
      while r.None? && attempts <= writeAttempts
        invariant Grows(old(State()), State())
        invariant old(log) <= log && CheckptGone() && Blames(flash, old(asked), old(failures), asked, failures)
        invariant attempts <= writeAttempts + 1 && failures == old(failures) + attempts - One(r.Some?)
        invariant r.Some? ==> log != [] && log[|log| - 1] == Place(seqNumber, r.value.page)
        invariant r.None? ==> Valid(loose)
        invariant r.Some? ==> Valid(loose + {r.value}) && !InUse(old(blocks), r.value)
                              && Written(State(), r.value, Page(objId, chunkId, seqNumber, isShrink, data))
        invariant GcStays(old(blocks), old(gcBlock), gcBlock) && oldestDirtySeq <= old(oldestDirtySeq)
        decreases r.None?, writeAttempts - attempts
      {
        ghost var c, n, f, gc := State(), asked, failures, gcBlock;
        var space;
        space, r := TryWrite(objId, chunkId, isShrink, data, useReserve, loose);
        BlamesTwice(flash, old(asked), old(failures), n, f, asked, failures);
        GcStaysTwice(old(State()), c, old(gcBlock), gc, gcBlock);
        GrowsTwice(old(State()), c, State());
        if r.Some? { NotInUseBefore(old(State()), c, r.value); }
        if !space { return; }
        attempts := attempts + 1;
      }
    }

    // ----- Garbage collection -----

    /** Collection does not copy a summary: its pages go out of use before anything else happens. */
    method SummaryGc(b: nat)
      requires Valid({}) && b < |blocks| && blocks[b].state == Collecting
      modifies this`blocks, this`nFreeChunks
      ensures Valid({}) && |blocks| == |old(blocks)|
      ensures blocks[b].bits == WithoutSummary(old(blocks)[b], chunksPerSummary)
      ensures blocks[b] == old(blocks)[b].(bits := blocks[b].bits, pagesInUse := blocks[b].pagesInUse)
      ensures !old(blocks)[b].hasSummary ==> blocks == old(blocks)
      ensures forall j :: 0 <= j < |blocks| && j != b ==> blocks[j] == old(blocks)[j]
    {
      hide CoreOk, LogOk, FilesOk;
      if !blocks[b].hasSummary { return; }
      var k := chunksPerSummary;
      while k < chunksPerBlock
        invariant chunksPerSummary <= k
        invariant Valid({}) && |blocks| == |old(blocks)|
        invariant forall j :: j in blocks[b].bits <==> j in old(blocks)[b].bits && (j < chunksPerSummary || j >= k)
        invariant blocks[b] == old(blocks)[b].(bits := blocks[b].bits, pagesInUse := blocks[b].pagesInUse)
        invariant forall j :: 0 <= j < |blocks| && j != b ==> blocks[j] == old(blocks)[j]
      {
        if k in blocks[b].bits {
          SummaryPageNotSoft(State(), objects, b, k);
          AfterSummaryDropped(State(), b, k, objects, {});
          nFreeChunks := nFreeChunks + 1;
          blocks := blocks[b := BitCleared(blocks[b], k)];
        }
        k := k + 1;
      }
      NoPagesNoSoft(State(), b);
    }

    /** Takes the page away from whoever it belongs to: a page of a soft deleted file is forgotten, one that
        belongs to a file is copied to a fresh page and the file redirected, and one that belongs to nobody needs
        nothing. A header copy loses its shrink mark. Only a failed copy leaves the page where it is. */
    method GcDetachPage(b: nat, k: nat) returns (ok: bool)
      requires Valid({}) && b < |blocks| && blocks[b].state == Collecting && k in blocks[b].bits
      modifies this`blocks, this`nand, this`nFreeChunks, this`nErasedBlocks, this`blocksInCheckpt, this`isCheckpointed, this`asked,
               this`oldestDirtySeq, this`oldestDirtyBlock, this`gcBlock, this`allocBlock, this`allocPage, this`allocBlockFinder, this`seqNumber, this`log, this`failures,
               this`objects
      ensures old(log) <= log
      ensures |blocks| == |old(blocks)| && oldestDirtySeq <= old(oldestDirtySeq)
      ensures SameData(old(nand), old(objects), nand, objects)
      ensures !ok ==> Valid({}) && blocks[b] == old(blocks)[b] && objects == old(objects)
      ensures ok ==> Valid({Addr(b, k)}) && k in blocks[b].bits && k !in blocks[b].soft
                     && blocks[b] == old(blocks)[b].(soft := blocks[b].soft, softDelPages := blocks[b].softDelPages)
      ensures GcStays(old(blocks), old(gcBlock), gcBlock)
      ensures !ok ==> NoSpace(true) || failures >= old(failures) + writeAttempts + 1
      ensures Blames(flash, old(asked), old(failures), asked, failures)
    {
      hide CoreOk, LogOk, FilesOk, Grows, Written, Keeps, SameReads, SameData, PageOf, NoSpace, Blames, CopiedTo;
      var a := Addr(b, k);
      ghost var c0 := State();
      PageFound(c0, objects, a);
      var page := nand[a];
      SameReadsItself(nand, objects);
      BlamesNothing(flash, asked, failures);
      SameReadsSameData(nand, objects, nand, objects);
      ok := true;
      if page.objId in objects {
        if objects[page.objId].deleted && objects[page.objId].softDel && page.chunkId != 0 {
          AfterSoftForgotten(c0, b, k, objects, {});
          assert {} + {a} == {a};
          nFreeChunks := nFreeChunks - 1;
          blocks := blocks[b := SoftForgotten(blocks[b], k)];
        } else {
          ok := GcCopyPage(a, page);
        }
      }
    }

    /** The file that the page belongs to refers to a copy of it elsewhere; nothing else is changed in any file. */
    ghost predicate CopiedTo(before: map<nat, Obj>, a: Addr, page: Page)
      reads this
      requires page.objId in before
    {
      exists x :: x in nand && x != a && IsCopyOf(page, nand[x]) && objects == WithChunk(before, page.objId, page.chunkId, x)
    }

    /** Copies a page of a file to a fresh page and redirects the file to the copy. */
    method GcCopyPage(a: Addr, page: Page) returns (ok: bool)
      requires Valid({}) && InUse(blocks, a) && blocks[a.block].state == Collecting && a in nand && page == nand[a]
      requires page.objId in objects && !(objects[page.objId].deleted && objects[page.objId].softDel && page.chunkId != 0)
      requires PageOf(objects, page.objId, page.chunkId) == Some(a) && a.page !in blocks[a.block].soft
      modifies this`blocks, this`nand, this`nFreeChunks, this`nErasedBlocks, this`blocksInCheckpt, this`isCheckpointed, this`asked,
               this`oldestDirtySeq, this`oldestDirtyBlock, this`gcBlock, this`allocBlock, this`allocPage, this`allocBlockFinder, this`seqNumber, this`log, this`failures,
               this`objects
      ensures old(log) <= log
      ensures |blocks| == |old(blocks)| && oldestDirtySeq <= old(oldestDirtySeq)
      ensures SameData(old(nand), old(objects), nand, objects)
      ensures blocks[a.block] == old(blocks)[a.block]
      ensures !ok ==> Valid({}) && objects == old(objects)
      ensures ok ==> Valid({a}) && CopiedTo(old(objects), a, page)
      ensures GcStays(old(blocks), old(gcBlock), gcBlock)
      ensures !ok ==> NoSpace(true) || failures >= old(failures) + writeAttempts + 1
      ensures Blames(flash, old(asked), old(failures), asked, failures)
    {
      hide CoreOk, LogOk, FilesOk, Grows, Written, SameReads, SameData, PageOf, NoSpace, Blames;
      ghost var c0 := State();
      var isShrink := page.isShrink && page.chunkId != 0;
      var copy := WriteNewChunk(page.objId, page.chunkId, isShrink, page.data, true, {});
      if copy.None? {
        GrowsKeepsReads(c0, State(), objects, a);
        SameReadsSameData(c0.nand, objects, nand, objects);
        return false;
      }
      GrowsLength(c0, State());
      assert {} + {copy.value} == {copy.value};
      CopyInstalled(c0, State(), objects, a, copy.value, Page(page.objId, page.chunkId, seqNumber, isShrink, page.data));
      WrittenInUse(State(), copy.value, Page(page.objId, page.chunkId, seqNumber, isShrink, page.data));
      RedirectedTo(objects, page.objId, page.chunkId, copy.value);
      objects := WithChunk(objects, page.objId, page.chunkId, copy.value);
      ok := true;
    }

    /** Deals with one page in use of a block under collection: detached from its file it is deleted, and the
        block erased if that was the last. */
    method GcProcessChunk(b: nat, k: nat) returns (ok: bool)
      requires Valid({}) && b < |blocks| && blocks[b].state == Collecting && k in blocks[b].bits
      modifies this`blocks, this`nand, this`nFreeChunks, this`nErasedBlocks, this`blocksInCheckpt, this`isCheckpointed, this`asked,
               this`oldestDirtySeq, this`oldestDirtyBlock, this`gcBlock, this`allocBlock, this`allocPage, this`allocBlockFinder, this`seqNumber, this`log, this`failures,
               this`objects
      ensures old(log) <= log
      ensures Valid({}) && |blocks| == |old(blocks)| && oldestDirtySeq <= old(oldestDirtySeq)
      ensures SameData(old(nand), old(objects), nand, objects)
      ensures !ok ==> blocks[b] == old(blocks)[b] && objects == old(objects)
      ensures ok ==> oldestDirtySeq <= old(blocks)[b].seqNumber &&
                     CollectedPage(old(blocks)[b], blocks[b], k)
      ensures old(gcBlock) == Some(b) ==> gcBlock == if blocks[b].state == Collecting then Some(b) else None
      ensures !ok ==> NoSpace(true) || failures >= old(failures) + writeAttempts + 1
      ensures Blames(flash, old(asked), old(failures), asked, failures)
    {
      hide CoreOk, LogOk, FilesOk, Keeps, SameReads, SameData, PageOf, GcKept, NoSpace, Blames;
      ok := GcDetachPage(b, k);
      if ok {
        var a := Addr(b, k);
        ghost var n := asked;
        ghost var c := State();
        ChunkDel(a, {a});
        assert {a} - {a} == {};
        DeletionKeepsReads(c, State(), objects, a);
        BlamesMore(flash, old(asked), old(failures), n, asked, failures);
        SameReadsSameData(c.nand, objects, nand, objects);
        SameDataTwice(old(nand), old(objects), c.nand, objects, nand, objects);
      }
    }

    /** The block enters collection without its shrink mark and its summary. */
    method StartCollection(b: nat)
      requires Valid({}) && b < |blocks| && blocks[b].state == Full
      modifies this`blocks, this`nFreeChunks
      ensures Valid({}) && |blocks| == |old(blocks)|
      ensures blocks[b].bits == WithoutSummary(old(blocks)[b], chunksPerSummary)
      ensures forall j :: 0 <= j < |blocks| && j != b ==> blocks[j] == old(blocks)[j]
      ensures blocks[b] == old(blocks)[b].(state := Collecting, hasShrinkHdr := false, bits := blocks[b].bits, pagesInUse := blocks[b].pagesInUse)
      ensures !old(blocks)[b].hasSummary ==> blocks[b].bits == old(blocks)[b].bits && blocks[b].pagesInUse == old(blocks)[b].pagesInUse
      ensures blocks[b].bits <= old(blocks)[b].bits && (old(OnlyAhead(b)) ==> OnlyAhead(b))
    {
      hide CoreOk, LogOk, FilesOk;
      AfterCollectStart(State(), b);
      FilesSameBits(blocks, nand, b, blocks[b].(state := Collecting, hasShrinkHdr := false), objects, {});
      blocks := blocks[b := blocks[b].(state := Collecting, hasShrinkHdr := false)];
      SummaryGc(b);
    }

    /** Collects a full block, all of it or up to five pages. Whatever happens on the way, every chunk and header
        of every file reads what it read before. A whole collection that meets no failure ends with the
        block erased or retired. The oldest dirty sequence number goes on covering every full block with discarded
        pages, except exactly when the block is older than that number, lost its summary and then not one of its pages
        was moved. */
    method GcBlock(b: nat, wholeBlock: bool) returns (ok: bool, copied: nat)
      requires Valid({}) && b < |blocks| && blocks[b].state == Full
      modifies this`blocks, this`nand, this`nFreeChunks, this`nErasedBlocks, this`blocksInCheckpt, this`isCheckpointed, this`asked,
               this`oldestDirtySeq, this`oldestDirtyBlock, this`gcBlock, this`allocBlock, this`allocPage, this`allocBlockFinder, this`seqNumber, this`log, this`failures,
               this`objects, this`gcChunk, this`tracked
      ensures old(log) <= log
      ensures Valid({}) && |blocks| == |old(blocks)|
      ensures SameData(old(nand), old(objects), nand, objects)
      ensures Worked(chunksPerSummary, old(blocks)[b], blocks[b], old(OnlyAhead(b)), wholeBlock, ok)
      ensures ok && old(OnlyAhead(b)) ==> tracked == old(tracked) && (blocks[b].state == Full ==> OnlyAhead(b))
      ensures blocks[b].state != Full ==> gcBlock == None && gcChunk == 0
      ensures tracked <==> old(tracked) && !Lapses(chunksPerSummary, old(blocks)[b], blocks[b], copied, oldestDirtySeq)
      ensures old(tracked) ==> (Covers(chunksPerBlock, blocks, oldestDirtySeq) <==> !Lapses(chunksPerSummary, old(blocks)[b], blocks[b], copied, oldestDirtySeq))
      ensures old(gcBlock) == Some(b) ==> gcBlock == if blocks[b].state == Full then Some(b) else None
      ensures !ok ==> NoSpace(true) || failures >= old(failures) + writeAttempts + 1
      ensures Blames(flash, old(asked), old(failures), asked, failures)
    {
      hide CoreOk, LogOk, FilesOk, SameReads, SameData, Keeps, Blames, Valid, Covers, WithoutSummary, HasDiscarded, OnlyAhead, Lapses, Worked;
      ValidMeans({});
      ghost var c0 := State();
      StartCollection(b);
      ok, copied := GcWork(b, wholeBlock);
      StopCollection(b, c0, copied);
      NotStopped(chunksPerSummary, c0.blocks[b], blocks[b], copied, oldestDirtySeq);
      WorkedThrough(chunksPerSummary, c0.blocks[b], blocks[b], old(OnlyAhead(b)), wholeBlock, ok, copied);
      EndCollection(b);
    }

    /** What collection does to the block once it has begun: a block with no pages in use is erased, else its pages
        are moved. */
    method GcWork(b: nat, wholeBlock: bool) returns (ok: bool, copied: nat)
      requires Valid({}) && b < |blocks| && blocks[b].state == Collecting && !blocks[b].hasShrinkHdr
      modifies this`blocks, this`nand, this`nFreeChunks, this`nErasedBlocks, this`blocksInCheckpt, this`isCheckpointed, this`asked,
               this`oldestDirtySeq, this`oldestDirtyBlock, this`gcBlock, this`allocBlock, this`allocPage, this`allocBlockFinder, this`seqNumber, this`log, this`failures,
               this`objects, this`gcChunk
      ensures old(log) <= log
      ensures Valid({}) && |blocks| == |old(blocks)|
      ensures SameData(old(nand), old(objects), nand, objects)
      ensures Emptying(old(blocks)[b], blocks[b], copied)
      ensures ok && old(OnlyAhead(b)) && blocks[b].state == Collecting ==> OnlyAhead(b) && !wholeBlock && copied == 5
      ensures copied <= if wholeBlock then chunksPerBlock else 5
      ensures oldestDirtySeq <= old(oldestDirtySeq)
      ensures copied > 0 && blocks[b].state == Collecting ==> oldestDirtySeq <= blocks[b].seqNumber
      ensures old(gcBlock) == Some(b) ==> gcBlock == if blocks[b].state == Collecting then Some(b) else None
      ensures !ok ==> NoSpace(true) || failures >= old(failures) + writeAttempts + 1
      ensures Blames(flash, old(asked), old(failures), asked, failures)
    {
      hide CoreOk, LogOk, FilesOk, SameReads, SameData, Keeps, NoSpace, Blames, Valid;
      ValidMeans({});
      if blocks[b].bits == {} {
        ok, copied := true, 0;
        ghost var c, n := State(), asked;
        BlamesNothing(flash, asked, failures);
        BlockBecameDirty(b, {});
        ValidMeans({});
        BlamesMore(flash, n, failures, n, asked, failures);
        ErasureKeepsReads(c, State(), objects, b);
        SameReadsSameData(c.nand, objects, nand, objects);
      } else {
        ok, copied := GcPages(b, wholeBlock);
      }
    }

    /** A collection that has done away with its block is over. */
    method EndCollection(b: nat)
      requires Valid({}) && b < |blocks|
      modifies this`gcBlock, this`gcChunk
      ensures Valid({}) && if blocks[b].state != Full then gcBlock == None && gcChunk == 0 else gcBlock == old(gcBlock) && gcChunk == old(gcChunk)
      ensures blocks[b].state == Full && old(OnlyAhead(b)) ==> OnlyAhead(b)
    {
      hide CoreOk, LogOk, FilesOk, Geometry;
      if blocks[b].state != Full {
        gcBlock, gcChunk := None, 0;
      }
    }

    /** The page loop of a collection. */
    method GcPages(b: nat, wholeBlock: bool) returns (ok: bool, copied: nat)
      requires Valid({}) && b < |blocks| && blocks[b].state == Collecting && !blocks[b].hasShrinkHdr && blocks[b].bits != {}
      modifies this`blocks, this`nand, this`nFreeChunks, this`nErasedBlocks, this`blocksInCheckpt, this`isCheckpointed, this`asked,
               this`oldestDirtySeq, this`oldestDirtyBlock, this`gcBlock, this`allocBlock, this`allocPage, this`allocBlockFinder, this`seqNumber, this`log, this`failures,
               this`objects, this`gcChunk
      ensures old(log) <= log
      ensures Valid({}) && |blocks| == |old(blocks)|
      ensures SameData(old(nand), old(objects), nand, objects)
      ensures Emptying(old(blocks)[b], blocks[b], copied)
      ensures ok && old(OnlyAhead(b)) && blocks[b].state == Collecting ==> OnlyAhead(b) && !wholeBlock && copied == 5
      ensures copied <= if wholeBlock then chunksPerBlock else 5
      ensures oldestDirtySeq <= old(oldestDirtySeq)
      ensures copied > 0 && blocks[b].state == Collecting ==> oldestDirtySeq <= blocks[b].seqNumber
      ensures old(gcBlock) == Some(b) ==> gcBlock == if blocks[b].state == Collecting then Some(b) else None
      ensures !ok ==> NoSpace(true) || failures >= old(failures) + writeAttempts + 1
      ensures Blames(flash, old(asked), old(failures), asked, failures)
    {
      hide CoreOk, LogOk, FilesOk, SameReads, SameData, Blames, Emptying, CollectedPage;
      SameReadsItself(nand, objects);
      SameReadsSameData(nand, objects, nand, objects);
      BlamesNothing(flash, asked, failures);
      NoPagesNoSoft(State(), b);
      NothingMoved(blocks[b]);
      var maxCopies: int := if wholeBlock then chunksPerBlock else 5;
      ok, copied := true, 0;
      while ok && gcChunk < chunksPerBlock && blocks[b].state == Collecting && maxCopies > 0
        invariant Valid({}) && |blocks| == |old(blocks)|
        invariant old(gcBlock) == Some(b) ==> gcBlock == if blocks[b].state == Collecting then Some(b) else None
        invariant !ok ==> NoSpace(true) || failures >= old(failures) + writeAttempts + 1
        invariant Blames(flash, old(asked), old(failures), asked, failures)
        invariant old(log) <= log
        invariant SameData(old(nand), old(objects), nand, objects)
        invariant Emptying(old(blocks)[b], blocks[b], copied) && blocks[b].state in {Collecting, Empty, Dead}
        invariant blocks[b].state == Collecting ==> blocks[b].bits != {}
        invariant ok && old(OnlyAhead(b)) && blocks[b].state == Collecting ==> OnlyAhead(b)
        invariant wholeBlock ==> maxCopies >= chunksPerBlock - gcChunk + old(gcChunk)
        invariant gcChunk >= old(gcChunk)
        invariant maxCopies >= 0 && copied + maxCopies <= if wholeBlock then chunksPerBlock else 5
        invariant ok ==> copied + maxCopies == if wholeBlock then chunksPerBlock else 5
        invariant oldestDirtySeq <= old(oldestDirtySeq)
        invariant copied > 0 && blocks[b].state == Collecting ==> oldestDirtySeq <= blocks[b].seqNumber
        decreases chunksPerBlock - gcChunk
      {
        if gcChunk in blocks[b].bits {
          maxCopies := maxCopies - 1;
          ghost var bi, n, o, q, f := blocks[b], nand, objects, asked, failures;
          ok := GcProcessChunk(b, gcChunk);
          SameDataTwice(old(nand), old(objects), n, o, nand, objects);
          BlamesTwice(flash, old(asked), old(failures), q, f, asked, failures);
          if ok {
            EmptiedMore(old(blocks)[b], bi, blocks[b], gcChunk, copied);
            copied := copied + 1;
          }
        }
        gcChunk := gcChunk + 1;
      }
      NoPagesNoSoft(State(), b);
    }

    method PutBack(b: nat, ghost c0: Core, ghost copied: nat)
      requires Valid({}) && CoreOk(c0) && c0.chunksPerBlock == chunksPerBlock && c0.tracked == tracked && oldestDirtySeq <= c0.oldestDirtySeq
      requires b < |c0.blocks| == |blocks| && c0.blocks[b].state == Full && blocks[b].state == Collecting
      requires copied > 0 ==> oldestDirtySeq <= blocks[b].seqNumber
      requires copied == 0 ==>
                 && blocks[b].bits == WithoutSummary(c0.blocks[b], chunksPerSummary)
                 && blocks[b].softDelPages == c0.blocks[b].softDelPages && blocks[b].seqNumber == c0.blocks[b].seqNumber
      modifies this`blocks, this`tracked
      ensures Valid({}) && blocks == old(blocks)[b := old(blocks)[b].(state := Full)]
      ensures old(OnlyAhead(b)) ==> OnlyAhead(b)
      ensures tracked <==> old(tracked) && !Lapses(chunksPerSummary, c0.blocks[b], blocks[b], copied, oldestDirtySeq)
      ensures old(tracked) ==>
                (Covers(chunksPerBlock, blocks, oldestDirtySeq) <==> !Lapses(chunksPerSummary, c0.blocks[b], blocks[b], copied, oldestDirtySeq))
    {
      hide CoreOk, LogOk, FilesOk, Valid, Covers, WithoutSummary, HasDiscarded, Lapses;
      ValidMeans({});
      ghost var lapses := Lapses(chunksPerSummary, c0.blocks[b], blocks[b].(state := Full), copied, oldestDirtySeq);
      if !lapses { MayPause(c0, State(), b, copied); }
      PauseCollection(b, !lapses);
      ValidMeans({});
      if lapses { SummaryLost(c0, State(), b, copied); }
      if tracked { TrackedCovers(State()); }
    }

    /** Puts a block back that still has pages in use. */
    method StopCollection(b: nat, ghost c0: Core, ghost copied: nat)
      requires Valid({}) && CoreOk(c0) && c0.chunksPerBlock == chunksPerBlock && c0.tracked == tracked && oldestDirtySeq <= c0.oldestDirtySeq
      requires b < |c0.blocks| == |blocks| && c0.blocks[b].state == Full && blocks[b].state in {Collecting, Empty, Dead}
      requires blocks[b].state == Collecting && copied > 0 ==> oldestDirtySeq <= blocks[b].seqNumber
      requires blocks[b].state == Collecting && copied == 0 ==>
                 && blocks[b].bits == WithoutSummary(c0.blocks[b], chunksPerSummary) <= c0.blocks[b].bits
                 && blocks[b].softDelPages == c0.blocks[b].softDelPages && blocks[b].seqNumber == c0.blocks[b].seqNumber
      modifies this`blocks, this`tracked
      ensures Valid({}) && |blocks| == |c0.blocks| && blocks[b].state in {Full, Empty, Dead}
      ensures blocks[b] == if old(blocks)[b].state != Collecting then old(blocks)[b] else old(blocks)[b].(state := Full)
      ensures blocks[b].state == Full ==> old(blocks)[b].state == Collecting && (old(OnlyAhead(b)) ==> OnlyAhead(b))
      ensures tracked <==> old(tracked) && !Lapses(chunksPerSummary, c0.blocks[b], blocks[b], copied, oldestDirtySeq)
      ensures old(tracked) ==> (Covers(chunksPerBlock, blocks, oldestDirtySeq) <==> !Lapses(chunksPerSummary, c0.blocks[b], blocks[b], copied, oldestDirtySeq))
    {
      hide CoreOk, LogOk, FilesOk, Valid, Covers, WithoutSummary, HasDiscarded, Lapses, OnlyAhead;
      if blocks[b].state == Collecting {
        PutBack(b, c0, copied);
      } else {
        NotStopped(chunksPerSummary, c0.blocks[b], blocks[b], copied, oldestDirtySeq);
        ValidMeans({});
        if tracked { TrackedCovers(State()); }
      }
    }

    /** A collection that did not finish leaves a full block behind. */
    method PauseCollection(b: nat, ghost covered: bool)
      requires Valid({}) && b < |blocks| && blocks[b].state == Collecting
      requires covered ==> oldestDirtySeq <= blocks[b].seqNumber || blocks[b].pagesInUse - blocks[b].softDelPages >= chunksPerBlock || !tracked
      modifies this`blocks, this`tracked
      ensures Valid({}) && blocks == old(blocks)[b := old(blocks)[b].(state := Full)]
      ensures covered ==> tracked == old(tracked)
    {
      hide CoreOk, LogOk, FilesOk;
      if !covered {
        Untracked(State());
        tracked := false;
      }
      AfterCollectPaused(State(), b);
      FilesSameBits(blocks, nand, b, blocks[b].(state := Full), objects, {});
      blocks := blocks[b := blocks[b].(state := Full)];
    }

    /** Whether collection may begin with a block: one that is to be refreshed because no full block is older, or one
        that the rule for shrink headers admits. Neither lets it run ahead of discarded pages in an older block. */
    method SelectBlock(b: nat) returns (selected: bool)
      requires Valid({})
      modifies this`oldestDirtySeq, this`oldestDirtyBlock, this`tracked
      ensures Valid({}) && (old(tracked) ==> tracked)
      ensures selected <==> old(MayCollect(State(), b))
      ensures selected && blocks[b].hasShrinkHdr && tracked && blocks[b].seqNumber > 0 ==>
                forall i :: 0 <= i < |blocks| && HasDiscarded(chunksPerBlock, blocks[i]) ==> blocks[b].seqNumber <= blocks[i].seqNumber
    {
      hide CoreOk, LogOk, FilesOk, Valid;
      if b >= |blocks| || blocks[b].state != Full { return false; }
      if forall i :: 0 <= i < |blocks| && blocks[i].state == Full ==> blocks[b].seqNumber <= blocks[i].seqNumber { return true; }
      selected := BlockOkForGc(b, {});
    }

    /** What one round of collection leaves. It works on the block it has begun with, if any, or else on the one proposed,
        if that may be collected; without either nothing happens. It fails only if there is no space for a copy or
        every attempt to write one met a page failure. */
    twostate predicate Collected(b: nat, wholeBlock: bool, ok: bool)
      reads this
    {
      && (old(gcBlock).None? && !old(MayCollect(State(), b)) ==>
            ok && blocks == old(blocks) && nand == old(nand) && objects == old(objects) && gcBlock == None)
      && (old(gcBlock).None? && old(MayCollect(State(), b)) ==> WorkedOn(b, true, wholeBlock, ok))
      && (old(gcBlock).Some? ==> WorkedOn(old(gcBlock).value, old(GcAhead()), wholeBlock, ok))
      && (!ok ==> NoSpace(true) || failures >= old(failures) + writeAttempts + 1)
    }

    /** The block w has been worked on; its collection is to go on if and only if it is full again. */
    twostate predicate WorkedOn(w: nat, ahead: bool, wholeBlock: bool, ok: bool)
      reads this
    {
      && w < |old(blocks)| && w < |blocks|
      && Worked(chunksPerSummary, old(blocks)[w], blocks[w], ahead, wholeBlock, ok)
      && gcBlock == if blocks[w].state == Full then Some(w) else None
    }

    /** No page in use of the block under collection lies before the one that collection has come to. */
    ghost predicate GcAhead()
      reads this
    {
      gcBlock.Some? && gcBlock.value < |blocks| && OnlyAhead(gcBlock.value)
    }

    /** One round of collection. As long as no round fails, nothing is left behind and the oldest dirty sequence number
        covers every full block with discarded pages. */
    method Collect(b: nat, wholeBlock: bool) returns (ok: bool)
      requires Valid({}) && GcFull()
      modifies this`blocks, this`nand, this`nFreeChunks, this`nErasedBlocks, this`blocksInCheckpt, this`isCheckpointed, this`asked,
               this`oldestDirtySeq, this`oldestDirtyBlock, this`gcBlock, this`allocBlock, this`allocPage, this`allocBlockFinder, this`seqNumber, this`log, this`failures,
               this`objects, this`gcChunk, this`tracked
      ensures old(log) <= log
      ensures Valid({}) && GcFull()
      ensures SameData(old(nand), old(objects), nand, objects)
      ensures Collected(b, wholeBlock, ok) && Blames(flash, old(asked), old(failures), asked, failures)
      ensures ok && old(GcClean()) ==> GcClean()
    {
      hide CoreOk, LogOk, FilesOk, SameReads, SameData, Valid, HasDiscarded, Worked, NoSpace, Blames, MayCollect;
      SameReadsItself(nand, objects);
      SameReadsSameData(nand, objects, nand, objects);
      BlamesNothing(flash, asked, failures);
      if gcBlock.None? {
        var selected := SelectBlock(b);
        MayCollectMeans(old(State()), b);
        if selected { BeginCollection(b); }
      }
      ok := true;
      if gcBlock.Some? {
        var copied;
        ok, copied := GcBlock(gcBlock.value, wholeBlock);
      }
    }

    method BeginCollection(b: nat)
      requires Valid({}) && b < |blocks|
      modifies this`gcBlock, this`gcChunk
      ensures Valid({}) && gcBlock == Some(b) && gcChunk == 0
    {
      hide CoreOk, LogOk, FilesOk, Geometry;
      gcBlock, gcChunk := Some(b), 0;
    }

    // ----- Writing and deleting file data -----

    /** Writes a chunk of a file to a fresh page, points the file at it and takes the page before out of use. */
    method ReplaceChunk(o: nat, chunk: nat, isShrink: bool, data: seq<byte>, useReserve: bool) returns (page: Option<Addr>)
      requires Valid({}) && o in objects && !(objects[o].deleted && objects[o].softDel && chunk != 0)
      modifies this`blocks, this`nand, this`nFreeChunks, this`nErasedBlocks, this`blocksInCheckpt, this`isCheckpointed, this`asked,
               this`oldestDirtySeq, this`oldestDirtyBlock, this`gcBlock, this`allocBlock, this`allocPage, this`allocBlockFinder, this`seqNumber, this`log, this`failures,
               this`objects
      ensures old(log) <= log
      ensures Valid({})
      ensures page.None? ==> SameReads(old(nand), old(objects), nand, objects) && objects == old(objects)
      ensures page.Some? ==> WroteChunk(old(nand), old(objects), nand, objects, o, chunk, data, isShrink) && InUse(blocks, page.value)
                             && objects == WithChunk(old(objects), o, chunk, page.value)
                             && page.value in nand && nand[page.value] == Page(o, chunk, nand[page.value].seqNumber, isShrink, data)
      ensures page.None? ==> NoSpace(useReserve) || failures == old(failures) + writeAttempts + 1
      ensures CheckptGone() && Blames(flash, old(asked), old(failures), asked, failures)
      ensures GcKept(old(blocks), old(gcBlock), blocks, gcBlock)
    {
      hide CoreOk, LogOk, FilesOk, Grows, Written, Keeps, SameReads, PageOf, WroteChunk, GcKept, NoSpace, Blames, GcStays, DirtiesOldest;
      var previous := PageOf(objects, o, chunk);
      ghost var c0, c0asked, c0failures := State(), asked, failures;
      page := WriteNewChunk(o, chunk, isShrink, data, useReserve, {});
      ghost var c1, c1asked := State(), asked;
      GcKeptByGrowth(c0, c1, old(gcBlock), gcBlock);
      if page.None? {
        GrowthKeepsReads(c0, c1, objects);
        return;
      }
      ghost var gc := gcBlock;
      assert {} + {page.value} == {page.value};
      ghost var p := Page(o, chunk, seqNumber, isShrink, data);
      ChunkInstalled(c0, c1, objects, page.value, p);
      WrittenInUse(c1, page.value, p);
      objects := WithChunk(objects, o, chunk, page.value);
      if previous.Some? {
        ReferredInUse(c0, old(objects), o, chunk);
        ChunkDel(previous.value, {previous.value});
        StillInUse(c1, State(), {previous.value}, previous.value.block, page.value);
        BlamesMore(flash, c0asked, c0failures, c1asked, asked, failures);
        GcKeptTwice(c0.blocks, old(gcBlock), c1.blocks, gc, blocks, gcBlock);
        assert {previous.value} - {previous.value} == {};
        DeletionKeepsReads(c1, State(), objects, previous.value);
        ThenSameReads(c0.nand, old(objects), c1.nand, objects, nand, o, chunk, data, isShrink);
      }
    }

    /** Writes one chunk of a file. On success the chunk reads the new data; on failure everything reads as before. */
    method WrDataObj(o: nat, chunk: nat, data: seq<byte>, useReserve: bool) returns (ok: bool)
      requires Valid({}) && o in objects && chunk > 0 && !(objects[o].deleted && objects[o].softDel)
      modifies this`blocks, this`nand, this`nFreeChunks, this`nErasedBlocks, this`blocksInCheckpt, this`isCheckpointed, this`asked,
               this`oldestDirtySeq, this`oldestDirtyBlock, this`gcBlock, this`allocBlock, this`allocPage, this`allocBlockFinder, this`seqNumber, this`log, this`failures,
               this`objects
      ensures old(log) <= log
      ensures Valid({})
      ensures !ok ==> SameReads(old(nand), old(objects), nand, objects)
      ensures ok ==> WroteChunk(old(nand), old(objects), nand, objects, o, chunk, data, false)
      ensures !ok ==> NoSpace(useReserve) || failures == old(failures) + writeAttempts + 1
      ensures CheckptGone() && Blames(flash, old(asked), old(failures), asked, failures)
      ensures GcKept(old(blocks), old(gcBlock), blocks, gcBlock)
    {
      hide CoreOk, LogOk, FilesOk, SameReads, WroteChunk, Valid, NoSpace, GcKept, Blames;
      var page := ReplaceChunk(o, chunk, false, data, useReserve);
      ok := page.Some?;
    }

    /** Writes the header of a file; only a first header has to leave the reserve alone. The block that takes the
        header of a shrink is marked, which keeps it from being collected too early. */
    method UpdateOh(o: nat, data: seq<byte>, isShrink: bool) returns (ok: bool)
      requires Valid({}) && o in objects
      modifies this`blocks, this`nand, this`nFreeChunks, this`nErasedBlocks, this`blocksInCheckpt, this`isCheckpointed, this`asked,
               this`oldestDirtySeq, this`oldestDirtyBlock, this`gcBlock, this`allocBlock, this`allocPage, this`allocBlockFinder, this`seqNumber, this`log, this`failures,
               this`objects
      ensures old(log) <= log
      ensures Valid({})
      ensures !ok ==> SameReads(old(nand), old(objects), nand, objects)
      ensures ok ==> WroteChunk(old(nand), old(objects), nand, objects, o, 0, data, isShrink)
      ensures ok ==> HeaderTagged(o, isShrink)
      ensures !ok ==> NoSpace(old(objects[o].hdrChunk.Some?)) || failures == old(failures) + writeAttempts + 1
      ensures CheckptGone() && Blames(flash, old(asked), old(failures), asked, failures)
      ensures GcKept(old(blocks), old(gcBlock), blocks, gcBlock)
    {
      hide CoreOk, LogOk, FilesOk, SameReads, WroteChunk, NoSpace, Blames;
      var page := ReplaceChunk(o, 0, isShrink, data, objects[o].hdrChunk.Some?);
      ok := page.Some?;
      if ok && isShrink {
        var b := page.value.block;
        AfterShrinkMark(State(), b, objects, {});
        blocks := blocks[b := blocks[b].(hasShrinkHdr := true)];
      }
    }

    /** A new file, under a number that no page in use carries. */
    method CreateObj(o: nat)
      requires Valid({}) && o !in objects && o != OBJECTID_SUMMARY
      requires forall a :: a in nand && InUse(blocks, a) ==> nand[a].objId != o
      modifies this`objects
      ensures Valid({}) && objects == old(objects)[o := Obj(None, map[], false, false)]
      ensures SameReads(nand, old(objects), nand, objects)
    {
      hide CoreOk, LogOk, FilesOk, SameReads;
      FilesAfterCreate(blocks, nand, objects, o);
      objects := objects[o := Obj(None, map[], false, false)];
    }

    /** Removes a chunk from a file and takes its page out of use, as when the file is cut. */
    method DeleteFileChunk(o: nat, chunk: nat)
      requires Valid({}) && o in objects && chunk > 0 && chunk in objects[o].chunks
      modifies this`blocks, this`nand, this`nFreeChunks, this`nErasedBlocks, this`blocksInCheckpt, this`isCheckpointed, this`asked,
               this`oldestDirtySeq, this`oldestDirtyBlock, this`gcBlock, this`objects
      ensures Valid({})
      ensures DroppedChunk(old(nand), old(objects), nand, objects, o, chunk) && asked >= old(asked)
      ensures GcKept(old(blocks), old(gcBlock), blocks, gcBlock)
    {
      hide CoreOk, LogOk, FilesOk, Keeps, DroppedChunk, SameReads;
      var a := objects[o].chunks[chunk];
      FilesAfterRemove(blocks, nand, objects, o, chunk);
      objects := WithoutChunk(objects, o, chunk);
      ghost var c := State();
      ChunkDel(a, {a});
      assert {a} - {a} == {};
      DeletionKeepsReads(c, State(), objects, a);
      DroppedThenSame(old(nand), old(objects), c.nand, objects, nand, o, chunk);
    }

    /** Soft deletes one page: the file lets go of it and the page counts as free, but stays in use until its block
        is collected. */
    method SoftDelChunk(a: Addr, ghost loose: set<Addr>)
      requires Valid(loose) && a in loose && InUse(blocks, a) && a.page !in blocks[a.block].soft
      modifies this`blocks, this`nFreeChunks, this`oldestDirtySeq, this`oldestDirtyBlock
      ensures Valid(loose) && |blocks| == |old(blocks)|
      ensures oldestDirtySeq == (if old(DirtiesOldest(a.block)) then blocks[a.block].seqNumber else old(oldestDirtySeq))
      ensures oldestDirtyBlock == (if old(DirtiesOldest(a.block)) then Some(a.block) else old(oldestDirtyBlock))
      ensures forall x :: InUse(blocks, x) <==> InUse(old(blocks), x)
      ensures forall x :: InUse(blocks, x) ==> (x.page in blocks[x.block].soft <==> x.page in old(blocks)[x.block].soft || x == a)
    {
      hide CoreOk, LogOk, FilesOk;
      var b := a.block;
      AfterSoftDeleted(State(), b, a.page);
      SoftMarkKeepsFiles(blocks, nand, objects, loose, a);
      if oldestDirtySeq != 0 && oldestDirtySeq > blocks[b].seqNumber {
        oldestDirtySeq, oldestDirtyBlock := blocks[b].seqNumber, Some(b);
      }
      nFreeChunks := nFreeChunks + 1;
      blocks := blocks[b := SoftMarked(blocks[b], a.page)];
    }

    /** The file forgets where a chunk is. */
    method LetGo(o: nat, c: nat, ghost loose: set<Addr>, ghost loose': set<Addr>)
      requires Valid(loose) && o in objects && FilesOk(blocks, nand, WithoutChunk(objects, o, c), loose')
      modifies this`objects
      ensures Valid(loose') && objects == WithoutChunk(old(objects), o, c)
    {
      hide CoreOk, LogOk, FilesOk;
      objects := WithoutChunk(objects, o, c);
    }

    method MarkSoftDeleted(o: nat, ghost loose: set<Addr>)
      requires Valid(loose) && o in objects && FilesOk(blocks, nand, objects[o := objects[o].(softDel := true)], {})
      modifies this`objects
      ensures Valid({}) && objects == old(objects)[o := old(objects)[o].(softDel := true)]
    {
      hide CoreOk, LogOk, FilesOk;
      objects := objects[o := objects[o].(softDel := true)];
    }

    /** Soft deletes every chunk of a deleted file. Other files read as before; this one has no data any more. */
    method SoftDelFile(o: nat)
      requires Valid({}) && o in objects && objects[o].deleted && !objects[o].softDel && 0 !in objects[o].chunks
      modifies this`blocks, this`nFreeChunks, this`oldestDirtySeq, this`oldestDirtyBlock, this`objects
      ensures Valid({}) && o in objects && objects[o].softDel && objects[o].chunks == map[]
      ensures forall o' :: o' != o ==> (o' in objects <==> o' in old(objects)) && (o' in objects ==> objects[o'] == old(objects)[o'])
      ensures forall x :: InUse(blocks, x) <==> InUse(old(blocks), x)
    {
      hide CoreOk, LogOk, FilesOk, InUse, Valid;
      ValidMeans({});
      ghost var loose: set<Addr> := {};
      assert SoftDeleting(blocks, nand, objects, o, loose);
      hide SoftDeleting;
      while objects[o].chunks.Keys != {}
        invariant Valid(loose) && SoftDeleting(blocks, nand, objects, o, loose) && o in objects && 0 !in objects[o].chunks
        invariant forall o' :: o' != o ==> (o' in objects <==> o' in old(objects)) && (o' in objects ==> objects[o'] == old(objects)[o'])
        invariant forall x :: InUse(blocks, x) <==> InUse(old(blocks), x)
        decreases |objects[o].chunks|
      {
        var c :| c in objects[o].chunks;
        var a := objects[o].chunks[c];
        ghost var blocks0, objects0 := blocks, objects;
        SoftDeletingStep(blocks, nand, objects, o, loose, c);
        LetGo(o, c, loose, loose + {a});
        SoftDelChunk(a, loose + {a});
        ValidMeans(loose + {a});
        SoftDeletingOn(blocks0, blocks, nand, objects0, o, c, loose);
        loose := loose + {a};
      }
      SoftDeletingDone(blocks, nand, objects, o, loose);
      MarkSoftDeleted(o, loose);
    }

    // ----- Accounting for a checkpoint -----

    /** Fills an empty block with checkpoint pages; the counters c are those that will be right once the stream is
        closed. */
    method CheckptTakeBlock(i: nat, ghost c: Core) returns (ghost c': Core)
      requires CoreOk(c) && FilesOk(blocks, nand, objects, {}) && i < |blocks| && blocks[i].state == Empty && blocksInCheckpt >= 0
      requires c == State().(nFree := nFreeChunks - blocksInCheckpt * chunksPerBlock, nErased := nErasedBlocks - blocksInCheckpt)
      modifies this`blocks, this`nand, this`blocksInCheckpt
      ensures CoreOk(c') && FilesOk(blocks, nand, objects, {}) && SameReads(old(nand), objects, nand, objects)
      ensures forall k :: 0 <= k < chunksPerBlock ==> Addr(i, k) in nand
      ensures blocksInCheckpt == old(blocksInCheckpt) + 1 && blocks == old(blocks)[i := old(blocks)[i].(state := Checkpoint)]
      ensures c' == State().(nFree := nFreeChunks - blocksInCheckpt * chunksPerBlock, nErased := nErasedBlocks - blocksInCheckpt)
    {
      hide CoreOk, FilesOk, SameReads, CheckptTaken;
      NothingProgrammed(c, i);
      nand := WithCheckptPages(nand, i, chunksPerBlock);
      AfterCheckptTaken(c, i, nand, objects);
      MorePagesSameReads(blocks, old(nand), nand, objects);
      c' := CheckptTaken(c, i, nand);
      blocks := blocks[i := blocks[i].(state := Checkpoint)];
      OneMore(blocksInCheckpt, chunksPerBlock);
      blocksInCheckpt := blocksInCheckpt + 1;
    }

    /** Writes a checkpoint over the first n empty blocks, if more blocks are erased than are held in reserve. The
        counters are put right only when the stream is closed, in one go. */
    method CheckptWriteBlocks(n: nat) returns (ok: bool)
      requires Valid({}) && blocksInCheckpt == 0
      modifies this`blocks, this`nand, this`nFreeChunks, this`nErasedBlocks, this`blocksInCheckpt
      ensures Valid({}) && SameReads(old(nand), objects, nand, objects)
      ensures ok ==> blocksInCheckpt == n
      ensures exists i :: 0 <= i <= |blocks| && TakenUpTo(old(blocks), blocks, i)
      ensures ok <==> old(nErasedBlocks) > nReservedBlocks && old(nErasedBlocks) >= n
      ensures |blocks| == old(|blocks|)
      ensures forall j :: 0 <= j < |blocks| ==> blocks[j] == old(blocks)[j] || (old(blocks)[j].state == Empty && blocks[j] == old(blocks)[j].(state := Checkpoint))
      ensures GcKept(old(blocks), gcBlock, blocks, gcBlock)
    {
      hide CoreOk, LogOk, FilesOk, SameReads, CheckptTaken, GcKept;
      ghost var c := State();
      SameReadsItself(nand, objects);
      GcKeptByFilling(blocks, gcBlock, blocks);
      assert TakenUpTo(blocks, blocks, 0);
      if nErasedBlocks - nReservedBlocks <= 0 { return false; }
      var i := 0;
      while i < |blocks| && blocksInCheckpt < n
        invariant 0 <= i <= |blocks| == |c.blocks| && 0 <= blocksInCheckpt <= n
        invariant CoreOk(c) && FilesOk(blocks, nand, objects, {}) && SameReads(old(nand), objects, nand, objects)
        invariant c == State().(nFree := nFreeChunks - blocksInCheckpt * chunksPerBlock, nErased := nErasedBlocks - blocksInCheckpt)
        invariant nErasedBlocks == old(nErasedBlocks) && nFreeChunks == old(nFreeChunks)
        invariant forall j :: 0 <= j < i ==> blocks[j].state != Empty
        invariant |blocks| == old(|blocks|)
        invariant TakenUpTo(old(blocks), blocks, i)
      {
        if blocks[i].state == Empty {
          ghost var nand0 := nand;
          c := CheckptTakeBlock(i, c);
          SameReadsTwice(old(nand), objects, nand0, objects, nand, objects);
        }
        i := i + 1;
      }
      ErasedCount(c);
      GcKeptByFilling(old(blocks), gcBlock, blocks);
      ok := blocksInCheckpt == n;
      nFreeChunks := nFreeChunks - blocksInCheckpt * chunksPerBlock;
      nErasedBlocks := nErasedBlocks - blocksInCheckpt;
      assert c == State();
    }

    // ----- Runs -----

    /** Whether an operation is one the file system would ask for now. */
    predicate Allowed(op: Op)
      reads this
    {
      match op
      case Create(o) => o !in objects && o != OBJECTID_SUMMARY && forall a :: a in nand && InUse(blocks, a) ==> nand[a].objId != o
      case WriteData(o, chunk, _, _) => o in objects && chunk > 0 && !(objects[o].deleted && objects[o].softDel)
      case WriteHeader(o, _, _) => o in objects
      case DeleteChunk(o, chunk) => o in objects && chunk > 0 && chunk in objects[o].chunks
      case Collect(_, _) => true
      case Invalidate => true
      case Checkpt(_) => blocksInCheckpt == 0
    }

    /** What an operation other than a collection leaves of the block under collection. */
    twostate lemma StillClean()
      requires old(GcFull()) && GcKept(old(blocks), old(gcBlock), blocks, gcBlock) && gcChunk == old(gcChunk) && tracked == old(tracked)
      ensures GcFull() && (old(GcClean()) ==> GcClean())
    {
    }

    /** What an operation leaves that was carried out or tried in vain: it has exactly its effect on what the files read
        and on the tags of their pages, and a write fails only if there is no space or every attempt met a page failure. */
    twostate predicate Effect(op: Op, done: bool)
      reads this
    {
      match op
      case Create(_) => done && SameReads(old(nand), old(objects), nand, objects)
      case WriteData(o, chunk, data, useReserve) =>
        && !isCheckpointed && blocksInCheckpt <= 0
        && if done then WroteChunk(old(nand), old(objects), nand, objects, o, chunk, data, false)
           else SameReads(old(nand), old(objects), nand, objects) && (NoSpace(useReserve) || failures == old(failures) + writeAttempts + 1)
      case WriteHeader(o, data, isShrink) =>
        && !isCheckpointed && blocksInCheckpt <= 0
        && if done then WroteChunk(old(nand), old(objects), nand, objects, o, 0, data, isShrink) && HeaderTagged(o, isShrink)
           else && SameReads(old(nand), old(objects), nand, objects)
                && (NoSpace(PageOf(old(objects), o, 0).Some?) || failures == old(failures) + writeAttempts + 1)
      case DeleteChunk(o, chunk) => done && DroppedChunk(old(nand), old(objects), nand, objects, o, chunk)
      case Collect(b, wholeBlock) => Collected(b, wholeBlock, done) && SameData(old(nand), old(objects), nand, objects)
      case Invalidate => done && !isCheckpointed && blocksInCheckpt <= 0 && SameReads(old(nand), old(objects), nand, objects)
      case Checkpt(n) =>
        && (done <==> old(nErasedBlocks) > nReservedBlocks && old(nErasedBlocks) >= n) && (done ==> blocksInCheckpt == n)
        && SameReads(old(nand), old(objects), nand, objects)
    }

    /** The header of a file carries the tag, and if that is the tag of a shrink its block is marked. */
    ghost predicate HeaderTagged(o: nat, isShrink: bool)
      reads this
    {
      && o in objects && objects[o].hdrChunk.Some?
      && var a := objects[o].hdrChunk.value;
         a in nand && nand[a].isShrink == isShrink && (isShrink ==> a.block < |blocks| && blocks[a.block].hasShrinkHdr)
    }

    /** Carries out one operation, unless the device cannot. */
    method Do(op: Op, ghost m: Contents) returns (done: bool)
      requires Valid({}) && GcFull() && Shows(nand, objects, m)
      modifies this
      ensures old(log) <= log
      ensures Valid({}) && GcFull() && Shows(nand, objects, Applied(m, op, done))
      ensures old(GcClean()) && (op.Collect? ==> done) ==> GcClean()
      ensures if old(Allowed(op)) then Effect(op, done) else !done && State() == old(State()) && objects == old(objects)
      ensures Blames(flash, old(asked), old(failures), asked, failures)
    {
      hide CoreOk, LogOk, FilesOk, Shows, Valid, NoSpace, GcFull, GcClean, Effect, Allowed, Blames;
      done := false;
      BlamesNothing(flash, asked, failures);
      if Allowed(op) { done := Execute(op, m); }
    }

    method Execute(op: Op, ghost m: Contents) returns (done: bool)
      requires Valid({}) && GcFull() && Shows(nand, objects, m) && Allowed(op)
      modifies this
      ensures old(log) <= log
      ensures Valid({}) && GcFull() && Shows(nand, objects, Applied(m, op, done))
      ensures old(GcClean()) && (op.Collect? ==> done) ==> GcClean()
      ensures Effect(op, done) && Blames(flash, old(asked), old(failures), asked, failures)
    {
      hide CoreOk, LogOk, FilesOk, SameReads, WroteChunk, Shows, Keeps, ReadChunk, Valid, NoSpace, GcFull, GcClean, GcKept, Collected, SameData, Marked, DroppedChunk, SaidNo;
      ghost var c, n, os := State(), nand, objects;
      done := true;
      match op
      case Create(o) =>
        CreateObj(o);
        StillShows(n, os, nand, objects, m);
        StillClean();
      case WriteData(o, chunk, data, useReserve) =>
        done := WrDataObj(o, chunk, data, useReserve);
        if done { ShowsWritten(n, os, nand, objects, m, o, chunk, data, false); } else { StillShows(n, os, nand, objects, m); }
        StillClean();
      case WriteHeader(o, data, isShrink) =>
        done := UpdateOh(o, data, isShrink);
        if done { ShowsWritten(n, os, nand, objects, m, o, 0, data, isShrink); } else { StillShows(n, os, nand, objects, m); }
        StillClean();
      case DeleteChunk(o, chunk) =>
        DeleteFileChunk(o, chunk);
        ShowsDropped(n, os, nand, objects, m, o, chunk);
        StillClean();
      case Collect(b, wholeBlock) =>
        done := Collect(b, wholeBlock);
        ShowsSame(n, os, nand, objects, m);
      case Invalidate =>
        ValidMeans({});
        CheckptInvalidate({});
        ValidMeans({});
        CheckptGoneKeepsReads(c, State(), objects);
        StillShows(n, os, nand, objects, m);
        StillClean();
      case Checkpt(blocksWanted) =>
        done := CheckptWriteBlocks(blocksWanted);
        StillShows(n, os, nand, objects, m);
        StillClean();
    }

    /** After any run of operations, with hardware failures and collections anywhere in it, every chunk and header of
        every file reads what was last written to it, all counters and bitmaps agree, and the writes made went to
        ever later places. */
    method Run(ops: seq<Op>, ghost m: Contents) returns (done: seq<bool>)
      requires Valid({}) && GcFull() && Shows(nand, objects, m)
      modifies this
      ensures old(log) <= log
      ensures |done| == |ops|
      ensures Valid({}) && GcFull() && Shows(nand, objects, AppliedAll(m, ops, done))
      ensures old(GcClean()) && (forall k :: 0 <= k < |ops| && ops[k].Collect? ==> done[k]) ==>
                GcClean() && Covers(chunksPerBlock, blocks, oldestDirtySeq)
    {
      hide Shows, Applied, Valid, GcFull, GcClean, Covers;
      done := [];
      var i := 0;
      while i < |ops|
        invariant 0 <= i <= |ops| && |done| == i
        invariant Valid({}) && GcFull() && Shows(nand, objects, AppliedAll(m, ops[..i], done))
        invariant old(log) <= log
        invariant old(GcClean()) && (forall k :: 0 <= k < i && ops[k].Collect? ==> done[k]) ==> GcClean()
      {
        var d := Do(ops[i], AppliedAll(m, ops[..i], done));
        AppliedMore(m, ops, done, i, d);
        done := done + [d];
        i := i + 1;
      }
      assert ops[..i] == ops;
      CleanCovers();
    }

    lemma CleanCovers()
      requires Valid({})
      ensures GcClean() ==> Covers(chunksPerBlock, blocks, oldestDirtySeq)
    {
      if tracked { TrackedCovers(State()); }
    }
  }

  /** The block after one of its pages was collected: without the page, or erased if that was the last one. */
  ghost predicate CollectedPage(before: BlockInfo, after: BlockInfo, k: nat) {
    if before.bits == {k} && !before.hasShrinkHdr then after.state in {Empty, Dead}
    else
      && after.state == Collecting && after.bits == before.bits - {k}
      && after.seqNumber == before.seqNumber && after.hasShrinkHdr == before.hasShrinkHdr
  }

  /** So many pages of a block under collection have been moved, or it has been done away with. */
  ghost predicate Emptying(before: BlockInfo, after: BlockInfo, copied: nat) {
    || after.state in {Empty, Dead}
    || (&& after.state == Collecting && !after.hasShrinkHdr
        && after.bits <= before.bits && |after.bits| == |before.bits| - copied
        && after.seqNumber == before.seqNumber
        && (copied == 0 ==> after == before))
  }

  lemma NothingMoved(bi: BlockInfo)
    requires bi.state == Collecting && !bi.hasShrinkHdr
    ensures Emptying(bi, bi, 0)
  {
  }

  lemma EmptiedMore(before: BlockInfo, bi: BlockInfo, after: BlockInfo, k: nat, copied: nat)
    requires Emptying(before, bi, copied) && bi.state == Collecting && CollectedPage(bi, after, k) && k in bi.bits
    ensures Emptying(before, after, copied + 1) && after.state in {Collecting, Empty, Dead}
    ensures after.state == Collecting ==> after.bits == bi.bits - {k} && after.bits != {} && after.seqNumber == bi.seqNumber
  {
  }

  lemma WorkedThrough(chunksPerSummary: nat, before: BlockInfo, after: BlockInfo, ahead: bool, wholeBlock: bool, ok: bool, copied: nat)
    requires after.state in {Empty, Dead} ||
             (&& after.state == Full && after.bits <= WithoutSummary(before, chunksPerSummary)
              && |after.bits| == |WithoutSummary(before, chunksPerSummary)| - copied
              && (ok && ahead ==> !wholeBlock && copied == 5))
    ensures Worked(chunksPerSummary, before, after, ahead, wholeBlock, ok)
  {
  }

  /** The first i blocks have been taken out of the checkpoint. */
  ghost predicate ErasingCheckpt(c0: Core, c: Core, i: nat) {
    && CoreOk(c)
    && CheckpointGoing(c0.blocks, c.blocks)
    && NandGoing(c0.blocks, c0.nand, c.nand)
    && i <= |c.blocks|
    && forall j :: 0 <= j < i ==> c.blocks[j].state != Checkpoint
  }

  /** Of the first i blocks those that held the checkpoint are empty, or dead where the flash would not erase them, and
      all others are as before. */
  ghost predicate CheckptErased(flash: nat -> bool, asked: nat, before: seq<BlockInfo>, after: seq<BlockInfo>, i: nat) {
    && |after| == |before| && i <= |before|
    && (forall j :: i <= j < |before| ==> after[j] == before[j])
    && forall j :: 0 <= j < i ==>
         after[j] == if before[j].state != Checkpoint then before[j]
                     else before[j].(state := if flash(asked + CountState(before[..j], Checkpoint)) then Empty else Dead)
  }

  lemma StartErasing(c: Core, flash: nat -> bool, asked: nat)
    requires CoreOk(c)
    ensures ErasingCheckpt(c, c, 0) && CheckptErased(flash, asked, c.blocks, c.blocks, 0) && CountState(c.blocks[..0], Checkpoint) == 0
  {
  }

  lemma CheckptErasedMore(c0: Core, c: Core, flash: nat -> bool, asked: nat, i: nat)
    requires CheckptErased(flash, asked, c0.blocks, c.blocks, i) && ErasingCheckpt(c0, c, i) && i < |c.blocks|
    ensures i < |c0.blocks| && c.blocks[i] == c0.blocks[i]
    ensures CountState(c0.blocks[..i + 1], Checkpoint) == CountState(c0.blocks[..i], Checkpoint) + One(c0.blocks[i].state == Checkpoint)
    ensures var ok := flash(asked + CountState(c0.blocks[..i], Checkpoint));
            if c0.blocks[i].state == Checkpoint
            then CheckptErased(flash, asked, c0.blocks, c.blocks[i := c.blocks[i].(state := if ok then Empty else Dead)], i + 1)
            else CheckptErased(flash, asked, c0.blocks, c.blocks, i + 1)
  {
    hide CoreOk, NandGoing;
    assert c0.blocks[..i + 1][..i] == c0.blocks[..i];
  }

  lemma AllCheckptErased(c0: Core, blocks: seq<BlockInfo>)
    requires CoreOk(c0)
    ensures c0.inCheckpt == CountState(c0.blocks[..|c0.blocks|], Checkpoint)
  {
    assert c0.blocks[..|c0.blocks|] == c0.blocks;
  }

  lemma NoCheckptBlocks(c: Core)
    requires CoreOk(c)
    ensures c.inCheckpt >= 0
  {
  }

  lemma KeepBlock(c0: Core, c: Core, i: nat)
    requires ErasingCheckpt(c0, c, i) && i < |c.blocks| && c.blocks[i].state != Checkpoint
    ensures ErasingCheckpt(c0, c, i + 1)
  {
    hide CoreOk;
  }

  lemma EraseCheckptBlock(c0: Core, c: Core, i: nat, erased: bool)
    requires ErasingCheckpt(c0, c, i) && i < |c.blocks| && c.blocks[i].state == Checkpoint
    ensures var bi := c.blocks[i].(state := if erased then Empty else Dead);
            var c' := Erased(c, i, bi, erased);
            && ErasingCheckpt(c0, c', i + 1)
            && c' == c.(blocks := c.blocks[i := bi],
                        nand := if erased then WithoutBlock(c.nand, i) else c.nand,
                        nErased := c.nErased + One(erased),
                        nFree := c.nFree + (if erased then c.chunksPerBlock else 0),
                        inCheckpt := c.inCheckpt - 1)
  {
    hide NandOk, DirtyOk, SummaryOk, Counted;
    assert BlockOk(c.chunksPerBlock, c.blocks[i]);
    assert i != c.allocBlock;
    hide AllocOk;
    AfterErase(c, i, c.blocks[i].(state := if erased then Empty else Dead), erased);
  }

  lemma CheckptAllErased(c0: Core, c: Core, objects: map<nat, Obj>, loose: set<Addr>)
    requires CoreOk(c0) && ErasingCheckpt(c0, c, |c.blocks|) && FilesOk(c0.blocks, c0.nand, objects, loose)
    ensures CoreOk(c) && c.inCheckpt == 0 && FilesOk(c.blocks, c.nand, objects, loose)
    ensures Keeps(c0, c, {}, -1) && Keeps(c0, c.(inCheckpt := 0), {}, -1)
  {
    hide FilesOk, AllocOk, NandOk, DirtyOk, SummaryOk;
    CountZero(c.blocks, Checkpoint);
    FilesAfterCheckpt(c0, c.blocks, c.nand, objects, loose);
    forall a ensures InUse(c.blocks, a) <==> InUse(c0.blocks, a) { UseAfterCheckpt(c0, c.blocks, a); }
  }

  /** Pages were lost only from blocks that held the checkpoint. */
  ghost predicate NandGoing(before: seq<BlockInfo>, nand: map<Addr, Page>, nand': map<Addr, Page>) {
    && (forall a :: a in nand' ==> a in nand && nand'[a] == nand[a])
    && (forall a :: a in nand && a !in nand' ==> a.block < |before| && before[a.block].state == Checkpoint)
  }

  /** Blocks that held the checkpoint changed state and nothing else changed. */
  ghost predicate CheckpointGoing(before: seq<BlockInfo>, after: seq<BlockInfo>) {
    && |after| == |before|
    && forall i :: 0 <= i < |before| ==>
         || after[i] == before[i]
         || (before[i].state == Checkpoint && after[i].state in {Empty, Dead} && after[i] == before[i].(state := after[i].state))
  }

  lemma UseAfterCheckpt(c: Core, blocks': seq<BlockInfo>, a: Addr)
    requires CoreOk(c) && CheckpointGoing(c.blocks, blocks')
    ensures InUse(blocks', a) == InUse(c.blocks, a)
    ensures InUse(blocks', a) ==> a.block < |c.blocks| && c.blocks[a.block].state != Checkpoint && blocks'[a.block] == c.blocks[a.block]
  {
    if a.block < |c.blocks| { assert BlockOk(c.chunksPerBlock, c.blocks[a.block]); }
  }

  lemma FilesAfterCheckpt(c: Core, blocks': seq<BlockInfo>, nand': map<Addr, Page>, objects: map<nat, Obj>, loose: set<Addr>)
    requires CoreOk(c) && CheckpointGoing(c.blocks, blocks') && FilesOk(c.blocks, c.nand, objects, loose)
    requires NandGoing(c.blocks, c.nand, nand')
    ensures FilesOk(blocks', nand', objects, loose)
    ensures forall a :: InUse(blocks', a) && a in c.nand ==> a in nand' && nand'[a] == c.nand[a]
  {
    hide CoreOk, InUse;
    forall a ensures InUse(blocks', a) == InUse(c.blocks, a)
             ensures InUse(blocks', a) ==> a.block < |c.blocks| && c.blocks[a.block].state != Checkpoint && a.block < |blocks'| && blocks'[a.block] == c.blocks[a.block]
    {
      UseAfterCheckpt(c, blocks', a);
    }
  }
}
