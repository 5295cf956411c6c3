/** The state of a mounted flash device as values: blocks and their chunk bits, what each NAND page holds and
    where every file keeps its pages, with the invariants that the driver maintains between them. */
module FlashState {
  import opened Arith
  import opened Bytes
  import opened ObjectIds
  import opened Options

  /** A NAND page; the driver's chunk number is block * chunks_per_block + page. */
  datatype Addr = Addr(block: nat, page: nat)

  datatype BlockState = Empty | Allocating | Full | Dirty | Checkpoint | Collecting | Dead

  /** In-memory information about a block. The counters pagesInUse and softDelPages are the driver's; bits is the
      block's chunk bitmap, and soft says which pages the second counter counts. */
  datatype BlockInfo = BlockInfo(
    state: BlockState, seqNumber: nat,
    bits: set<nat>, pagesInUse: int,
    soft: set<nat>, softDelPages: int,
    hasShrinkHdr: bool, needsRetiring: bool, skipErasedCheck: bool, hasSummary: bool)

  /** The tags and contents of a programmed page; chunk id zero is an object header. */
  datatype Page = Page(objId: nat, chunkId: nat, seqNumber: nat, isShrink: bool, data: seq<byte>)

  /** A file: the page of its header and the page of every chunk it holds. */
  datatype Obj = Obj(hdrChunk: Option<Addr>, chunks: map<nat, Addr>, deleted: bool, softDel: bool)

  // ----- Free space accounting -----

  /** What a block contributes to the free chunk count. */
  function FreeOf(chunksPerBlock: nat, bi: BlockInfo): int {
    match bi.state
    case Empty => chunksPerBlock - bi.pagesInUse + bi.softDelPages
    case Allocating => chunksPerBlock - bi.pagesInUse + bi.softDelPages
    case Collecting => chunksPerBlock - bi.pagesInUse + bi.softDelPages
    case Full => chunksPerBlock - bi.pagesInUse + bi.softDelPages
    case _ => 0
  }

  /** The count that yaffs_count_free_chunks computes. */
  function FreeChunks(chunksPerBlock: nat, blocks: seq<BlockInfo>): int {
    if blocks == [] then 0
    else FreeChunks(chunksPerBlock, blocks[..|blocks| - 1]) + FreeOf(chunksPerBlock, blocks[|blocks| - 1])
  }

  function CountState(blocks: seq<BlockInfo>, s: BlockState): nat {
    if blocks == [] then 0
    else CountState(blocks[..|blocks| - 1], s) + if blocks[|blocks| - 1].state == s then 1 else 0
  }

  function One(b: bool): nat { if b then 1 else 0 }

  /** Changing one block changes the totals by what that block contributed and now contributes. */
  lemma {:induction false} UpdateCounts(chunksPerBlock: nat, blocks: seq<BlockInfo>, i: nat, bi: BlockInfo)
    requires i < |blocks|
    ensures FreeChunks(chunksPerBlock, blocks[i := bi]) ==
            FreeChunks(chunksPerBlock, blocks) - FreeOf(chunksPerBlock, blocks[i]) + FreeOf(chunksPerBlock, bi)
    ensures forall s :: CountState(blocks[i := bi], s) == CountState(blocks, s) - One(blocks[i].state == s) + One(bi.state == s)
  {
    hide FreeOf;
    var n := |blocks| - 1;
    if i == n {
      assert blocks[i := bi][..n] == blocks[..n];
    } else {
      assert blocks[i := bi][..n] == blocks[..n][i := bi];
      UpdateCounts(chunksPerBlock, blocks[..n], i, bi);
    }
  }

  lemma {:induction false} CountZero(blocks: seq<BlockInfo>, s: BlockState)
    ensures CountState(blocks, s) == 0 <==> forall i :: 0 <= i < |blocks| ==> blocks[i].state != s
  {
    if blocks != [] {
      CountZero(blocks[..|blocks| - 1], s);
    }
  }

  // ----- Invariants -----

  ghost predicate BlockOk(chunksPerBlock: nat, bi: BlockInfo) {
    && (forall k :: k in bi.bits ==> k < chunksPerBlock)
    && bi.soft <= bi.bits
    && bi.pagesInUse == |bi.bits|
    && bi.softDelPages == |bi.soft|
    && bi.state != Dirty
    && (bi.state == Empty || bi.state == Checkpoint || bi.state == Dead ==> bi.bits == {})
    && (bi.state == Empty || bi.state == Checkpoint || bi.state == Allocating ==> !bi.hasSummary)
  }

  ghost predicate BlocksOk(chunksPerBlock: nat, blocks: seq<BlockInfo>) {
    forall i :: 0 <= i < |blocks| ==> BlockOk(chunksPerBlock, blocks[i])
  }

  /** The counters agree with the blocks, which is what yaffs_verify_blocks and yaffs_verify_free_chunks check. */
  ghost predicate Counted(chunksPerBlock: nat, blocks: seq<BlockInfo>, nFree: int, nErased: int, inCheckpt: int) {
    && nFree == FreeChunks(chunksPerBlock, blocks)
    && nErased == CountState(blocks, Empty)
    && inCheckpt == CountState(blocks, Checkpoint)
  }

  /** At most one block is being allocated from: the allocation block, which is the newest one and in use only
      below the allocation page. */
  ghost predicate AllocOk(chunksPerBlock: nat, blocks: seq<BlockInfo>, allocBlock: int, allocPage: nat, seqNumber: nat) {
    && -1 <= allocBlock < |blocks|
    && (forall i :: 0 <= i < |blocks| ==> (blocks[i].state == Allocating <==> i == allocBlock))
    && (forall i :: 0 <= i < |blocks| ==> blocks[i].seqNumber <= seqNumber)
    && (allocBlock >= 0 ==>
          && allocPage <= chunksPerBlock
          && blocks[allocBlock].seqNumber == seqNumber
          && (forall i :: 0 <= i < |blocks| && i != allocBlock ==> blocks[i].seqNumber < seqNumber)
          && forall k :: k in blocks[allocBlock].bits ==> k < allocPage)
  }

  predicate InUse(blocks: seq<BlockInfo>, a: Addr) {
    a.block < |blocks| && a.page in blocks[a.block].bits
  }

  /** No page of an empty block is programmed, nor any page of the allocation block still to be allocated; a page
      in use is programmed and tagged with the sequence number of its block. */
  ghost predicate NandOk(blocks: seq<BlockInfo>, nand: map<Addr, Page>, allocBlock: int, allocPage: nat) {
    && (forall a :: a in nand ==> a.block < |blocks| && blocks[a.block].state != Empty)
    && (forall a :: a in nand && a.block == allocBlock ==> a.page < allocPage)
    && (forall a :: a in nand && InUse(blocks, a) ==> nand[a].seqNumber == blocks[a.block].seqNumber)
  }

  /** In a block that has a summary, the pages from chunksPerSummary on are summary pages. */
  ghost predicate SummaryOk(chunksPerSummary: nat, blocks: seq<BlockInfo>, nand: map<Addr, Page>) {
    forall a :: InUse(blocks, a) && blocks[a.block].hasSummary && a.page >= chunksPerSummary ==>
                  a in nand && nand[a].objId == OBJECTID_SUMMARY
  }

  ghost predicate RefersTo(objects: map<nat, Obj>, o: nat, c: nat, a: Addr) {
    && o in objects
    && if c == 0 then objects[o].hdrChunk == Some(a) else c in objects[o].chunks && objects[o].chunks[c] == a
  }

  /** Files refer to pages in use that carry their tags, and every page in use that carries a file's tags is the
      one the file refers to or is soft deleted. The pages in loose are exempt: nobody refers to them. */
  ghost predicate FilesOk(blocks: seq<BlockInfo>, nand: map<Addr, Page>, objects: map<nat, Obj>, loose: set<Addr>) {
    && OBJECTID_SUMMARY !in objects
    && (forall a :: a in loose ==> InUse(blocks, a))
    && (forall o, c, a :: RefersTo(objects, o, c, a) ==>
          InUse(blocks, a) && a !in loose && a in nand && nand[a].objId == o && nand[a].chunkId == c && a.page !in blocks[a.block].soft)
    && (forall a :: InUse(blocks, a) && a !in loose ==> a in nand && PageOk(blocks, nand[a], objects, a))
  }

  ghost predicate PageOk(blocks: seq<BlockInfo>, p: Page, objects: map<nat, Obj>, a: Addr)
    requires InUse(blocks, a)
  {
    var softDeleted := p.objId in objects && objects[p.objId].deleted && objects[p.objId].softDel && p.chunkId != 0;
    && (a.page in blocks[a.block].soft <==> softDeleted)
    && (p.objId in objects && !softDeleted ==> RefersTo(objects, p.objId, p.chunkId, a))
  }

  /** A full block with discarded pages. */
  predicate HasDiscarded(chunksPerBlock: nat, bi: BlockInfo) {
    bi.state == Full && bi.pagesInUse - bi.softDelPages < chunksPerBlock
  }

  /** While it is known, the oldest dirty sequence number is at most that of every full block with discarded
      pages; tracked says whether this is being kept up. */
  ghost predicate DirtyOk(chunksPerBlock: nat, blocks: seq<BlockInfo>, oldestDirtySeq: nat, seqNumber: nat, tracked: bool) {
    && oldestDirtySeq <= seqNumber
    && (tracked && oldestDirtySeq != 0 ==>
          forall i :: 0 <= i < |blocks| && HasDiscarded(chunksPerBlock, blocks[i]) ==> oldestDirtySeq <= blocks[i].seqNumber)
  }

  /** The page a file refers to for a chunk, or for its header. */
  function PageOf(objects: map<nat, Obj>, o: nat, c: nat): Option<Addr> {
    if o !in objects then None
    else if c == 0 then objects[o].hdrChunk
    else if c in objects[o].chunks then Some(objects[o].chunks[c]) else None
  }

  /** What a chunk of a file reads, or its header. */
  function ReadChunk(nand: map<Addr, Page>, objects: map<nat, Obj>, o: nat, c: nat): Option<seq<byte>> {
    match PageOf(objects, o, c)
    case None => None
    case Some(a) => if a in nand then Some(nand[a].data) else None
  }

  /** Whether the page a file refers to for a chunk, or for its header, carries the tag of a shrink. */
  predicate Marked(nand: map<Addr, Page>, objects: map<nat, Obj>, o: nat, c: nat) {
    match PageOf(objects, o, c)
    case None => false
    case Some(a) => a in nand && nand[a].isShrink
  }

  // ----- The bookkeeping of a device as one value -----

  datatype Core = Core(
    chunksPerBlock: nat, chunksPerSummary: nat, blocks: seq<BlockInfo>, nand: map<Addr, Page>,
    nFree: int, nErased: int, inCheckpt: int,
    allocBlock: int, allocPage: nat, seqNumber: nat, oldestDirtySeq: nat, tracked: bool)

  ghost predicate CoreOk(c: Core) {
    && BlocksOk(c.chunksPerBlock, c.blocks)
    && Counted(c.chunksPerBlock, c.blocks, c.nFree, c.nErased, c.inCheckpt)
    && AllocOk(c.chunksPerBlock, c.blocks, c.allocBlock, c.allocPage, c.seqNumber)
    && NandOk(c.blocks, c.nand, c.allocBlock, c.allocPage)
    && SummaryOk(c.chunksPerSummary, c.blocks, c.nand)
    && DirtyOk(c.chunksPerBlock, c.blocks, c.oldestDirtySeq, c.seqNumber, c.tracked)
  }

  /** The core after block i became bi, with the counters moved by the difference. */
  function SetBlock(c: Core, i: nat, bi: BlockInfo): Core
    requires i < |c.blocks|
  {
    c.(blocks := c.blocks[i := bi],
       nFree := c.nFree - FreeOf(c.chunksPerBlock, c.blocks[i]) + FreeOf(c.chunksPerBlock, bi),
       nErased := c.nErased - One(c.blocks[i].state == Empty) + One(bi.state == Empty),
       inCheckpt := c.inCheckpt - One(c.blocks[i].state == Checkpoint) + One(bi.state == Checkpoint))
  }

  lemma CountsAfterSet(c: Core, i: nat, bi: BlockInfo)
    requires i < |c.blocks| && BlocksOk(c.chunksPerBlock, c.blocks) && BlockOk(c.chunksPerBlock, bi)
    requires Counted(c.chunksPerBlock, c.blocks, c.nFree, c.nErased, c.inCheckpt)
    ensures var c' := SetBlock(c, i, bi);
            BlocksOk(c.chunksPerBlock, c'.blocks) && Counted(c.chunksPerBlock, c'.blocks, c'.nFree, c'.nErased, c'.inCheckpt)
  {
    hide BlockOk, FreeOf;
    UpdateCounts(c.chunksPerBlock, c.blocks, i, bi);
  }

  function WithoutBlock(nand: map<Addr, Page>, i: nat): (r: map<Addr, Page>)
    ensures forall a :: a in r <==> a in nand && a.block != i
    ensures forall a :: a in r ==> r[a] == nand[a]
  {
    map a | a in nand && a.block != i :: nand[a]
  }

  /** A block with no page in use that becomes empty or dead. */
  function Erased(c: Core, i: nat, bi: BlockInfo, erased: bool): Core
    requires i < |c.blocks|
  {
    var c' := SetBlock(c, i, bi);
    if erased then c'.(nand := WithoutBlock(c.nand, i)) else c'
  }

  lemma ErasePlaces(c: Core, i: nat, bi: BlockInfo, erased: bool)
    requires CoreOk(c) && i < |c.blocks| && i != c.allocBlock
    requires BlockOk(c.chunksPerBlock, bi) && bi.bits == {} && bi.state == (if erased then Empty else Dead) && bi.seqNumber <= c.blocks[i].seqNumber
    ensures var c' := Erased(c, i, bi, erased);
            && AllocOk(c.chunksPerBlock, c'.blocks, c.allocBlock, c.allocPage, c.seqNumber)
            && DirtyOk(c.chunksPerBlock, c'.blocks, c.oldestDirtySeq, c.seqNumber, c.tracked)
  {
    hide BlockOk, FreeOf, Counted, NandOk, SummaryOk, BlocksOk;
  }

  lemma ErasePages(c: Core, i: nat, bi: BlockInfo, erased: bool)
    requires CoreOk(c) && i < |c.blocks| && i != c.allocBlock
    requires bi.bits == {} && bi.state == (if erased then Empty else Dead)
    ensures var c' := Erased(c, i, bi, erased);
            && NandOk(c'.blocks, c'.nand, c.allocBlock, c.allocPage) && SummaryOk(c.chunksPerSummary, c'.blocks, c'.nand)
  {
    hide BlockOk, FreeOf, Counted, BlocksOk, AllocOk, DirtyOk;
  }

  lemma AfterErase(c: Core, i: nat, bi: BlockInfo, erased: bool)
    requires CoreOk(c) && i < |c.blocks| && i != c.allocBlock
    requires BlockOk(c.chunksPerBlock, bi) && bi.bits == {} && bi.state == (if erased then Empty else Dead) && bi.seqNumber <= c.blocks[i].seqNumber
    ensures CoreOk(Erased(c, i, bi, erased))
  {
    CountsAfterSet(c, i, bi) by { hide AllocOk, NandOk, DirtyOk, SummaryOk, BlockOk; }
    ErasePlaces(c, i, bi, erased);
    ErasePages(c, i, bi, erased);
    hide AllocOk, NandOk, DirtyOk, BlocksOk, SummaryOk, BlockOk, Counted, FreeOf;
  }

  /** Erasing a block with no page in use takes nothing away from any file. */
  lemma FilesAfterErase(c: Core, i: nat, bi: BlockInfo, erased: bool, objects: map<nat, Obj>, loose: set<Addr>)
    requires i < |c.blocks| && FilesOk(c.blocks, c.nand, objects, loose)
    requires c.blocks[i].bits == {} && bi.bits == {}
    ensures var c' := Erased(c, i, bi, erased);
            FilesOk(c'.blocks, c'.nand, objects, loose)
  {
    hide FreeOf;
    var c' := Erased(c, i, bi, erased);
    forall a ensures InUse(c'.blocks, a) == InUse(c.blocks, a) && (InUse(c.blocks, a) ==> a.block != i) {}
    hide InUse;
  }

  // ----- Taking a page out of use -----

  /** The oldest dirty sequence number after a page of block i was discarded. */
  function DirtySeq(c: Core, i: nat): nat
    requires i < |c.blocks|
  {
    if c.oldestDirtySeq != 0 && c.oldestDirtySeq > c.blocks[i].seqNumber then c.blocks[i].seqNumber else c.oldestDirtySeq
  }

  function BitCleared(bi: BlockInfo, k: nat): BlockInfo {
    bi.(bits := bi.bits - {k}, pagesInUse := bi.pagesInUse - 1)
  }

  function Deleted(c: Core, i: nat, k: nat): Core
    requires i < |c.blocks|
  {
    SetBlock(c, i, BitCleared(c.blocks[i], k)).(oldestDirtySeq := DirtySeq(c, i))
  }

  /** Changing a block without adding to its bits keeps everything, once the oldest dirty sequence number covers
      the block or if the block is not full. */
  lemma BitsNotAdded(c: Core, i: nat, bi: BlockInfo, oldest: nat)
    requires CoreOk(c) && i < |c.blocks| && BlockOk(c.chunksPerBlock, bi) && bi.bits <= c.blocks[i].bits
    requires bi.state == c.blocks[i].state && bi.seqNumber == c.blocks[i].seqNumber && bi.hasSummary == c.blocks[i].hasSummary
    requires oldest == DirtySeq(c, i) || (oldest == c.oldestDirtySeq && bi.state != Full)
    ensures CoreOk(SetBlock(c, i, bi).(oldestDirtySeq := oldest))
  {
    hide Counted, FreeOf, BlockOk;
    CountsAfterSet(c, i, bi);
    var c' := SetBlock(c, i, bi);
    assert AllocOk(c.chunksPerBlock, c'.blocks, c'.allocBlock, c'.allocPage, c'.seqNumber) by { hide NandOk, DirtyOk, SummaryOk; }
    assert NandOk(c'.blocks, c'.nand, c'.allocBlock, c'.allocPage) by { hide AllocOk, DirtyOk, SummaryOk; }
    assert DirtyOk(c.chunksPerBlock, c'.blocks, oldest, c'.seqNumber, c.tracked) by { hide NandOk, SummaryOk; }
    assert SummaryOk(c.chunksPerSummary, c'.blocks, c'.nand) by { hide AllocOk, NandOk, DirtyOk; }
  }

  lemma AfterDelete(c: Core, i: nat, k: nat)
    requires CoreOk(c) && i < |c.blocks| && k in c.blocks[i].bits && k !in c.blocks[i].soft
    ensures var c' := Deleted(c, i, k);
            CoreOk(c') && c'.nFree == c.nFree + 1 && c'.nErased == c.nErased && c'.inCheckpt == c.inCheckpt
  {
    hide Counted, AllocOk, NandOk, DirtyOk, SummaryOk;
    var bi := BitCleared(c.blocks[i], k);
    assert BlockOk(c.chunksPerBlock, c.blocks[i]) && BlockOk(c.chunksPerBlock, bi);
    BitsNotAdded(c, i, bi, DirtySeq(c, i));
  }

  lemma FilesAfterDelete(blocks: seq<BlockInfo>, nand: map<Addr, Page>, i: nat, k: nat, objects: map<nat, Obj>, loose: set<Addr>)
    requires i < |blocks| && FilesOk(blocks, nand, objects, loose)
    requires Addr(i, k) in loose
    ensures FilesOk(blocks[i := BitCleared(blocks[i], k)], nand, objects, loose - {Addr(i, k)})
  {
    var blocks' := blocks[i := BitCleared(blocks[i], k)];
    forall a ensures InUse(blocks', a) == (InUse(blocks, a) && a != Addr(i, k))
             ensures InUse(blocks, a) ==> blocks'[a.block].soft == blocks[a.block].soft {}
    hide InUse;
  }

  // ----- Taking a block and its pages into use -----

  function BlockTaken(c: Core, i: nat): Core
    requires i < |c.blocks|
  {
    SetBlock(c, i, c.blocks[i].(state := Allocating, seqNumber := c.seqNumber + 1))
      .(seqNumber := c.seqNumber + 1, allocBlock := i, allocPage := 0)
  }

  lemma AfterBlockTaken(c: Core, i: nat)
    requires CoreOk(c) && c.allocBlock == -1 && i < |c.blocks| && c.blocks[i].state == Empty
    ensures CoreOk(BlockTaken(c, i))
  {
    hide FreeOf, Counted;
    var bi := c.blocks[i].(state := Allocating, seqNumber := c.seqNumber + 1);
    assert BlockOk(c.chunksPerBlock, c.blocks[i]) && BlockOk(c.chunksPerBlock, bi);
    CountsAfterSet(c, i, bi);
    hide BlockOk;
    var c' := BlockTaken(c, i);
    assert AllocOk(c.chunksPerBlock, c'.blocks, i, 0, c'.seqNumber) by { hide NandOk, DirtyOk, SummaryOk; }
    assert NandOk(c'.blocks, c'.nand, i, 0) by { hide AllocOk, DirtyOk, SummaryOk; }
    assert DirtyOk(c.chunksPerBlock, c'.blocks, c.oldestDirtySeq, c'.seqNumber, c.tracked) by { hide AllocOk, NandOk, SummaryOk; }
    assert SummaryOk(c.chunksPerSummary, c'.blocks, c'.nand) by { hide AllocOk, NandOk, DirtyOk; }
  }

  lemma FilesSameBits(blocks: seq<BlockInfo>, nand: map<Addr, Page>, i: nat, bi: BlockInfo, objects: map<nat, Obj>, loose: set<Addr>)
    requires i < |blocks| && FilesOk(blocks, nand, objects, loose)
    requires bi.bits == blocks[i].bits && bi.soft == blocks[i].soft
    ensures FilesOk(blocks[i := bi], nand, objects, loose)
  {
    forall a ensures InUse(blocks[i := bi], a) == InUse(blocks, a) {}
    forall a | InUse(blocks, a) ensures blocks[i := bi][a.block].soft == blocks[a.block].soft {}
    hide InUse;
  }

  function BitSet(bi: BlockInfo, k: nat): BlockInfo {
    bi.(bits := bi.bits + {k}, pagesInUse := bi.pagesInUse + 1)
  }

  lemma BitSetFields(bi: BlockInfo, k: nat)
    ensures BitSet(bi, k) == bi.(bits := BitSet(bi, k).bits, pagesInUse := BitSet(bi, k).pagesInUse)
  {
  }

  /** The allocation block gives out its next page, and is full once that was the last one. */
  function PageTaken(c: Core): Core
    requires 0 <= c.allocBlock < |c.blocks|
  {
    var bi := BitSet(c.blocks[c.allocBlock], c.allocPage);
    if c.allocPage + 1 >= c.chunksPerBlock
    then SetBlock(c, c.allocBlock, bi.(state := Full)).(allocPage := c.allocPage + 1, allocBlock := -1)
    else SetBlock(c, c.allocBlock, bi).(allocPage := c.allocPage + 1)
  }

  lemma BitSetOk(chunksPerBlock: nat, bi: BlockInfo, k: nat, s: BlockState)
    requires BlockOk(chunksPerBlock, bi) && bi.state == Allocating && k < chunksPerBlock && k !in bi.bits && s in {Allocating, Full}
    ensures BlockOk(chunksPerBlock, BitSet(bi, k).(state := s))
  {
  }

  /** The allocation block gains its next page and stays in allocation or becomes full. */
  function BitAdded(c: Core, s: BlockState): Core
    requires 0 <= c.allocBlock < |c.blocks|
  {
    SetBlock(c, c.allocBlock, BitSet(c.blocks[c.allocBlock], c.allocPage).(state := s))
      .(allocPage := c.allocPage + 1, allocBlock := if s == Full then -1 else c.allocBlock)
  }

  lemma AfterBitAdded(c: Core, s: BlockState)
    requires CoreOk(c) && c.allocBlock >= 0 && c.allocPage < c.chunksPerBlock && s in {Allocating, Full}
    ensures var c' := BitAdded(c, s);
            CoreOk(c') && c'.nFree == c.nFree - 1 && c'.nErased == c.nErased && c'.inCheckpt == c.inCheckpt
  {
    hide Counted;
    var i, k := c.allocBlock, c.allocPage;
    var bi := BitSet(c.blocks[i], k).(state := s);
    assert BlockOk(c.chunksPerBlock, c.blocks[i]);
    BitSetOk(c.chunksPerBlock, c.blocks[i], k, s);
    NoSummaryYet(c.chunksPerBlock, c.blocks[i]);
    CountsAfterSet(c, i, bi);
    var c' := BitAdded(c, s);
    hide BlockOk;
    hide AllocOk, NandOk, DirtyOk, SummaryOk;
    BitAddedKeepsAlloc(c, s);
    BitAddedKeepsRest(c, s);
  }

  lemma BitAddedKeepsAlloc(c: Core, s: BlockState)
    requires CoreOk(c) && c.allocBlock >= 0 && c.allocPage < c.chunksPerBlock && s in {Allocating, Full}
    ensures var c' := BitAdded(c, s);
            && AllocOk(c.chunksPerBlock, c'.blocks, c'.allocBlock, c'.allocPage, c'.seqNumber)
            && NandOk(c'.blocks, c'.nand, c'.allocBlock, c'.allocPage)
  {
    hide Counted, FreeOf, BlockOk, DirtyOk, SummaryOk;
    var c' := BitAdded(c, s);
    assert AllocOk(c.chunksPerBlock, c'.blocks, c'.allocBlock, c'.allocPage, c'.seqNumber) by { hide NandOk; }
    assert NandOk(c'.blocks, c'.nand, c'.allocBlock, c'.allocPage) by { hide AllocOk; }
  }

  lemma BitAddedKeepsRest(c: Core, s: BlockState)
    requires CoreOk(c) && c.allocBlock >= 0 && s in {Allocating, Full} && !c.blocks[c.allocBlock].hasSummary
    ensures var c' := BitAdded(c, s);
            DirtyOk(c.chunksPerBlock, c'.blocks, c'.oldestDirtySeq, c'.seqNumber, c.tracked) && SummaryOk(c.chunksPerSummary, c'.blocks, c'.nand)
  {
    hide Counted, FreeOf, BlockOk, NandOk;
    var c' := BitAdded(c, s);
    assert DirtyOk(c.chunksPerBlock, c'.blocks, c'.oldestDirtySeq, c'.seqNumber, c.tracked) by { hide SummaryOk; }
    assert SummaryOk(c.chunksPerSummary, c'.blocks, c'.nand) by { hide AllocOk, DirtyOk; }
  }

  lemma AfterPageTaken(c: Core)
    requires CoreOk(c) && c.allocBlock >= 0 && c.allocPage < c.chunksPerBlock
    ensures var c' := PageTaken(c);
            CoreOk(c') && c'.nFree == c.nFree - 1 && c'.nErased == c.nErased && c'.inCheckpt == c.inCheckpt
    ensures NextPageUnused(c)
  {
    hide Counted, BlocksOk, DirtyOk, SummaryOk, FreeOf;
    AfterBitAdded(c, if c.allocPage + 1 >= c.chunksPerBlock then Full else Allocating);
    var bi := BitSet(c.blocks[c.allocBlock], c.allocPage);
    assert bi.(state := Allocating) == bi;
  }

  /** The next page to be allocated is neither programmed nor in use. */
  ghost predicate NextPageUnused(c: Core)
    requires 0 <= c.allocBlock < |c.blocks|
  {
    Addr(c.allocBlock, c.allocPage) !in c.nand && c.allocPage !in c.blocks[c.allocBlock].bits
  }

  lemma NoSummaryYet(chunksPerBlock: nat, bi: BlockInfo)
    requires BlockOk(chunksPerBlock, bi) && bi.state == Allocating
    ensures !bi.hasSummary
  {
  }

  lemma FilesAfterPageTaken(blocks: seq<BlockInfo>, nand: map<Addr, Page>, i: nat, k: nat, s: BlockState, objects: map<nat, Obj>, loose: set<Addr>)
    requires i < |blocks| && FilesOk(blocks, nand, objects, loose) && k !in blocks[i].bits
    ensures FilesOk(blocks[i := BitSet(blocks[i], k).(state := s)], nand, objects, loose + {Addr(i, k)})
  {
    var blocks' := blocks[i := BitSet(blocks[i], k).(state := s)];
    forall a ensures InUse(blocks', a) == (InUse(blocks, a) || a == Addr(i, k)) {}
    forall a | InUse(blocks, a) ensures blocks'[a.block].soft == blocks[a.block].soft {}
    assert !InUse(blocks, Addr(i, k));
    hide InUse;
  }

  /** Programming a page that is in use for the first time, tagged with its block's sequence number. */
  lemma AfterProgram(c: Core, a: Addr, p: Page, objects: map<nat, Obj>, loose: set<Addr>)
    requires CoreOk(c) && a !in c.nand && InUse(c.blocks, a) && p.seqNumber == c.blocks[a.block].seqNumber
    requires c.blocks[a.block].hasSummary ==> a.page < c.chunksPerSummary
    requires FilesOk(c.blocks, c.nand, objects, loose) && a in loose
    ensures CoreOk(c.(nand := c.nand[a := p]))
    ensures FilesOk(c.blocks, c.nand[a := p], objects, loose)
  {
    hide Counted;
    var c' := c.(nand := c.nand[a := p]);
    assert c.blocks[a.block].state != Empty by { assert BlockOk(c.chunksPerBlock, c.blocks[a.block]); }
    hide BlocksOk;
    assert NandOk(c'.blocks, c'.nand, c'.allocBlock, c'.allocPage) by { hide DirtyOk, SummaryOk; }
    assert SummaryOk(c.chunksPerSummary, c'.blocks, c'.nand) by { hide AllocOk, NandOk, DirtyOk; }
    assert FilesOk(c.blocks, c.nand[a := p], objects, loose) by { hide InUse, CoreOk; }
  }

  /** The allocation block is given up as it is. */
  function Skipped(c: Core): Core
    requires c.allocBlock < |c.blocks|
  {
    if c.allocBlock < 0 then c
    else SetBlock(c, c.allocBlock, c.blocks[c.allocBlock].(state := Full)).(allocBlock := -1)
  }

  lemma AfterSkip(c: Core)
    requires CoreOk(c)
    ensures var c' := Skipped(c); CoreOk(c') && c' == c.(blocks := c'.blocks, allocBlock := -1)
  {
    hide Counted;
    if c.allocBlock >= 0 {
      var bi := c.blocks[c.allocBlock].(state := Full);
      assert BlockOk(c.chunksPerBlock, c.blocks[c.allocBlock]) && BlockOk(c.chunksPerBlock, bi);
      CountsAfterSet(c, c.allocBlock, bi);
      var c' := Skipped(c);
      hide BlockOk;
      assert AllocOk(c.chunksPerBlock, c'.blocks, c'.allocBlock, c'.allocPage, c'.seqNumber) by { hide NandOk, DirtyOk, SummaryOk; }
      assert NandOk(c'.blocks, c'.nand, c'.allocBlock, c'.allocPage) by { hide AllocOk, DirtyOk, SummaryOk; }
      assert DirtyOk(c.chunksPerBlock, c'.blocks, c'.oldestDirtySeq, c'.seqNumber, c.tracked) by { hide NandOk, SummaryOk; }
      assert SummaryOk(c.chunksPerSummary, c'.blocks, c'.nand) by { hide AllocOk, NandOk, DirtyOk; }
    }
  }

  // ----- Block summaries -----

  /** One summary page: programmed and put in use at the next page of the allocation block. */
  function SummaryPage(c: Core, p: Page): Core
    requires 0 <= c.allocBlock < |c.blocks|
  {
    SetBlock(c, c.allocBlock, BitSet(c.blocks[c.allocBlock], c.allocPage))
      .(allocPage := c.allocPage + 1, nand := c.nand[Addr(c.allocBlock, c.allocPage) := p])
  }

  lemma AfterSummaryPage(c: Core, p: Page, objects: map<nat, Obj>, loose: set<Addr>)
    requires CoreOk(c) && 0 <= c.allocBlock && c.allocPage < c.chunksPerBlock
    requires p.objId == OBJECTID_SUMMARY && p.seqNumber == c.seqNumber
    requires FilesOk(c.blocks, c.nand, objects, loose)
    ensures var c' := SummaryPage(c, p);
            && CoreOk(c') && FilesOk(c'.blocks, c'.nand, objects, loose)
            && c'.nFree == c.nFree - 1 && c'.nErased == c.nErased && c'.inCheckpt == c.inCheckpt
    ensures NextPageUnused(c)
  {
    hide Counted, BlocksOk, DirtyOk, SummaryOk, FreeOf, FilesOk, NandOk;
    var i, k := c.allocBlock, c.allocPage;
    var c1 := BitAdded(c, Allocating);
    AllocationBlock(c);
    AfterBitAdded(c, Allocating);
    FilesAfterPageTaken(c.blocks, c.nand, i, k, Allocating, objects, loose);
    AfterProgram(c1, Addr(i, k), p, objects, loose + {Addr(i, k)});
    SummaryPageBelongsToNobody(c1.blocks, c.nand, Addr(i, k), p, objects, loose);
  }

  lemma AllocationBlock(c: Core)
    requires CoreOk(c) && c.allocBlock >= 0
    ensures var bi := c.blocks[c.allocBlock];
            && bi.state == Allocating && !bi.hasSummary && bi.seqNumber == c.seqNumber && BitSet(bi, c.allocPage).(state := Allocating) == BitSet(bi, c.allocPage)
            && c.allocPage !in bi.soft
    ensures NextPageUnused(c)
  {
    assert BlockOk(c.chunksPerBlock, c.blocks[c.allocBlock]);
  }

  lemma SummaryPageBelongsToNobody(blocks: seq<BlockInfo>, nand: map<Addr, Page>, a: Addr, p: Page, objects: map<nat, Obj>, loose: set<Addr>)
    requires FilesOk(blocks, nand, objects, loose + {a}) && a !in nand && p.objId == OBJECTID_SUMMARY
    requires InUse(blocks, a) && a.page !in blocks[a.block].soft
    ensures FilesOk(blocks, nand[a := p], objects, loose)
  {
    hide InUse;
  }

  /** The block with its summary written in full: every page from chunksPerSummary on is a summary page. */
  function Summarised(c: Core, i: nat): Core
    requires i < |c.blocks|
  {
    SetBlock(c, i, c.blocks[i].(hasSummary := true))
  }

  lemma AfterSummarised(c: Core, i: nat)
    requires CoreOk(c) && i < |c.blocks| && c.blocks[i].state == Full
    requires forall a :: InUse(c.blocks, a) && a.block == i && a.page >= c.chunksPerSummary ==>
               a in c.nand && c.nand[a].objId == OBJECTID_SUMMARY
    ensures var c' := Summarised(c, i); CoreOk(c') && c' == c.(blocks := c'.blocks)
  {
    hide Counted;
    var bi := c.blocks[i].(hasSummary := true);
    assert BlockOk(c.chunksPerBlock, c.blocks[i]) && BlockOk(c.chunksPerBlock, bi);
    CountsAfterSet(c, i, bi);
    var c' := Summarised(c, i);
    hide BlockOk;
    assert AllocOk(c.chunksPerBlock, c'.blocks, c'.allocBlock, c'.allocPage, c'.seqNumber) by { hide NandOk, DirtyOk, SummaryOk; }
    assert NandOk(c'.blocks, c'.nand, c'.allocBlock, c'.allocPage) by { hide AllocOk, DirtyOk, SummaryOk; }
    assert DirtyOk(c.chunksPerBlock, c'.blocks, c'.oldestDirtySeq, c'.seqNumber, c.tracked) by { hide AllocOk, NandOk, SummaryOk; }
    assert SummaryOk(c.chunksPerSummary, c'.blocks, c'.nand) by { hide AllocOk, NandOk, DirtyOk; }
  }

  /** Collection drops a summary page: its bit goes and the page counts as free again. */
  lemma AfterSummaryDropped(c: Core, i: nat, k: nat, objects: map<nat, Obj>, loose: set<Addr>)
    requires CoreOk(c) && i < |c.blocks| && c.blocks[i].state == Collecting
    requires c.blocks[i].hasSummary && k in c.blocks[i].bits && k >= c.chunksPerSummary
    requires FilesOk(c.blocks, c.nand, objects, loose) && Addr(i, k) !in loose && k !in c.blocks[i].soft
    ensures var c' := SetBlock(c, i, BitCleared(c.blocks[i], k));
            && CoreOk(c') && c'.nFree == c.nFree + 1 && c'.nErased == c.nErased && c'.inCheckpt == c.inCheckpt
            && FilesOk(c'.blocks, c'.nand, objects, loose)
  {
    hide Counted;
    var a := Addr(i, k);
    assert a in c.nand && c.nand[a].objId == OBJECTID_SUMMARY by { assert InUse(c.blocks, a); hide AllocOk, NandOk, DirtyOk, FilesOk; }
    assert FilesOk(c.blocks, c.nand, objects, loose + {a}) by { hide CoreOk, InUse; }
    FilesAfterDelete(c.blocks, c.nand, i, k, objects, loose + {a});
    assert loose + {a} - {a} == loose;
    hide FilesOk;
    var bi := BitCleared(c.blocks[i], k);
    assert BlockOk(c.chunksPerBlock, c.blocks[i]) && BlockOk(c.chunksPerBlock, bi);
    CountsAfterSet(c, i, bi);
    BitsNotAdded(c, i, bi, c.oldestDirtySeq);
  }

  // ----- Garbage collection of one block -----

  /** The block enters collection, its shrink mark cleared so that it may be erased. */
  lemma AfterCollectStart(c: Core, i: nat)
    requires CoreOk(c) && i < |c.blocks| && c.blocks[i].state == Full
    ensures var bi := c.blocks[i].(state := Collecting, hasShrinkHdr := false);
            CoreOk(c.(blocks := c.blocks[i := bi]))
  {
    hide Counted;
    var bi := c.blocks[i].(state := Collecting, hasShrinkHdr := false);
    assert BlockOk(c.chunksPerBlock, c.blocks[i]) && BlockOk(c.chunksPerBlock, bi);
    CountsAfterSet(c, i, bi);
    var c' := SetBlock(c, i, bi);
    assert c' == c.(blocks := c.blocks[i := bi]);
    hide BlockOk;
    assert AllocOk(c.chunksPerBlock, c'.blocks, c'.allocBlock, c'.allocPage, c'.seqNumber) by { hide NandOk, DirtyOk, SummaryOk; }
    assert NandOk(c'.blocks, c'.nand, c'.allocBlock, c'.allocPage) by { hide AllocOk, DirtyOk, SummaryOk; }
    assert DirtyOk(c.chunksPerBlock, c'.blocks, c'.oldestDirtySeq, c'.seqNumber, c.tracked) by { hide AllocOk, NandOk, SummaryOk; }
    assert SummaryOk(c.chunksPerSummary, c'.blocks, c'.nand) by { hide AllocOk, NandOk, DirtyOk; }
  }

  /** The block goes back to full with pages left in it. The oldest dirty sequence number must already cover it. */
  lemma AfterCollectPaused(c: Core, i: nat)
    requires CoreOk(c) && i < |c.blocks| && c.blocks[i].state == Collecting
    requires !c.tracked || c.oldestDirtySeq <= c.blocks[i].seqNumber || c.blocks[i].pagesInUse - c.blocks[i].softDelPages >= c.chunksPerBlock
    ensures CoreOk(c.(blocks := c.blocks[i := c.blocks[i].(state := Full)]))
  {
    hide Counted;
    var bi := c.blocks[i].(state := Full);
    assert BlockOk(c.chunksPerBlock, c.blocks[i]) && BlockOk(c.chunksPerBlock, bi);
    CountsAfterSet(c, i, bi);
    var c' := SetBlock(c, i, bi);
    assert c' == c.(blocks := c.blocks[i := bi]);
    hide BlockOk;
    assert AllocOk(c.chunksPerBlock, c'.blocks, c'.allocBlock, c'.allocPage, c'.seqNumber) by { hide NandOk, DirtyOk, SummaryOk; }
    assert NandOk(c'.blocks, c'.nand, c'.allocBlock, c'.allocPage) by { hide AllocOk, DirtyOk, SummaryOk; }
    assert DirtyOk(c.chunksPerBlock, c'.blocks, c'.oldestDirtySeq, c'.seqNumber, c.tracked) by { hide AllocOk, NandOk, SummaryOk; }
    assert SummaryOk(c.chunksPerSummary, c'.blocks, c'.nand) by { hide AllocOk, NandOk, DirtyOk; }
  }

  /** A soft deleted page that collection comes across stops counting as soft deleted. */
  function SoftForgotten(bi: BlockInfo, k: nat): BlockInfo {
    bi.(soft := bi.soft - {k}, softDelPages := bi.softDelPages - 1)
  }

  lemma AfterSoftForgotten(c: Core, i: nat, k: nat, objects: map<nat, Obj>, loose: set<Addr>)
    requires CoreOk(c) && i < |c.blocks| && c.blocks[i].state == Collecting && k in c.blocks[i].soft
    requires FilesOk(c.blocks, c.nand, objects, loose)
    ensures var c' := SetBlock(c, i, SoftForgotten(c.blocks[i], k));
            && CoreOk(c') && c'.nFree == c.nFree - 1 && c'.nErased == c.nErased && c'.inCheckpt == c.inCheckpt
            && FilesOk(c'.blocks, c'.nand, objects, loose + {Addr(i, k)})
  {
    hide Counted, AllocOk, NandOk, DirtyOk, SummaryOk, FilesOk;
    var bi := SoftForgotten(c.blocks[i], k);
    assert BlockOk(c.chunksPerBlock, c.blocks[i]) && BlockOk(c.chunksPerBlock, bi);
    BitsNotAdded(c, i, bi, c.oldestDirtySeq);
    SoftForgottenFiles(c.blocks, c.nand, i, k, objects, loose);
  }

  lemma SoftForgottenFiles(blocks: seq<BlockInfo>, nand: map<Addr, Page>, i: nat, k: nat, objects: map<nat, Obj>, loose: set<Addr>)
    requires i < |blocks| && k in blocks[i].soft && k in blocks[i].bits && FilesOk(blocks, nand, objects, loose)
    ensures FilesOk(blocks[i := SoftForgotten(blocks[i], k)], nand, objects, loose + {Addr(i, k)})
  {
    var blocks' := blocks[i := SoftForgotten(blocks[i], k)];
    forall a ensures InUse(blocks', a) == InUse(blocks, a) {}
    forall a | InUse(blocks, a) && a != Addr(i, k) ensures (a.page in blocks'[a.block].soft) == (a.page in blocks[a.block].soft) {}
    hide InUse;
  }

  function SoftMarked(bi: BlockInfo, k: nat): BlockInfo {
    bi.(soft := bi.soft + {k}, softDelPages := bi.softDelPages + 1)
  }

  /** Soft deletion of a page. */
  function SoftDeleted(c: Core, i: nat, k: nat): Core
    requires i < |c.blocks|
  {
    SetBlock(c, i, SoftMarked(c.blocks[i], k))
      .(oldestDirtySeq := DirtySeq(c, i))
  }

  lemma AfterSoftDeleted(c: Core, i: nat, k: nat)
    requires CoreOk(c) && i < |c.blocks| && k in c.blocks[i].bits && k !in c.blocks[i].soft
    ensures var c' := SoftDeleted(c, i, k);
            CoreOk(c') && c'.nErased == c.nErased && c'.inCheckpt == c.inCheckpt
            && c'.nFree == c.nFree + 1
  {
    hide Counted, AllocOk, NandOk, DirtyOk, SummaryOk;
    var bi := SoftMarked(c.blocks[i], k);
    assert BlockOk(c.chunksPerBlock, c.blocks[i]) && BlockOk(c.chunksPerBlock, bi);
    BitsNotAdded(c, i, bi, DirtySeq(c, i));
  }

  // ----- What files refer to -----

  function WithChunk(objects: map<nat, Obj>, o: nat, c: nat, a: Addr): map<nat, Obj>
    requires o in objects
  {
    objects[o := if c == 0 then objects[o].(hdrChunk := Some(a)) else objects[o].(chunks := objects[o].chunks[c := a])]
  }

  /** Redirecting a chunk to a loose page that carries its tags makes the page it used before loose. */
  lemma FilesAfterPut(blocks: seq<BlockInfo>, nand: map<Addr, Page>, objects: map<nat, Obj>, loose: set<Addr>, o: nat, c: nat, a: Addr)
    requires FilesOk(blocks, nand, objects, loose) && o in objects && !(objects[o].deleted && objects[o].softDel && c != 0)
    requires a in loose && InUse(blocks, a) && a in nand && nand[a].objId == o && nand[a].chunkId == c && a.page !in blocks[a.block].soft
    ensures var before := PageOf(objects, o, c);
            FilesOk(blocks, nand, WithChunk(objects, o, c, a), loose - {a} + if before.Some? then {before.value} else {})
  {
    hide InUse;
    var objects' := WithChunk(objects, o, c, a);
    forall o', c', a' ensures RefersTo(objects', o', c', a') == (if o' == o && c' == c then a' == a else RefersTo(objects, o', c', a')) {}
    forall a' ensures RefersTo(objects, o, c, a') == (PageOf(objects, o, c) == Some(a')) {}
    hide RefersTo;
  }

  // ----- What a step leaves alone -----

  predicate Busy(s: BlockState) { s == Allocating || s == Full || s == Collecting }

  /** No page came into use, the pages in use went on holding what they held, only those in gone fell out of use,
      and of the blocks that hold data only the one at i may have changed. */
  ghost predicate Keeps(c0: Core, c: Core, gone: set<Addr>, i: int) {
    && |c.blocks| == |c0.blocks|
    && (forall a :: InUse(c.blocks, a) <==> InUse(c0.blocks, a) && a !in gone)
    && (forall a :: InUse(c.blocks, a) && a in c0.nand ==> a in c.nand && c.nand[a] == c0.nand[a])
    && (forall j :: 0 <= j < |c.blocks| && j != i && Busy(c0.blocks[j].state) ==> c.blocks[j] == c0.blocks[j])
  }

  /** Every page in use stayed in use and holds what it held, and full blocks and blocks under collection did not
      change. */
  ghost predicate Grows(c0: Core, c: Core) {
    && |c.blocks| == |c0.blocks|
    && (forall a :: InUse(c0.blocks, a) ==> InUse(c.blocks, a))
    && (forall a :: InUse(c0.blocks, a) && a in c0.nand ==> a in c.nand && c.nand[a] == c0.nand[a])
    && (forall j :: 0 <= j < |c.blocks| && (c0.blocks[j].state == Full || c0.blocks[j].state == Collecting) ==> c.blocks[j] == c0.blocks[j])
  }

  lemma GrowsTwice(c0: Core, c1: Core, c2: Core)
    requires Grows(c0, c1) && Grows(c1, c2)
    ensures Grows(c0, c2)
  {
    hide InUse;
  }

  lemma KeepsThen(c0: Core, c1: Core, c2: Core, gone: set<Addr>, i: int, j: int)
    requires Keeps(c0, c1, gone, i) && Keeps(c1, c2, {}, j) && (i == j || i == -1 || j == -1)
    ensures Keeps(c0, c2, gone, if i == -1 then j else i)
  {
    hide InUse;
  }

  lemma KeepsIsGrowth(c0: Core, c: Core)
    requires Keeps(c0, c, {}, -1)
    ensures Grows(c0, c)
  {
    hide InUse;
  }

  /** x was written before y: to an older block, or to an earlier page of the same block. */
  predicate Before(blocks: seq<BlockInfo>, x: Addr, y: Addr)
    requires x.block < |blocks| && y.block < |blocks|
  {
    blocks[x.block].seqNumber < blocks[y.block].seqNumber || (x.block == y.block && x.page < y.page)
  }

  /** Of two pages at most one was written before the other, and none before itself. */
  lemma BeforeIsStrict(blocks: seq<BlockInfo>, x: Addr, y: Addr)
    requires x.block < |blocks| && y.block < |blocks|
    ensures !(Before(blocks, x, y) && Before(blocks, y, x))
  {
  }

  /** Everything else in use, summary pages aside, was written before a. */
  ghost predicate Newest(c: Core, a: Addr) {
    && a.block < |c.blocks|
    && forall x :: InUse(c.blocks, x) && x != a && !(x in c.nand && c.nand[x].objId == OBJECTID_SUMMARY) ==> Before(c.blocks, x, a)
  }

  /** A page just allocated: in use, not programmed, in the newest block. */
  ghost predicate JustTaken(c: Core, a: Addr) {
    && InUse(c.blocks, a) && a !in c.nand
    && a.page !in c.blocks[a.block].soft && !c.blocks[a.block].hasSummary
    && c.blocks[a.block].seqNumber == c.seqNumber
    && (c.allocBlock == -1 ==> a.page + 1 == c.chunksPerBlock)
    && (c.allocBlock >= 0 ==> c.allocBlock == a.block && c.allocPage == a.page + 1)
    && Newest(c, a)
  }

  lemma JustTakenPage(c: Core, a: Addr)
    requires JustTaken(c, a)
    ensures InUse(c.blocks, a) && a.block < |c.blocks| && a.page !in c.blocks[a.block].soft
  {
  }

  lemma PageTakenIsNewest(c: Core, objects: map<nat, Obj>, loose: set<Addr>)
    requires CoreOk(c) && c.allocBlock >= 0 && c.allocPage < c.chunksPerBlock && FilesOk(c.blocks, c.nand, objects, loose)
    ensures var c', a := PageTaken(c), Addr(c.allocBlock, c.allocPage);
            JustTaken(c', a) && Grows(c, c') && FilesOk(c'.blocks, c'.nand, objects, loose + {a})
    ensures !InUse(c.blocks, Addr(c.allocBlock, c.allocPage)) && c.blocks[c.allocBlock].state == Allocating
  {
    hide Counted, DirtyOk, SummaryOk, FreeOf, FilesOk;
    AllocationBlock(c);
    var i, k := c.allocBlock, c.allocPage;
    var s := if k + 1 >= c.chunksPerBlock then Full else Allocating;
    FilesAfterPageTaken(c.blocks, c.nand, i, k, s, objects, loose);
    assert c.blocks[i := BitSet(c.blocks[i], k).(state := s)] == PageTaken(c).blocks;
    TakenKeepsUse(c, s);
    hide BlocksOk, NandOk, BlockOk;
    var c', a := PageTaken(c), Addr(i, k);
    forall x | InUse(c'.blocks, x) && x != a ensures Before(c'.blocks, x, a) {
      assert InUse(c.blocks, x);
    }
  }

  lemma TakenKeepsUse(c: Core, s: BlockState)
    requires 0 <= c.allocBlock < |c.blocks| && c.blocks[c.allocBlock].state == Allocating
    ensures var c' := BitAdded(c, s);
            && Grows(c, c')
            && forall a :: InUse(c'.blocks, a) <==> InUse(c.blocks, a) || a == Addr(c.allocBlock, c.allocPage)
  {
    hide FreeOf;
  }

  lemma BlockTakenFields(c: Core, i: nat)
    requires i < |c.blocks| && c.blocks[i].state == Empty
    ensures BlockTaken(c, i) == c.(blocks := c.blocks[i := c.blocks[i].(state := Allocating, seqNumber := c.seqNumber + 1)],
                                   nErased := c.nErased - 1, seqNumber := c.seqNumber + 1, allocBlock := i, allocPage := 0)
  {
  }

  lemma ErasedCount(c: Core)
    requires CoreOk(c)
    ensures c.nErased >= 0
    ensures c.nErased == 0 <==> forall i :: 0 <= i < |c.blocks| ==> c.blocks[i].state != Empty
  {
    CountZero(c.blocks, Empty);
  }

  /** The position that a cyclic search reaches after i steps from start. */
  function Cyclic(start: nat, i: nat, n: nat): nat { if start + i < n then start + i else start + i - n }

  ghost predicate NoneEmpty(blocks: seq<BlockInfo>, start: nat, i: nat) {
    && start < |blocks|
    && i <= |blocks|
    && forall j :: 0 <= j < i ==> blocks[Cyclic(start, j, |blocks|)].state != Empty
  }

  lemma SearchStep(blocks: seq<BlockInfo>, start: nat, i: nat)
    requires NoneEmpty(blocks, start, i) && i < |blocks| && blocks[Cyclic(start, i, |blocks|)].state != Empty
    ensures NoneEmpty(blocks, start, i + 1)
  {
  }

  lemma SearchedAll(blocks: seq<BlockInfo>, start: nat)
    requires NoneEmpty(blocks, start, |blocks|)
    ensures forall i :: 0 <= i < |blocks| ==> blocks[i].state != Empty
  {
    forall i | 0 <= i < |blocks| ensures blocks[i].state != Empty {
      var j := if i >= start then i - start else i + |blocks| - start;
      assert Cyclic(start, j, |blocks|) == i;
    }
  }

  /** b is the first empty block in a cyclic search from start. */
  ghost predicate FirstEmpty(blocks: seq<BlockInfo>, start: nat, b: nat) {
    exists i :: 0 <= i < |blocks| && b == Cyclic(start, i, |blocks|) && NoneEmpty(blocks, start, i)
  }

  lemma FoundFirst(blocks: seq<BlockInfo>, start: nat, i: nat, b: nat)
    requires i < |blocks| && b == Cyclic(start, i, |blocks|) && NoneEmpty(blocks, start, i)
    ensures FirstEmpty(blocks, start, b)
  {
  }

  lemma BlockTakenFiles(c: Core, i: nat, objects: map<nat, Obj>, loose: set<Addr>)
    requires i < |c.blocks| && FilesOk(c.blocks, c.nand, objects, loose)
    ensures FilesOk(BlockTaken(c, i).blocks, c.nand, objects, loose)
    ensures BlockTaken(c, i).nand == c.nand
  {
    hide FreeOf, FilesOk;
    FilesSameBits(c.blocks, c.nand, i, BlockTaken(c, i).blocks[i], objects, loose);
  }

  lemma BlockTakenGrows(c: Core, i: nat)
    requires i < |c.blocks| && c.blocks[i].state == Empty
    ensures Grows(c, BlockTaken(c, i))
  {
    hide FreeOf;
  }

  /** A block in use that is not the one being changed is the same after a step. */
  lemma BusyBlockKept(c0: Core, c: Core, b: nat)
    requires Keeps(c0, c, {}, -1) && b < |c0.blocks| && Busy(c0.blocks[b].state)
    ensures b < |c.blocks| && c.blocks[b] == c0.blocks[b]
  {
  }

  /** Keeps speaks of blocks and pages only. */
  lemma KeepsSame(c0: Core, c1: Core, c0': Core, c1': Core, gone: set<Addr>, b: int)
    requires Keeps(c0, c1, gone, b) && c0'.blocks == c0.blocks && c0'.nand == c0.nand && c1'.blocks == c1.blocks && c1'.nand == c1.nand
    ensures Keeps(c0', c1', gone, b)
  {
    hide InUse;
  }

  lemma KeepsLength(c0: Core, c: Core, b: int)
    requires Keeps(c0, c, {}, b)
    ensures |c.blocks| == |c0.blocks|
  {
  }

  lemma KeepsItself(c: Core)
    ensures Keeps(c, c, {}, -1)
  {
  }

  /** Erasing or retiring a block with nothing in use. */
  lemma BlockErased(c: Core, b: nat, bi: BlockInfo, erased: bool, objects: map<nat, Obj>, loose: set<Addr>)
    requires CoreOk(c) && FilesOk(c.blocks, c.nand, objects, loose)
    requires b < |c.blocks| && c.blocks[b].bits == {} && (c.blocks[b].state == Full || c.blocks[b].state == Collecting)
    requires if erased then bi.bits == bi.soft == {} && bi.pagesInUse == bi.softDelPages == bi.seqNumber == 0 && bi.state == Empty && !bi.hasSummary
             else bi == c.blocks[b].(state := Dead, needsRetiring := false)
    ensures var c' := Erased(c, b, bi, erased);
            && CoreOk(c') && FilesOk(c'.blocks, c'.nand, objects, loose)
            && Keeps(c, c', {}, b)
            && c' == c.(blocks := c.blocks[b := bi], nand := if erased then WithoutBlock(c.nand, b) else c.nand,
                        nFree := c.nFree - (if erased then 0 else c.chunksPerBlock), nErased := c.nErased + One(erased))
  {
    hide Counted, NandOk, DirtyOk, SummaryOk, FilesOk;
    assert BlockOk(c.chunksPerBlock, c.blocks[b]) && BlockOk(c.chunksPerBlock, bi);
    assert b != c.allocBlock;
    hide AllocOk;
    AfterErase(c, b, bi, erased);
    FilesAfterErase(c, b, bi, erased, objects, loose);
    hide CoreOk;
  }

  /** Everything about taking one page out of use. */
  lemma PageDeleted(c: Core, a: Addr, objects: map<nat, Obj>, loose: set<Addr>)
    requires CoreOk(c) && FilesOk(c.blocks, c.nand, objects, loose) && a in loose
    requires InUse(c.blocks, a) && a.page !in c.blocks[a.block].soft
    ensures var c' := Deleted(c, a.block, a.page);
            && CoreOk(c') && FilesOk(c'.blocks, c'.nand, objects, loose - {a})
            && Keeps(c, c', {a}, a.block)
            && c' == c.(blocks := c.blocks[a.block := BitCleared(c.blocks[a.block], a.page)], nFree := c.nFree + 1, oldestDirtySeq := DirtySeq(c, a.block))
    ensures var bi := BitCleared(c.blocks[a.block], a.page);
            && Busy(bi.state)
            && (bi.pagesInUse == 0 <==> bi.bits == {})
  {
    hide FilesOk;
    AfterDelete(c, a.block, a.page);
    FilesAfterDelete(c.blocks, c.nand, a.block, a.page, objects, loose);
    assert BlockOk(c.chunksPerBlock, c.blocks[a.block]) && BlockOk(c.chunksPerBlock, BitCleared(c.blocks[a.block], a.page));
    assert a == Addr(a.block, a.page);
    hide CoreOk;
  }

  /** The page of a loose page that carries no file's tags, or that some file does not refer to, may be deleted. */
  lemma MoreLoose(blocks: seq<BlockInfo>, nand: map<Addr, Page>, objects: map<nat, Obj>, loose: set<Addr>, a: Addr)
    requires FilesOk(blocks, nand, objects, loose) && InUse(blocks, a) && a in nand && nand[a].objId !in objects
    ensures FilesOk(blocks, nand, objects, loose + {a})
    ensures a !in loose ==> a.page !in blocks[a.block].soft
  {
    hide InUse;
  }

  lemma OnlyOneAllocating(c: Core)
    requires CoreOk(c)
    ensures -1 <= c.allocBlock < |c.blocks|
    ensures c.allocBlock >= 0 ==> c.blocks[c.allocBlock].state == Allocating
  {
  }

  lemma GrowsItself(c: Core)
    ensures Grows(c, c)
  {
  }

  /** Without an allocation block the allocation page means nothing. */
  lemma NoBlockNoPage(c: Core, c': Core)
    requires CoreOk(c) && c.allocBlock == -1 && c' == c.(allocPage := c'.allocPage)
    ensures CoreOk(c') && Grows(c, c')
  {
    hide BlocksOk, Counted, SummaryOk, DirtyOk;
  }

  /** A page taken for writing lies in a block that held no data before or was already being written. */
  predicate NewBlock(blocks: seq<BlockInfo>, a: Addr) {
    a.block < |blocks| && (blocks[a.block].state == Empty || blocks[a.block].state == Allocating)
  }

  // ----- Writing the summary of a block -----

  /** Summary pages have been written up to c.allocPage; they are all that has come into use since c0. */
  ghost predicate SummaryGoing(c0: Core, c: Core, objects: map<nat, Obj>, loose: set<Addr>) {
    && CoreOk(c) && FilesOk(c.blocks, c.nand, objects, loose)
    && Grows(c0, c)
    && c.allocBlock == c0.allocBlock && 0 <= c.allocBlock && c.seqNumber == c0.seqNumber
    && (forall x :: InUse(c.blocks, x) && !InUse(c0.blocks, x) ==> x in c.nand && c.nand[x].objId == OBJECTID_SUMMARY)
    && (forall i :: 0 <= i < |c.blocks| ==> c.blocks[i].seqNumber == c0.blocks[i].seqNumber && c.blocks[i].soft == c0.blocks[i].soft)
  }

  /** The pages of block b from chunksPerSummary up to k hold its summary, numbered from one. */
  ghost predicate SummaryPages(c: Core, b: nat, k: nat) {
    forall j :: c.chunksPerSummary <= j < k ==>
      InUse(c.blocks, Addr(b, j)) && Addr(b, j) in c.nand && c.nand[Addr(b, j)] == Page(OBJECTID_SUMMARY, j - c.chunksPerSummary + 1, c.seqNumber, false, [])
  }

  lemma SummaryPagesNone(c: Core, b: nat)
    ensures SummaryPages(c, b, c.chunksPerSummary)
  {
  }

  lemma SummaryPagesMore(c: Core, c': Core, b: nat, k: nat)
    requires SummaryPages(c, b, k) && k >= c.chunksPerSummary == c'.chunksPerSummary && c'.seqNumber == c.seqNumber && b < |c.blocks|
    requires c'.blocks == c.blocks[b := BitSet(c.blocks[b], k)]
    requires c'.nand == c.nand[Addr(b, k) := Page(OBJECTID_SUMMARY, k - c.chunksPerSummary + 1, c.seqNumber, false, [])]
    ensures SummaryPages(c', b, k + 1)
  {
  }

  lemma SummaryPagesStay(c: Core, c': Core, b: nat, k: nat)
    requires SummaryPages(c, b, k) && c'.nand == c.nand && c'.chunksPerSummary == c.chunksPerSummary && c'.seqNumber == c.seqNumber
    requires b < |c.blocks| && b < |c'.blocks| && c'.blocks[b].bits == c.blocks[b].bits
    ensures SummaryPages(c', b, k)
  {
  }

  lemma SummaryStarts(c: Core, objects: map<nat, Obj>, loose: set<Addr>)
    requires CoreOk(c) && FilesOk(c.blocks, c.nand, objects, loose) && c.allocBlock >= 0
    ensures SummaryGoing(c, c, objects, loose)
  {
    GrowsItself(c);
    hide CoreOk, FilesOk;
  }

  lemma SummaryPageDone(c0: Core, c: Core, p: Page, objects: map<nat, Obj>, loose: set<Addr>)
    requires SummaryGoing(c0, c, objects, loose) && c.allocPage < c.chunksPerBlock
    requires p.objId == OBJECTID_SUMMARY && p.seqNumber == c.seqNumber
    ensures var c', i := SummaryPage(c, p), c.allocBlock;
            && i < |c.blocks|
            && SummaryGoing(c0, c', objects, loose)
            && c' == c.(blocks := c.blocks[i := BitSet(c.blocks[i], c.allocPage)], nFree := c.nFree - 1,
                        allocPage := c.allocPage + 1, nand := c.nand[Addr(i, c.allocPage) := p])
  {
    hide FilesOk, CoreOk, Grows, InUse;
    OnlyOneAllocating(c);
    AfterSummaryPage(c, p, objects, loose);
    SummaryPageGrows(c, p);
    GrowsTwice(c0, c, SummaryPage(c, p));
  }

  lemma SummaryPageGrows(c: Core, p: Page)
    requires 0 <= c.allocBlock < |c.blocks| && NextPageUnused(c) && c.blocks[c.allocBlock].state == Allocating
    ensures var c' := SummaryPage(c, p);
            && Grows(c, c')
            && forall x :: InUse(c'.blocks, x) <==> InUse(c.blocks, x) || x == Addr(c.allocBlock, c.allocPage)
  {
    hide FreeOf;
  }

  /** A summary page that fails to program is not counted, but it is no longer clean either. */
  lemma SummaryPageFailed(c0: Core, c: Core, p: Page, objects: map<nat, Obj>, loose: set<Addr>)
    requires SummaryGoing(c0, c, objects, loose) && c.allocPage < c.chunksPerBlock
    ensures SummaryGoing(c0, c.(allocPage := c.allocPage + 1, nand := c.nand[Addr(c.allocBlock, c.allocPage) := p]), objects, loose)
    ensures c.allocBlock >= 0 && Addr(c.allocBlock, c.allocPage) !in c.nand
  {
    hide CoreOk, FilesOk, Grows;
    FailedProgram(c, p, objects, loose);
    FailedProgramGrows(c, p);
    GrowsTwice(c0, c, c.(allocPage := c.allocPage + 1, nand := c.nand[Addr(c.allocBlock, c.allocPage) := p]));
  }

  lemma FailedPlaces(c: Core, p: Page)
    requires CoreOk(c) && 0 <= c.allocBlock < |c.blocks| && c.allocPage < c.chunksPerBlock && NextPageUnused(c)
    ensures var c' := c.(allocPage := c.allocPage + 1, nand := c.nand[Addr(c.allocBlock, c.allocPage) := p]);
            && AllocOk(c.chunksPerBlock, c'.blocks, c'.allocBlock, c'.allocPage, c'.seqNumber)
            && NandOk(c'.blocks, c'.nand, c'.allocBlock, c'.allocPage) && SummaryOk(c.chunksPerSummary, c'.blocks, c'.nand)
  {
    hide BlocksOk, Counted, DirtyOk;
  }

  lemma FailedFiles(c: Core, p: Page, objects: map<nat, Obj>, loose: set<Addr>)
    requires FilesOk(c.blocks, c.nand, objects, loose) && 0 <= c.allocBlock < |c.blocks| && NextPageUnused(c)
    ensures FilesOk(c.blocks, c.nand[Addr(c.allocBlock, c.allocPage) := p], objects, loose)
  {
    assert !InUse(c.blocks, Addr(c.allocBlock, c.allocPage));
    hide InUse;
  }

  lemma FailedProgram(c: Core, p: Page, objects: map<nat, Obj>, loose: set<Addr>)
    requires CoreOk(c) && FilesOk(c.blocks, c.nand, objects, loose) && c.allocBlock >= 0 && c.allocPage < c.chunksPerBlock
    ensures var c' := c.(allocPage := c.allocPage + 1, nand := c.nand[Addr(c.allocBlock, c.allocPage) := p]);
            CoreOk(c') && FilesOk(c'.blocks, c'.nand, objects, loose)
    ensures c.allocBlock < |c.blocks| && NextPageUnused(c)
  {
    AllocationBlock(c);
    FailedPlaces(c, p);
    FailedFiles(c, p, objects, loose);
    hide BlocksOk, Counted, DirtyOk, FilesOk, InUse, AllocOk, NandOk, SummaryOk;
  }

  lemma FailedProgramGrows(c: Core, p: Page)
    requires 0 <= c.allocBlock < |c.blocks| && NextPageUnused(c)
    ensures Grows(c, c.(allocPage := c.allocPage + 1, nand := c.nand[Addr(c.allocBlock, c.allocPage) := p]))
  {
  }

  /** The finished summary: the block is marked and given up. */
  lemma SummaryFinished(c0: Core, c: Core, complete: bool, objects: map<nat, Obj>, loose: set<Addr>, page: nat)
    requires SummaryGoing(c0, c, objects, loose)
    requires forall x :: InUse(c0.blocks, x) && x.block == c0.allocBlock ==> x.page < c0.chunksPerSummary == c.chunksPerSummary
    ensures var b := c.allocBlock;
            && b < |c.blocks|
            && var c' := c.(blocks := c.blocks[b := c.blocks[b].(state := Full, hasSummary := c.blocks[b].hasSummary || complete)],
                            allocBlock := -1, allocPage := page);
            CoreOk(c') && FilesOk(c'.blocks, c'.nand, objects, loose) && Grows(c0, c')
  {
    var b := c.allocBlock;
    OnlyOneAllocating(c);
    AllocationBlock(c);
    AfterSkip(c);
    var c1 := Skipped(c);
    assert c1.blocks == c.blocks[b := c.blocks[b].(state := Full)];
    hide CoreOk, FilesOk;
    SkippedGrows(c);
    FilesSameBits(c.blocks, c.nand, b, c.blocks[b].(state := Full), objects, loose);
    var c2 := if complete then Summarised(c1, b) else c1;
    if complete {
      AfterSummarised(c1, b);
      FilesSameBits(c1.blocks, c1.nand, b, c1.blocks[b].(hasSummary := true), objects, loose);
    }
    assert c2.blocks == c.blocks[b := c.blocks[b].(state := Full, hasSummary := c.blocks[b].hasSummary || complete)];
    NoBlockNoPage(c2, c2.(allocPage := page));
    GivenUpGrows(c0, c, c2.(allocPage := page), b);
  }

  lemma SkippedGrows(c: Core)
    requires 0 <= c.allocBlock < |c.blocks|
    ensures forall x :: InUse(Skipped(c).blocks, x) <==> InUse(c.blocks, x)
  {
    hide FreeOf;
  }

  lemma GivenUpGrows(c0: Core, c: Core, c': Core, b: nat)
    requires Grows(c0, c) && b < |c.blocks| && c.blocks[b].state == Allocating && c'.nand == c.nand
    requires exists bi: BlockInfo :: bi.bits == c.blocks[b].bits && c'.blocks == c.blocks[b := bi]
    ensures Grows(c0, c')
  {
    forall x ensures InUse(c'.blocks, x) <==> InUse(c.blocks, x) {}
    assert c0.blocks[b].state != Full && c0.blocks[b].state != Collecting;
    hide InUse;
  }

  /** The newest page is still the newest after summary pages were added. */
  lemma StillNewest(c0: Core, c: Core, c': Core, a: Addr, objects: map<nat, Obj>, loose: set<Addr>)
    requires Newest(c0, a) && SummaryGoing(c0, c, objects, loose) && c'.nand == c.nand && |c'.blocks| == |c.blocks|
    requires forall i :: 0 <= i < |c.blocks| ==> c'.blocks[i].seqNumber == c.blocks[i].seqNumber && c'.blocks[i].bits == c.blocks[i].bits
    ensures Newest(c', a)
  {
    hide CoreOk, FilesOk;
    forall x ensures InUse(c'.blocks, x) <==> InUse(c.blocks, x) {}
  }

  /** What a successful write leaves behind. */
  ghost predicate Written(c: Core, a: Addr, p: Page) {
    && InUse(c.blocks, a) && a in c.nand && c.nand[a] == p
    && a.page !in c.blocks[a.block].soft
    && p.seqNumber == c.blocks[a.block].seqNumber
    && Newest(c, a)
  }

  // ----- The order of writes -----

  /** Where a chunk was written: the sequence number of the block, and the page. */
  datatype Place = Place(seqNumber: nat, page: nat)

  predicate Earlier(p: Place, q: Place) {
    p.seqNumber < q.seqNumber || (p.seqNumber == q.seqNumber && p.page < q.page)
  }

  /** Each write went to a later place than the one before. */
  ghost predicate Ascending(log: seq<Place>) {
    forall i :: 0 < i < |log| ==> Earlier(log[i - 1], log[i])
  }

  /** The next page of the allocation block, or any page of the block that will be opened next, is later than
      every place written so far. */
  ghost predicate LogOk(log: seq<Place>, seqNumber: nat, allocBlock: int, allocPage: nat) {
    && Ascending(log)
    && (log != [] ==>
          var p := log[|log| - 1];
          p.seqNumber < seqNumber || (p.seqNumber == seqNumber && (allocBlock >= 0 ==> p.page < allocPage)))
  }

  lemma {:induction false} AscendingEverywhere(log: seq<Place>, i: nat, j: nat)
    requires Ascending(log) && i < j < |log|
    ensures Earlier(log[i], log[j]) && log[i] != log[j]
    decreases j
  {
    assert Earlier(log[j - 1], log[j]);
    if i < j - 1 { AscendingEverywhere(log, i, j - 1); }
  }

  lemma OneMoreWrite(log: seq<Place>, seqNumber: nat, allocBlock: int, allocPage: nat, page: nat)
    requires LogOk(log, seqNumber, allocBlock, page) && allocBlock >= 0
    requires allocPage == page + 1
    ensures LogOk(log + [Place(seqNumber, page)], seqNumber, allocBlock, allocPage)
    ensures LogOk(log + [Place(seqNumber, page)], seqNumber, -1, allocPage)
    ensures LogOk(log, seqNumber, allocBlock, allocPage) && LogOk(log, seqNumber, -1, allocPage)
  {
  }

  lemma NextBlockIsLater(log: seq<Place>, seqNumber: nat, page: nat, allocBlock: int)
    requires LogOk(log, seqNumber, -1, page)
    ensures LogOk(log, seqNumber, -1, 0) && LogOk(log, seqNumber + 1, allocBlock, 0)
  {
  }

  lemma ProgramJustTaken(c: Core, a: Addr, p: Page, objects: map<nat, Obj>, loose: set<Addr>)
    requires CoreOk(c) && FilesOk(c.blocks, c.nand, objects, loose) && a in loose
    requires JustTaken(c, a) && p.seqNumber == c.seqNumber
    ensures var c' := c.(nand := c.nand[a := p]);
            && CoreOk(c') && FilesOk(c'.blocks, c'.nand, objects, loose)
            && Grows(c, c') && Written(c', a, p)
  {
    hide CoreOk, FilesOk;
    AfterProgram(c, a, p, objects, loose);
  }

  lemma BitsBelowAllocPage(c: Core)
    requires CoreOk(c) && c.allocBlock >= 0
    ensures forall x :: InUse(c.blocks, x) && x.block == c.allocBlock ==> x.page < c.allocPage
  {
  }

  lemma PageInBlock(c: Core, a: Addr)
    requires CoreOk(c) && InUse(c.blocks, a)
    ensures a.page < c.chunksPerBlock
  {
    assert BlockOk(c.chunksPerBlock, c.blocks[a.block]);
  }

  lemma WrittenStays(c0: Core, c: Core, a: Addr, p: Page, complete: bool, objects: map<nat, Obj>, loose: set<Addr>, page: nat)
    requires Written(c0, a, p) && SummaryGoing(c0, c, objects, loose) && c.allocBlock < |c.blocks|
    ensures var b := c.allocBlock;
            var c' := c.(blocks := c.blocks[b := c.blocks[b].(state := Full, hasSummary := c.blocks[b].hasSummary || complete)],
                         allocBlock := -1, allocPage := page);
            Written(c', a, p)
  {
    hide CoreOk, FilesOk;
    var b := c.allocBlock;
    var c' := c.(blocks := c.blocks[b := c.blocks[b].(state := Full, hasSummary := c.blocks[b].hasSummary || complete)],
                 allocBlock := -1, allocPage := page);
    StillNewest(c0, c, c', a, objects, loose);
  }

  // ----- Which block may be collected -----

  /** A full block may be collected if no full block is older, if it has no shrink header, or if no full block with
      discarded pages is older: by the oldest dirty sequence number, or by looking at them all where that is not known. */
  ghost predicate MayCollect(c: Core, b: nat) {
    && b < |c.blocks| && c.blocks[b].state == Full
    && ((forall i :: 0 <= i < |c.blocks| && c.blocks[i].state == Full ==> c.blocks[b].seqNumber <= c.blocks[i].seqNumber)
        || !c.blocks[b].hasShrinkHdr || Admitted(c, b))
  }

  ghost predicate Admitted(c: Core, b: nat)
    requires b < |c.blocks|
  {
    if c.oldestDirtySeq != 0 then c.blocks[b].seqNumber <= c.oldestDirtySeq
    else
      && (c.blocks[b].seqNumber == 0 || exists i :: 0 <= i < |c.blocks| && HasDiscarded(c.chunksPerBlock, c.blocks[i]))
      && forall i :: 0 <= i < |c.blocks| && HasDiscarded(c.chunksPerBlock, c.blocks[i]) ==> c.blocks[b].seqNumber <= c.blocks[i].seqNumber
  }

  lemma MayCollectMeans(c: Core, b: nat)
    ensures MayCollect(c, b) ==> b < |c.blocks| && c.blocks[b].state == Full
  {
  }

  /** What a collection makes of its block: erased, retired or full again without its summary and the pages moved. One
      that goes well and has nothing behind it moves everything when the whole block is wanted, else five pages. */
  ghost predicate Worked(chunksPerSummary: nat, before: BlockInfo, after: BlockInfo, ahead: bool, wholeBlock: bool, ok: bool) {
    || after.state in {Empty, Dead}
    || (&& after.state == Full
        && after.bits <= WithoutSummary(before, chunksPerSummary)
        && (ok && ahead ==> !wholeBlock && |after.bits| == |WithoutSummary(before, chunksPerSummary)| - 5))
  }

  // ----- Giving up a page whose write failed -----

  /** Changing the flags that say how a block is treated when it is written or erased changes no bookkeeping. */
  function Flagged(bi: BlockInfo, needsRetiring: bool, skipErasedCheck: bool): BlockInfo {
    bi.(needsRetiring := needsRetiring, skipErasedCheck := skipErasedCheck)
  }

  /** The flags on a block are as before. */
  predicate SameFlags(before: BlockInfo, after: BlockInfo) {
    after.needsRetiring == before.needsRetiring && after.skipErasedCheck == before.skipErasedCheck && after.hasShrinkHdr == before.hasShrinkHdr
  }

  lemma AfterFlags(c: Core, i: nat, needsRetiring: bool, skipErasedCheck: bool, objects: map<nat, Obj>, loose: set<Addr>)
    requires CoreOk(c) && i < |c.blocks| && FilesOk(c.blocks, c.nand, objects, loose)
    ensures var c' := c.(blocks := c.blocks[i := Flagged(c.blocks[i], needsRetiring, skipErasedCheck)]);
            CoreOk(c') && FilesOk(c'.blocks, c'.nand, objects, loose) && Keeps(c, c', {}, i)
  {
    var bi := Flagged(c.blocks[i], needsRetiring, skipErasedCheck);
    assert BlockOk(c.chunksPerBlock, c.blocks[i]) && BlockOk(c.chunksPerBlock, bi);
    FilesSameBits(c.blocks, c.nand, i, bi, objects, loose);
    assert Keeps(c, c.(blocks := c.blocks[i := bi]), {}, i) by { hide CoreOk, FilesOk; }
    hide BlockOk, FilesOk, Keeps;
    FlagsKeepCore(c, i, bi);
  }

  lemma FlagsKeepCore(c: Core, i: nat, bi: BlockInfo)
    requires CoreOk(c) && i < |c.blocks| && BlockOk(c.chunksPerBlock, bi)
    requires bi == Flagged(c.blocks[i], bi.needsRetiring, bi.skipErasedCheck).(hasShrinkHdr := bi.hasShrinkHdr)
    ensures CoreOk(c.(blocks := c.blocks[i := bi]))
  {
    hide Counted, BlockOk;
    CountsAfterSet(c, i, bi);
    var c' := SetBlock(c, i, bi);
    assert c' == c.(blocks := c.blocks[i := bi]);
    assert AllocOk(c.chunksPerBlock, c'.blocks, c'.allocBlock, c'.allocPage, c'.seqNumber) by { hide NandOk, DirtyOk, SummaryOk; }
    assert NandOk(c'.blocks, c'.nand, c'.allocBlock, c'.allocPage) by { hide AllocOk, DirtyOk, SummaryOk; }
    assert DirtyOk(c.chunksPerBlock, c'.blocks, c'.oldestDirtySeq, c'.seqNumber, c.tracked) by { hide AllocOk, NandOk, SummaryOk; }
    assert SummaryOk(c.chunksPerSummary, c'.blocks, c'.nand) by { hide AllocOk, NandOk, DirtyOk; }
  }

  /** One page fell out of use; other pages and the full or collected blocks other than its own are as before. */
  ghost predicate Drops(c0: Core, c: Core, a: Addr) {
    && |c.blocks| == |c0.blocks|
    && (forall x :: InUse(c.blocks, x) <==> InUse(c0.blocks, x) && x != a)
    && (forall x :: InUse(c.blocks, x) && x in c0.nand ==> x in c.nand && c.nand[x] == c0.nand[x])
    && (forall j :: 0 <= j < |c.blocks| && j != a.block && (c0.blocks[j].state == Full || c0.blocks[j].state == Collecting) ==> c.blocks[j] == c0.blocks[j])
  }

  lemma DroppedBySteps(c0: Core, c1: Core, c2: Core, a: Addr)
    requires Keeps(c0, c1, {}, a.block) && Keeps(c1, c2, {a}, a.block)
    requires c2.allocBlock < |c2.blocks| && (c2.allocBlock >= 0 ==> c2.blocks[c2.allocBlock].state == Allocating)
    ensures Drops(c0, Skipped(c2), a)
  {
    assert Drops(c0, c2, a) by { hide InUse, Skipped; }
    if c2.allocBlock >= 0 {
      SkippedGrows(c2);
      hide InUse;
    }
  }

  lemma TakenAndDropped(c0: Core, c1: Core, c2: Core, a: Addr)
    requires Grows(c0, c1) && Drops(c1, c2, a) && !InUse(c0.blocks, a) && NewBlock(c0.blocks, a)
    ensures Grows(c0, c2)
  {
    hide InUse;
  }

  lemma WrittenAndFlagged(c0: Core, c1: Core, c2: Core, a: Addr, p: Page, nr: bool, sk: bool)
    requires Grows(c0, c1) && NewBlock(c0.blocks, a) && Written(c1, a, p)
    requires c2 == c1.(blocks := c1.blocks[a.block := Flagged(c1.blocks[a.block], nr, sk)])
    ensures Grows(c0, c2) && Written(c2, a, p)
  {
    forall x ensures InUse(c2.blocks, x) <==> InUse(c1.blocks, x) {}
    hide InUse;
  }

  lemma NotLoose(c: Core, objects: map<nat, Obj>, loose: set<Addr>, a: Addr)
    requires !InUse(c.blocks, a) && FilesOk(c.blocks, c.nand, objects, loose)
    ensures a !in loose
  {
  }

  lemma WrittenInUse(c: Core, a: Addr, p: Page)
    requires Written(c, a, p)
    ensures InUse(c.blocks, a) && a.page !in c.blocks[a.block].soft && a in c.nand && c.nand[a] == p
  {
  }

  lemma NotInUseBefore(c0: Core, c: Core, a: Addr)
    requires Grows(c0, c) && !InUse(c.blocks, a)
    ensures !InUse(c0.blocks, a)
  {
  }

  // ----- Garbage collection leaves every read as it was -----

  ghost predicate SameReads(nand: map<Addr, Page>, objects: map<nat, Obj>, nand': map<Addr, Page>, objects': map<nat, Obj>) {
    forall o, c :: ReadChunk(nand', objects', o, c) == ReadChunk(nand, objects, o, c) && Marked(nand', objects', o, c) == Marked(nand, objects, o, c)
  }

  /** Everything reads the same, but headers may have lost the tag of a shrink. */
  ghost predicate SameData(nand: map<Addr, Page>, objects: map<nat, Obj>, nand': map<Addr, Page>, objects': map<nat, Obj>) {
    forall o, c ::
      && ReadChunk(nand', objects', o, c) == ReadChunk(nand, objects, o, c)
      && (Marked(nand', objects', o, c) ==> Marked(nand, objects, o, c))
      && (Marked(nand, objects, o, c) && c > 0 ==> Marked(nand', objects', o, c))
  }

  lemma SameReadsSameData(nand: map<Addr, Page>, objects: map<nat, Obj>, nand': map<Addr, Page>, objects': map<nat, Obj>)
    requires SameReads(nand, objects, nand', objects')
    ensures SameData(nand, objects, nand', objects')
  {
    hide ReadChunk, Marked;
  }

  lemma SameDataTwice(n0: map<Addr, Page>, o0: map<nat, Obj>, n1: map<Addr, Page>, o1: map<nat, Obj>, n2: map<Addr, Page>, o2: map<nat, Obj>)
    requires SameData(n0, o0, n1, o1) && SameData(n1, o1, n2, o2)
    ensures SameData(n0, o0, n2, o2)
  {
    hide ReadChunk, Marked;
  }

  lemma SameReadsTwice(n0: map<Addr, Page>, o0: map<nat, Obj>, n1: map<Addr, Page>, o1: map<nat, Obj>, n2: map<Addr, Page>, o2: map<nat, Obj>)
    requires SameReads(n0, o0, n1, o1) && SameReads(n1, o1, n2, o2)
    ensures SameReads(n0, o0, n2, o2)
  {
    hide ReadChunk, Marked;
  }

  lemma ReadsKept(blocks: seq<BlockInfo>, nand: map<Addr, Page>, blocks': seq<BlockInfo>, nand': map<Addr, Page>, objects: map<nat, Obj>, loose: set<Addr>, loose': set<Addr>)
    requires FilesOk(blocks, nand, objects, loose) && FilesOk(blocks', nand', objects, loose')
    requires forall a :: InUse(blocks', a) && a in nand ==> a in nand' && nand'[a] == nand[a]
    ensures SameReads(nand, objects, nand', objects)
  {
    hide InUse;
    forall o, c
      ensures ReadChunk(nand', objects, o, c) == ReadChunk(nand, objects, o, c) && Marked(nand', objects, o, c) == Marked(nand, objects, o, c)
    {
      if PageOf(objects, o, c).Some? {
        assert RefersTo(objects, o, c, PageOf(objects, o, c).value);
      }
    }
  }

  /** A copy made for collection: the same data and tags, except that a header loses the tag of a shrink. */
  predicate IsCopyOf(from: Page, p: Page) {
    p.objId == from.objId && p.chunkId == from.chunkId && p.data == from.data && p.isShrink == (from.isShrink && from.chunkId != 0)
  }

  /** Redirecting a chunk to a copy of its page, every page in use having stayed as it was. */
  lemma CopyKeepsReads(c0: Core, c1: Core, objects: map<nat, Obj>, o: nat, c: nat, from: Addr, a: Addr, p: Page)
    requires FilesOk(c0.blocks, c0.nand, objects, {}) && Grows(c0, c1)
    requires o in objects && PageOf(objects, o, c) == Some(from) && from in c0.nand && IsCopyOf(c0.nand[from], p) && p.chunkId == c
    requires a in c1.nand && c1.nand[a] == p
    ensures SameData(c0.nand, objects, c1.nand, WithChunk(objects, o, c, a))
  {
    hide InUse;
    var objects' := WithChunk(objects, o, c, a);
    forall o', c'
      ensures ReadChunk(c1.nand, objects', o', c') == ReadChunk(c0.nand, objects, o', c')
      ensures (Marked(c1.nand, objects', o', c') ==> Marked(c0.nand, objects, o', c')) && (Marked(c0.nand, objects, o', c') && c' > 0 ==> Marked(c1.nand, objects', o', c'))
    {
      if o' == o && c' == c {
      } else {
        assert PageOf(objects', o', c') == PageOf(objects, o', c');
        if PageOf(objects, o', c').Some? {
          assert RefersTo(objects, o', c', PageOf(objects, o', c').value);
        }
      }
    }
  }

  /** A page in use that is exempt from nothing, as collection finds it: programmed, and either soft deleted, or the
      page its file refers to, or carrying no file's tags. */
  lemma PageFound(c: Core, objects: map<nat, Obj>, a: Addr)
    requires FilesOk(c.blocks, c.nand, objects, {}) && InUse(c.blocks, a)
    ensures a in c.nand
    ensures var p := c.nand[a];
            && (p.objId !in objects ==> a.page !in c.blocks[a.block].soft && FilesOk(c.blocks, c.nand, objects, {a}))
            && (p.objId in objects ==>
                  if objects[p.objId].deleted && objects[p.objId].softDel && p.chunkId != 0
                  then a.page in c.blocks[a.block].soft
                  else PageOf(objects, p.objId, p.chunkId) == Some(a) && a.page !in c.blocks[a.block].soft)
    ensures c.nand[a].objId == OBJECTID_SUMMARY ==> c.nand[a].objId !in objects
  {
    assert PageOk(c.blocks, c.nand[a], objects, a);
    if c.nand[a].objId !in objects {
      assert {} + {a} == {a};
      MoreLoose(c.blocks, c.nand, objects, {}, a);
    }
    hide InUse;
  }

  /** The copy has been written and the file redirected to it: the old page is what is left over. */
  lemma CopyInstalled(c0: Core, c1: Core, objects: map<nat, Obj>, from: Addr, a: Addr, p: Page)
    requires FilesOk(c0.blocks, c0.nand, objects, {}) && FilesOk(c1.blocks, c1.nand, objects, {a}) && Grows(c0, c1)
    requires InUse(c0.blocks, from) && from in c0.nand && IsCopyOf(c0.nand[from], p) && c0.blocks[from.block].state == Collecting
    requires p.objId in objects && !(objects[p.objId].deleted && objects[p.objId].softDel && p.chunkId != 0)
    requires PageOf(objects, p.objId, p.chunkId) == Some(from) && from.page !in c0.blocks[from.block].soft
    requires Written(c1, a, p) && !InUse(c0.blocks, a)
    ensures var objects' := WithChunk(objects, p.objId, p.chunkId, a);
            && FilesOk(c1.blocks, c1.nand, objects', {from})
            && SameData(c0.nand, objects, c1.nand, objects')
            && InUse(c1.blocks, from) && c1.blocks[from.block] == c0.blocks[from.block] && a != from
  {
    hide FilesOk, Newest;
    FilesAfterPut(c1.blocks, c1.nand, objects, {a}, p.objId, p.chunkId, a);
    assert {a} - {a} + {from} == {from};
    CopyKeepsReads(c0, c1, objects, p.objId, p.chunkId, from, a, p);
  }

  lemma Untracked(c: Core)
    requires CoreOk(c)
    ensures CoreOk(c.(tracked := false))
  {
    hide AllocOk, NandOk, SummaryOk, BlocksOk, Counted;
  }

  /** While it is not zero, the oldest dirty sequence number is at most that of every full block with discarded pages. */
  ghost predicate Covers(chunksPerBlock: nat, blocks: seq<BlockInfo>, oldestDirtySeq: nat) {
    oldestDirtySeq != 0 ==> forall i :: 0 <= i < |blocks| && HasDiscarded(chunksPerBlock, blocks[i]) ==> oldestDirtySeq <= blocks[i].seqNumber
  }

  lemma TrackedCovers(c: Core)
    requires CoreOk(c) && c.tracked
    ensures Covers(c.chunksPerBlock, c.blocks, c.oldestDirtySeq)
  {
    hide AllocOk, NandOk, SummaryOk, BlocksOk, Counted;
  }

  /** The pages of a block that are left when its summary is dropped. */
  function WithoutSummary(bi: BlockInfo, chunksPerSummary: nat): set<nat> {
    if bi.hasSummary then set k | k in bi.bits && k < chunksPerSummary else bi.bits
  }

  lemma CoveredWhenFull(c: Core, i: nat)
    requires CoreOk(c) && i < |c.blocks| && c.blocks[i].state == Full && c.tracked
    ensures c.oldestDirtySeq <= c.blocks[i].seqNumber || c.blocks[i].pagesInUse - c.blocks[i].softDelPages >= c.chunksPerBlock
  {
    hide AllocOk, NandOk, SummaryOk, BlocksOk, Counted;
  }

  /** Whether a block that was left in use lost its summary without getting the cover it now needs. */
  ghost predicate Lapses(chunksPerSummary: nat, before: BlockInfo, after: BlockInfo, copied: nat, oldestDirtySeq: nat) {
    && after.state == Full && copied == 0
    && WithoutSummary(before, chunksPerSummary) != before.bits && after.seqNumber < oldestDirtySeq
  }

  /** What it means that a full block has nothing discarded: every page of it is in use and none is soft deleted. That is
      what the admission of a block with a shrink header gives for all older blocks. */
  lemma AllInUse(c: Core, i: nat)
    requires CoreOk(c) && i < |c.blocks| && c.blocks[i].state == Full
    ensures !HasDiscarded(c.chunksPerBlock, c.blocks[i]) <==>
            c.blocks[i].soft == {} && forall k :: 0 <= k < c.chunksPerBlock ==> k in c.blocks[i].bits
  {
    hide AllocOk, NandOk, SummaryOk, Counted, DirtyOk;
    var bi, n := c.blocks[i], c.chunksPerBlock;
    assert BlockOk(n, bi);
    hide BlocksOk;
    FewerThan(bi.bits, n);
    if bi.soft == {} && forall k :: 0 <= k < n ==> k in bi.bits {
      AllOf(bi.bits, n);
    } else if bi.soft == {} {
      var k :| 0 <= k < n && k !in bi.bits;
      FewerThan(bi.bits + {k}, n);
    }
  }

  lemma {:induction false} AllOf(a: set<nat>, n: nat)
    requires forall k :: 0 <= k < n ==> k in a
    ensures |a| >= n
    decreases n
  {
    if n > 0 { AllOf(a - {n - 1}, n - 1); }
  }

  lemma NotStopped(chunksPerSummary: nat, before: BlockInfo, after: BlockInfo, copied: nat, oldestDirtySeq: nat)
    ensures after.state != Full || copied > 0 ==> !Lapses(chunksPerSummary, before, after, copied, oldestDirtySeq)
  {
  }

  /** When a collection that leaves pages in its block may put it back. */
  lemma MayPause(c0: Core, c: Core, b: nat, copied: nat)
    requires CoreOk(c0) && CoreOk(c) && b < |c0.blocks| == |c.blocks| && c0.blocks[b].state == Full && c.chunksPerBlock == c0.chunksPerBlock
    requires c.oldestDirtySeq <= c0.oldestDirtySeq && c.tracked == c0.tracked
    requires copied > 0 ==> c.oldestDirtySeq <= c.blocks[b].seqNumber
    requires copied == 0 ==> && c.blocks[b].softDelPages == c0.blocks[b].softDelPages && c.blocks[b].seqNumber == c0.blocks[b].seqNumber
                             && c.blocks[b].bits == WithoutSummary(c0.blocks[b], c.chunksPerSummary)
    requires !Lapses(c.chunksPerSummary, c0.blocks[b], c.blocks[b].(state := Full), copied, c.oldestDirtySeq)
    ensures !c.tracked || c.oldestDirtySeq <= c.blocks[b].seqNumber || c.blocks[b].pagesInUse - c.blocks[b].softDelPages >= c.chunksPerBlock
  {
    hide AllocOk, NandOk, SummaryOk, Counted, DirtyOk;
    assert BlockOk(c.chunksPerBlock, c.blocks[b]) && BlockOk(c.chunksPerBlock, c0.blocks[b]);
    hide BlocksOk;
    if c.tracked { CoveredWhenFull(c0, b); }
  }

  /** A block that is full again, has lost its summary pages and is older than the oldest dirty sequence number. */
  lemma SummaryLost(c0: Core, c: Core, b: nat, copied: nat)
    requires CoreOk(c0) && CoreOk(c) && b < |c0.blocks| == |c.blocks| && c.chunksPerBlock == c0.chunksPerBlock
    requires Lapses(c.chunksPerSummary, c0.blocks[b], c.blocks[b], copied, c.oldestDirtySeq)
    requires copied == 0 ==> c.blocks[b].bits == WithoutSummary(c0.blocks[b], c.chunksPerSummary)
    ensures !Covers(c.chunksPerBlock, c.blocks, c.oldestDirtySeq)
  {
    hide AllocOk, NandOk, SummaryOk, Counted, DirtyOk;
    assert BlockOk(c.chunksPerBlock, c.blocks[b]) && BlockOk(c.chunksPerBlock, c0.blocks[b]);
    hide BlocksOk;
    FewerThan(c0.blocks[b].bits, c.chunksPerBlock);
    FewerPages(c.blocks[b].bits, c0.blocks[b].bits);
    assert HasDiscarded(c.chunksPerBlock, c.blocks[b]);
  }

  /** The block without its summary pages, as a collection that moves no page leaves it. */
  function SummaryDropped(bi: BlockInfo, chunksPerSummary: nat): BlockInfo {
    bi.(bits := WithoutSummary(bi, chunksPerSummary), pagesInUse := |WithoutSummary(bi, chunksPerSummary)|)
  }

  /** Dropping the summary of a block and then moving no page keeps the block covered exactly if there were no
      summary pages to drop or the block is no older than the oldest dirty sequence number. */
  lemma DropCovers(chunksPerBlock: nat, chunksPerSummary: nat, blocks: seq<BlockInfo>, b: nat, oldestDirtySeq: nat)
    requires b < |blocks| && blocks[b].state == Full && BlockOk(chunksPerBlock, blocks[b])
    requires oldestDirtySeq != 0 && Covers(chunksPerBlock, blocks, oldestDirtySeq)
    ensures Covers(chunksPerBlock, blocks[b := SummaryDropped(blocks[b], chunksPerSummary)], oldestDirtySeq) <==>
            WithoutSummary(blocks[b], chunksPerSummary) == blocks[b].bits || oldestDirtySeq <= blocks[b].seqNumber
  {
    var left := WithoutSummary(blocks[b], chunksPerSummary);
    var blocks' := blocks[b := SummaryDropped(blocks[b], chunksPerSummary)];
    assert left <= blocks[b].bits;
    if left != blocks[b].bits {
      FewerThan(blocks[b].bits, chunksPerBlock);
      FewerPages(left, blocks[b].bits);
      assert HasDiscarded(chunksPerBlock, blocks'[b]);
    } else {
      assert blocks' == blocks;
    }
  }

  /** Two full blocks: the older one holds a page and its summary, the younger one has a page discarded. */
  const WRITTEN_FULL := BlockInfo(Full, 1, {0, 1}, 2, {}, 0, false, false, true, true)
  const PAGE_LOST := BlockInfo(Full, 2, {0}, 1, {}, 0, false, false, true, false)
  const LAPSING := Core(2, 1, [WRITTEN_FULL, PAGE_LOST],
                        map[Addr(0, 0) := Page(300, 1, 1, false, [1]), Addr(0, 1) := Page(OBJECTID_SUMMARY, 1, 1, false, []),
                            Addr(1, 0) := Page(300, 2, 2, false, [2])],
                        1, 0, 0, -1, 0, 2, 2, true)

  const LAPSING_OBJECTS := map[300 := Obj(None, map[1 := Addr(0, 0), 2 := Addr(1, 0)], false, false)]

  lemma CountsAppend(chunksPerBlock: nat, blocks: seq<BlockInfo>, bi: BlockInfo)
    ensures FreeChunks(chunksPerBlock, blocks + [bi]) == FreeChunks(chunksPerBlock, blocks) + FreeOf(chunksPerBlock, bi)
    ensures forall s :: CountState(blocks + [bi], s) == CountState(blocks, s) + One(bi.state == s)
  {
    assert (blocks + [bi])[..|blocks|] == blocks;
  }

  lemma LapsingCounts()
    ensures BlocksOk(2, LAPSING.blocks) && Counted(2, LAPSING.blocks, 1, 0, 0)
  {
    CountsAppend(2, [], WRITTEN_FULL);
    CountsAppend(2, [WRITTEN_FULL], PAGE_LOST);
    assert [] + [WRITTEN_FULL] == [WRITTEN_FULL] && [WRITTEN_FULL] + [PAGE_LOST] == LAPSING.blocks;
    assert BlockOk(2, WRITTEN_FULL) && BlockOk(2, PAGE_LOST);
  }

  lemma LapsingPlaces()
    ensures AllocOk(2, LAPSING.blocks, -1, 0, 2) && DirtyOk(2, LAPSING.blocks, 2, 2, true)
    ensures NandOk(LAPSING.blocks, LAPSING.nand, -1, 0) && SummaryOk(1, LAPSING.blocks, LAPSING.nand)
  {
  }

  lemma LapsingFiles()
    ensures FilesOk(LAPSING.blocks, LAPSING.nand, LAPSING_OBJECTS, {})
  {
    forall o, c, a | RefersTo(LAPSING_OBJECTS, o, c, a) ensures o == 300 && ((c == 1 && a == Addr(0, 0)) || (c == 2 && a == Addr(1, 0))) {}
  }

  /** In this state, which satisfies all invariants, refreshing the older block and failing its first copy leaves it
      with a discarded page that the oldest dirty sequence number does not cover. */
  lemma FirstCopyFails()
    ensures CoreOk(LAPSING) && LAPSING.tracked && FilesOk(LAPSING.blocks, LAPSING.nand, LAPSING_OBJECTS, {})
    ensures Covers(2, LAPSING.blocks, 2)
    ensures !Covers(2, LAPSING.blocks[0 := SummaryDropped(LAPSING.blocks[0], 1)], 2)
  {
    LapsingCounts();
    LapsingPlaces();
    LapsingFiles();
    hide BlocksOk, Counted, AllocOk, NandOk, SummaryOk, FilesOk, DirtyOk;
    TrackedCovers(LAPSING);
    hide Covers;
    assert BlockOk(2, WRITTEN_FULL);
    assert 1 in WRITTEN_FULL.bits && 1 !in WithoutSummary(WRITTEN_FULL, 1);
    DropCovers(2, 1, LAPSING.blocks, 0, 2);
  }

  lemma FewerPages(a: set<nat>, b: set<nat>)
    requires a < b
    ensures |a| < |b|
  {
    assert b == a + (b - a);
  }

  lemma {:induction false} FewerThan(a: set<nat>, n: nat)
    requires forall k :: k in a ==> k < n
    ensures |a| <= n
    decreases n
  {
    if n > 0 { FewerThan(a - {n - 1}, n - 1); }
  }

  // ----- The block under collection -----

  /** Between collections the block being collected, if it is still to be collected, is full and only loses pages. */
  ghost predicate GcKept(blocks: seq<BlockInfo>, gc: Option<nat>, blocks': seq<BlockInfo>, gc': Option<nat>) {
    || gc' == None
    || (gc' == gc &&
        (gc.value < |blocks| && blocks[gc.value].state == Full ==>
           gc.value < |blocks'| && blocks'[gc.value].state == Full && blocks'[gc.value].bits <= blocks[gc.value].bits))
  }

  /** Writing pages ends no collection of a block that holds data. */
  ghost predicate GcStays(blocks: seq<BlockInfo>, gc: Option<nat>, gc': Option<nat>) {
    || gc' == gc
    || (gc' == None && gc.Some? && (gc.value < |blocks| ==> blocks[gc.value].state != Full && blocks[gc.value].state != Collecting))
  }

  lemma GcStaysItself(blocks: seq<BlockInfo>, gc: Option<nat>)
    ensures GcStays(blocks, gc, gc)
  {
  }

  lemma GcStaysNew(blocks: seq<BlockInfo>, gc: Option<nat>, gc': Option<nat>, a: Addr)
    requires NewBlock(blocks, a) && (gc' == gc || (gc' == None && gc == Some(a.block)))
    ensures GcStays(blocks, gc, gc')
  {
  }

  lemma GcStaysTwice(c0: Core, c1: Core, gc0: Option<nat>, gc1: Option<nat>, gc2: Option<nat>)
    requires Grows(c0, c1) && GcStays(c0.blocks, gc0, gc1) && GcStays(c1.blocks, gc1, gc2)
    ensures GcStays(c0.blocks, gc0, gc2)
  {
  }

  lemma GcKeptByGrowth(c0: Core, c: Core, gc: Option<nat>, gc': Option<nat>)
    requires Grows(c0, c) && GcStays(c0.blocks, gc, gc')
    ensures GcKept(c0.blocks, gc, c.blocks, gc')
  {
  }

  lemma GcKeptByFilling(blocks: seq<BlockInfo>, gc: Option<nat>, blocks': seq<BlockInfo>)
    requires |blocks'| == |blocks|
    requires forall j :: 0 <= j < |blocks| ==> blocks'[j] == blocks[j] || (blocks[j].state == Empty && blocks'[j] == blocks[j].(state := Checkpoint))
    ensures GcKept(blocks, gc, blocks', gc)
  {
  }

  lemma GcKeptTwice(blocks0: seq<BlockInfo>, gc0: Option<nat>, blocks1: seq<BlockInfo>, gc1: Option<nat>, blocks2: seq<BlockInfo>, gc2: Option<nat>)
    requires GcKept(blocks0, gc0, blocks1, gc1) && GcKept(blocks1, gc1, blocks2, gc2)
    ensures GcKept(blocks0, gc0, blocks2, gc2)
  {
  }

  lemma GcKeptByKeeping(c0: Core, c: Core, gone: set<Addr>, i: int, gc: Option<nat>, gc': Option<nat>)
    requires Keeps(c0, c, gone, i) && (gc' == None || gc' == gc)
    requires gc' != None && gc'.value == i && i < |c0.blocks| && c0.blocks[i].state == Full ==> c.blocks[i].state == Full && c.blocks[i].bits <= c0.blocks[i].bits
    ensures GcKept(c0.blocks, gc, c.blocks, gc')
  {
    hide InUse;
  }

  lemma NoPagesNoSoft(c: Core, i: nat)
    requires CoreOk(c) && i < |c.blocks|
    ensures c.blocks[i].bits == {} <==> c.blocks[i].pagesInUse == 0
    ensures forall k :: k in c.blocks[i].bits ==> k < c.chunksPerBlock
  {
    hide AllocOk, NandOk, SummaryOk, Counted, DirtyOk;
    assert BlockOk(c.chunksPerBlock, c.blocks[i]);
  }

  lemma SameReadsItself(nand: map<Addr, Page>, objects: map<nat, Obj>)
    ensures SameReads(nand, objects, nand, objects)
  {
  }

  lemma GrowsKeepsReads(c0: Core, c: Core, objects: map<nat, Obj>, a: Addr)
    requires FilesOk(c0.blocks, c0.nand, objects, {}) && FilesOk(c.blocks, c.nand, objects, {}) && Grows(c0, c)
    requires a.block < |c0.blocks| && c0.blocks[a.block].state == Collecting
    ensures SameReads(c0.nand, objects, c.nand, objects) && |c.blocks| == |c0.blocks| && c.blocks[a.block] == c0.blocks[a.block]
  {
    forall o, ch
      ensures ReadChunk(c.nand, objects, o, ch) == ReadChunk(c0.nand, objects, o, ch) && Marked(c.nand, objects, o, ch) == Marked(c0.nand, objects, o, ch)
    {
      if PageOf(objects, o, ch).Some? {
        assert RefersTo(objects, o, ch, PageOf(objects, o, ch).value);
      }
    }
  }

  lemma DeletionKeepsReads(c0: Core, c: Core, objects: map<nat, Obj>, a: Addr)
    requires FilesOk(c0.blocks, c0.nand, objects, {a}) && FilesOk(c.blocks, c.nand, objects, {})
    requires Keeps(c0, c, {a}, a.block)
    ensures SameReads(c0.nand, objects, c.nand, objects) && |c.blocks| == |c0.blocks|
  {
    hide FilesOk;
    ReadsKept(c0.blocks, c0.nand, c.blocks, c.nand, objects, {a}, {});
  }

  lemma SummaryPageNotSoft(c: Core, objects: map<nat, Obj>, b: nat, k: nat)
    requires CoreOk(c) && FilesOk(c.blocks, c.nand, objects, {}) && b < |c.blocks|
    requires c.blocks[b].hasSummary && k in c.blocks[b].bits && k >= c.chunksPerSummary
    ensures k !in c.blocks[b].soft
  {
    hide FilesOk, BlocksOk, Counted, AllocOk, NandOk, DirtyOk;
    assert InUse(c.blocks, Addr(b, k));
    PageFound(c, objects, Addr(b, k));
  }

  lemma GrowsLength(c0: Core, c: Core)
    requires Grows(c0, c)
    ensures |c.blocks| == |c0.blocks|
    ensures forall a :: InUse(c0.blocks, a) ==> InUse(c.blocks, a)
  {
  }

  lemma RedirectedTo(objects: map<nat, Obj>, o: nat, c: nat, a: Addr)
    requires o in objects
    ensures PageOf(WithChunk(objects, o, c, a), o, c) == Some(a)
  {
  }

  lemma ErasureKeepsReads(c0: Core, c: Core, objects: map<nat, Obj>, b: nat)
    requires FilesOk(c0.blocks, c0.nand, objects, {}) && FilesOk(c.blocks, c.nand, objects, {})
    requires Keeps(c0, c, {}, b)
    ensures SameReads(c0.nand, objects, c.nand, objects) && |c.blocks| == |c0.blocks|
  {
    hide FilesOk;
    ReadsKept(c0.blocks, c0.nand, c.blocks, c.nand, objects, {}, {});
  }

  // ----- Writing and deleting file data -----

  /** The chunk reads the new data and its page has the new tag; every other chunk and its tag are as before. */
  ghost predicate WroteChunk(nand: map<Addr, Page>, objects: map<nat, Obj>, nand': map<Addr, Page>, objects': map<nat, Obj>,
                             o: nat, c: nat, data: seq<byte>, isShrink: bool) {
    forall o', c' ::
      && ReadChunk(nand', objects', o', c') == (if o' == o && c' == c then Some(data) else ReadChunk(nand, objects, o', c'))
      && Marked(nand', objects', o', c') == (if o' == o && c' == c then isShrink else Marked(nand, objects, o', c'))
  }

  lemma ThenSameReads(n0: map<Addr, Page>, o0: map<nat, Obj>, n1: map<Addr, Page>, o1: map<nat, Obj>, n2: map<Addr, Page>,
                      o: nat, c: nat, data: seq<byte>, isShrink: bool)
    requires WroteChunk(n0, o0, n1, o1, o, c, data, isShrink) && SameReads(n1, o1, n2, o1)
    ensures WroteChunk(n0, o0, n2, o1, o, c, data, isShrink)
  {
    hide ReadChunk, Marked;
  }

  lemma GrowthKeepsReads(c0: Core, c: Core, objects: map<nat, Obj>)
    requires FilesOk(c0.blocks, c0.nand, objects, {}) && FilesOk(c.blocks, c.nand, objects, {}) && Grows(c0, c)
    ensures SameReads(c0.nand, objects, c.nand, objects)
  {
    hide InUse;
    forall o, ch
      ensures ReadChunk(c.nand, objects, o, ch) == ReadChunk(c0.nand, objects, o, ch) && Marked(c.nand, objects, o, ch) == Marked(c0.nand, objects, o, ch)
    {
      if PageOf(objects, o, ch).Some? {
        assert RefersTo(objects, o, ch, PageOf(objects, o, ch).value);
      }
    }
  }

  /** The new page of a chunk has been written and the file redirected to it: the page before, if any, is left over. */
  lemma ChunkInstalled(c0: Core, c1: Core, objects: map<nat, Obj>, a: Addr, p: Page)
    requires FilesOk(c0.blocks, c0.nand, objects, {}) && FilesOk(c1.blocks, c1.nand, objects, {a}) && Grows(c0, c1)
    requires p.objId in objects && !(objects[p.objId].deleted && objects[p.objId].softDel && p.chunkId != 0)
    requires Written(c1, a, p)
    ensures var objects', before := WithChunk(objects, p.objId, p.chunkId, a), PageOf(objects, p.objId, p.chunkId);
            && FilesOk(c1.blocks, c1.nand, objects', if before.Some? then {before.value} else {})
            && WroteChunk(c0.nand, objects, c1.nand, objects', p.objId, p.chunkId, p.data, p.isShrink)
            && (before.Some? ==> InUse(c1.blocks, before.value) && before.value.page !in c1.blocks[before.value.block].soft)
  {
    hide Newest;
    var before := PageOf(objects, p.objId, p.chunkId);
    FilesAfterPut(c1.blocks, c1.nand, objects, {a}, p.objId, p.chunkId, a);
    assert {a} - {a} + (if before.Some? then {before.value} else {}) == if before.Some? then {before.value} else {};
    if before.Some? {
      assert RefersTo(objects, p.objId, p.chunkId, before.value);
    }
    hide FilesOk;
    InstalledReads(c0, c1, objects, a, p);
  }

  lemma InstalledReads(c0: Core, c1: Core, objects: map<nat, Obj>, a: Addr, p: Page)
    requires FilesOk(c0.blocks, c0.nand, objects, {}) && Grows(c0, c1)
    requires p.objId in objects && a in c1.nand && c1.nand[a] == p
    ensures WroteChunk(c0.nand, objects, c1.nand, WithChunk(objects, p.objId, p.chunkId, a), p.objId, p.chunkId, p.data, p.isShrink)
  {
    hide InUse;
    var o, c := p.objId, p.chunkId;
    var objects' := WithChunk(objects, o, c, a);
    forall o', c'
      ensures ReadChunk(c1.nand, objects', o', c') == if o' == o && c' == c then Some(p.data) else ReadChunk(c0.nand, objects, o', c')
      ensures Marked(c1.nand, objects', o', c') == if o' == o && c' == c then p.isShrink else Marked(c0.nand, objects, o', c')
    {
      if !(o' == o && c' == c) {
        assert PageOf(objects', o', c') == PageOf(objects, o', c');
        if PageOf(objects, o', c').Some? {
          assert RefersTo(objects, o', c', PageOf(objects, o', c').value);
        }
      }
    }
  }

  function WithoutChunk(objects: map<nat, Obj>, o: nat, c: nat): map<nat, Obj>
    requires o in objects
  {
    objects[o := objects[o].(chunks := objects[o].chunks - {c})]
  }

  /** The chunk is gone; every other chunk and its tag are as before. */
  ghost predicate DroppedChunk(nand: map<Addr, Page>, objects: map<nat, Obj>, nand': map<Addr, Page>, objects': map<nat, Obj>, o: nat, c: nat) {
    forall o', c' ::
      && ReadChunk(nand', objects', o', c') == (if o' == o && c' == c then None else ReadChunk(nand, objects, o', c'))
      && Marked(nand', objects', o', c') == (!(o' == o && c' == c) && Marked(nand, objects, o', c'))
  }

  lemma DroppedThenSame(n0: map<Addr, Page>, o0: map<nat, Obj>, n1: map<Addr, Page>, o1: map<nat, Obj>, n2: map<Addr, Page>, o: nat, c: nat)
    requires DroppedChunk(n0, o0, n1, o1, o, c) && SameReads(n1, o1, n2, o1)
    ensures DroppedChunk(n0, o0, n2, o1, o, c)
  {
    hide ReadChunk, Marked;
  }

  lemma FilesAfterRemove(blocks: seq<BlockInfo>, nand: map<Addr, Page>, objects: map<nat, Obj>, o: nat, c: nat)
    requires FilesOk(blocks, nand, objects, {}) && o in objects && c > 0 && c in objects[o].chunks
    ensures var a := objects[o].chunks[c];
            && FilesOk(blocks, nand, WithoutChunk(objects, o, c), {a})
            && InUse(blocks, a) && a.page !in blocks[a.block].soft
    ensures DroppedChunk(nand, objects, nand, WithoutChunk(objects, o, c), o, c)
  {
    var a, objects' := objects[o].chunks[c], WithoutChunk(objects, o, c);
    assert RefersTo(objects, o, c, a);
    hide InUse;
    forall o', c', a' ensures RefersTo(objects', o', c', a') == (RefersTo(objects, o', c', a') && !(o' == o && c' == c)) {}
    hide RefersTo;
  }

  lemma SoftMarkKeepsFiles(blocks: seq<BlockInfo>, nand: map<Addr, Page>, objects: map<nat, Obj>, loose: set<Addr>, a: Addr)
    requires FilesOk(blocks, nand, objects, loose) && a in loose && InUse(blocks, a)
    ensures FilesOk(blocks[a.block := SoftMarked(blocks[a.block], a.page)], nand, objects, loose)
  {
    var blocks' := blocks[a.block := SoftMarked(blocks[a.block], a.page)];
    forall x ensures InUse(blocks', x) == InUse(blocks, x) {}
    forall x | InUse(blocks, x) && x != a ensures (x.page in blocks'[x.block].soft) == (x.page in blocks[x.block].soft) {}
    hide InUse;
  }

  /** A block that was erased or retired holds no page that any file refers to. */
  lemma NothingRefersToErased(c: Core, objects: map<nat, Obj>, loose: set<Addr>, b: nat)
    requires CoreOk(c) && FilesOk(c.blocks, c.nand, objects, loose)
    requires b < |c.blocks| && c.blocks[b].state in {Empty, Dead, Checkpoint}
    ensures forall o, ch, a :: RefersTo(objects, o, ch, a) ==> a.block != b
  {
    assert BlockOk(c.chunksPerBlock, c.blocks[b]);
  }

  // ----- Soft deleting a whole file -----

  /** All chunks of the file have been let go of; its data pages still in use are loose and marked. */
  ghost predicate SoftDeleting(blocks: seq<BlockInfo>, nand: map<Addr, Page>, objects: map<nat, Obj>, o: nat, loose: set<Addr>) {
    && FilesOk(blocks, nand, objects, loose)
    && o in objects && objects[o].deleted && !objects[o].softDel
    && forall a :: a in loose ==> InUse(blocks, a) && a in nand && nand[a].objId == o && nand[a].chunkId != 0 && a.page in blocks[a.block].soft
  }

  lemma SoftDeletingStep(blocks: seq<BlockInfo>, nand: map<Addr, Page>, objects: map<nat, Obj>, o: nat, loose: set<Addr>, c: nat)
    requires SoftDeleting(blocks, nand, objects, o, loose) && c > 0 && c in objects[o].chunks
    ensures var a := objects[o].chunks[c];
            && FilesOk(blocks, nand, WithoutChunk(objects, o, c), loose + {a})
            && a !in loose && InUse(blocks, a) && a.page !in blocks[a.block].soft && a in nand && nand[a].objId == o && nand[a].chunkId == c
  {
    var a, objects' := objects[o].chunks[c], WithoutChunk(objects, o, c);
    assert RefersTo(objects, o, c, a);
    hide InUse;
    forall o', c', a' ensures RefersTo(objects', o', c', a') == (RefersTo(objects, o', c', a') && !(o' == o && c' == c)) {}
    hide RefersTo;
  }

  lemma SoftDeletingOn(blocks: seq<BlockInfo>, blocks': seq<BlockInfo>, nand: map<Addr, Page>, objects: map<nat, Obj>, o: nat, c: nat, loose: set<Addr>)
    requires SoftDeleting(blocks, nand, objects, o, loose) && c > 0 && c in objects[o].chunks
    requires var a := objects[o].chunks[c];
             && a in nand && nand[a].objId == o && nand[a].chunkId == c && InUse(blocks, a)
             && FilesOk(blocks', nand, WithoutChunk(objects, o, c), loose + {a})
             && (forall x :: InUse(blocks', x) <==> InUse(blocks, x))
             && (forall x :: InUse(blocks', x) ==> (x.page in blocks'[x.block].soft <==> x.page in blocks[x.block].soft || x == a))
    ensures SoftDeleting(blocks', nand, WithoutChunk(objects, o, c), o, loose + {objects[o].chunks[c]})
  {
    hide FilesOk;
  }

  lemma SoftDeletingDone(blocks: seq<BlockInfo>, nand: map<Addr, Page>, objects: map<nat, Obj>, o: nat, loose: set<Addr>)
    requires SoftDeleting(blocks, nand, objects, o, loose) && forall c :: c in objects[o].chunks ==> c == 0
    ensures FilesOk(blocks, nand, objects[o := objects[o].(softDel := true)], {})
  {
    var objects' := objects[o := objects[o].(softDel := true)];
    forall o', c', a' ensures RefersTo(objects', o', c', a') == RefersTo(objects, o', c', a') {}
    assert forall c, a :: c != 0 ==> !RefersTo(objects, o, c, a);
    hide RefersTo, InUse;
  }

  // ----- Writing a checkpoint -----

  /** An empty block becomes part of the checkpoint and is written with checkpoint pages. */
  function CheckptTaken(c: Core, i: nat, nand: map<Addr, Page>): Core
    requires i < |c.blocks|
  {
    SetBlock(c, i, c.blocks[i].(state := Checkpoint)).(nand := nand)
  }

  lemma AfterCheckptTaken(c: Core, i: nat, nand: map<Addr, Page>, objects: map<nat, Obj>)
    requires CoreOk(c) && FilesOk(c.blocks, c.nand, objects, {}) && i < |c.blocks| && c.blocks[i].state == Empty
    requires forall a: Addr :: a.block != i ==> (a in nand <==> a in c.nand)
    requires forall a :: a in c.nand ==> a in nand && nand[a] == c.nand[a]
    ensures var c' := CheckptTaken(c, i, nand);
            && CoreOk(c') && FilesOk(c'.blocks, c'.nand, objects, {})
            && c' == c.(blocks := c.blocks[i := c.blocks[i].(state := Checkpoint)], nand := nand,
                        nFree := c.nFree - c.chunksPerBlock, nErased := c.nErased - 1, inCheckpt := c.inCheckpt + 1)
  {
    var bi := c.blocks[i].(state := Checkpoint);
    var c' := CheckptTaken(c, i, nand);
    CheckptTakenCounts(c, i, nand);
    CheckptTakenPlaces(c, i, nand);
    hide Counted, FilesOk, AllocOk, NandOk, DirtyOk, SummaryOk;
    FilesSameBits(c.blocks, c.nand, i, bi, objects, {});
    MorePages(c'.blocks, c.nand, nand, objects);
  }

  lemma CheckptTakenCounts(c: Core, i: nat, nand: map<Addr, Page>)
    requires CoreOk(c) && i < |c.blocks| && c.blocks[i].state == Empty
    ensures var c' := CheckptTaken(c, i, nand);
            && BlocksOk(c'.chunksPerBlock, c'.blocks) && Counted(c'.chunksPerBlock, c'.blocks, c'.nFree, c'.nErased, c'.inCheckpt)
            && c' == c.(blocks := c.blocks[i := c.blocks[i].(state := Checkpoint)], nand := nand,
                        nFree := c.nFree - c.chunksPerBlock, nErased := c.nErased - 1, inCheckpt := c.inCheckpt + 1)
  {
    hide Counted, FilesOk, AllocOk, NandOk, DirtyOk, SummaryOk;
    var bi := c.blocks[i].(state := Checkpoint);
    assert BlockOk(c.chunksPerBlock, c.blocks[i]) && BlockOk(c.chunksPerBlock, bi);
    CountsAfterSet(c, i, bi);
  }

  lemma TakenAlloc(c: Core, i: nat, nand: map<Addr, Page>)
    requires CoreOk(c) && i < |c.blocks| && c.blocks[i].state == Empty
    ensures var c' := CheckptTaken(c, i, nand);
            && AllocOk(c'.chunksPerBlock, c'.blocks, c'.allocBlock, c'.allocPage, c'.seqNumber)
            && DirtyOk(c'.chunksPerBlock, c'.blocks, c'.oldestDirtySeq, c'.seqNumber, c'.tracked)
  {
    hide Counted, BlocksOk, NandOk, SummaryOk;
  }

  lemma TakenPages(c: Core, i: nat, nand: map<Addr, Page>)
    requires CoreOk(c) && i < |c.blocks| && c.blocks[i].state == Empty && c.blocks[i].bits == {}
    requires forall a: Addr :: a.block != i ==> (a in nand <==> a in c.nand)
    requires forall a :: a in c.nand ==> a in nand && nand[a] == c.nand[a]
    ensures var c' := CheckptTaken(c, i, nand);
            && NandOk(c'.blocks, c'.nand, c'.allocBlock, c'.allocPage) && SummaryOk(c'.chunksPerSummary, c'.blocks, c'.nand)
  {
    hide Counted, BlocksOk, DirtyOk;
    assert i != c.allocBlock;
    hide AllocOk;
    var c' := CheckptTaken(c, i, nand);
    assert forall a :: InUse(c'.blocks, a) ==> a.block != i && InUse(c.blocks, a) && c'.blocks[a.block] == c.blocks[a.block];
    assert NandOk(c'.blocks, c'.nand, c'.allocBlock, c'.allocPage) by { hide SummaryOk; }
    hide NandOk;
  }

  lemma CheckptTakenPlaces(c: Core, i: nat, nand: map<Addr, Page>)
    requires CoreOk(c) && i < |c.blocks| && c.blocks[i].state == Empty
    requires forall a: Addr :: a.block != i ==> (a in nand <==> a in c.nand)
    requires forall a :: a in c.nand ==> a in nand && nand[a] == c.nand[a]
    ensures var c' := CheckptTaken(c, i, nand);
            && AllocOk(c'.chunksPerBlock, c'.blocks, c'.allocBlock, c'.allocPage, c'.seqNumber)
            && NandOk(c'.blocks, c'.nand, c'.allocBlock, c'.allocPage) && SummaryOk(c'.chunksPerSummary, c'.blocks, c'.nand)
            && DirtyOk(c'.chunksPerBlock, c'.blocks, c'.oldestDirtySeq, c'.seqNumber, c'.tracked)
  {
    hide Counted;
    assert BlockOk(c.chunksPerBlock, c.blocks[i]);
    hide BlockOk, BlocksOk;
    TakenAlloc(c, i, nand);
    TakenPages(c, i, nand);
  }

  lemma MorePages(blocks: seq<BlockInfo>, nand: map<Addr, Page>, nand': map<Addr, Page>, objects: map<nat, Obj>)
    requires FilesOk(blocks, nand, objects, {})
    requires forall a :: a in nand ==> a in nand' && nand'[a] == nand[a]
    ensures FilesOk(blocks, nand', objects, {})
  {
    hide InUse;
  }

  /** A freshly erased device. */
  lemma FormattedOk(chunksPerBlock: nat, n: nat)
    ensures var blank := BlockInfo(Empty, 0, {}, 0, {}, 0, false, false, true, false);
            var blocks := seq(n, _ => blank);
            && BlocksOk(chunksPerBlock, blocks)
            && FreeChunks(chunksPerBlock, blocks) == n * chunksPerBlock && CountState(blocks, Empty) == n && CountState(blocks, Checkpoint) == 0
  {
    var blank := BlockInfo(Empty, 0, {}, 0, {}, 0, false, false, true, false);
    var blocks := seq(n, _ => blank);
    if n > 0 {
      FormattedOk(chunksPerBlock, n - 1);
      assert blocks[..n - 1] == seq(n - 1, _ => blank);
      assert n * chunksPerBlock == (n - 1) * chunksPerBlock + chunksPerBlock;
    }
  }

  const CHECKPT_PAGE := Page(0, 0, 0x21, false, [])

  /** The NAND with every page of block i, none of which may be programmed yet, holding checkpoint data. */
  function WithCheckptPages(nand: map<Addr, Page>, i: nat, chunksPerBlock: nat): (r: map<Addr, Page>)
    requires forall a :: a in nand ==> a.block != i
    ensures forall a: Addr :: a in r <==> a in nand || (a.block == i && a.page < chunksPerBlock)
    ensures forall a :: a in nand && a.block != i ==> r[a] == nand[a]
  {
    nand + map k: nat | k < chunksPerBlock :: Addr(i, k) := CHECKPT_PAGE
  }

  /** The empty blocks among the first i hold checkpoint data and all else is as before. */
  ghost predicate TakenUpTo(before: seq<BlockInfo>, after: seq<BlockInfo>, i: nat) {
    && |after| == |before|
    && forall j :: 0 <= j < |before| ==>
         after[j] == if j < i && before[j].state == Empty then before[j].(state := Checkpoint) else before[j]
  }

  lemma NothingProgrammed(c: Core, i: nat)
    requires CoreOk(c) && i < |c.blocks| && c.blocks[i].state == Empty
    ensures forall a :: a in c.nand ==> a.block != i
  {
  }

  lemma MorePagesSameReads(blocks: seq<BlockInfo>, nand: map<Addr, Page>, nand': map<Addr, Page>, objects: map<nat, Obj>)
    requires FilesOk(blocks, nand, objects, {})
    requires forall a :: a in nand ==> a in nand' && nand'[a] == nand[a]
    ensures SameReads(nand, objects, nand', objects)
  {
    forall o, c
      ensures ReadChunk(nand', objects, o, c) == ReadChunk(nand, objects, o, c) && Marked(nand', objects, o, c) == Marked(nand, objects, o, c)
    {
      if PageOf(objects, o, c).Some? {
        assert RefersTo(objects, o, c, PageOf(objects, o, c).value);
      }
    }
  }

  /** A block is marked as holding a shrink header. */
  lemma AfterShrinkMark(c: Core, i: nat, objects: map<nat, Obj>, loose: set<Addr>)
    requires CoreOk(c) && i < |c.blocks| && FilesOk(c.blocks, c.nand, objects, loose)
    ensures var c' := c.(blocks := c.blocks[i := c.blocks[i].(hasShrinkHdr := true)]);
            CoreOk(c') && FilesOk(c'.blocks, c'.nand, objects, loose)
  {
    var bi := c.blocks[i].(hasShrinkHdr := true);
    assert BlockOk(c.chunksPerBlock, c.blocks[i]) && BlockOk(c.chunksPerBlock, bi);
    FilesSameBits(c.blocks, c.nand, i, bi, objects, loose);
    hide BlockOk, FilesOk;
    FlagsKeepCore(c, i, bi);
  }

  lemma StillInUse(c0: Core, c: Core, gone: set<Addr>, i: int, a: Addr)
    requires Keeps(c0, c, gone, i) && InUse(c0.blocks, a) && a !in gone
    ensures InUse(c.blocks, a) && (a in c0.nand ==> a in c.nand && c.nand[a] == c0.nand[a])
  {
  }

  lemma ReferredInUse(c: Core, objects: map<nat, Obj>, o: nat, ch: nat)
    requires FilesOk(c.blocks, c.nand, objects, {}) && PageOf(objects, o, ch).Some?
    ensures InUse(c.blocks, PageOf(objects, o, ch).value)
  {
    assert RefersTo(objects, o, ch, PageOf(objects, o, ch).value);
  }

  /** A new file without pages, under a number that no page in use carries. */
  lemma FilesAfterCreate(blocks: seq<BlockInfo>, nand: map<Addr, Page>, objects: map<nat, Obj>, o: nat)
    requires FilesOk(blocks, nand, objects, {}) && o !in objects && o != OBJECTID_SUMMARY
    requires forall a :: InUse(blocks, a) && a in nand ==> nand[a].objId != o
    ensures var objects' := objects[o := Obj(None, map[], false, false)];
            FilesOk(blocks, nand, objects', {}) && SameReads(nand, objects, nand, objects')
  {
    var objects' := objects[o := Obj(None, map[], false, false)];
    assert forall o', c, a :: RefersTo(objects', o', c, a) <==> RefersTo(objects, o', c, a);
    hide InUse;
  }

  // ----- Runs -----

  /** What every chunk of every file reads; chunk 0 is the header. */
  type Contents = map<(nat, nat), seq<byte>>

  ghost predicate Shows(nand: map<Addr, Page>, objects: map<nat, Obj>, m: Contents) {
    forall o, c :: ReadChunk(nand, objects, o, c) == Known(m, o, c)
  }

  function Known(m: Contents, o: nat, c: nat): Option<seq<byte>> {
    if (o, c) in m then Some(m[(o, c)]) else None
  }

  datatype Op =
    | Create(o: nat)
    | WriteData(o: nat, chunk: nat, data: seq<byte>, useReserve: bool)
    | WriteHeader(o: nat, data: seq<byte>, isShrink: bool)
    | DeleteChunk(o: nat, chunk: nat)
    | Collect(b: nat, wholeBlock: bool)
    | Invalidate
    | Checkpt(n: nat)

  /** The contents after an operation that was carried out, or was not. */
  function Applied(m: Contents, op: Op, done: bool): Contents {
    if !done then m else
    match op
    case WriteData(o, chunk, data, _) => m[(o, chunk) := data]
    case WriteHeader(o, data, _) => m[(o, 0) := data]
    case DeleteChunk(o, chunk) => m - {(o, chunk)}
    case _ => m
  }

  function AppliedAll(m: Contents, ops: seq<Op>, done: seq<bool>): Contents
    requires |done| == |ops|
  {
    if ops == [] then m else Applied(AppliedAll(m, ops[..|ops| - 1], done[..|ops| - 1]), ops[|ops| - 1], done[|ops| - 1])
  }

  lemma ShowsSame(nand: map<Addr, Page>, objects: map<nat, Obj>, nand': map<Addr, Page>, objects': map<nat, Obj>, m: Contents)
    requires Shows(nand, objects, m) && SameData(nand, objects, nand', objects')
    ensures Shows(nand', objects', m)
  {
    hide ReadChunk, Marked;
  }

  lemma StillShows(nand: map<Addr, Page>, objects: map<nat, Obj>, nand': map<Addr, Page>, objects': map<nat, Obj>, m: Contents)
    requires Shows(nand, objects, m) && SameReads(nand, objects, nand', objects')
    ensures Shows(nand', objects', m)
  {
    SameReadsSameData(nand, objects, nand', objects');
    hide SameReads, SameData, Shows;
    ShowsSame(nand, objects, nand', objects', m);
  }

  lemma ShowsWritten(nand: map<Addr, Page>, objects: map<nat, Obj>, nand': map<Addr, Page>, objects': map<nat, Obj>, m: Contents,
                     o: nat, c: nat, data: seq<byte>, isShrink: bool)
    requires Shows(nand, objects, m) && WroteChunk(nand, objects, nand', objects', o, c, data, isShrink)
    ensures Shows(nand', objects', m[(o, c) := data])
  {
    hide ReadChunk, Marked;
  }

  /** Erasing the checkpoint takes nothing away from any file. */
  lemma CheckptGoneKeepsReads(c0: Core, c: Core, objects: map<nat, Obj>)
    requires FilesOk(c0.blocks, c0.nand, objects, {}) && FilesOk(c.blocks, c.nand, objects, {}) && Keeps(c0, c, {}, -1)
    ensures SameReads(c0.nand, objects, c.nand, objects)
  {
    hide FilesOk, InUse, SameReads;
    KeepsIsGrowth(c0, c);
    GrowthKeepsReads(c0, c, objects);
  }

  /** Dropping a chunk drops it from what the files show. */
  lemma ShowsDropped(nand: map<Addr, Page>, objects: map<nat, Obj>, nand': map<Addr, Page>, objects': map<nat, Obj>, m: Contents, o: nat, c: nat)
    requires Shows(nand, objects, m) && DroppedChunk(nand, objects, nand', objects', o, c)
    ensures Shows(nand', objects', m - {(o, c)})
  {
    hide ReadChunk, Marked;
  }

  lemma AppliedMore(m: Contents, ops: seq<Op>, done: seq<bool>, i: nat, d: bool)
    requires i < |ops| && |done| == i
    ensures AppliedAll(m, ops[..i + 1], done + [d]) == Applied(AppliedAll(m, ops[..i], done), ops[i], d)
  {
    assert ops[..i + 1][..i] == ops[..i] && (done + [d])[..i] == done;
  }
}
