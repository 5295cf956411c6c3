/** The mount-time scan of the log (yaffs_yaffs2.c), which visits pages from the newest to the oldest,
    against a replay of the same log from the oldest page to the newest. */
module MountScan {
  import opened Arith
  import opened ObjectIds
  import opened Options

  /** Largest file size when the offset type is a 32-bit int; also the initial shrink size of a file. */
  const MAX_FILE_SIZE: int := 0x7fff_ffff
  const MAX_OBJECT_ID: nat := 0x3_ffff
  const MAX_CHUNK_ID: nat := 0xfff_ffff

  /** What the scan can learn about one page: its tags, and for a header the fields of the header itself. */
  datatype PageTags = PageTags(
    used: bool, eccUnfixed: bool, objId: nat, chunkId: nat, nBytes: nat, seqNumber: nat,
    hdrSize: int, hdrShrink: bool, hdrParent: nat)

  /** A block: its sequence number, its number in the device and the pages that the scan visits. */
  datatype Block = Block(seqNumber: nat, block: nat, pages: seq<PageTags>)

  /** The two kinds of page that matter to a file. */
  datatype Entry =
    | Data(obj: nat, chunk: nat, nBytes: nat, page: nat)
    | Header(obj: nat, size: int, isShrink: bool, gone: bool, page: nat)

  /** The device geometry. */
  datatype Geometry = Geometry(chunksPerBlock: nat, bytesPerChunk: nat)

  // ----- The log that a set of blocks stands for -----

  /** The 32-bit unsigned product converted to the signed offset type. */
  function ChunkBase(g: Geometry, chunk: nat): int {
    var u := ((chunk - 1) * g.bytesPerChunk) % 0x1_0000_0000;
    if u >= 0x8000_0000 then u - 0x1_0000_0000 else u
  }

  /** Where a chunk begins, as far as the offset type can tell: right below 2^31, and otherwise off by a multiple of 2^32. */
  lemma BaseWraps(g: Geometry, chunk: nat)
    requires chunk > 0
    ensures -0x8000_0000 <= ChunkBase(g, chunk) < 0x8000_0000
    ensures (ChunkBase(g, chunk) - (chunk - 1) * g.bytesPerChunk) % 0x1_0000_0000 == 0
    ensures (chunk - 1) * g.bytesPerChunk < 0x8000_0000 ==> ChunkBase(g, chunk) == (chunk - 1) * g.bytesPerChunk
  {
    WrapsTo((chunk - 1) * g.bytesPerChunk);
  }

  lemma WrapsTo(n: nat)
    ensures (n % 0x1_0000_0000 - n) % 0x1_0000_0000 == 0 && (n % 0x1_0000_0000 - 0x1_0000_0000 - n) % 0x1_0000_0000 == 0
  {
  }

  /** The pages the scan ignores are unused, uncorrectable, carry tags out of range or are summary pages. */
  predicate Ignored(g: Geometry, blk: Block, t: PageTags) {
    || !t.used
    || t.eccUnfixed
    || t.objId > MAX_OBJECT_ID
    || t.chunkId > MAX_CHUNK_ID
    || t.objId == OBJECTID_SUMMARY
    || (t.chunkId > 0 && t.nBytes > g.bytesPerChunk)
    || t.seqNumber != blk.seqNumber
  }

  function EntryOf(t: PageTags, page: nat): Entry {
    if t.chunkId > 0 then Data(t.objId, t.chunkId, t.nBytes, page)
    else Header(t.objId, t.hdrSize, t.hdrShrink,
                t.hdrParent == OBJECTID_DELETED || t.hdrParent == OBJECTID_UNLINKED, page)
  }

  /** Entries of the first n pages of a block, oldest first. */
  function BlockLog(g: Geometry, blk: Block, n: nat): seq<Entry>
    requires n <= |blk.pages|
  {
    if n == 0 then []
    else
      var t := blk.pages[n - 1];
      BlockLog(g, blk, n - 1) +
      if Ignored(g, blk, t) then [] else [EntryOf(t, blk.block * g.chunksPerBlock + n - 1)]
  }

  /** Entries of the first n blocks of a sorted block list, oldest first. */
  function Log(g: Geometry, blocks: seq<Block>, n: nat): seq<Entry>
    requires n <= |blocks|
  {
    if n == 0 then [] else Log(g, blocks, n - 1) + BlockLog(g, blocks[n - 1], |blocks[n - 1].pages|)
  }

  // ----- Which pages count -----

  /** A page that can be read and whose tags are in range and belong to its block. A data page holds no more bytes than
      a chunk takes. */
  predicate Sound(g: Geometry, blk: Block, t: PageTags) {
    && t.used && !t.eccUnfixed && t.seqNumber == blk.seqNumber
    && t.objId <= MAX_OBJECT_ID && t.objId != OBJECTID_SUMMARY
    && t.chunkId <= MAX_CHUNK_ID && (t.chunkId > 0 ==> t.nBytes <= g.bytesPerChunk)
  }

  lemma {:induction false} BlockPrefix(g: Geometry, blk: Block, k: nat, n: nat)
    requires k <= n <= |blk.pages|
    ensures BlockLog(g, blk, k) <= BlockLog(g, blk, n)
  {
    if k < n { BlockPrefix(g, blk, k, n - 1); }
  }

  lemma {:induction false} LogPrefix(g: Geometry, blocks: seq<Block>, b: nat, n: nat)
    requires b <= n <= |blocks|
    ensures Log(g, blocks, b) <= Log(g, blocks, n)
  {
    hide BlockLog;
    if b < n { LogPrefix(g, blocks, b, n - 1); }
  }

  /** Where a page is in the log. */
  ghost function PlaceInLog(g: Geometry, blocks: seq<Block>, b: nat, k: nat): nat
    requires b < |blocks| && k <= |blocks[b].pages|
  {
    |Log(g, blocks, b)| + |BlockLog(g, blocks[b], k)|
  }

  ghost predicate IsPage(blocks: seq<Block>, b: nat, k: nat) {
    b < |blocks| && k < |blocks[b].pages|
  }

  ghost predicate Later(b: nat, k: nat, b': nat, k': nat) {
    b < b' || (b == b' && k < k')
  }

  /** What the log says of a sound page: data of its chunk, or a header, and then whether it is that of a file in the
      unlinked or the deleted directory. */
  ghost predicate SaysPage(g: Geometry, blocks: seq<Block>, b: nat, k: nat, e: Entry)
    requires IsPage(blocks, b, k)
  {
    var t, page := blocks[b].pages[k], blocks[b].block * g.chunksPerBlock + k;
    && (t.chunkId > 0 ==> e == Data(t.objId, t.chunkId, t.nBytes, page))
    && (t.chunkId == 0 && (t.hdrParent == OBJECTID_DELETED || t.hdrParent == OBJECTID_UNLINKED) ==>
          e == Header(t.objId, t.hdrSize, t.hdrShrink, true, page))
    && (t.chunkId == 0 && t.hdrParent != OBJECTID_DELETED && t.hdrParent != OBJECTID_UNLINKED ==>
          e == Header(t.objId, t.hdrSize, t.hdrShrink, false, page))
  }

  /** Every sound page of the blocks is in their log. */
  lemma PageInLog(g: Geometry, blocks: seq<Block>, b: nat, k: nat)
    requires IsPage(blocks, b, k) && Sound(g, blocks[b], blocks[b].pages[k])
    ensures var log, i := Log(g, blocks, |blocks|), PlaceInLog(g, blocks, b, k); i < |log| && SaysPage(g, blocks, b, k, log[i])
  {
    var blk, log := blocks[b], Log(g, blocks, |blocks|);
    BlockPrefix(g, blk, k + 1, |blk.pages|);
    LogPrefix(g, blocks, b + 1, |blocks|);
    var older, here := Log(g, blocks, b), BlockLog(g, blk, |blk.pages|);
    var i := |BlockLog(g, blk, k)|;
    assert BlockLog(g, blk, k + 1) == BlockLog(g, blk, k) + [EntryOf(blk.pages[k], blk.block * g.chunksPerBlock + k)];
    hide BlockLog;
    assert Log(g, blocks, b + 1) == older + here;
    assert log[|older| + i] == (older + here)[|older| + i] == here[i] == BlockLog(g, blk, k + 1)[i];
  }

  lemma {:induction false} BlockSource(g: Geometry, blk: Block, n: nat, j: nat) returns (k: nat)
    requires n <= |blk.pages| && j < |BlockLog(g, blk, n)|
    ensures k < n && j == |BlockLog(g, blk, k)| && Sound(g, blk, blk.pages[k])
    ensures BlockLog(g, blk, n)[j] == EntryOf(blk.pages[k], blk.block * g.chunksPerBlock + k)
  {
    if j < |BlockLog(g, blk, n - 1)| {
      k := BlockSource(g, blk, n - 1, j);
    } else {
      k := n - 1;
    }
  }

  lemma {:induction false} LogSource(g: Geometry, blocks: seq<Block>, n: nat, j: nat) returns (b: nat, k: nat)
    requires n <= |blocks| && j < |Log(g, blocks, n)|
    ensures b < n && IsPage(blocks, b, k) && Sound(g, blocks[b], blocks[b].pages[k])
    ensures j == PlaceInLog(g, blocks, b, k) && SaysPage(g, blocks, b, k, Log(g, blocks, n)[j])
  {
    hide BlockLog, Sound;
    if j < |Log(g, blocks, n - 1)| {
      b, k := LogSource(g, blocks, n - 1, j);
    } else {
      b := n - 1;
      k := BlockSource(g, blocks[b], |blocks[b].pages|, j - |Log(g, blocks, n - 1)|);
    }
  }

  /** Nothing else is in it: every entry is what it says of a sound page. */
  lemma OnlySoundPages(g: Geometry, blocks: seq<Block>, e: Entry)
    requires e in Log(g, blocks, |blocks|)
    ensures exists b: nat, k: nat :: IsPage(blocks, b, k) && Sound(g, blocks[b], blocks[b].pages[k]) && SaysPage(g, blocks, b, k, e)
  {
    hide Log, Sound, SaysPage;
    var j :| 0 <= j < |Log(g, blocks, |blocks|)| && Log(g, blocks, |blocks|)[j] == e;
    var b, k := LogSource(g, blocks, |blocks|, j);
  }

  /** Pages are in the log in the order in which they lie in the blocks. */
  lemma LogInOrder(g: Geometry, blocks: seq<Block>, b: nat, k: nat, b': nat, k': nat)
    requires IsPage(blocks, b, k) && IsPage(blocks, b', k') && PlaceInLog(g, blocks, b, k) < PlaceInLog(g, blocks, b', k')
    ensures Later(b, k, b', k')
  {
    if b' < b {
      BlockPrefix(g, blocks[b'], k', |blocks[b'].pages|);
      LogPrefix(g, blocks, b' + 1, b);
    } else if b == b' && k' <= k {
      BlockPrefix(g, blocks[b], k', k);
    }
  }

  // ----- Forward replay: last write wins, shrinking headers prune -----

  /** Whether log[i..] has a header of the object. */
  ghost predicate HasHeader(log: seq<Entry>, i: nat, obj: nat)
    requires i <= |log|
    decreases |log| - i
  {
    i < |log| && ((log[i].Header? && log[i].obj == obj) || HasHeader(log, i + 1, obj))
  }

  /** The size to which the header at i cuts its file: the last header of a file always cuts it to the size
      it records; an earlier one cuts only if it is a shrink header or puts the file out of the tree. */
  ghost function Limit(log: seq<Entry>, i: nat): int
    requires i < |log| && log[i].Header?
  {
    if !HasHeader(log, i + 1, log[i].obj) then log[i].size
    else if log[i].gone then 0
    else if log[i].isShrink then log[i].size
    else MAX_FILE_SIZE
  }

  ghost function Prune(g: Geometry, m: map<(nat, nat), nat>, obj: nat, limit: int): (m': map<(nat, nat), nat>)
    ensures forall o, c :: (o, c) in m' <==> (o, c) in m && (o == obj ==> ChunkBase(g, c) < limit)
    ensures forall k :: k in m' ==> k in m && m'[k] == m[k]
  {
    map k | k in m && (k.0 == obj ==> ChunkBase(g, k.1) < limit) :: m[k]
  }

  /** The chunk map after the first n entries have been applied in the order they were written. */
  ghost function Forward(g: Geometry, log: seq<Entry>, n: nat): map<(nat, nat), nat>
    requires n <= |log|
  {
    if n == 0 then map[]
    else
      var m := Forward(g, log, n - 1);
      match log[n - 1]
      case Data(o, c, _, p) => if ChunkBase(g, c) < MAX_FILE_SIZE then m[(o, c) := p] else m
      case Header(o, _, _, _, _) => Prune(g, m, o, Limit(log, n - 1))
  }

  function Get<K, V>(m: map<K, V>, k: K): Option<V> {
    if k in m then Some(m[k]) else None
  }

  // ----- What the scan has decided once it has come back to entry i -----

  ghost function Shrink(log: seq<Entry>, i: nat, obj: nat): int
    requires i <= |log|
    decreases |log| - i
  {
    if i == |log| then MAX_FILE_SIZE
    else
      var s := Shrink(log, i + 1, obj);
      if log[i].Header? && log[i].obj == obj then Min(s, Limit(log, i)) else s
  }

  ghost function Chosen(g: Geometry, log: seq<Entry>, i: nat, obj: nat, chunk: nat): Option<nat>
    requires i <= |log|
    decreases |log| - i
  {
    if i == |log| then None
    else
      var later := Chosen(g, log, i + 1, obj, chunk);
      if later.Some? then later
      else if log[i].Data? && log[i].obj == obj && log[i].chunk == chunk && ChunkBase(g, chunk) < Shrink(log, i + 1, obj)
      then Some(log[i].page)
      else None
  }

  /** Whatever the split point, the newer part decides first and then lets through what the older part,
      replayed forwards, still holds below the newer part's shrink size. */
  lemma {:induction false} SplitAt(g: Geometry, log: seq<Entry>, i: nat, obj: nat, chunk: nat)
    requires i <= |log|
    ensures Chosen(g, log, 0, obj, chunk) ==
            (if Chosen(g, log, i, obj, chunk).Some? then Chosen(g, log, i, obj, chunk)
             else if ChunkBase(g, chunk) < Shrink(log, i, obj) then Get(Forward(g, log, i), (obj, chunk))
             else None)
  {
    if i > 0 {
      SplitAt(g, log, i - 1, obj, chunk);
      ShrinkBounded(log, i, obj);
    }
  }

  lemma ShrinkBounded(log: seq<Entry>, i: nat, obj: nat)
    requires i <= |log|
    ensures Shrink(log, i, obj) <= MAX_FILE_SIZE
    decreases |log| - i
  {
  }

  lemma {:induction false} ForwardBounded(g: Geometry, log: seq<Entry>, n: nat)
    requires n <= |log|
    ensures forall o, c :: (o, c) in Forward(g, log, n) ==> ChunkBase(g, c) < MAX_FILE_SIZE
  {
    if n > 0 { ForwardBounded(g, log, n - 1); }
  }

  /** Mount replay: the backward rules and the forward rules select the same page for every chunk of every file. */
  lemma BackwardIsForward(g: Geometry, log: seq<Entry>, obj: nat, chunk: nat)
    ensures Chosen(g, log, 0, obj, chunk) == Get(Forward(g, log, |log|), (obj, chunk))
  {
    SplitAt(g, log, |log|, obj, chunk);
    ForwardBounded(g, log, |log|);
  }

  // ----- File sizes and page bits -----

  /** File size once the scan is back at entry i: data pages count until a header has been seen. */
  ghost function SizeAt(g: Geometry, log: seq<Entry>, i: nat, obj: nat): int
    requires i <= |log|
    decreases |log| - i
  {
    if i == |log| then 0
    else
      var later := SizeAt(g, log, i + 1, obj);
      if log[i].obj != obj || HasHeader(log, i + 1, obj) then later
      else match log[i]
        case Header(_, size, _, _, _) => Max(later, size)
        case Data(_, c, n, _) => if ChunkBase(g, c) < MAX_FILE_SIZE then Max(later, ChunkBase(g, c) + n) else later
  }

  /** Nothing older than the last header of a file contributes to its size. */
  lemma {:induction false} SizeFromLastHeader(g: Geometry, log: seq<Entry>, i: nat, h: nat, obj: nat)
    requires i <= h < |log| && log[h].Header? && log[h].obj == obj && !HasHeader(log, h + 1, obj)
    ensures HasHeader(log, i, obj)
    ensures SizeAt(g, log, i, obj) == Max(SizeAt(g, log, h + 1, obj), log[h].size)
    decreases h - i
  {
    if i < h { SizeFromLastHeader(g, log, i + 1, h, obj); }
  }

  /** The entry at i is the one its file ends up using: as the page of a chunk or as the header. */
  ghost predicate Kept(g: Geometry, log: seq<Entry>, i: nat)
    requires i < |log|
  {
    match log[i]
    case Data(o, c, _, _) => Chosen(g, log, i + 1, o, c).None? && ChunkBase(g, c) < Shrink(log, i + 1, o)
    case Header(o, _, _, _, _) => !HasHeader(log, i + 1, o)
  }

  ghost function KeptPages(g: Geometry, log: seq<Entry>, i: nat): set<nat>
    requires i <= |log|
    decreases |log| - i
  {
    if i == |log| then {}
    else KeptPages(g, log, i + 1) + if Kept(g, log, i) then {log[i].page} else {}
  }

  /** The page of the file's last header. */
  ghost function HeaderPage(log: seq<Entry>, i: nat, obj: nat): nat
    requires i <= |log|
    decreases |log| - i
  {
    if i == |log| then 0
    else if HasHeader(log, i + 1, obj) then HeaderPage(log, i + 1, obj)
    else if log[i].Header? && log[i].obj == obj then log[i].page else 0
  }

  lemma {:induction false} HeaderPageIs(log: seq<Entry>, i: nat, h: nat, obj: nat)
    requires i <= h < |log| && log[h].Header? && log[h].obj == obj && !HasHeader(log, h + 1, obj)
    ensures HeaderPage(log, i, obj) == log[h].page && HasHeader(log, i, obj)
    decreases h - i
  {
    if i < h { HeaderPageIs(log, i + 1, h, obj); }
  }

  lemma KeptFrom(g: Geometry, log: seq<Entry>, i: nat, p: nat)
    requires i <= |log| && p in KeptPages(g, log, i)
    ensures exists j :: i <= j < |log| && log[j].page == p
    decreases |log| - i
  {
    if p in KeptPages(g, log, i + 1) { KeptFrom(g, log, i + 1, p); }
  }

  ghost predicate DistinctPages(log: seq<Entry>) {
    forall i, j :: 0 <= i < j < |log| ==> log[i].page != log[j].page
  }

  /** Blocks appear once and no block has more pages than the geometry allows. */
  ghost predicate BlocksOk(g: Geometry, blocks: seq<Block>) {
    && (forall i, j :: 0 <= i < j < |blocks| ==> blocks[i].block != blocks[j].block)
    && (forall i :: 0 <= i < |blocks| ==> |blocks[i].pages| <= g.chunksPerBlock)
  }

  lemma {:induction false} BlockLogPages(g: Geometry, blk: Block, n: nat)
    requires n <= |blk.pages| <= g.chunksPerBlock
    ensures DistinctPages(BlockLog(g, blk, n))
    ensures forall e :: e in BlockLog(g, blk, n) ==>
              blk.block * g.chunksPerBlock <= e.page < blk.block * g.chunksPerBlock + n
  {
    if n > 0 { BlockLogPages(g, blk, n - 1); }
  }

  lemma BlocksApart(c: nat, a: nat, b: nat, x: nat, y: nat)
    requires a != b && a * c <= x < a * c + c && b * c <= y < b * c + c
    ensures x != y
  {
    if a < b {
      assert (a + 1) * c <= b * c;
    } else {
      assert (b + 1) * c <= a * c;
    }
  }

  lemma {:induction false} LogPages(g: Geometry, blocks: seq<Block>, n: nat)
    requires n <= |blocks| && BlocksOk(g, blocks)
    ensures DistinctPages(Log(g, blocks, n))
    ensures forall e :: e in Log(g, blocks, n) ==>
              exists b :: 0 <= b < n && blocks[b].block * g.chunksPerBlock <= e.page < (blocks[b].block + 1) * g.chunksPerBlock
  {
    hide BlockLog;
    if n > 0 {
      LogPages(g, blocks, n - 1);
      var older, blk := Log(g, blocks, n - 1), blocks[n - 1];
      var newer := BlockLog(g, blk, |blk.pages|);
      BlockLogPages(g, blk, |blk.pages|);
      forall i, j | 0 <= i < |older| && 0 <= j < |newer| ensures older[i].page != newer[j].page {
        assert older[i] in older && newer[j] in newer;
        var b :| 0 <= b < n - 1 && blocks[b].block * g.chunksPerBlock <= older[i].page < (blocks[b].block + 1) * g.chunksPerBlock;
        BlocksApart(g.chunksPerBlock, blocks[b].block, blk.block, older[i].page, newer[j].page);
      }
      forall e | e in newer
        ensures blk.block * g.chunksPerBlock <= e.page < (blk.block + 1) * g.chunksPerBlock {}
    }
  }

  // ----- The scan itself -----

  /** The per-file state that the scan builds. */
  datatype FileVar = FileVar(
    valid: bool, shrinkSize: int, storedSize: int, fileSize: int, hdrChunk: nat, chunks: map<nat, nat>)

  const FRESH_FILE := FileVar(false, MAX_FILE_SIZE, 0, 0, 0, map[])

  function FileOf(files: map<nat, FileVar>, obj: nat): FileVar {
    if obj in files then files[obj] else FRESH_FILE
  }

  ghost predicate FileMatches(g: Geometry, f: FileVar, log: seq<Entry>, i: nat, obj: nat)
    requires i <= |log|
  {
    && f.valid == HasHeader(log, i, obj)
    && (f.valid ==> f.hdrChunk == HeaderPage(log, i, obj))
    && f.shrinkSize == Shrink(log, i, obj)
    && f.fileSize == f.storedSize == SizeAt(g, log, i, obj)
    && forall c :: Get(f.chunks, c) == Chosen(g, log, i, obj, c)
  }

  ghost predicate ScanMatches(g: Geometry, files: map<nat, FileVar>, live: set<nat>, log: seq<Entry>, i: nat)
    requires i <= |log|
  {
    && (forall o :: FileMatches(g, FileOf(files, o), log, i, o))
    && live == KeptPages(g, log, i)
  }

  class Mount {
    var files: map<nat, FileVar>
    var live: set<nat>  // pages whose bit is set in the chunk bitmaps

    constructor ()
      ensures files == map[] && live == {}
    {
      files, live := map[], {};
    }

    /** One data page: kept unless a newer page of the chunk or a newer shrink came first. */
    method ScanData(g: Geometry, obj: nat, chunk: nat, nBytes: nat, page: nat, ghost log: seq<Entry>, ghost i: nat)
      requires i < |log| && log[i] == Data(obj, chunk, nBytes, page) && DistinctPages(log)
      requires ScanMatches(g, files, live, log, i + 1)
      modifies this
      ensures ScanMatches(g, files, live, log, i)
    {
      ghost var old_files := files;
      live := live + {page};
      var f := FileOf(files, obj);
      var chunkBase := ChunkBase(g, chunk);
      FreshPage(g, log, i);
      ShrinkWithoutHeader(log, i + 1, obj);
      assert FileMatches(g, f, log, i + 1, obj);
      if chunkBase < f.shrinkSize {
        if chunk in f.chunks {
          live := live - {page};
        } else {
          f := f.(chunks := f.chunks[chunk := page]);
        }
        if !f.valid && f.storedSize < chunkBase + nBytes {
          f := f.(storedSize := chunkBase + nBytes, fileSize := chunkBase + nBytes);
        }
      } else {
        live := live - {page};
      }
      files := files[obj := f];
      assert FileMatches(g, f, log, i, obj);
      Untouched(g, old_files, files, log, i, obj);
    }

    /** One header: the newest one of a file fixes its size and its header page, older ones only tell how far
        the file had been cut back. */
    method ScanHeader(g: Geometry, obj: nat, size: int, isShrink: bool, gone: bool, page: nat, ghost log: seq<Entry>, ghost i: nat)
      requires i < |log| && log[i] == Header(obj, size, isShrink, gone, page) && DistinctPages(log)
      requires ScanMatches(g, files, live, log, i + 1)
      modifies this
      ensures ScanMatches(g, files, live, log, i)
      ensures !old(FileOf(files, obj).valid) ==> FileOf(files, obj).hdrChunk == page
    {
      ghost var old_files := files;
      live := live + {page};
      var f := FileOf(files, obj);
      FreshPage(g, log, i);
      ShrinkBounded(log, i + 1, obj);
      assert FileMatches(g, f, log, i + 1, obj);
      if f.valid {
        var thisSize, shrinks := size, isShrink;
        if gone { thisSize, shrinks := 0, true; }
        if shrinks && f.shrinkSize > thisSize { f := f.(shrinkSize := thisSize); }
        live := live - {page};
      } else {
        f := f.(valid := true, hdrChunk := page);
        if f.storedSize < size { f := f.(fileSize := size, storedSize := size); }
        if f.shrinkSize > size { f := f.(shrinkSize := size); }
      }
      files := files[obj := f];
      assert FileMatches(g, f, log, i, obj);
      Untouched(g, old_files, files, log, i, obj);
    }

    /** One block, newest page first. */
    method ScanBlock(g: Geometry, blk: Block, ghost log: seq<Entry>, ghost older: seq<Entry>)
      requires older + BlockLog(g, blk, |blk.pages|) <= log && DistinctPages(log)
      requires ScanMatches(g, files, live, log, |older + BlockLog(g, blk, |blk.pages|)|)
      modifies this
      ensures ScanMatches(g, files, live, log, |older|)
    {
      var c := |blk.pages|;
      while c > 0
        invariant 0 <= c <= |blk.pages|
        invariant older + BlockLog(g, blk, c) <= log
        invariant ScanMatches(g, files, live, log, |older + BlockLog(g, blk, c)|)
      {
        c := c - 1;
        var t := blk.pages[c];
        ghost var before := older + BlockLog(g, blk, c);
        var page := blk.block * g.chunksPerBlock + c;
        ghost var after := older + BlockLog(g, blk, c + 1);
        if !Ignored(g, blk, t) {
          assert after == before + [EntryOf(t, page)];
          assert log[|before|] == after[|before|];
          match EntryOf(t, page) {
            case Data(o, ch, n, p) => ScanData(g, o, ch, n, p, log, |before|);
            case Header(o, s, sh, gone, p) => ScanHeader(g, o, s, sh, gone, p, log, |before|);
          }
        } else {
          assert after == before;
        }
      }
      assert older + BlockLog(g, blk, 0) == older;
    }

    /** The whole scan, newest block first: every chunk of every file ends up on the page that replaying the
        log forwards gives it, and a page bit is set exactly for the pages in use. */
    method ScanBackwards(g: Geometry, blocks: seq<Block>)
      requires BlocksOk(g, blocks)
      requires files == map[] && live == {}
      modifies this
      ensures var log := Log(g, blocks, |blocks|);
              && ScanMatches(g, files, live, log, 0)
              && forall o, c :: Get(FileOf(files, o).chunks, c) == Get(Forward(g, log, |log|), (o, c))
      ensures forall b: nat, k: nat :: NewestOfChunk(g, blocks, b, k) ==>
                Get(FileOf(files, blocks[b].pages[k].objId).chunks, blocks[b].pages[k].chunkId) == Some(blocks[b].block * g.chunksPerBlock + k)
      ensures forall b: nat, k: nat :: NewestHeader(g, blocks, b, k) ==>
                var f := FileOf(files, blocks[b].pages[k].objId); f.valid && f.hdrChunk == blocks[b].block * g.chunksPerBlock + k
    {
      hide FileMatches, BlockLog, KeptPages;
      ghost var log := Log(g, blocks, |blocks|);
      LogPages(g, blocks, |blocks|);
      NothingScanned(g, files, live, log);
      var b := |blocks|;
      while b > 0
        invariant 0 <= b <= |blocks|
        invariant Log(g, blocks, b) <= log
        invariant ScanMatches(g, files, live, log, |Log(g, blocks, b)|)
      {
        b := b - 1;
        ScanBlock(g, blocks[b], log, Log(g, blocks, b));
      }
      ForwardEverywhere(g, files, live, log);
      NewestFound(g, files, live, blocks);
    }
  }

  // ----- The newest page of a chunk -----

  /** A sound data page that no later sound page stands for: none is of the same chunk, or a header of the file. */
  ghost predicate NewestOfChunk(g: Geometry, blocks: seq<Block>, b: nat, k: nat) {
    && IsPage(blocks, b, k) && Sound(g, blocks[b], blocks[b].pages[k])
    && blocks[b].pages[k].chunkId > 0 && ChunkBase(g, blocks[b].pages[k].chunkId) < MAX_FILE_SIZE
    && forall b': nat, k': nat :: IsPage(blocks, b', k') && Later(b, k, b', k') && Sound(g, blocks[b'], blocks[b'].pages[k'])
                                        && blocks[b'].pages[k'].objId == blocks[b].pages[k].objId ==>
                                          blocks[b'].pages[k'].chunkId != 0 && blocks[b'].pages[k'].chunkId != blocks[b].pages[k].chunkId
  }

  ghost predicate NewestHeader(g: Geometry, blocks: seq<Block>, b: nat, k: nat) {
    && IsPage(blocks, b, k) && Sound(g, blocks[b], blocks[b].pages[k]) && blocks[b].pages[k].chunkId == 0
    && forall b': nat, k': nat :: IsPage(blocks, b', k') && Later(b, k, b', k') && Sound(g, blocks[b'], blocks[b'].pages[k'])
                                        && blocks[b'].pages[k'].objId == blocks[b].pages[k].objId ==>
                                          blocks[b'].pages[k'].chunkId != 0
  }

  lemma {:induction false} NothingLater(g: Geometry, log: seq<Entry>, i: nat, o: nat, c: nat)
    requires i <= |log|
    requires forall j :: i <= j < |log| && log[j].obj == o ==> log[j].Data? && log[j].chunk != c
    ensures Chosen(g, log, i, o, c) == None && Shrink(log, i, o) == MAX_FILE_SIZE
    decreases |log| - i
  {
    if i < |log| { NothingLater(g, log, i + 1, o, c); }
  }

  lemma {:induction false} ChosenStays(g: Geometry, log: seq<Entry>, i: nat, n: nat, o: nat, c: nat)
    requires i <= n <= |log| && Chosen(g, log, n, o, c).Some?
    ensures Chosen(g, log, i, o, c) == Chosen(g, log, n, o, c)
    decreases n - i
  {
    if i < n { ChosenStays(g, log, i + 1, n, o, c); }
  }

  /** The newest page of a chunk is the one that the file gets. */
  lemma NewestIsChosen(g: Geometry, blocks: seq<Block>, b: nat, k: nat)
    requires NewestOfChunk(g, blocks, b, k)
    ensures var t := blocks[b].pages[k];
            Chosen(g, Log(g, blocks, |blocks|), 0, t.objId, t.chunkId) == Some(blocks[b].block * g.chunksPerBlock + k)
  {
    var t, log, i := blocks[b].pages[k], Log(g, blocks, |blocks|), PlaceInLog(g, blocks, b, k);
    PageInLog(g, blocks, b, k);
    hide Log, BlockLog, Sound, ChunkBase, PlaceInLog;
    forall j | i + 1 <= j < |log| && log[j].obj == t.objId ensures log[j].Data? && log[j].chunk != t.chunkId {
      var b', k' := LogSource(g, blocks, |blocks|, j);
      LogInOrder(g, blocks, b, k, b', k');
    }
    NothingLater(g, log, i + 1, t.objId, t.chunkId);
    ChosenStays(g, log, 0, i, t.objId, t.chunkId);
  }

  /** And the newest header is the one that it goes by. */
  lemma NewestHeaderCounts(g: Geometry, blocks: seq<Block>, b: nat, k: nat)
    requires NewestHeader(g, blocks, b, k)
    ensures var log, o := Log(g, blocks, |blocks|), blocks[b].pages[k].objId;
            HasHeader(log, 0, o) && HeaderPage(log, 0, o) == blocks[b].block * g.chunksPerBlock + k
  {
    var t, log, i := blocks[b].pages[k], Log(g, blocks, |blocks|), PlaceInLog(g, blocks, b, k);
    PageInLog(g, blocks, b, k);
    hide Log, BlockLog, Sound, PlaceInLog;
    forall j | i + 1 <= j < |log| && log[j].obj == t.objId ensures log[j].Data? {
      var b', k' := LogSource(g, blocks, |blocks|, j);
      LogInOrder(g, blocks, b, k, b', k');
    }
    NoHeaderLater(log, i + 1, t.objId);
    HeaderPageIs(log, 0, i, t.objId);
  }

  lemma {:induction false} NoHeaderLater(log: seq<Entry>, i: nat, o: nat)
    requires i <= |log| && forall j :: i <= j < |log| && log[j].obj == o ==> log[j].Data?
    ensures !HasHeader(log, i, o)
    decreases |log| - i
  {
    if i < |log| { NoHeaderLater(log, i + 1, o); }
  }

  lemma NewestFound(g: Geometry, files: map<nat, FileVar>, live: set<nat>, blocks: seq<Block>)
    requires ScanMatches(g, files, live, Log(g, blocks, |blocks|), 0)
    ensures forall b: nat, k: nat :: NewestOfChunk(g, blocks, b, k) ==>
              Get(FileOf(files, blocks[b].pages[k].objId).chunks, blocks[b].pages[k].chunkId) == Some(blocks[b].block * g.chunksPerBlock + k)
    ensures forall b: nat, k: nat :: NewestHeader(g, blocks, b, k) ==>
              var f := FileOf(files, blocks[b].pages[k].objId); f.valid && f.hdrChunk == blocks[b].block * g.chunksPerBlock + k
  {
    hide NewestOfChunk, NewestHeader, ScanMatches;
    forall b: nat, k: nat | NewestOfChunk(g, blocks, b, k)
      ensures IsPage(blocks, b, k)
      ensures Get(FileOf(files, blocks[b].pages[k].objId).chunks, blocks[b].pages[k].chunkId) == Some(blocks[b].block * g.chunksPerBlock + k)
    {
      NewestChunkFound(g, files, live, blocks, b, k);
    }
    forall b: nat, k: nat | NewestHeader(g, blocks, b, k)
      ensures IsPage(blocks, b, k)
      ensures var f := FileOf(files, blocks[b].pages[k].objId); f.valid && f.hdrChunk == blocks[b].block * g.chunksPerBlock + k
    {
      NewestHeaderFound(g, files, live, blocks, b, k);
    }
  }

  lemma NewestChunkFound(g: Geometry, files: map<nat, FileVar>, live: set<nat>, blocks: seq<Block>, b: nat, k: nat)
    requires ScanMatches(g, files, live, Log(g, blocks, |blocks|), 0) && NewestOfChunk(g, blocks, b, k)
    ensures IsPage(blocks, b, k)
    ensures Get(FileOf(files, blocks[b].pages[k].objId).chunks, blocks[b].pages[k].chunkId) == Some(blocks[b].block * g.chunksPerBlock + k)
  {
    hide Log, Sound, HeaderPage, HasHeader, Chosen, KeptPages, SizeAt, Shrink;
    assert FileMatches(g, FileOf(files, blocks[b].pages[k].objId), Log(g, blocks, |blocks|), 0, blocks[b].pages[k].objId);
    NewestIsChosen(g, blocks, b, k);
  }

  lemma NewestHeaderFound(g: Geometry, files: map<nat, FileVar>, live: set<nat>, blocks: seq<Block>, b: nat, k: nat)
    requires ScanMatches(g, files, live, Log(g, blocks, |blocks|), 0) && NewestHeader(g, blocks, b, k)
    ensures IsPage(blocks, b, k)
    ensures var f := FileOf(files, blocks[b].pages[k].objId); f.valid && f.hdrChunk == blocks[b].block * g.chunksPerBlock + k
  {
    hide Log, Sound, HeaderPage, HasHeader, Chosen, KeptPages, SizeAt, Shrink;
    assert FileMatches(g, FileOf(files, blocks[b].pages[k].objId), Log(g, blocks, |blocks|), 0, blocks[b].pages[k].objId);
    NewestHeaderCounts(g, blocks, b, k);
  }

  lemma NothingScanned(g: Geometry, files: map<nat, FileVar>, live: set<nat>, log: seq<Entry>)
    requires files == map[] && live == {}
    ensures ScanMatches(g, files, live, log, |log|)
  {
  }

  lemma ForwardEverywhere(g: Geometry, files: map<nat, FileVar>, live: set<nat>, log: seq<Entry>)
    requires ScanMatches(g, files, live, log, 0)
    ensures forall o, c :: Get(FileOf(files, o).chunks, c) == Get(Forward(g, log, |log|), (o, c))
  {
    forall o, c ensures Get(FileOf(files, o).chunks, c) == Get(Forward(g, log, |log|), (o, c)) {
      assert FileMatches(g, FileOf(files, o), log, 0, o);
      BackwardIsForward(g, log, o, c);
    }
  }

  lemma FreshPage(g: Geometry, log: seq<Entry>, i: nat)
    requires i < |log| && DistinctPages(log)
    ensures log[i].page !in KeptPages(g, log, i + 1)
  {
    if log[i].page in KeptPages(g, log, i + 1) { KeptFrom(g, log, i + 1, log[i].page); }
  }

  lemma {:induction false} ShrinkWithoutHeader(log: seq<Entry>, i: nat, obj: nat)
    requires i <= |log|
    ensures !HasHeader(log, i, obj) ==> Shrink(log, i, obj) == MAX_FILE_SIZE
    decreases |log| - i
  {
    if i < |log| { ShrinkWithoutHeader(log, i + 1, obj); }
  }

  /** An entry of one file changes nothing that the scan knows about the others. */
  lemma Untouched(g: Geometry, before: map<nat, FileVar>, after: map<nat, FileVar>, log: seq<Entry>, i: nat, obj: nat)
    requires i < |log| && log[i].obj == obj
    requires forall o :: FileMatches(g, FileOf(before, o), log, i + 1, o)
    requires forall o :: o != obj ==> FileOf(after, o) == FileOf(before, o)
    requires FileMatches(g, FileOf(after, obj), log, i, obj)
    ensures forall o :: FileMatches(g, FileOf(after, o), log, i, o)
  {
    forall o ensures FileMatches(g, FileOf(after, o), log, i, o) {
      if o != obj {
        assert FileMatches(g, FileOf(before, o), log, i + 1, o);
      }
    }
  }

  // ----- The order in which blocks are sorted -----

  function ToInt32(x: int): int {
    var u := x % 0x1_0000_0000;
    if u >= 0x8000_0000 then u - 0x1_0000_0000 else u
  }

  /** The comparison used to sort blocks: sequence numbers are compared as signed ints, ties go to block numbers. */
  function CompareBlocks(aSeq: nat, aBlock: nat, bSeq: nat, bBlock: nat): int {
    var x, y := ToInt32(aSeq), ToInt32(bSeq);
    if x == y then ToInt32(aBlock - bBlock) else ToInt32(x - y)
  }

  /** The sort puts the older of two blocks first exactly when their sequence numbers are less than 2^31 apart. */
  lemma OldestFirst(a: nat, aBlock: nat, b: nat, bBlock: nat)
    requires a < b < 0x1_0000_0000
    ensures CompareBlocks(a, aBlock, b, bBlock) < 0 <==> b - a <= 0x8000_0000
    ensures CompareBlocks(b, bBlock, a, aBlock) > 0 <==> b - a < 0x8000_0000
  {
    assert a % 0x1_0000_0000 == a && b % 0x1_0000_0000 == b;
    assert ToInt32(ToInt32(a) - ToInt32(b)) == ToInt32(a - b);
    assert ToInt32(ToInt32(b) - ToInt32(a)) == ToInt32(b - a);
  }

  /** Of blocks with the same number the first one comes first. */
  lemma TiesByBlock(seqNumber: nat, aBlock: nat, bBlock: nat)
    requires aBlock < 0x8000_0000 && bBlock < 0x8000_0000
    ensures CompareBlocks(seqNumber, aBlock, seqNumber, bBlock) == aBlock - bBlock
  {
  }
}
