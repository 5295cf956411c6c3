/** What a checkpoint stream looks like on flash: the byte string cut into chunks, each behind a header with a running
    sum and exclusive-or, and the chunks laid out over blocks (yaffs_checkptrw.c). */
module CheckptFormat {
  import opened Arith
  import opened ByteBits
  import opened Bytes

  const CHECKPOINT_VERSION: nat := 8
  const SEQUENCE_CHECKPOINT_DATA: nat := 0x21
  const HEADER_BYTES: nat := 16

  // ----- Running checksums -----

  function AddByte(sum: u32, b: byte): u32 { (sum + b) % 0x1_0000_0000 }

  function SumOf(s: seq<byte>): u32 {
    if s == [] then 0 else AddByte(SumOf(s[..|s| - 1]), s[|s| - 1])
  }

  function XorOf(s: seq<byte>): byte {
    if s == [] then 0 else XorByte(XorOf(s[..|s| - 1]), s[|s| - 1])
  }

  lemma SumAppend(s: seq<byte>, b: byte)
    ensures SumOf(s + [b]) == AddByte(SumOf(s), b) && XorOf(s + [b]) == XorByte(XorOf(s), b)
  {
    assert (s + [b])[..|s|] == s;
  }

  // ----- Chunk images -----

  /** The header of chunk k of a stream of which s has gone before. */
  function Header(k: u32, s: seq<byte>): (r: seq<byte>)
    ensures |r| == HEADER_BYTES
  {
    EncodeU32(CHECKPOINT_VERSION) + EncodeU32(k) + EncodeU32(SumOf(s)) + EncodeU32(XorOf(s))
  }

  /** What the reader checks in a header. */
  predicate HeaderMatches(h: seq<byte>, k: nat, sum: u32, xor: byte)
    requires |h| == HEADER_BYTES
  {
    && DecodeU32(h[..4]) == CHECKPOINT_VERSION
    && DecodeU32(h[4..8]) == k
    && DecodeU32(h[8..12]) == sum
    && DecodeU32(h[12..]) == xor
  }

  lemma HeaderWords(k: u32, s: seq<byte>)
    ensures var h := Header(k, s);
            && h[..4] == EncodeU32(CHECKPOINT_VERSION) && h[4..8] == EncodeU32(k)
            && h[8..12] == EncodeU32(SumOf(s)) && h[12..] == EncodeU32(XorOf(s))
  {
  }

  /** The reader accepts the writer's header and no other. */
  lemma HeaderAccepted(h: seq<byte>, k: u32, s: seq<byte>)
    requires |h| == HEADER_BYTES
    ensures HeaderMatches(h, k, SumOf(s), XorOf(s)) <==> h == Header(k, s)
  {
    HeaderWords(k, s);
    hide DecodeU32, EncodeU32, Header, SumOf, XorOf;
    U32RoundTrip(CHECKPOINT_VERSION);
    U32RoundTrip(k);
    U32RoundTrip(SumOf(s));
    U32RoundTrip(XorOf(s));
    U32Back(h[..4]);
    U32Back(h[4..8]);
    U32Back(h[8..12]);
    U32Back(h[12..]);
    var r := Header(k, s);
    assert h == h[..4] + h[4..8] + h[8..12] + h[12..];
    assert r == r[..4] + r[4..8] + r[8..12] + r[12..];
  }

  /** What the header says, word by word: the version, the number of the chunk, the total of all bytes before, and their
      exclusive-or. */
  lemma HeaderSays(k: u32, s: seq<byte>)
    ensures var h := Header(k, s);
            && DecodeU32(h[..4]) == 8 && DecodeU32(h[4..8]) == k
            && DecodeU32(h[8..12]) == TotalOf(s) % 0x1_0000_0000 && DecodeU32(h[12..]) == XorOf(s)
  {
    HeaderWords(k, s);
    hide DecodeU32, EncodeU32, Header, SumOf, XorOf, TotalOf;
    SumIsTotal(s);
    U32RoundTrip(CHECKPOINT_VERSION);
    U32RoundTrip(k);
    U32RoundTrip(SumOf(s));
    U32RoundTrip(XorOf(s));
  }

  // ----- What the running checks check -----

  lemma {:induction false} SumIsTotal(s: seq<byte>)
    ensures SumOf(s) == TotalOf(s) % 0x1_0000_0000
  {
    if s != [] {
      SumIsTotal(s[..|s| - 1]);
      AddsUp(SumOf(s[..|s| - 1]), TotalOf(s[..|s| - 1]), s[|s| - 1]);
      hide AddByte;
    }
  }

  lemma AddsUp(sum: u32, total: nat, b: byte)
    requires sum == total % 0x1_0000_0000
    ensures AddByte(sum, b) == (total + b) % 0x1_0000_0000
  {
    Remainders(total, b);
  }

  /** How many bytes have bit k set. */
  function CountBit(s: seq<byte>, k: nat): nat
    requires k < 8
  {
    if s == [] then 0 else CountBit(s[..|s| - 1], k) + if BitAt(s[|s| - 1], k) then 1 else 0
  }

  /** Each bit of the exclusive-or is the parity of that bit over all bytes. */
  lemma {:induction false} XorIsParity(s: seq<byte>, k: nat)
    requires k < 8
    ensures BitAt(XorOf(s), k) <==> CountBit(s, k) % 2 == 1
  {
    hide BitAt, XorByte;
    if s == [] {
      NoBits(k);
    } else {
      XorIsParity(s[..|s| - 1], k);
      XorBits(XorOf(s[..|s| - 1]), s[|s| - 1], k);
      OneMoreOdd(CountBit(s[..|s| - 1], k));
    }
  }

  lemma OneMoreOdd(n: nat)
    ensures (n + 1) % 2 == 1 <==> n % 2 == 0
    ensures n % 2 == 0 || n % 2 == 1
  {
  }

  lemma {:induction false} CountOther(s: seq<byte>, i: nat, b: byte, k: nat)
    requires i < |s| && k < 8
    ensures CountBit(s[i := b], k) == CountBit(s, k) - (if BitAt(s[i], k) then 1 else 0) + if BitAt(b, k) then 1 else 0
  {
    hide BitAt;
    var n := |s| - 1;
    if i == n {
      assert s[i := b][..n] == s[..n];
    } else {
      assert s[i := b][..n] == s[..n][i := b];
      CountOther(s[..n], i, b, k);
    }
  }

  /** One wrong byte in what has gone before is noticed at the next header. */
  lemma WrongByteNoticed(k: u32, s: seq<byte>, i: nat, b: byte)
    requires i < |s| && b != s[i]
    ensures XorOf(s[i := b]) != XorOf(s)
    ensures !HeaderMatches(Header(k, s), k, SumOf(s[i := b]), XorOf(s[i := b]))
  {
    hide BitAt, SumOf, XorOf, DecodeU32, EncodeU32;
    if forall j :: 0 <= j < 8 ==> BitAt(b, j) == BitAt(s[i], j) { BitsTell(b, s[i]); }
    var j :| 0 <= j < 8 && BitAt(b, j) != BitAt(s[i], j);
    CountOther(s, i, b, j);
    XorIsParity(s, j);
    XorIsParity(s[i := b], j);
    HeaderAccepted(Header(k, s), k, s);
  }

  /** The offset in the stream of chunk k's first byte. */
  function Base(k: nat, chunkBytes: nat): nat
    requires chunkBytes > HEADER_BYTES
  {
    k * (chunkBytes - HEADER_BYTES)
  }

  lemma BaseNext(k: nat, chunkBytes: nat)
    requires chunkBytes > HEADER_BYTES
    ensures Base(k + 1, chunkBytes) == Base(k, chunkBytes) + (chunkBytes - HEADER_BYTES)
  {
  }

  lemma BaseZero(chunkBytes: nat)
    requires chunkBytes > HEADER_BYTES
    ensures Base(0, chunkBytes) == 0
  {
  }

  lemma {:induction false} BaseMonotone(i: nat, j: nat, chunkBytes: nat)
    requires chunkBytes > HEADER_BYTES && i <= j
    ensures Base(i, chunkBytes) <= Base(j, chunkBytes)
  {
    if i < j {
      BaseMonotone(i, j - 1, chunkBytes);
      BaseNext(j - 1, chunkBytes);
    }
  }

  /** The image of chunk k, whose payload starts at offset base of the stream, zero-filled to the chunk's size. */
  function Image(s: seq<byte>, k: u32, base: nat, chunkBytes: nat): (r: seq<byte>)
    requires chunkBytes > HEADER_BYTES && base <= |s|
    ensures |r| == chunkBytes
  {
    var payload := chunkBytes - HEADER_BYTES;
    var n := if |s| - base < payload then |s| - base else payload;
    Header(k, s[..base]) + s[base..base + n] + Zeros(payload - n)
  }

  lemma ImagePut(s: seq<byte>, k: u32, base: nat, chunkBytes: nat, b: byte)
    requires chunkBytes > HEADER_BYTES && base <= |s| < base + chunkBytes - HEADER_BYTES
    ensures Image(s + [b], k, base, chunkBytes) == Image(s, k, base, chunkBytes)[HEADER_BYTES + |s| - base := b]
  {
    hide Header;
    assert (s + [b])[..base] == s[..base];
    var i, j := Image(s + [b], k, base, chunkBytes), Image(s, k, base, chunkBytes);
    assert (s + [b])[base..|s| + 1] == s[base..|s|] + [b];
  }

  lemma ImageStable(s: seq<byte>, t: seq<byte>, k: u32, base: nat, chunkBytes: nat)
    requires chunkBytes > HEADER_BYTES && base + chunkBytes - HEADER_BYTES <= |s| && s <= t
    ensures Image(t, k, base, chunkBytes) == Image(s, k, base, chunkBytes)
  {
    hide Header;
    assert t[..base] == s[..base];
    assert t[base..base + chunkBytes - HEADER_BYTES] == s[base..base + chunkBytes - HEADER_BYTES];
  }

  lemma ImageGet(s: seq<byte>, k: u32, base: nat, chunkBytes: nat, t: nat)
    requires chunkBytes > HEADER_BYTES && base <= t < |s| && t < base + chunkBytes - HEADER_BYTES
    ensures Image(s, k, base, chunkBytes)[HEADER_BYTES + t - base] == s[t]
  {
    hide Header;
  }

  lemma ImageHeader(s: seq<byte>, k: u32, base: nat, chunkBytes: nat)
    requires chunkBytes > HEADER_BYTES && base <= |s|
    ensures Image(s, k, base, chunkBytes)[..HEADER_BYTES] == Header(k, s[..base])
  {
    hide Header;
  }

  // ----- Layout over blocks -----

  datatype Addr = Addr(block: nat, page: nat)

  /** A programmed page: its data and the tags that the checkpoint uses. */
  datatype Page = Page(data: seq<byte>, seqNumber: nat, objId: nat, chunkId: nat)

  /** Chunks follow one another page by page, and after the last page of a block in a later block. */
  ghost predicate Walk(pages: seq<Addr>, chunksPerBlock: nat) {
    && (forall k :: 0 <= k < |pages| ==> pages[k].page < chunksPerBlock)
    && (|pages| > 0 ==> pages[0].page == 0)
    && (forall k :: 0 < k < |pages| ==> Follows(pages[k - 1], pages[k], chunksPerBlock))
  }

  predicate Follows(a: Addr, b: Addr, chunksPerBlock: nat) {
    if a.page + 1 < chunksPerBlock then b == Addr(a.block, a.page + 1) else b.page == 0 && b.block > a.block
  }

  lemma {:induction false} WalkAscends(pages: seq<Addr>, chunksPerBlock: nat, i: nat, j: nat)
    requires Walk(pages, chunksPerBlock) && i < j < |pages|
    ensures pages[i].block < pages[j].block || (pages[i].block == pages[j].block && pages[i].page < pages[j].page)
    decreases j
  {
    assert Follows(pages[j - 1], pages[j], chunksPerBlock);
    if i < j - 1 { WalkAscends(pages, chunksPerBlock, i, j - 1); }
  }

  /** How many blocks the first k chunks lie in. */
  function BlocksOf(pages: seq<Addr>, k: nat): nat
    requires k <= |pages|
  {
    if k == 0 then 0 else BlocksOf(pages, k - 1) + if pages[k - 1].page == 0 then 1 else 0
  }

  lemma {:induction false} BlocksOfPrefix(pages: seq<Addr>, more: seq<Addr>, k: nat)
    requires k <= |pages|
    ensures BlocksOf(pages + more, k) == BlocksOf(pages, k)
  {
    if k > 0 { BlocksOfPrefix(pages, more, k - 1); }
  }

  lemma {:induction false} BlocksOfMonotone(pages: seq<Addr>, i: nat, j: nat)
    requires i <= j <= |pages|
    ensures BlocksOf(pages, i) <= BlocksOf(pages, j)
  {
    if i < j { BlocksOfMonotone(pages, i, j - 1); }
  }

  /** The pages hold the chunks of s, tagged as checkpoint data with the hint to the block after their own. */
  ghost predicate Stored(s: seq<byte>, pages: seq<Addr>, nand: map<Addr, Page>, chunkBytes: nat)
    requires chunkBytes > HEADER_BYTES
  {
    forall k :: 0 <= k < |pages| ==> StoredChunk(s, pages[k], k, nand, chunkBytes)
  }

  ghost predicate StoredChunk(s: seq<byte>, a: Addr, k: nat, nand: map<Addr, Page>, chunkBytes: nat)
    requires chunkBytes > HEADER_BYTES
  {
    && k < 0x8000_0000 && Base(k, chunkBytes) <= |s|
    && a in nand
    && nand[a] == Page(Image(s, k, Base(k, chunkBytes), chunkBytes), SEQUENCE_CHECKPOINT_DATA, a.block + 1, k + 1)
  }

  predicate Tagged(nand: map<Addr, Page>, b: nat) {
    Addr(b, 0) in nand && nand[Addr(b, 0)].seqNumber == SEQUENCE_CHECKPOINT_DATA
  }

  /** No block but those of the stream claims to hold checkpoint data, unless it is marked bad. */
  ghost predicate OnlyTagged(nand: map<Addr, Page>, bad: set<nat>, pages: seq<Addr>) {
    && (forall b :: Tagged(nand, b) && b !in bad ==> Addr(b, 0) in pages)
    && (forall k :: 0 <= k < |pages| ==> pages[k].block !in bad)
  }

  /** Chunk k cannot lie before the k-th page of the device. */
  lemma {:induction false} WalkBound(pages: seq<Addr>, chunksPerBlock: nat, k: nat)
    requires Walk(pages, chunksPerBlock) && k < |pages|
    ensures pages[k].block * chunksPerBlock + pages[k].page >= k
  {
    if k > 0 {
      WalkBound(pages, chunksPerBlock, k - 1);
      assert Follows(pages[k - 1], pages[k], chunksPerBlock);
      if pages[k].block > pages[k - 1].block {
        Multiples(pages[k - 1].block + 1, pages[k].block, chunksPerBlock);
        OneMore(pages[k - 1].block, chunksPerBlock);
      }
    }
  }

  lemma WalkFits(pages: seq<Addr>, chunksPerBlock: nat, nBlocks: nat)
    requires Walk(pages, chunksPerBlock) && forall k :: 0 <= k < |pages| ==> pages[k].block < nBlocks
    ensures |pages| <= nBlocks * chunksPerBlock
  {
    if pages != [] {
      assert pages[|pages| - 1].page < chunksPerBlock;
      var last := pages[|pages| - 1];
      WalkBound(pages, chunksPerBlock, |pages| - 1);
      assert pages[|pages| - 1].block < nBlocks;
      hide Walk;
      Multiples(last.block + 1, nBlocks, chunksPerBlock);
      OneMore(last.block, chunksPerBlock);
    }
  }

  lemma WalkAppend(pages: seq<Addr>, chunksPerBlock: nat, a: Addr)
    requires Walk(pages, chunksPerBlock) && a.page < chunksPerBlock
    requires if pages == [] then a.page == 0 else Follows(pages[|pages| - 1], a, chunksPerBlock)
    ensures Walk(pages + [a], chunksPerBlock)
  {
  }

  /** Every address used so far lies before the next one. */
  lemma NotUsedYet(pages: seq<Addr>, chunksPerBlock: nat, a: Addr)
    requires Walk(pages + [a], chunksPerBlock)
    ensures a !in pages
  {
    var all := pages + [a];
    if k :| 0 <= k < |pages| && pages[k] == a {
      WalkAscends(all, chunksPerBlock, k, |pages|);
    }
  }

  // ----- The state of a stream being written or read, as values -----

  datatype BlockState = Empty | Checkpoint | Dead | Other

  /** Empty blocks are clean and good; the chunks lie in checkpoint blocks, one after another; no other good block
      claims to hold checkpoint data. */
  ghost predicate FlushedOk(blocks: seq<BlockState>, nand: map<Addr, Page>, pages: seq<Addr>, bad: set<nat>, chunksPerBlock: nat) {
    && (forall b :: 0 <= b < |blocks| && blocks[b] == Empty ==> b !in bad)
    && (forall a :: a in nand && a.block < |blocks| ==> blocks[a.block] != Empty)
    && (forall k :: 0 <= k < |pages| ==> pages[k].block < |blocks| && blocks[pages[k].block] == Checkpoint)
    && Walk(pages, chunksPerBlock)
    && OnlyTagged(nand, bad, pages)
  }

  /** Where the next chunk goes: on in the current block, or in a block still to be found. */
  ghost predicate WriteCursorOk(pages: seq<Addr>, nand: map<Addr, Page>, curBlock: int, curChunk: nat, nextBlock: int, chunksPerBlock: nat) {
    if curBlock >= 0 then
      && pages != [] && 0 < curChunk < chunksPerBlock && pages[|pages| - 1] == Addr(curBlock, curChunk - 1)
      && nextBlock == curBlock + 1
      && (forall a :: a in nand && a.block == curBlock ==> a.page < curChunk)
    else
      && curBlock == -1
      && (pages != [] ==> pages[|pages| - 1].page == chunksPerBlock - 1)
      && nextBlock == if pages == [] then 0 else pages[|pages| - 1].block + 1
  }

  /** The buffer holds the chunk that the stream is in the middle of. */
  ghost predicate BufferOk(buf: seq<byte>, stream: seq<byte>, pageSeq: nat, byteOffs: nat, sum: u32, xor: byte, chunkBytes: nat) {
    && chunkBytes > HEADER_BYTES && pageSeq < 0x8000_0000
    && Base(pageSeq, chunkBytes) <= |stream| <= Base(pageSeq, chunkBytes) + (chunkBytes - HEADER_BYTES)
    && byteOffs == HEADER_BYTES + |stream| - Base(pageSeq, chunkBytes)
    && buf == Image(stream, pageSeq, Base(pageSeq, chunkBytes), chunkBytes)
    && sum == SumOf(stream) && xor == XorOf(stream)
  }

  lemma BytePut(buf: seq<byte>, stream: seq<byte>, pageSeq: nat, byteOffs: nat, sum: u32, xor: byte, chunkBytes: nat, b: byte)
    requires BufferOk(buf, stream, pageSeq, byteOffs, sum, xor, chunkBytes) && byteOffs < chunkBytes
    ensures byteOffs < |buf|
    ensures BufferOk(buf[byteOffs := b], stream + [b], pageSeq, byteOffs + 1, AddByte(sum, b), XorByte(xor, b), chunkBytes)
  {
    hide AddByte, XorByte, SumOf, XorOf, Image, Base;
    ImagePut(stream, pageSeq, Base(pageSeq, chunkBytes), chunkBytes, b);
    SumAppend(stream, b);
  }

  /** The stream at a chunk boundary, with an empty buffer for the chunk to come. */
  lemma BufferEmptied(stream: seq<byte>, pageSeq: nat, chunkBytes: nat)
    requires chunkBytes > HEADER_BYTES && pageSeq < 0x8000_0000 && |stream| == Base(pageSeq, chunkBytes)
    ensures BufferOk(Header(pageSeq, stream) + Zeros(chunkBytes - HEADER_BYTES), stream, pageSeq, HEADER_BYTES, SumOf(stream), XorOf(stream), chunkBytes)
  {
    hide SumOf, XorOf, Header, Base;
    assert stream[..|stream|] == stream;
    assert stream[|stream|..|stream|] == [];
  }

  /** A full chunk goes to the page after the last one. */
  lemma ChunkStored(stream: seq<byte>, pages: seq<Addr>, nand: map<Addr, Page>, a: Addr, buf: seq<byte>, chunkBytes: nat)
    requires chunkBytes > HEADER_BYTES && |pages| < 0x8000_0000 && Stored(stream, pages, nand, chunkBytes)
    requires Base(|pages|, chunkBytes) <= |stream|
    requires buf == Image(stream, |pages|, Base(|pages|, chunkBytes), chunkBytes) && a !in pages
    ensures Stored(stream, pages + [a], nand[a := Page(buf, SEQUENCE_CHECKPOINT_DATA, a.block + 1, |pages| + 1)], chunkBytes)
  {
    hide Image, Base;
    var pages', nand' := pages + [a], nand[a := Page(buf, SEQUENCE_CHECKPOINT_DATA, a.block + 1, |pages| + 1)];
    forall k | 0 <= k < |pages'| ensures StoredChunk(stream, pages'[k], k, nand', chunkBytes) {
      if k < |pages| { assert StoredChunk(stream, pages[k], k, nand, chunkBytes); }
    }
  }

  /** What has been stored stays stored as the stream grows. */
  lemma StoredStays(stream: seq<byte>, more: seq<byte>, pages: seq<Addr>, nand: map<Addr, Page>, chunkBytes: nat)
    requires chunkBytes > HEADER_BYTES && Stored(stream, pages, nand, chunkBytes)
    requires Base(|pages|, chunkBytes) <= |stream|
    ensures Stored(stream + more, pages, nand, chunkBytes)
  {
    forall k | 0 <= k < |pages| ensures StoredChunk(stream + more, pages[k], k, nand, chunkBytes) {
      hide Image, Base;
      assert StoredChunk(stream, pages[k], k, nand, chunkBytes);
      BaseNext(k, chunkBytes);
      BaseMonotone(k + 1, |pages|, chunkBytes);
      ImageStable(stream, stream + more, k, Base(k, chunkBytes), chunkBytes);
    }
  }

  /** The page that the cursor stands on, once a block has been found, follows the pages before. */
  lemma NextPage(blocks: seq<BlockState>, nand: map<Addr, Page>, pages: seq<Addr>, bad: set<nat>, chunksPerBlock: nat, a: Addr, p: Page)
    requires FlushedOk(blocks, nand, pages, bad, chunksPerBlock) && a.block < |blocks| && a.page < chunksPerBlock
    requires if pages == [] then a.page == 0 else Follows(pages[|pages| - 1], a, chunksPerBlock)
    requires if a.page == 0 then blocks[a.block] == Empty else blocks[a.block] == Checkpoint && a.block !in bad
    ensures a !in pages
    ensures FlushedOk(blocks[a.block := Checkpoint], nand[a := p], pages + [a], bad, chunksPerBlock)
  {
    WalkAppend(pages, chunksPerBlock, a);
    NotUsedYet(pages, chunksPerBlock, a);
    var pages', nand' := pages + [a], nand[a := p];
    forall b | Tagged(nand', b) && b !in bad ensures Addr(b, 0) in pages' {
      if Addr(b, 0) != a {
        assert Tagged(nand, b);
        assert Addr(b, 0) in pages;
      } else {
        assert pages'[|pages|] == a;
      }
    }
    hide Walk;
  }

  /** After the page the cursor stands on has been written, the cursor stands on the next. */
  lemma CursorMoves(pages: seq<Addr>, nand: map<Addr, Page>, a: Addr, p: Page, chunksPerBlock: nat)
    requires a.page < chunksPerBlock && forall o :: o in nand && o.block == a.block ==> o.page < a.page
    ensures a.page + 1 < chunksPerBlock ==> WriteCursorOk(pages + [a], nand[a := p], a.block, a.page + 1, a.block + 1, chunksPerBlock)
    ensures a.page + 1 == chunksPerBlock ==> WriteCursorOk(pages + [a], nand[a := p], -1, 0, a.block + 1, chunksPerBlock)
  {
  }

  /** Where the writer's cursor allows the next chunk to go. */
  lemma CursorFollows(blocks: seq<BlockState>, nand: map<Addr, Page>, pages: seq<Addr>, bad: set<nat>, chunksPerBlock: nat,
                      curBlock: int, curChunk: nat, nextBlock: int, a: Addr)
    requires FlushedOk(blocks, nand, pages, bad, chunksPerBlock) && chunksPerBlock > 0
    requires WriteCursorOk(pages, nand, curBlock, curChunk, nextBlock, chunksPerBlock)
    requires if curBlock >= 0 then a == Addr(curBlock, curChunk)
             else a.page == 0 && nextBlock <= a.block < |blocks| && blocks[a.block] == Empty
    ensures a.page < chunksPerBlock && a.block < |blocks|
    ensures if pages == [] then a.page == 0 else Follows(pages[|pages| - 1], a, chunksPerBlock)
    ensures if a.page == 0 then blocks[a.block] == Empty else blocks[a.block] == Checkpoint && a.block !in bad
    ensures forall o :: o in nand && o.block == a.block ==> o.page < a.page
  {
    hide Walk;
    if curBlock >= 0 { assert pages[|pages| - 1].block == curBlock; }
  }

  /** Zeros do not change the running checks. */
  lemma {:induction false} ZerosUncounted(s: seq<byte>, n: nat)
    ensures SumOf(s + Zeros(n)) == SumOf(s) && XorOf(s + Zeros(n)) == XorOf(s)
  {
    hide SumOf, XorOf, AddByte, XorByte;
    if n == 0 {
      assert s + Zeros(0) == s;
    } else {
      ZerosUncounted(s, n - 1);
      assert s + Zeros(n) == (s + Zeros(n - 1)) + [0];
      SumAppend(s + Zeros(n - 1), 0);
      ZeroByte(SumOf(s), XorOf(s));
    }
  }

  lemma ZeroByte(sum: u32, x: byte)
    ensures AddByte(sum, 0) == sum && XorByte(x, 0) == x
  {
    XorZero(x);
  }

  lemma ImagePadded(s: seq<byte>, k: u32, base: nat, chunkBytes: nat, n: nat)
    requires chunkBytes > HEADER_BYTES && base <= |s| && |s| + n == base + chunkBytes - HEADER_BYTES
    ensures Image(s + Zeros(n), k, base, chunkBytes) == Image(s, k, base, chunkBytes)
  {
    hide Header;
    var padded := s + Zeros(n);
    assert padded[..base] == s[..base];
    assert padded[base..base + chunkBytes - HEADER_BYTES] == s[base..] + Zeros(n);
  }

  /** A buffer that is flushed before it is full holds the stream as if it had been filled up with zeros. */
  lemma BufferPadded(buf: seq<byte>, stream: seq<byte>, pageSeq: nat, byteOffs: nat, sum: u32, xor: byte, chunkBytes: nat)
    requires BufferOk(buf, stream, pageSeq, byteOffs, sum, xor, chunkBytes) && byteOffs <= chunkBytes
    ensures BufferOk(buf, stream + Zeros(chunkBytes - byteOffs), pageSeq, chunkBytes, sum, xor, chunkBytes)
  {
    hide SumOf, XorOf, Image, Base;
    ZerosUncounted(stream, chunkBytes - byteOffs);
    ImagePadded(stream, pageSeq, Base(pageSeq, chunkBytes), chunkBytes, chunkBytes - byteOffs);
  }

  /** A full buffer ends at a chunk boundary of the stream. */
  lemma FullBuffer(buf: seq<byte>, stream: seq<byte>, pageSeq: nat, sum: u32, xor: byte, chunkBytes: nat)
    requires BufferOk(buf, stream, pageSeq, chunkBytes, sum, xor, chunkBytes)
    ensures Base(pageSeq, chunkBytes) <= |stream| && |stream| == Base(pageSeq + 1, chunkBytes)
    ensures buf == Image(stream, pageSeq, Base(pageSeq, chunkBytes), chunkBytes)
    ensures pageSeq < 0x8000_0000 && sum == SumOf(stream) && xor == XorOf(stream)
  {
    hide Image, SumOf, XorOf, Base;
    BaseNext(pageSeq, chunkBytes);
  }

  lemma BufferBase(buf: seq<byte>, stream: seq<byte>, pageSeq: nat, byteOffs: nat, sum: u32, xor: byte, chunkBytes: nat)
    requires BufferOk(buf, stream, pageSeq, byteOffs, sum, xor, chunkBytes)
    ensures Base(pageSeq, chunkBytes) <= |stream| && byteOffs >= HEADER_BYTES
  {
    hide Image, SumOf, XorOf, Base;
  }

  lemma WalkOf(blocks: seq<BlockState>, nand: map<Addr, Page>, pages: seq<Addr>, bad: set<nat>, chunksPerBlock: nat)
    requires FlushedOk(blocks, nand, pages, bad, chunksPerBlock)
    ensures Walk(pages, chunksPerBlock)
  {
  }

  lemma PagesFit(blocks: seq<BlockState>, nand: map<Addr, Page>, pages: seq<Addr>, bad: set<nat>, chunksPerBlock: nat)
    requires FlushedOk(blocks, nand, pages, bad, chunksPerBlock)
    ensures |pages| <= |blocks| * chunksPerBlock
  {
    WalkFits(pages, chunksPerBlock, |blocks|);
  }

  /** A stream filled up with zeros to a chunk boundary, if it was not at one. */
  ghost predicate Padded(s: seq<byte>, t: seq<byte>, chunkBytes: nat) {
    exists n :: 0 <= n < chunkBytes - HEADER_BYTES && t == s + Zeros(n)
  }

  /** A chunk that starts a block finds none: the last chunk filled its block, and there is no empty block after it
      or no more erased blocks than the reserve. */
  ghost predicate NoRoom(blocks: seq<BlockState>, pages: seq<Addr>, chunksPerBlock: nat, nAvailable: int) {
    && (pages != [] ==> pages[|pages| - 1].page + 1 == chunksPerBlock)
    && (nAvailable <= 0 || forall b :: 0 <= b < |blocks| && (pages == [] || b > pages[|pages| - 1].block) ==> blocks[b] != Empty)
  }

  /** A whole stream on flash: chunk after chunk over its blocks, and nothing after the last. */
  ghost predicate OnFlash(s: seq<byte>, pages: seq<Addr>, nand: map<Addr, Page>, bad: set<nat>, chunkBytes: nat, chunksPerBlock: nat, nBlocks: nat) {
    && chunkBytes > HEADER_BYTES && |s| == Base(|pages|, chunkBytes) && chunksPerBlock > 0
    && Stored(s, pages, nand, chunkBytes)
    && Walk(pages, chunksPerBlock)
    && (forall k :: 0 <= k < |pages| ==> pages[k].block < nBlocks)
    && OnlyTagged(nand, bad, pages)
    && (pages != [] ==> var last := pages[|pages| - 1]; Addr(last.block, last.page + 1) !in nand || last.page + 1 == chunksPerBlock)
  }

  lemma StreamClosed(s: seq<byte>, blocks: seq<BlockState>, nand: map<Addr, Page>, pages: seq<Addr>, bad: set<nat>, chunkBytes: nat, chunksPerBlock: nat,
                     curBlock: int, curChunk: nat, nextBlock: int, buf: seq<byte>, sum: u32, xor: byte)
    requires FlushedOk(blocks, nand, pages, bad, chunksPerBlock) && chunksPerBlock > 0
    requires WriteCursorOk(pages, nand, curBlock, curChunk, nextBlock, chunksPerBlock)
    requires BufferOk(buf, s, |pages|, HEADER_BYTES, sum, xor, chunkBytes)
    requires Stored(s, pages, nand, chunkBytes)
    ensures OnFlash(s, pages, nand, bad, chunkBytes, chunksPerBlock, |blocks|)
  {
    hide Walk, Image, Base, Stored, SumOf, XorOf, OnlyTagged;
  }

  // ----- Making room for a new stream -----

  /** Before a stream is written: empty blocks are clean and good, and whatever good block claims to hold checkpoint data
      is known to. */
  ghost predicate ReadyOk(blocks: seq<BlockState>, nand: map<Addr, Page>, bad: set<nat>) {
    && (forall b :: 0 <= b < |blocks| && blocks[b] in {Empty, Checkpoint} ==> b !in bad)
    && (forall a :: a in nand ==> a.block < |blocks| && blocks[a.block] != Empty)
    && (forall b: nat :: Tagged(nand, b) && b !in bad ==> b < |blocks| && blocks[b] == Checkpoint)
  }

  function ErasedState(s: BlockState, fails: bool): BlockState {
    if s != Checkpoint then s else if fails then Dead else Empty
  }

  lemma BlockFails(blocks: seq<BlockState>, nand: map<Addr, Page>, bad: set<nat>, i: nat)
    requires ReadyOk(blocks, nand, bad) && i < |blocks|
    ensures ReadyOk(blocks[i := Dead], nand, bad + {i})
  {
  }

  lemma BlockErases(blocks: seq<BlockState>, nand: map<Addr, Page>, bad: set<nat>, i: nat)
    requires ReadyOk(blocks, nand, bad) && i < |blocks| && blocks[i] == Checkpoint
    ensures ReadyOk(blocks[i := Empty], map a | a in nand && a.block != i :: nand[a], bad)
  {
    var nand' := map a | a in nand && a.block != i :: nand[a];
    forall b: nat | Tagged(nand', b) && b !in bad ensures b < |blocks| && blocks[i := Empty][b] == Checkpoint {
      assert Tagged(nand, b);
    }
  }

  lemma NothingFlushed(blocks: seq<BlockState>, blocks': seq<BlockState>, nand: map<Addr, Page>, bad: set<nat>, failing: set<nat>,
                       chunkBytes: nat, chunksPerBlock: nat)
    requires ReadyOk(blocks', nand, bad) && chunkBytes > HEADER_BYTES && |blocks'| == |blocks|
    requires forall b :: 0 <= b < |blocks| ==> blocks'[b] == ErasedState(blocks[b], b in failing)
    ensures FlushedOk(blocks', nand, [], bad, chunksPerBlock)
    ensures WriteCursorOk([], nand, -1, 0, 0, chunksPerBlock)
    ensures Stored([], [], nand, chunkBytes) && BlocksOf([], 0) == 0
  {
    assert forall b :: 0 <= b < |blocks'| ==> blocks'[b] != Checkpoint;
  }

  lemma BufferStarts(chunkBytes: nat)
    requires chunkBytes > HEADER_BYTES
    ensures BufferOk(Header(0, []) + Zeros(chunkBytes - HEADER_BYTES), [], 0, HEADER_BYTES, 0, 0, chunkBytes)
    ensures SumOf([]) == 0 && XorOf([]) == 0
  {
    BaseZero(chunkBytes);
    BufferEmptied([], 0, chunkBytes);
  }

  // ----- Reading -----

  /** The blocks of the first k chunks, in order. */
  function BlockList(pages: seq<Addr>, k: nat): (r: seq<nat>)
    requires k <= |pages|
    ensures |r| == BlocksOf(pages, k)
  {
    if k == 0 then [] else BlockList(pages, k - 1) + if pages[k - 1].page == 0 then [pages[k - 1].block] else []
  }

  /** The reader has taken pageSeq chunks into its buffer, and t bytes out of it. */
  ghost predicate ReadOk(s: seq<byte>, pages: seq<Addr>, pageSeq: nat, t: nat, buf: seq<byte>, byteOffs: nat, sum: u32, xor: byte, chunkBytes: nat) {
    && chunkBytes > HEADER_BYTES && pageSeq <= |pages| && t <= |s| && byteOffs <= chunkBytes && byteOffs >= HEADER_BYTES
    && t + chunkBytes == Base(pageSeq, chunkBytes) + byteOffs
    && (if pageSeq == 0 then t == 0
        else Base(pageSeq - 1, chunkBytes) <= |s| && pageSeq - 1 < 0x8000_0000
             && (byteOffs < chunkBytes ==> buf == Image(s, pageSeq - 1, Base(pageSeq - 1, chunkBytes), chunkBytes)))
    && sum == SumOf(s[..t]) && xor == XorOf(s[..t])
  }

  // ----- Reading whatever is on flash -----

  /** The page that chunk j was taken from has its tags and exactly the header for the bytes taken before, and it is
      where the bytes after them were taken from. */
  ghost predicate ChunkChecked(nand: map<Addr, Page>, a: Addr, j: nat, taken: seq<byte>, chunkBytes: nat)
    requires chunkBytes > HEADER_BYTES
  {
    var from := Base(j, chunkBytes);
    && j < 0x1_0000_0000 && from <= |taken| && a in nand
    && var p := nand[a];
       && p.chunkId == j + 1 && p.seqNumber == SEQUENCE_CHECKPOINT_DATA && |p.data| == chunkBytes
       && p.data[..HEADER_BYTES] == Header(j, taken[..from])
       && taken[from..from + Min(chunkBytes - HEADER_BYTES, |taken| - from)] <= p.data[HEADER_BYTES..]
  }

  ghost predicate AllChecked(nand: map<Addr, Page>, accepted: seq<Addr>, taken: seq<byte>, chunkBytes: nat)
    requires chunkBytes > HEADER_BYTES
  {
    forall j :: 0 <= j < |accepted| ==> ChunkChecked(nand, accepted[j], j, taken, chunkBytes)
  }

  /** What a reader has taken from the pages that it accepted. */
  ghost predicate TakenOk(nand: map<Addr, Page>, accepted: seq<Addr>, taken: seq<byte>, buf: seq<byte>, byteOffs: nat, chunkBytes: nat) {
    && chunkBytes > HEADER_BYTES && HEADER_BYTES <= byteOffs <= chunkBytes
    && |taken| + chunkBytes == Base(|accepted|, chunkBytes) + byteOffs
    && AllChecked(nand, accepted, taken, chunkBytes)
    && (byteOffs < chunkBytes ==> accepted != [] && var a := accepted[|accepted| - 1]; a in nand && buf == nand[a].data)
  }

  lemma NothingTaken(nand: map<Addr, Page>, chunkBytes: nat)
    requires chunkBytes > HEADER_BYTES
    ensures TakenOk(nand, [], [], [], chunkBytes, chunkBytes)
  {
    BaseZero(chunkBytes);
  }

  /** A page whose header matches the running checks has exactly the header for what has been taken. */
  lemma PageAccepted(nand: map<Addr, Page>, accepted: seq<Addr>, taken: seq<byte>, buf: seq<byte>, chunkBytes: nat, a: Addr)
    requires TakenOk(nand, accepted, taken, buf, chunkBytes, chunkBytes) && a in nand
    requires var p := nand[a];
             && p.chunkId == |accepted| + 1 && p.seqNumber == SEQUENCE_CHECKPOINT_DATA && |p.data| == chunkBytes
             && HeaderMatches(p.data[..HEADER_BYTES], |accepted|, SumOf(taken), XorOf(taken))
    ensures TakenOk(nand, accepted + [a], taken, nand[a].data, HEADER_BYTES, chunkBytes)
  {
    hide Base, Header, SumOf, XorOf;
    var k := |accepted|;
    BaseNext(k, chunkBytes);
    assert taken[..Base(k, chunkBytes)] == taken;
    HeaderNumber(nand[a].data[..HEADER_BYTES], k, taken);
    HeaderAccepted(nand[a].data[..HEADER_BYTES], k, taken);
    forall j | 0 <= j < k + 1 ensures ChunkChecked(nand, (accepted + [a])[j], j, taken, chunkBytes) {
      if j < k { assert ChunkChecked(nand, accepted[j], j, taken, chunkBytes); }
    }
  }

  /** A buffer that has been read to its end may be overwritten. */
  lemma TakenBufferFree(nand: map<Addr, Page>, accepted: seq<Addr>, taken: seq<byte>, buf: seq<byte>, buf': seq<byte>, chunkBytes: nat, refused: bool)
    requires refused || TakenOk(nand, accepted, taken, buf, chunkBytes, chunkBytes)
    ensures refused || TakenOk(nand, accepted, taken, buf', chunkBytes, chunkBytes)
  {
    hide Base;
  }

  /** What is not programmed has no header. */
  lemma BlankRefused(chunkBytes: nat, k: nat, sum: u32, xor: byte)
    requires chunkBytes > HEADER_BYTES
    ensures !HeaderMatches(seq<byte>(chunkBytes, _ => 0xFF)[..HEADER_BYTES], k, sum, xor)
  {
    assert seq<byte>(chunkBytes, _ => 0xFF)[..HEADER_BYTES][..4] == [0xFF, 0xFF, 0xFF, 0xFF];
  }

  lemma PageTaken(nand: map<Addr, Page>, accepted: seq<Addr>, taken: seq<byte>, buf: seq<byte>, chunkBytes: nat, a: Addr)
    requires TakenOk(nand, accepted, taken, buf, chunkBytes, chunkBytes) && a in nand
    requires nand[a].chunkId == |accepted| + 1 && nand[a].seqNumber == SEQUENCE_CHECKPOINT_DATA
    requires |buf| == chunkBytes && buf == if |nand[a].data| == chunkBytes then nand[a].data else seq<byte>(chunkBytes, _ => 0xFF)
    requires HeaderMatches(buf[..HEADER_BYTES], |accepted|, SumOf(taken), XorOf(taken))
    ensures TakenOk(nand, accepted + [a], taken, buf, HEADER_BYTES, chunkBytes)
  {
    hide TakenOk, SumOf, XorOf;
    assert chunkBytes > HEADER_BYTES by { TakenGeometry(nand, accepted, taken, buf, chunkBytes); }
    assert |nand[a].data| == chunkBytes by {
      if |nand[a].data| != chunkBytes { BlankRefused(chunkBytes, |accepted|, SumOf(taken), XorOf(taken)); }
    }
    PageAccepted(nand, accepted, taken, buf, chunkBytes, a);
  }

  lemma TakenGeometry(nand: map<Addr, Page>, accepted: seq<Addr>, taken: seq<byte>, buf: seq<byte>, chunkBytes: nat)
    requires TakenOk(nand, accepted, taken, buf, chunkBytes, chunkBytes)
    ensures chunkBytes > HEADER_BYTES
  {
  }

  lemma HeaderNumber(h: seq<byte>, k: nat, s: seq<byte>)
    requires |h| == HEADER_BYTES && HeaderMatches(h, k, SumOf(s), XorOf(s))
    ensures k < 0x1_0000_0000
  {
  }

  lemma ByteChecked(nand: map<Addr, Page>, accepted: seq<Addr>, taken: seq<byte>, buf: seq<byte>, byteOffs: nat, chunkBytes: nat)
    requires TakenOk(nand, accepted, taken, buf, byteOffs, chunkBytes) && byteOffs < chunkBytes
    ensures byteOffs < |buf| && TakenOk(nand, accepted, taken + [buf[byteOffs]], buf, byteOffs + 1, chunkBytes)
  {
    hide Base, Header;
    var k := |accepted| - 1;
    assert ChunkChecked(nand, accepted[k], k, taken, chunkBytes);
    BaseNext(k, chunkBytes);
    forall j | 0 <= j <= k ensures ChunkChecked(nand, accepted[j], j, taken + [buf[byteOffs]], chunkBytes) {
      StillChecked(nand, accepted[j], j, k, taken, buf[byteOffs], chunkBytes) by { assert ChunkChecked(nand, accepted[j], j, taken, chunkBytes); }
    }
  }

  lemma StillChecked(nand: map<Addr, Page>, a: Addr, j: nat, k: nat, taken: seq<byte>, b: byte, chunkBytes: nat)
    requires chunkBytes > HEADER_BYTES && j <= k && ChunkChecked(nand, a, j, taken, chunkBytes)
    requires Base(k, chunkBytes) <= |taken| < Base(k + 1, chunkBytes)
    requires j == k ==> nand[a].data[|taken| - Base(k, chunkBytes) + HEADER_BYTES] == b
    ensures ChunkChecked(nand, a, j, taken + [b], chunkBytes)
  {
    hide Header, Base;
    var more, p := taken + [b], nand[a].data;
    assert more[..Base(j, chunkBytes)] == taken[..Base(j, chunkBytes)];
    BaseNext(j, chunkBytes);
    BaseNext(k, chunkBytes);
    if j < k {
      BaseMonotone(j + 1, k, chunkBytes);
      assert more[Base(j, chunkBytes)..Base(j + 1, chunkBytes)] == taken[Base(j, chunkBytes)..Base(j + 1, chunkBytes)];
    } else {
      assert more[Base(k, chunkBytes)..|more|] == taken[Base(k, chunkBytes)..] + [b];
    }
  }

  /** Where the header of an accepted chunk is as it was written for the bytes s before it, what has been taken before it
      differs from s in no single byte: a reader takes nothing after one wrong byte once its chunk is read. */
  lemma OneByteRefused(nand: map<Addr, Page>, accepted: seq<Addr>, taken: seq<byte>, chunkBytes: nat, k: nat, s: seq<byte>, i: nat, b: byte)
    requires chunkBytes > HEADER_BYTES && AllChecked(nand, accepted, taken, chunkBytes) && k < |accepted|
    requires k < 0x1_0000_0000 && accepted[k] in nand && nand[accepted[k]].data[..Min(HEADER_BYTES, |nand[accepted[k]].data|)] == Header(k, s)
    requires i < |s| && b != s[i]
    ensures Base(k, chunkBytes) <= |taken| && taken[..Base(k, chunkBytes)] != s[i := b]
  {
    hide Base, Header, SumOf, XorOf, HeaderMatches;
    assert ChunkChecked(nand, accepted[k], k, taken, chunkBytes);
    WrongByteNoticed(k, s, i, b);
    HeaderAccepted(Header(k, s), k, s[i := b]);
  }

  /** Where the reader looks for the next chunk: on in the current block, in a block still to be found, or nowhere
      after a search has failed. */
  ghost predicate ReadCursorOk(pages: seq<Addr>, pageSeq: nat, curBlock: int, curChunk: nat, nextBlock: int, chunksPerBlock: nat, full: bool)
  {
    && pageSeq <= |pages|
    && (if curBlock >= 0 then
          && 0 < pageSeq && 0 < curChunk < chunksPerBlock && pages[pageSeq - 1] == Addr(curBlock, curChunk - 1)
          && nextBlock == curBlock + 1
        else
          && curBlock == -1
          && (pageSeq > 0 ==> pages[pageSeq - 1].page + 1 == chunksPerBlock)
          && ((nextBlock == -1 && (pageSeq == |pages| || full))
              || (nextBlock == if pageSeq == 0 then 0 else pages[pageSeq - 1].block + 1)))
  }

  lemma BlockTagged(s: seq<byte>, pages: seq<Addr>, nand: map<Addr, Page>, bad: set<nat>, chunkBytes: nat, chunksPerBlock: nat, nBlocks: nat, k: nat)
    requires OnFlash(s, pages, nand, bad, chunkBytes, chunksPerBlock, nBlocks) && k < |pages| && pages[k].page == 0
    ensures Tagged(nand, pages[k].block) && pages[k].block !in bad && pages[k].block < nBlocks
  {
    hide Image, Base;
    assert StoredChunk(s, pages[k], k, nand, chunkBytes) && pages[k] == Addr(pages[k].block, 0);
  }

  /** The first good tagged block from the hint on is the one the writer went on in. */
  lemma FoundIsNext(s: seq<byte>, pages: seq<Addr>, nand: map<Addr, Page>, bad: set<nat>, chunkBytes: nat, chunksPerBlock: nat, nBlocks: nat,
                    k: nat, from: nat, b: nat)
    requires OnFlash(s, pages, nand, bad, chunkBytes, chunksPerBlock, nBlocks) && k <= |pages|
    requires if k == 0 then from == 0 else pages[k - 1].page + 1 == chunksPerBlock && from == pages[k - 1].block + 1
    requires from <= b && Tagged(nand, b) && b !in bad
    requires forall o :: from <= o < b ==> !Tagged(nand, o) || o in bad
    ensures k < |pages| && pages[k] == Addr(b, 0) && nand[Addr(b, 0)].objId == b + 1
  {
    hide Image, Base;
    assert Addr(b, 0) in pages;
    var j :| 0 <= j < |pages| && pages[j] == Addr(b, 0);
    assert StoredChunk(s, pages[j], j, nand, chunkBytes);
    if j < k {
      if j < k - 1 { WalkAscends(pages, chunksPerBlock, j, k - 1); }
      assert false;
    }
    if j > k {
      WalkAscends(pages, chunksPerBlock, k, j);
      StartsBlock(pages, chunksPerBlock, k);
      BlockTagged(s, pages, nand, bad, chunkBytes, chunksPerBlock, nBlocks, k);
    }
  }

  lemma StartsBlock(pages: seq<Addr>, chunksPerBlock: nat, k: nat)
    requires Walk(pages, chunksPerBlock) && k < |pages|
    requires k > 0 ==> pages[k - 1].page + 1 == chunksPerBlock
    ensures pages[k].page == 0 && (k > 0 ==> pages[k].block > pages[k - 1].block)
  {
    if k > 0 { assert Follows(pages[k - 1], pages[k], chunksPerBlock); }
  }

  /** When the search finds nothing, the writer stopped here. */
  lemma NoneIsLeft(s: seq<byte>, pages: seq<Addr>, nand: map<Addr, Page>, bad: set<nat>, chunkBytes: nat, chunksPerBlock: nat, nBlocks: nat,
                   k: nat, from: nat)
    requires OnFlash(s, pages, nand, bad, chunkBytes, chunksPerBlock, nBlocks) && k <= |pages|
    requires if k == 0 then from == 0 else pages[k - 1].page + 1 == chunksPerBlock && from == pages[k - 1].block + 1
    requires forall o :: from <= o < nBlocks ==> !Tagged(nand, o) || o in bad
    ensures k == |pages|
  {
    hide Image, Base;
    if k < |pages| {
      StartsBlock(pages, chunksPerBlock, k);
      BlockTagged(s, pages, nand, bad, chunkBytes, chunksPerBlock, nBlocks, k);
    }
  }

  /** What a search for the next block ends with. */
  ghost predicate Searched(pages: seq<Addr>, k: nat, maxBlocks: nat, curBlock: int, nextBlock: int, list: seq<nat>, list': seq<nat>) {
    if k < |pages| && |list| < maxBlocks
    then curBlock >= 0 && pages[k] == Addr(curBlock, 0) && nextBlock == curBlock + 1 && list' == list + [curBlock]
    else curBlock == nextBlock == -1 && list' == list
  }

  lemma FlashWalk(s: seq<byte>, pages: seq<Addr>, nand: map<Addr, Page>, bad: set<nat>, chunkBytes: nat, chunksPerBlock: nat, nBlocks: nat)
    requires OnFlash(s, pages, nand, bad, chunkBytes, chunksPerBlock, nBlocks)
    ensures chunkBytes > HEADER_BYTES && chunksPerBlock > 0 && Walk(pages, chunksPerBlock) && |s| == Base(|pages|, chunkBytes)
  {
  }

  lemma FlashStored(s: seq<byte>, pages: seq<Addr>, nand: map<Addr, Page>, bad: set<nat>, chunkBytes: nat, chunksPerBlock: nat, nBlocks: nat)
    requires OnFlash(s, pages, nand, bad, chunkBytes, chunksPerBlock, nBlocks)
    ensures chunkBytes > HEADER_BYTES && |s| == Base(|pages|, chunkBytes) && Stored(s, pages, nand, chunkBytes)
  {
  }

  /** A buffer that has been read to its end may be overwritten. */
  lemma BufferFree(s: seq<byte>, pages: seq<Addr>, pageSeq: nat, t: nat, buf: seq<byte>, buf': seq<byte>, sum: u32, xor: byte, chunkBytes: nat)
    requires ReadOk(s, pages, pageSeq, t, buf, chunkBytes, sum, xor, chunkBytes)
    ensures ReadOk(s, pages, pageSeq, t, buf', chunkBytes, sum, xor, chunkBytes)
  {
    hide Image, Base, SumOf, XorOf;
  }

  lemma NothingRead(s: seq<byte>, pages: seq<Addr>, chunkBytes: nat, chunksPerBlock: nat, full: bool)
    requires chunkBytes > HEADER_BYTES
    ensures ReadOk(s, pages, 0, 0, [], chunkBytes, 0, 0, chunkBytes)
    ensures ReadCursorOk(pages, 0, -1, 0, 0, chunksPerBlock, full)
    ensures BlockList(pages, 0) == []
  {
    hide Image;
    BaseZero(chunkBytes);
    assert s[..0] == [];
  }

  /** Inside a block the next page holds the next chunk, unless the writer stopped here: then it is blank. */
  lemma PageIsNext(s: seq<byte>, pages: seq<Addr>, nand: map<Addr, Page>, bad: set<nat>, chunkBytes: nat, chunksPerBlock: nat, nBlocks: nat,
                   k: nat, curBlock: int, curChunk: nat, nextBlock: int, full: bool)
    requires OnFlash(s, pages, nand, bad, chunkBytes, chunksPerBlock, nBlocks) && curBlock >= 0
    requires ReadCursorOk(pages, k, curBlock, curChunk, nextBlock, chunksPerBlock, full)
    ensures if k < |pages| then pages[k] == Addr(curBlock, curChunk) else Addr(curBlock, curChunk) !in nand
  {
    hide Stored, OnlyTagged, Base;
    if k < |pages| { assert Follows(pages[k - 1], pages[k], chunksPerBlock); }
  }

  /** A chunk of the stream passes every check the reader makes. */
  lemma ChunkAccepted(s: seq<byte>, pages: seq<Addr>, nand: map<Addr, Page>, chunkBytes: nat, k: nat, buf: seq<byte>, sum: u32, xor: byte, t: nat)
    requires chunkBytes > HEADER_BYTES && Stored(s, pages, nand, chunkBytes) && k < |pages|
    requires ReadOk(s, pages, k, t, buf, chunkBytes, sum, xor, chunkBytes)
    ensures pages[k] in nand && k < 0x8000_0000
    ensures var p := nand[pages[k]];
            && p.chunkId == k + 1 && p.seqNumber == SEQUENCE_CHECKPOINT_DATA && |p.data| == chunkBytes
            && HeaderMatches(p.data[..HEADER_BYTES], k, sum, xor)
  {
    hide SumOf, XorOf, Image, Header, Base;
    assert StoredChunk(s, pages[k], k, nand, chunkBytes);
    assert t == Base(k, chunkBytes);
    ImageHeader(s, k, t, chunkBytes);
    assert HeaderMatches(Header(k, s[..t]), k, sum, xor) by { HeaderAccepted(Header(k, s[..t]), k, s[..t]); }
  }

  lemma ChunkTaken(s: seq<byte>, pages: seq<Addr>, nand: map<Addr, Page>, chunkBytes: nat, k: nat, buf: seq<byte>, sum: u32, xor: byte, t: nat)
    requires chunkBytes > HEADER_BYTES && Stored(s, pages, nand, chunkBytes) && k < |pages|
    requires ReadOk(s, pages, k, t, buf, chunkBytes, sum, xor, chunkBytes) && pages[k] in nand
    ensures ReadOk(s, pages, k + 1, t, nand[pages[k]].data, HEADER_BYTES, sum, xor, chunkBytes)
  {
    hide SumOf, XorOf, Image, Base;
    assert StoredChunk(s, pages[k], k, nand, chunkBytes);
    BaseNext(k, chunkBytes);
  }

  /** A byte taken out of the buffer is the next byte of the stream. */
  lemma ByteTaken(s: seq<byte>, pages: seq<Addr>, pageSeq: nat, t: nat, buf: seq<byte>, byteOffs: nat, sum: u32, xor: byte, chunkBytes: nat)
    requires ReadOk(s, pages, pageSeq, t, buf, byteOffs, sum, xor, chunkBytes) && byteOffs < chunkBytes && |s| == Base(|pages|, chunkBytes)
    ensures t < |s| && byteOffs < |buf| && buf[byteOffs] == s[t]
    ensures ReadOk(s, pages, pageSeq, t + 1, buf, byteOffs + 1, AddByte(sum, s[t]), XorByte(xor, s[t]), chunkBytes)
  {
    hide SumOf, XorOf, AddByte, XorByte, Image, Base;
    BaseZero(chunkBytes);
    BaseMonotone(pageSeq, |pages|, chunkBytes);
    BaseNext(pageSeq - 1, chunkBytes);
    ImageGet(s, pageSeq - 1, Base(pageSeq - 1, chunkBytes), chunkBytes, t);
    assert s[..t + 1] == s[..t] + [s[t]];
    SumAppend(s[..t], s[t]);
  }

  /** Where a reader with room for maxBlocks blocks has to stop. */
  ghost predicate AtEnd(pages: seq<Addr>, pageSeq: nat, maxBlocks: nat) {
    pageSeq >= |pages| || BlocksOf(pages, pageSeq + 1) > maxBlocks
  }

  /** A reader can be stopped only where it has to find a block. */
  lemma EndsAtBlock(s: seq<byte>, pages: seq<Addr>, nand: map<Addr, Page>, bad: set<nat>, chunkBytes: nat, chunksPerBlock: nat, nBlocks: nat,
                    k: nat, curBlock: int, curChunk: nat, nextBlock: int, maxBlocks: nat)
    requires OnFlash(s, pages, nand, bad, chunkBytes, chunksPerBlock, nBlocks) && k <= |pages| && BlocksOf(pages, k) <= maxBlocks
    requires ReadCursorOk(pages, k, curBlock, curChunk, nextBlock, chunksPerBlock, BlocksOf(pages, k) >= maxBlocks)
    ensures AtEnd(pages, k, maxBlocks) <==> k == |pages| || (curBlock < 0 && BlocksOf(pages, k) >= maxBlocks)
  {
    hide Stored, OnlyTagged, Base;
    if k < |pages| {
      if curBlock < 0 {
        StartsBlock(pages, chunksPerBlock, k);
      } else {
        assert Follows(pages[k - 1], pages[k], chunksPerBlock);
      }
    }
  }

  /** What comes before the padding. */
  lemma PaddedPrefix(s: seq<byte>, t: seq<byte>, chunkBytes: nat, n: nat)
    requires Padded(s, t, chunkBytes) && n <= |s|
    ensures |s| <= |t| < |s| + chunkBytes - HEADER_BYTES && t[..n] == s[..n]
  {
    var k :| 0 <= k < chunkBytes - HEADER_BYTES && t == s + Zeros(k);
    hide Zeros;
  }

  /** A reader that has read into the last chunk has visited every block of the stream. */
  lemma AllTaken(s: seq<byte>, pages: seq<Addr>, pageSeq: nat, t: nat, buf: seq<byte>, byteOffs: nat, sum: u32, xor: byte, chunkBytes: nat)
    requires ReadOk(s, pages, pageSeq, t, buf, byteOffs, sum, xor, chunkBytes) && |s| == Base(|pages|, chunkBytes)
    requires |s| - t < chunkBytes - HEADER_BYTES
    ensures pageSeq == |pages|
  {
    hide SumOf, XorOf, Image, Base;
    if pageSeq < |pages| {
      BaseMonotone(pageSeq, |pages| - 1, chunkBytes);
      BaseNext(|pages| - 1, chunkBytes);
    }
  }

  lemma EndMeansAll(s: seq<byte>, pages: seq<Addr>, pageSeq: nat, t: nat, buf: seq<byte>, sum: u32, xor: byte, chunkBytes: nat)
    requires ReadOk(s, pages, pageSeq, t, buf, chunkBytes, sum, xor, chunkBytes) && |s| == Base(|pages|, chunkBytes) && t < |s|
    ensures pageSeq < |pages|
  {
    hide SumOf, XorOf, Image, Base;
  }

  /** Several byte strings, one after another. */
  function Flat(parts: seq<seq<byte>>): seq<byte> {
    if parts == [] then [] else Flat(parts[..|parts| - 1]) + parts[|parts| - 1]
  }

  lemma FlatStep(parts: seq<seq<byte>>, i: nat)
    requires i < |parts|
    ensures Flat(parts[..i + 1]) == Flat(parts[..i]) + parts[i] && |Flat(parts[..i + 1])| <= |Flat(parts)|
    decreases |parts| - i
  {
    assert parts[..i + 1][..i] == parts[..i];
    if i + 1 < |parts| { FlatStep(parts, i + 1); } else { assert parts[..i + 1] == parts; }
  }

  lemma FlatAppend(parts: seq<seq<byte>>, last: seq<byte>)
    ensures Flat(parts + [last]) == Flat(parts) + last
  {
    assert (parts + [last])[..|parts|] == parts;
  }

  lemma FlatNothing()
    ensures Flat([]) == [] && Total([]) == 0
  {
  }

  function Total(sizes: seq<nat>): nat {
    if sizes == [] then 0 else Total(sizes[..|sizes| - 1]) + sizes[|sizes| - 1]
  }

  lemma {:induction false} TotalGrows(sizes: seq<nat>, i: nat)
    requires i < |sizes|
    ensures Total(sizes[..i]) + sizes[i] == Total(sizes[..i + 1]) <= Total(sizes)
  {
    assert sizes[..i + 1][..i] == sizes[..i];
    if i + 1 < |sizes| {
      TotalGrows(sizes[..|sizes| - 1], i);
      assert sizes[..|sizes| - 1][..i + 1] == sizes[..i + 1] && sizes[..|sizes| - 1][..i] == sizes[..i];
    } else {
      assert sizes[..i + 1] == sizes;
    }
  }

  // ----- How many blocks a stream takes -----

  function CeilDiv(n: nat, d: nat): nat
    requires d > 0
  {
    (n + d - 1) / d
  }

  /** The blocks that so many bytes take up. */
  function BlocksNeeded(n: nat, chunkBytes: nat, chunksPerBlock: nat): nat
    requires chunkBytes > HEADER_BYTES && chunksPerBlock > 0
  {
    CeilDiv(CeilDiv(n, chunkBytes - HEADER_BYTES), chunksPerBlock)
  }

  lemma CeilDivIs(n: nat, d: nat, q: nat)
    requires d > 0 && q * d <= n + d - 1 < q * d + d
    ensures CeilDiv(n, d) == q
  {
    DivIs(n + d - 1, d, q);
  }

  lemma CeilDivBounds(n: nat, d: nat)
    requires d > 0
    ensures CeilDiv(n, d) * d <= n + d - 1 < CeilDiv(n, d) * d + d
  {
    DivBounds(n + d - 1, d);
  }

  lemma CeilDivGrows(a: nat, b: nat, d: nat)
    requires d > 0 && a <= b
    ensures CeilDiv(a, d) <= CeilDiv(b, d)
  {
    CeilDivBounds(a, d);
    CeilDivBounds(b, d);
    hide CeilDiv;
    var p, q := CeilDiv(a, d), CeilDiv(b, d);
    OneMore(q, d);
    if p > q { Multiples(q + 1, p, d); }
  }

  /** One chunk more starts a block exactly if the blocks so far are full. */
  lemma CeilDivNext(n: nat, d: nat)
    requires d > 0
    ensures CeilDiv(n + 1, d) == CeilDiv(n, d) + if n % d == 0 then 1 else 0
  {
    var q := n / d;
    DivBounds(n, d);
    OneMore(q, d);
    if n % d == 0 {
      CeilDivIs(n, d, q);
      CeilDivIs(n + 1, d, q + 1);
    } else {
      CeilDivIs(n, d, q + 1);
      CeilDivIs(n + 1, d, q + 1);
    }
  }

  lemma {:induction false} PageIs(pages: seq<Addr>, chunksPerBlock: nat, k: nat)
    requires Walk(pages, chunksPerBlock) && k < |pages| && chunksPerBlock > 0
    ensures pages[k].page == k % chunksPerBlock
  {
    if k > 0 {
      PageIs(pages, chunksPerBlock, k - 1);
      assert Follows(pages[k - 1], pages[k], chunksPerBlock);
      hide Walk;
      NextRemainder(k - 1, chunksPerBlock);
    } else {
      FirstPage(pages, chunksPerBlock);
      hide Walk;
    }
  }

  lemma FirstPage(pages: seq<Addr>, chunksPerBlock: nat)
    requires Walk(pages, chunksPerBlock) && pages != [] && chunksPerBlock > 0
    ensures pages[0].page == 0 == 0 % chunksPerBlock
  {
  }

  /** The blocks of a stream are as many as its chunks need. */
  lemma {:induction false} BlocksCounted(pages: seq<Addr>, chunksPerBlock: nat, k: nat)
    requires Walk(pages, chunksPerBlock) && chunksPerBlock > 0 && k <= |pages|
    ensures BlocksOf(pages, k) == CeilDiv(k, chunksPerBlock)
  {
    hide Walk, CeilDiv;
    if k == 0 {
      CeilDivIs(0, chunksPerBlock, 0);
    } else {
      BlocksCounted(pages, chunksPerBlock, k - 1);
      PageIs(pages, chunksPerBlock, k - 1);
      CeilDivNext(k - 1, chunksPerBlock);
    }
  }

  /** So many chunks are needed for a stream that ends within the last of them. */
  lemma ChunksCounted(n: nat, chunkBytes: nat, k: nat)
    requires chunkBytes > HEADER_BYTES && Base(k, chunkBytes) < n <= Base(k + 1, chunkBytes)
    ensures CeilDiv(n, chunkBytes - HEADER_BYTES) == k + 1
  {
    var d := chunkBytes - HEADER_BYTES;
    BaseNext(k, chunkBytes);
    assert Base(k, chunkBytes) == k * d;
    OneMore(k, d);
    hide Base;
    CeilDivIs(n, d, k + 1);
  }

  /** A whole stream on flash lies in the blocks that its bytes need, padding or no padding. */
  lemma BlocksOfStream(s: seq<byte>, t: seq<byte>, pages: seq<Addr>, chunkBytes: nat, chunksPerBlock: nat)
    requires chunkBytes > HEADER_BYTES && chunksPerBlock > 0 && Walk(pages, chunksPerBlock)
    requires Padded(s, t, chunkBytes) && |t| == Base(|pages|, chunkBytes)
    ensures BlocksOf(pages, |pages|) == BlocksNeeded(|s|, chunkBytes, chunksPerBlock)
  {
    hide Walk, CeilDiv, Base;
    BlocksCounted(pages, chunksPerBlock, |pages|);
    if |pages| == 0 {
      BaseZero(chunkBytes);
      CeilDivIs(0, chunkBytes - HEADER_BYTES, 0);
    } else {
      BaseNext(|pages| - 1, chunkBytes);
      ChunksCounted(|s|, chunkBytes, |pages| - 1);
    }
  }

  // ----- Empty blocks -----

  function CountEmpty(blocks: seq<BlockState>): nat {
    if blocks == [] then 0 else CountEmpty(blocks[..|blocks| - 1]) + if blocks[|blocks| - 1] == Empty then 1 else 0
  }

  lemma EmptyChanged(blocks: seq<BlockState>, i: nat)
    requires i < |blocks| && blocks[i] == Checkpoint
    ensures CountEmpty(blocks[i := Empty]) == CountEmpty(blocks) + 1 && CountEmpty(blocks[i := Dead]) == CountEmpty(blocks)
  {
    hide CountEmpty;
    EmptyTaken(blocks[i := Empty], i);
    EmptyDead(blocks, i);
    assert blocks[i := Empty][i := Checkpoint] == blocks;
  }

  lemma {:induction false} EmptyDead(blocks: seq<BlockState>, i: nat)
    requires i < |blocks| && blocks[i] == Checkpoint
    ensures CountEmpty(blocks[i := Dead]) == CountEmpty(blocks)
  {
    var n := |blocks| - 1;
    if i == n {
      assert blocks[i := Dead][..n] == blocks[..n];
    } else {
      assert blocks[i := Dead][..n] == blocks[..n][i := Dead];
      EmptyDead(blocks[..n], i);
    }
  }

  lemma {:induction false} EmptyTaken(blocks: seq<BlockState>, i: nat)
    requires i < |blocks| && blocks[i] == Empty
    ensures CountEmpty(blocks) == CountEmpty(blocks[i := Checkpoint]) + 1
  {
    var n := |blocks| - 1;
    if i < n {
      EmptyTaken(blocks[..n], i);
      assert blocks[i := Checkpoint][..n] == blocks[..n][i := Checkpoint];
    } else {
      assert blocks[i := Checkpoint][..n] == blocks[..n];
    }
  }

  lemma OneMoreEmpty(blocks: seq<BlockState>)
    ensures CountEmpty(blocks + [Empty]) == CountEmpty(blocks) + 1
  {
    assert (blocks + [Empty])[..|blocks|] == blocks;
  }

  lemma {:induction false} NoneEmpty(blocks: seq<BlockState>)
    requires forall b :: 0 <= b < |blocks| ==> blocks[b] != Empty
    ensures CountEmpty(blocks) == 0
  {
    if blocks != [] { NoneEmpty(blocks[..|blocks| - 1]); }
  }

  /** The blocks after those of an old checkpoint have been erased, or have failed to erase. */
  function Erased(blocks: seq<BlockState>, failing: set<nat>): (r: seq<BlockState>)
    ensures |r| == |blocks|
  {
    seq(|blocks|, b requires 0 <= b < |blocks| => ErasedState(blocks[b], b in failing))
  }

  /** A full buffer with no block to go to: the stream needs more blocks than there are. */
  lemma TooManyBytes(pages: seq<Addr>, n: nat, chunkBytes: nat, chunksPerBlock: nat)
    requires chunkBytes > HEADER_BYTES && chunksPerBlock > 0 && Walk(pages, chunksPerBlock)
    requires Base(|pages|, chunkBytes) < n
    requires pages != [] ==> pages[|pages| - 1].page + 1 == chunksPerBlock
    ensures BlocksNeeded(n, chunkBytes, chunksPerBlock) > BlocksOf(pages, |pages|)
  {
    var k, d := |pages|, chunkBytes - HEADER_BYTES;
    BlocksCounted(pages, chunksPerBlock, k);
    if k > 0 {
      PageIs(pages, chunksPerBlock, k - 1);
      NextRemainder(k - 1, chunksPerBlock);
    }
    hide Walk, CeilDiv;
    assert k % chunksPerBlock == 0;
    CeilDivNext(k, chunksPerBlock);
    BaseNext(k, chunkBytes);
    var first := if n <= Base(k + 1, chunkBytes) then n else Base(k + 1, chunkBytes);
    ChunksCounted(first, chunkBytes, k);
    hide Base;
    CeilDivGrows(first, n, d);
    CeilDivGrows(k + 1, CeilDiv(n, d), chunksPerBlock);
  }

  // ----- How many blocks pass for enough -----

  /** The blocks without which a writer notices that a stream of so many bytes is lost: the last chunk is not counted. */
  function BlocksNoticed(n: nat, chunkBytes: nat, chunksPerBlock: nat): nat
    requires chunkBytes > HEADER_BYTES && chunksPerBlock > 0
  {
    var k := CeilDiv(n, chunkBytes - HEADER_BYTES);
    if k == 0 then 0 else CeilDiv(k - 1, chunksPerBlock)
  }

  lemma CeilDivAtMost(n: nat, d: nat, q: nat)
    requires d > 0
    ensures CeilDiv(n, d) <= q <==> n <= q * d
  {
    CeilDivBounds(n, d);
    hide CeilDiv;
    var p := CeilDiv(n, d);
    OneMore(q, d);
    if p <= q { Multiples(p, q, d); } else { Multiples(q + 1, p, d); }
  }

  /** So many bytes fit into e blocks and one more buffer if and only if no more than e blocks are noticed. */
  lemma FitsBrim(n: nat, e: nat, chunkBytes: nat, chunksPerBlock: nat)
    requires chunkBytes > HEADER_BYTES && chunksPerBlock > 0
    ensures n <= Base(e * chunksPerBlock + 1, chunkBytes) <==> BlocksNoticed(n, chunkBytes, chunksPerBlock) <= e
  {
    var k := CeilDiv(n, chunkBytes - HEADER_BYTES);
    CeilDivAtMost(n, chunkBytes - HEADER_BYTES, e * chunksPerBlock + 1);
    if k > 0 { CeilDivAtMost(k - 1, chunksPerBlock, e); }
    hide CeilDiv;
  }

  /** Chunks that lie in no more than e blocks are no more than e blocks hold, and just that when their last block is
      full. */
  lemma PagesInBlocks(pages: seq<Addr>, chunksPerBlock: nat, e: nat)
    requires Walk(pages, chunksPerBlock) && chunksPerBlock > 0
    ensures BlocksOf(pages, |pages|) <= e <==> |pages| <= e * chunksPerBlock
    ensures (pages != [] ==> pages[|pages| - 1].page + 1 == chunksPerBlock) ==> |pages| == BlocksOf(pages, |pages|) * chunksPerBlock
  {
    var k := |pages|;
    BlocksCounted(pages, chunksPerBlock, k);
    CeilDivAtMost(k, chunksPerBlock, e);
    if k == 0 {
      CeilDivIs(0, chunksPerBlock, 0);
    } else if pages[k - 1].page + 1 == chunksPerBlock {
      PageIs(pages, chunksPerBlock, k - 1);
      NextRemainder(k - 1, chunksPerBlock);
      DivBounds(k, chunksPerBlock);
      CeilDivIs(k, chunksPerBlock, k / chunksPerBlock);
    }
  }

  lemma {:induction false} FlatGrows(parts: seq<seq<byte>>, i: nat, j: nat)
    requires i <= j <= |parts|
    ensures |Flat(parts[..i])| <= |Flat(parts[..j])|
  {
    hide Flat;
    if i < j {
      FlatGrows(parts, i, j - 1);
      FlatStep(parts, j - 1);
    }
  }
}
