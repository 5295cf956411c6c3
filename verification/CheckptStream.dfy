/** The checkpoint byte stream of yaffs_checkptrw.c: written byte by byte into a chunk buffer that is flushed to the
    next free checkpoint page, and read back by searching for the blocks that were written. */
module CheckptStream {
  import opened ByteBits
  import opened Bytes
  import opened CheckptFormat

  class Writer {
    const chunkBytes: nat
    const chunksPerBlock: nat
    const nReservedBlocks: int
    var nErasedBlocks: int  // while the stream is written, not touched before it is closed

    var buffer: array<byte>
    var spilled: seq<byte>  // what has been stored behind the buffer, from its end on
    var blocks: seq<BlockState>
    var nand: map<Addr, Page>
    var bad: set<nat>  // blocks marked bad on flash
    var byteOffs: nat
    var pageSeq: nat
    var sum: u32
    var xor: byte
    var curBlock: int
    var curChunk: nat
    var nextBlock: int
    var blocksInCheckpt: nat

    ghost var room: nat          // how many blocks were empty when the stream was opened
    ghost var stream: seq<byte>  // the bytes written so far
    ghost var pages: seq<Addr>   // where its chunks went, in order

    ghost predicate Geometry()
      reads this
    {
      chunkBytes > HEADER_BYTES && chunksPerBlock > 0 && buffer.Length == chunkBytes && |blocks| * chunksPerBlock < 0x8000_0000
    }

    /** Everything on flash is in order and the buffer holds the rest of the stream. */
    ghost predicate Valid()
      reads this, buffer
    {
      ValidAt(byteOffs)
    }

    ghost predicate ValidAt(offs: nat)
      reads this, buffer
    {
      && Geometry()
      && FlushedOk(blocks, nand, pages, bad, chunksPerBlock)
      && WriteCursorOk(pages, nand, curBlock, curChunk, nextBlock, chunksPerBlock)
      && |pages| == pageSeq
      && BufferOk(buffer[..], stream, pageSeq, offs, sum, xor, chunkBytes)
      && Stored(stream, pages, nand, chunkBytes)
      && blocksInCheckpt == BlocksOf(pages, |pages|)
    }

    /** Of the blocks that were empty, those up to the cursor have been taken, each by the stream. */
    ghost predicate InOrder()
      reads this`blocks, this`blocksInCheckpt, this`nextBlock, this`room
    {
      CountEmpty(blocks) + blocksInCheckpt == room && forall b :: 0 <= b < |blocks| && b < nextBlock ==> blocks[b] != Empty
    }

    /** A full buffer has found no block to go to, and no flush will find one any more: bytes written are stored behind it. */
    ghost predicate Lost()
      reads this
    {
      Geometry() && curBlock == nextBlock == -1 && byteOffs == chunkBytes + |spilled|
    }

    ghost predicate Writable()
      reads this, buffer
    {
      Geometry() && (Lost() || (Valid() && byteOffs < chunkBytes && spilled == []))
    }

    /** The length at which a stream is lost: what the empty blocks take, and one buffer more. */
    ghost function Brim(): nat
      requires chunkBytes > HEADER_BYTES
      reads this`room
    {
      Base(room * chunksPerBlock + 1, chunkBytes)
    }

    constructor (chunkBytes: nat, chunksPerBlock: nat, nReservedBlocks: int, nErasedBlocks: int, blocks: seq<BlockState>, nand: map<Addr, Page>, bad: set<nat>)
      ensures this.chunkBytes == chunkBytes && this.chunksPerBlock == chunksPerBlock && buffer.Length == chunkBytes && fresh(buffer)
      ensures this.nReservedBlocks == nReservedBlocks && this.nErasedBlocks == nErasedBlocks
      ensures this.blocks == blocks && this.nand == nand && this.bad == bad
    {
      this.chunkBytes, this.chunksPerBlock, this.nReservedBlocks, this.nErasedBlocks := chunkBytes, chunksPerBlock, nReservedBlocks, nErasedBlocks;
      this.blocks, this.nand, this.bad := blocks, nand, bad;
      buffer := new byte[chunkBytes](_ => 0);
      byteOffs, pageSeq, sum, xor := 0, 0, 0, 0;
      curBlock, curChunk, nextBlock, blocksInCheckpt := -1, 0, 0, 0;
      stream, pages, room, spilled := [], [], 0, [];
    }

    /** Opens a stream for writing: blocks of an older checkpoint are erased first, or taken out of use when that
        fails (the set failing). */
    method Open(failing: set<nat>) returns (ok: bool)
      requires Geometry() && ReadyOk(blocks, nand, bad)
      modifies this`blocks, this`nand, this`bad, this`nErasedBlocks, this`blocksInCheckpt,
               this`byteOffs, this`pageSeq, this`sum, this`xor, this`curBlock, this`curChunk, this`nextBlock, this`stream, this`pages, this`room, this`spilled, buffer
      ensures ok <==> old(nErasedBlocks) > nReservedBlocks
      ensures ok ==> Valid() && Writable() && !Lost() && byteOffs == HEADER_BYTES < chunkBytes && stream == spilled == []
      ensures |blocks| == old(|blocks|)
      ensures ok ==> blocks == Erased(old(blocks), failing)
      ensures ok ==> nErasedBlocks > nReservedBlocks && InOrder() && room == CountEmpty(blocks)
      ensures nErasedBlocks >= old(nErasedBlocks)
    {
      hide CountEmpty, BufferOk, FlushedOk, Stored, WriteCursorOk, BlocksOf, ReadyOk, ErasedState;
      if nErasedBlocks - nReservedBlocks <= 0 { return false; }
      Rewind();
      Erase(failing);
      NothingFlushed(old(blocks), blocks, nand, bad, failing, chunkBytes, chunksPerBlock);
      room, spilled := CountEmpty(blocks), [];
      ok := true;
    }

    method Rewind()
      requires Geometry()
      modifies this`byteOffs, this`pageSeq, this`sum, this`xor, this`curBlock, this`curChunk, this`nextBlock, this`stream, this`pages, buffer
      ensures pageSeq == 0 && curBlock == -1 && curChunk == 0 && nextBlock == 0 && stream == [] && pages == []
      ensures byteOffs == HEADER_BYTES && BufferOk(buffer[..], [], 0, HEADER_BYTES, sum, xor, chunkBytes)
    {
      hide SumOf, XorOf, Header, BufferOk, Zeros;
      pageSeq, sum, xor := 0, 0, 0;
      curBlock, curChunk, nextBlock := -1, 0, 0;
      stream, pages := [], [];
      BufferStarts(chunkBytes);
      InitChunk();
    }

    method Erase(failing: set<nat>)
      requires ReadyOk(blocks, nand, bad)
      modifies this`blocks, this`nand, this`bad, this`nErasedBlocks, this`blocksInCheckpt
      ensures ReadyOk(blocks, nand, bad) && |blocks| == old(|blocks|) && blocksInCheckpt == 0
      ensures forall b :: 0 <= b < |blocks| ==> blocks[b] == ErasedState(old(blocks)[b], b in failing)
      ensures nErasedBlocks - old(nErasedBlocks) == CountEmpty(blocks) - CountEmpty(old(blocks)) >= 0
    {
      for i := 0 to |blocks|
        invariant ReadyOk(blocks, nand, bad) && |blocks| == old(|blocks|)
        invariant nErasedBlocks - old(nErasedBlocks) == CountEmpty(blocks) - CountEmpty(old(blocks)) >= 0
        invariant forall b :: 0 <= b < |blocks| ==> blocks[b] == if b < i then ErasedState(old(blocks)[b], b in failing) else old(blocks)[b]
      {
        hide ReadyOk, CountEmpty;
        if blocks[i] == Checkpoint {
          EmptyChanged(blocks, i);
          if i in failing {
            BlockFails(blocks, nand, bad, i);
            bad := bad + {i};
            blocks := blocks[i := Dead];
          } else {
            BlockErases(blocks, nand, bad, i);
            nand := map a | a in nand && a.block != i :: nand[a];
            blocks := blocks[i := Empty];
            nErasedBlocks := nErasedBlocks + 1;
          }
        }
      }
      blocksInCheckpt := 0;
    }

    /** Finds the next empty block from nextBlock on, provided that more blocks are erased than are held in reserve. Once it
        has found none, it never will. */
    method FindErasedBlock()
      modifies this`nextBlock, this`curBlock
      ensures curBlock >= 0 ==> 0 <= old(nextBlock) <= curBlock < |blocks| && blocks[curBlock] == Empty && nextBlock == curBlock + 1
      ensures curBlock >= 0 ==> forall b :: old(nextBlock) <= b < curBlock ==> blocks[b] != Empty
      ensures curBlock < 0 ==> curBlock == nextBlock == -1
      ensures curBlock < 0 <==> old(nextBlock) < 0 || nErasedBlocks - nReservedBlocks <= 0 ||
                                forall b :: old(nextBlock) <= b < |blocks| ==> blocks[b] != Empty
    {
      if nextBlock >= 0 && nErasedBlocks - nReservedBlocks > 0 {
        var i := nextBlock;
        while i < |blocks|
          invariant 0 <= nextBlock <= i && nextBlock == old(nextBlock)
          invariant forall b :: nextBlock <= b < i && b < |blocks| ==> blocks[b] != Empty
        {
          if blocks[i] == Empty {
            nextBlock, curBlock := i + 1, i;
            return;
          }
          i := i + 1;
        }
      }
      nextBlock, curBlock := -1, -1;
    }

    /** Clears the buffer and heads it for the chunk to come. */
    method InitChunk()
      requires buffer.Length == chunkBytes > HEADER_BYTES && pageSeq < 0x8000_0000
      requires sum == SumOf(stream) && xor == XorOf(stream)
      modifies this`byteOffs, buffer
      ensures byteOffs == HEADER_BYTES
      ensures buffer[..] == Header(pageSeq, stream) + Zeros(chunkBytes - HEADER_BYTES)
    {
      hide SumOf, XorOf, EncodeU32;
      ghost var h := Header(pageSeq, stream);
      var header := EncodeU32(CHECKPOINT_VERSION) + EncodeU32(pageSeq) + EncodeU32(sum) + EncodeU32(xor);
      assert header == h;
      forall i | 0 <= i < buffer.Length { buffer[i] := if i < HEADER_BYTES then header[i] else 0; }
      byteOffs := HEADER_BYTES;
    }

    /** Writes the full buffer to the next page of the checkpoint. Without a block to write to, nothing changes but
        the cursor, and the stream is lost. */
    method FlushBuffer() returns (ok: bool)
      requires ValidAt(chunkBytes) || Lost()
      requires !Lost() ==> spilled == []
      modifies this`nextBlock, this`curBlock, this`curChunk, this`blocks, this`blocksInCheckpt, this`nand, this`pageSeq, this`byteOffs,
               this`pages, buffer
      ensures ok <==> !old(Lost()) && !NoRoom(old(blocks), old(pages), chunksPerBlock, nErasedBlocks - nReservedBlocks)
      ensures ok ==> Valid() && byteOffs == HEADER_BYTES < chunkBytes && |pages| == old(|pages|) + 1 && old(pages) <= pages
      ensures !ok ==> byteOffs == old(byteOffs) && blocks == old(blocks) && pages == old(pages) && blocksInCheckpt == old(blocksInCheckpt)
      ensures !ok && (old(Lost()) || byteOffs == chunkBytes) ==> Lost()
      ensures |blocks| == old(|blocks|)
      ensures ok && old(InOrder()) ==> InOrder()
      ensures !ok && !old(Lost()) ==> AtBlockEnd() && Base(|pages|, chunkBytes) < |stream| == Base(|pages| + 1, chunkBytes)
      ensures !ok && !old(Lost()) && nErasedBlocks > nReservedBlocks && old(InOrder()) ==> blocksInCheckpt == room
    {
      hide FlushedOk, BufferOk, Stored, Image, Walk, BlocksOf, SumOf, XorOf, Header, Base, CountEmpty;
      ghost var lost := Lost();
      ghost var next := nextBlock;
      ghost var cur, chunk := curBlock, curChunk;
      if curBlock < 0 {
        FindErasedBlock();
        curChunk := 0;
      }
      if !lost {
        FullBuffer(buffer[..], stream, pageSeq, sum, xor, chunkBytes);
        BaseNext(pageSeq, chunkBytes);
      }
      if curBlock < 0 {
        if !lost {
          WalkOf(blocks, nand, pages, bad, chunksPerBlock);
          if nErasedBlocks > nReservedBlocks && forall b :: 0 <= b < |blocks| && b < next ==> blocks[b] != Empty { NoneEmpty(blocks); }
        }
        return false;
      }
      ghost var a := Addr(curBlock, curChunk);
      CursorFollows(blocks, nand, pages, bad, chunksPerBlock, cur, chunk, next, a);
      if curChunk == 0 { EmptyTaken(blocks, curBlock); }
      ProgramChunk();
      ok := true;
    }

    /** The last chunk written filled its block. */
    ghost predicate AtBlockEnd()
      reads this
    {
      && Geometry() && Walk(pages, chunksPerBlock) && blocksInCheckpt == BlocksOf(pages, |pages|)
      && (pages != [] ==> pages[|pages| - 1].page + 1 == chunksPerBlock)
    }

    /** So many bytes need more than e blocks. */
    ghost predicate Exceeds(n: nat, e: nat) {
      chunkBytes > HEADER_BYTES && chunksPerBlock > 0 && BlocksNeeded(n, chunkBytes, chunksPerBlock) > e
    }

    lemma MoreExceeds(n: nat, more: nat, e: nat)
      requires Exceeds(n, e) && n <= more
      ensures Exceeds(more, e)
    {
      hide CeilDiv;
      CeilDivGrows(n, more, chunkBytes - HEADER_BYTES);
      CeilDivGrows(CeilDiv(n, chunkBytes - HEADER_BYTES), CeilDiv(more, chunkBytes - HEADER_BYTES), chunksPerBlock);
    }

    lemma RoomEnough()
      requires InOrder()
      ensures blocksInCheckpt <= room
    {
    }

    lemma NothingLeft(n: nat)
      requires AtBlockEnd() && Base(|pages|, chunkBytes) < n
      ensures Exceeds(n, blocksInCheckpt)
    {
      TooManyBytes(pages, n, chunkBytes, chunksPerBlock);
    }

    lemma AtBrim()
      requires AtBlockEnd() && |stream| == Base(|pages| + 1, chunkBytes) && blocksInCheckpt == room
      ensures |stream| == Brim()
    {
      PagesInBlocks(pages, chunksPerBlock, room);
    }

    /** A stream that is not lost has not reached that length. */
    lemma BelowBrim()
      requires Valid() && byteOffs < chunkBytes && InOrder()
      ensures |stream| < Brim()
    {
      hide FlushedOk, BufferOk, Stored, WriteCursorOk, BlocksOf, Base, CountEmpty, Walk;
      WalkOf(blocks, nand, pages, bad, chunksPerBlock);
      PagesInBlocks(pages, chunksPerBlock, room);
      BufferShort();
      BaseMonotone(|pages| + 1, room * chunksPerBlock + 1, chunkBytes);
    }

    lemma BufferShort()
      requires Valid() && byteOffs < chunkBytes
      ensures |stream| < Base(|pages| + 1, chunkBytes)
    {
      hide FlushedOk, Stored, WriteCursorOk, BlocksOf, Base, Image, SumOf, XorOf;
      BaseNext(|pages|, chunkBytes);
    }

    /** Where the cursor may stand when a chunk is programmed. */
    ghost predicate AtNextPage()
      reads this
    {
      && 0 <= curBlock < |blocks| && curChunk < chunksPerBlock && nextBlock == curBlock + 1
      && (if pages == [] then curChunk == 0 else Follows(pages[|pages| - 1], Addr(curBlock, curChunk), chunksPerBlock))
      && (if curChunk == 0 then blocks[curBlock] == Empty else blocks[curBlock] == Checkpoint && curBlock !in bad)
      && (forall o :: o in nand && o.block == curBlock ==> o.page < curChunk)
    }

    /** The part of a flush that comes after a block has been found. */
    method ProgramChunk()
      requires Geometry() && FlushedOk(blocks, nand, pages, bad, chunksPerBlock) && |pages| == pageSeq
      requires BufferOk(buffer[..], stream, pageSeq, chunkBytes, sum, xor, chunkBytes)
      requires Stored(stream, pages, nand, chunkBytes) && blocksInCheckpt == BlocksOf(pages, |pages|)
      requires AtNextPage()
      modifies this`curBlock, this`curChunk, this`blocks, this`blocksInCheckpt, this`nand, this`pageSeq, this`byteOffs, this`pages, buffer
      ensures Valid() && byteOffs == HEADER_BYTES && pages == old(pages) + [Addr(old(curBlock), old(curChunk))]
      ensures |blocks| == old(|blocks|)
      ensures blocks == (if old(curChunk) == 0 then old(blocks)[old(curBlock) := Checkpoint] else old(blocks))
      ensures blocksInCheckpt == old(blocksInCheckpt) + if old(curChunk) == 0 then 1 else 0
    {
      hide FlushedOk, BufferOk, Stored, Image, Walk, SumOf, XorOf, Header, Base, BlocksOf, WriteCursorOk;
      FullBuffer(buffer[..], stream, pageSeq, sum, xor, chunkBytes);
      WritePage();
      pageSeq := pageSeq + 1;
      PagesFit(blocks, nand, pages, bad, chunksPerBlock);
      curChunk := curChunk + 1;
      if curChunk >= chunksPerBlock {
        curChunk := 0;
        curBlock := -1;
      }
      BufferEmptied(stream, pageSeq, chunkBytes);
      InitChunk();
    }

    /** Programs the buffer, with the tags of a checkpoint chunk, and claims the block if the page is its first. */
    method WritePage()
      requires Geometry() && FlushedOk(blocks, nand, pages, bad, chunksPerBlock) && |pages| == pageSeq < 0x8000_0000
      requires Base(pageSeq, chunkBytes) <= |stream| && buffer[..] == Image(stream, pageSeq, Base(pageSeq, chunkBytes), chunkBytes)
      requires Stored(stream, pages, nand, chunkBytes) && blocksInCheckpt == BlocksOf(pages, |pages|)
      requires AtNextPage()
      modifies this`blocks, this`blocksInCheckpt, this`nand, this`pages
      ensures pages == old(pages) + [Addr(curBlock, curChunk)] && |blocks| == old(|blocks|)
      ensures FlushedOk(blocks, nand, pages, bad, chunksPerBlock)
      ensures Stored(stream, pages, nand, chunkBytes) && blocksInCheckpt == BlocksOf(pages, |pages|)
      ensures curChunk + 1 < chunksPerBlock ==> WriteCursorOk(pages, nand, curBlock, curChunk + 1, nextBlock, chunksPerBlock)
      ensures curChunk + 1 == chunksPerBlock ==> WriteCursorOk(pages, nand, -1, 0, nextBlock, chunksPerBlock)
      ensures blocks == (if curChunk == 0 then old(blocks)[curBlock := Checkpoint] else old(blocks))
      ensures blocksInCheckpt == old(blocksInCheckpt) + if curChunk == 0 then 1 else 0
    {
      hide FlushedOk, Stored, Image, Walk, SumOf, XorOf, Header, Base, WriteCursorOk;
      ghost var a := Addr(curBlock, curChunk);
      ghost var p := Page(buffer[..], SEQUENCE_CHECKPOINT_DATA, nextBlock, pageSeq + 1);
      NextPage(blocks, nand, pages, bad, chunksPerBlock, a, p);
      ChunkStored(stream, pages, nand, a, p.data, chunkBytes);
      CursorMoves(pages, nand, a, p, chunksPerBlock);
      BlocksOfPrefix(pages, [a], |pages|);
      assert blocks[a.block := Checkpoint] == if curChunk == 0 then blocks[a.block := Checkpoint] else blocks;
      if curChunk == 0 {
        blocks := blocks[curBlock := Checkpoint];
        blocksInCheckpt := blocksInCheckpt + 1;
      }
      nand := nand[Addr(curBlock, curChunk) := Page(buffer[..], SEQUENCE_CHECKPOINT_DATA, nextBlock, pageSeq + 1)];
      pages := pages + [a];
    }

    /** Writes bytes one by one. All of them are counted even when it is the last one that could not be flushed:
        whether the stream was lost shows in the buffer, which is then left full, and the next byte written is stored
        behind it. */
    method Write(data: seq<byte>) returns (n: nat)
      requires Writable()
      modifies this`nextBlock, this`curBlock, this`curChunk, this`blocks, this`blocksInCheckpt, this`nand, this`pageSeq, this`byteOffs,
               this`pages, this`stream, this`sum, this`xor, this`spilled, buffer
      ensures Writable() && n <= |data| && |blocks| == old(|blocks|)
      ensures if old(Lost()) then Lost() && n == (if data == [] then 0 else 1) && spilled == old(spilled) + data[..n] && stream == old(stream)
              else spilled == [] && stream == old(stream) + data[..n]
      ensures !Lost() ==> n == |data| && (old(InOrder()) ==> InOrder() && |stream| < Brim())
      ensures Lost() && !old(Lost()) ==> NoRoom(blocks, pages, chunksPerBlock, nErasedBlocks - nReservedBlocks)
      ensures Lost() && !old(Lost()) && nErasedBlocks > nReservedBlocks && old(InOrder()) ==> Exceeds(|stream|, room) && |stream| == Brim()
    {
      hide ValidAt, NoRoom, Exceeds, InOrder, AtBlockEnd, Base, Brim;
      ghost var lost := Lost();
      n := 0;
      var ok := true;
      while n < |data| && ok
        invariant n <= |data| && Writable() && |blocks| == old(|blocks|)
        invariant if lost then Lost() && (ok <==> n == 0) && n <= 1 && spilled == old(spilled) + data[..n] && stream == old(stream)
                  else spilled == [] && stream == old(stream) + data[..n] && (ok <==> !Lost())
        invariant !Lost() && old(InOrder()) ==> InOrder()
        invariant Lost() && !lost ==> NoRoom(blocks, pages, chunksPerBlock, nErasedBlocks - nReservedBlocks)
        invariant Lost() && !lost && nErasedBlocks > nReservedBlocks && old(InOrder()) ==> Exceeds(|stream|, room) && |stream| == Brim()
      {
        PutByte(data[n]);
        n := n + 1;
        if byteOffs >= chunkBytes {
          if !lost { NotLost(); }
          ok := FlushBuffer();
          if !ok && !lost {
            NothingLeft(|stream|);
            if blocksInCheckpt == room { AtBrim(); }
          }
        }
      }
      if !Lost() && InOrder() { BelowBrim(); }
    }

    lemma NotLost()
      requires ValidAt(chunkBytes)
      ensures !Lost()
    {
      hide FlushedOk, BufferOk, Stored, BlocksOf;
    }

    method PutByte(b: byte)
      requires Writable()
      modifies this`byteOffs, this`stream, this`sum, this`xor, this`spilled, buffer
      ensures byteOffs == old(byteOffs) + 1
      ensures if old(Lost()) then Lost() && spilled == old(spilled) + [b] && stream == old(stream)
              else Valid() && stream == old(stream) + [b] && spilled == []
    {
      hide FlushedOk, Stored, WriteCursorOk, BlocksOf, AddByte, XorByte, Image, Base, SumOf, XorOf;
      if byteOffs < chunkBytes {
        BytePut(buffer[..], stream, pageSeq, byteOffs, sum, xor, chunkBytes, b);
        StoredStays(stream, [b], pages, nand, chunkBytes);
        buffer[byteOffs] := b;
        stream := stream + [b];
      } else {
        spilled := spilled + [b];
      }
      sum := AddByte(sum, b);
      xor := XorByte(xor, b);
      byteOffs := byteOffs + 1;
    }

    /** Takes the zeros left in the buffer as part of the stream. */
    ghost method Pad()
      requires Valid() && byteOffs < chunkBytes
      modifies this`stream
      ensures ValidAt(chunkBytes) && byteOffs >= HEADER_BYTES && stream == old(stream) + Zeros(chunkBytes - byteOffs)
    {
      hide FlushedOk, BufferOk, Stored, WriteCursorOk, BlocksOf, SumOf, XorOf, Base;
      BufferBase(buffer[..], stream, pageSeq, byteOffs, sum, xor, chunkBytes);
      BufferPadded(buffer[..], stream, pageSeq, byteOffs, sum, xor, chunkBytes);
      StoredStays(stream, Zeros(chunkBytes - byteOffs), pages, nand, chunkBytes);
      stream := stream + Zeros(chunkBytes - byteOffs);
    }

    lemma AtRest()
      requires Valid() && byteOffs == HEADER_BYTES
      ensures OnFlash(stream, pages, nand, bad, chunkBytes, chunksPerBlock, |blocks|) && blocksInCheckpt == BlocksOf(pages, |pages|)
    {
      hide FlushedOk, BufferOk, Stored, WriteCursorOk, BlocksOf, OnFlash;
      StreamClosed(stream, blocks, nand, pages, bad, chunkBytes, chunksPerBlock, curBlock, curChunk, nextBlock, buffer[..], sum, xor);
    }

    lemma BufferPart()
      requires Valid() && byteOffs != HEADER_BYTES
      ensures Base(|pages|, chunkBytes) < |stream|
    {
      hide Base, FlushedOk, Stored, WriteCursorOk, BlocksOf;
      BufferBase(buffer[..], stream, pageSeq, byteOffs, sum, xor, chunkBytes);
    }

    /** Flushes what is left. The last chunk reads as if the stream had been filled up with zeros. The result of this
        flush goes unheeded: closing always succeeds, and takes the blocks of the checkpoint off the erased ones. */
    method Close() returns (ok: bool, flushed: bool)
      requires Writable()
      modifies this`nextBlock, this`curBlock, this`curChunk, this`blocks, this`blocksInCheckpt, this`nand, this`pageSeq, this`byteOffs,
               this`pages, this`stream, this`nErasedBlocks, buffer
      ensures ok && nErasedBlocks == old(nErasedBlocks) - blocksInCheckpt
      ensures flushed <==> !old(Lost()) && (old(byteOffs) == HEADER_BYTES ||
                                            !NoRoom(old(blocks), old(pages), chunksPerBlock, old(nErasedBlocks) - nReservedBlocks))
      ensures flushed ==> OnFlash(stream, pages, nand, bad, chunkBytes, chunksPerBlock, |blocks|)
      ensures flushed ==> Padded(old(stream), stream, chunkBytes)
      ensures flushed ==> blocksInCheckpt == BlocksOf(pages, |pages|)
      ensures |blocks| == old(|blocks|)
      ensures flushed && old(InOrder()) ==> InOrder()
      ensures !flushed && !old(Lost()) && old(nErasedBlocks) > nReservedBlocks && old(InOrder()) ==> Exceeds(|old(stream)|, room)
    {
      hide NoRoom, OnFlash, ValidAt, BlocksOf, Exceeds, InOrder, AtBlockEnd, Base;
      flushed := true;
      assert stream + Zeros(0) == stream;
      if byteOffs != HEADER_BYTES {
        ghost var n, lost := |stream|, Lost();
        if !lost {
          BufferPart();
          Pad();
        }
        flushed := FlushBuffer();
        if !flushed && !lost { NothingLeft(n); }
      }
      if flushed { AtRest(); }
      nErasedBlocks := nErasedBlocks - blocksInCheckpt;
      ok := true;
    }
  }

  class Reader {
    const chunkBytes: nat
    const chunksPerBlock: nat
    const maxBlocks: nat
    const nand: map<Addr, Page>
    const bad: set<nat>
    const nBlocks: nat

    var buffer: seq<byte>
    var byteOffs: nat
    var pageSeq: nat
    var sum: u32
    var xor: byte
    var curBlock: int
    var curChunk: nat
    var nextBlock: int
    var blockList: seq<nat>  // checkpt_block_list, of which blocks_in_checkpt entries are in use

    ghost const stream: seq<byte>  // what was written, if it was
    ghost const pages: seq<Addr>   // and where
    ghost var at: nat              // how much has been read
    ghost var taken: seq<byte>     // what has been read
    ghost var accepted: seq<Addr>  // the pages it was taken from
    ghost var refused: bool        // a chunk with a wrong header has been met; a read that goes on would take its bytes

    /** What is on flash is a stream as the writer leaves it. */
    ghost predicate Whole() {
      OnFlash(stream, pages, nand, bad, chunkBytes, chunksPerBlock, nBlocks)
    }

    /** Whatever is on flash, everything that has been read comes from pages that passed every check. */
    ghost predicate Checked()
      reads this
    {
      && chunkBytes > HEADER_BYTES && chunksPerBlock > 0 && HEADER_BYTES <= byteOffs <= chunkBytes
      && at == |taken| && sum == SumOf(taken) && xor == XorOf(taken) && |blockList| <= maxBlocks
      && (byteOffs < chunkBytes ==> |buffer| == chunkBytes)
      && (!refused ==> |accepted| == pageSeq && TakenOk(nand, accepted, taken, buffer, byteOffs, chunkBytes))
    }

    /** The reader follows the writer. */
    ghost predicate Following()
      reads this
    {
      && ReadOk(stream, pages, pageSeq, at, buffer, byteOffs, sum, xor, chunkBytes)
      && ReadCursorOk(pages, pageSeq, curBlock, curChunk, nextBlock, chunksPerBlock, |blockList| >= maxBlocks)
      && blockList == BlockList(pages, pageSeq)
      && at <= |stream| && taken == stream[..at] && !refused
    }

    ghost predicate Valid()
      reads this
    {
      Checked() && (Whole() ==> Following())
    }

    /** Opens a stream for reading. At most one block in sixteen, and two more, can hold it. */
    constructor (nand: map<Addr, Page>, bad: set<nat>, nBlocks: nat, chunkBytes: nat, chunksPerBlock: nat, ghost stream: seq<byte>, ghost pages: seq<Addr>)
      requires nBlocks > 0 && chunkBytes > HEADER_BYTES && chunksPerBlock > 0
      ensures Valid() && at == 0 && pageSeq == 0 && taken == [] && accepted == [] && !refused
      ensures this.nand == nand && this.bad == bad && this.stream == stream && this.pages == pages && this.nBlocks == nBlocks
      ensures this.chunkBytes == chunkBytes && this.chunksPerBlock == chunksPerBlock && maxBlocks == (nBlocks - 1) / 16 + 2
    {
      hide OnFlash, ReadOk, ReadCursorOk, BlockList, TakenOk;
      NothingRead(stream, pages, chunkBytes, chunksPerBlock, false);
      NothingTaken(nand, chunkBytes);
      this.nand, this.bad, this.nBlocks, this.chunkBytes, this.chunksPerBlock := nand, bad, nBlocks, chunkBytes, chunksPerBlock;
      this.stream, this.pages := stream, pages;
      maxBlocks := (nBlocks - 1) / 16 + 2;
      buffer, byteOffs, pageSeq, sum, xor := [], chunkBytes, 0, 0, 0;
      curBlock, curChunk, nextBlock, blockList := -1, 0, 0, [];
      at, taken, accepted, refused := 0, [], [], false;
    }

    /** Searches from nextBlock on for a good block whose first page is tagged as checkpoint data, and takes the hint
        found there for the next search. */
    method FindBlock()
      modifies this`nextBlock, this`curBlock, this`blockList
      ensures curBlock >= 0 ==>
                && |old(blockList)| < maxBlocks && 0 <= old(nextBlock) <= curBlock < nBlocks && Tagged(nand, curBlock) && curBlock !in bad
                && (forall b :: old(nextBlock) <= b < curBlock ==> !Tagged(nand, b) || b in bad)
                && nextBlock == nand[Addr(curBlock, 0)].objId && blockList == old(blockList) + [curBlock]
      ensures curBlock < 0 ==>
                && curBlock == nextBlock == -1 && blockList == old(blockList)
                && (|blockList| >= maxBlocks || old(nextBlock) < 0 || forall b :: old(nextBlock) <= b < nBlocks ==> !Tagged(nand, b) || b in bad)
    {
      if |blockList| < maxBlocks && nextBlock >= 0 {
        var i := nextBlock;
        while i < nBlocks
          invariant i >= nextBlock == old(nextBlock)
          invariant forall b :: nextBlock <= b < i ==> !Tagged(nand, b) || b in bad
          invariant blockList == old(blockList) && curBlock == old(curBlock)
        {
          if Tagged(nand, i) && i !in bad {
            nextBlock := nand[Addr(i, 0)].objId;
            curBlock := i;
            blockList := blockList + [i];
            return;
          }
          i := i + 1;
        }
      }
      nextBlock, curBlock := -1, -1;
    }

    /** In a stream as the writer leaves it the block found is the one the writer went on in. */
    method FindNext()
      requires Whole() ==> curBlock < 0 && ReadCursorOk(pages, pageSeq, curBlock, curChunk, nextBlock, chunksPerBlock, |blockList| >= maxBlocks)
      requires |blockList| <= maxBlocks
      modifies this`nextBlock, this`curBlock, this`blockList
      ensures Whole() ==> Searched(pages, pageSeq, maxBlocks, curBlock, nextBlock, old(blockList), blockList)
      ensures |blockList| <= maxBlocks
    {
      hide OnFlash;
      ghost var from := nextBlock;
      FindBlock();
      if Whole() {
        if curBlock >= 0 {
          FoundIsNext(stream, pages, nand, bad, chunkBytes, chunksPerBlock, nBlocks, pageSeq, from, curBlock);
        } else if |blockList| < maxBlocks && from >= 0 {
          NoneIsLeft(stream, pages, nand, bad, chunkBytes, chunksPerBlock, nBlocks, pageSeq, from);
        }
      }
    }

    /** The cursor stands on the page of the next chunk; its block is already in the list. */
    ghost predicate OnNextPage()
      reads this
    {
      && pageSeq < |pages| && curBlock >= 0 && pages[pageSeq] == Addr(curBlock, curChunk) && nextBlock == curBlock + 1
      && blockList == BlockList(pages, pageSeq + 1) && curChunk < chunksPerBlock
      && ReadOk(stream, pages, pageSeq, at, buffer, byteOffs, sum, xor, chunkBytes) && at <= |stream|
      && taken == stream[..at] && !refused
    }

    /** Moves to where the next chunk should be, in a new block if the last one is exhausted. */
    method Seek()
      requires Valid() && byteOffs == chunkBytes
      modifies this`nextBlock, this`curBlock, this`curChunk, this`blockList
      ensures Checked()
      ensures Whole() ==> if AtEnd(pages, pageSeq, maxBlocks) then Following() && (curBlock >= 0 ==> Addr(curBlock, curChunk) !in nand)
                          else OnNextPage()
      ensures Whole() && curBlock < 0 ==> AtEnd(pages, pageSeq, maxBlocks)
    {
      hide OnFlash, ReadOk, AtEnd, TakenOk, SumOf, XorOf;
      if Whole() {
        EndsAtBlock(stream, pages, nand, bad, chunkBytes, chunksPerBlock, nBlocks, pageSeq, curBlock, curChunk, nextBlock, maxBlocks);
      }
      if curBlock < 0 {
        FindNext();
        curChunk := 0;
      } else if Whole() {
        PageIsNext(stream, pages, nand, bad, chunkBytes, chunksPerBlock, nBlocks, pageSeq, curBlock, curChunk, nextBlock, |blockList| >= maxBlocks);
        assert pageSeq < |pages| ==> pages[pageSeq].page > 0;
      }
    }

    /** Takes the next chunk into the buffer after checking its tags and its header. */
    method LoadChunk() returns (ok: bool)
      requires Valid() && byteOffs == chunkBytes
      modifies this`nextBlock, this`curBlock, this`curChunk, this`blockList, this`buffer, this`byteOffs, this`pageSeq, this`accepted, this`refused
      ensures Valid()
      ensures Whole() ==> (ok <==> !AtEnd(pages, old(pageSeq), maxBlocks))
      ensures if ok then pageSeq == old(pageSeq) + 1 && byteOffs == HEADER_BYTES < chunkBytes && refused == old(refused)
              else pageSeq == old(pageSeq) && (byteOffs == chunkBytes || (byteOffs == HEADER_BYTES && refused))
    {
      hide Valid, OnNextPage, AtEnd, OnFlash, Checked, Following;
      Seek();
      CheckedButNoChunk();
      if curBlock < 0 { return false; }
      ok := CheckChunk();
    }

    lemma CheckedButNoChunk()
      requires Checked()
      ensures Whole() ==> (Following() ==> Valid())
      ensures !Whole() ==> Valid()
    {
      hide OnFlash, ReadOk, ReadCursorOk, TakenOk, SumOf, XorOf, BlockList;
    }

    /** What the flash gives for a page. */
    function PageBytes(a: Addr): (r: seq<byte>)
      ensures |r| == chunkBytes
    {
      if a in nand && |nand[a].data| == chunkBytes then nand[a].data else seq(chunkBytes, _ => 0xFF)
    }

    /** Checks the tags of the page under the cursor and the header in it. The offset in the buffer is moved before the
        header is looked at, so that a chunk with a wrong one is refused and yet lies ready to be read from. */
    method CheckChunk() returns (ok: bool)
      requires curBlock >= 0 && byteOffs == chunkBytes && Checked()
      requires Whole() ==> if AtEnd(pages, pageSeq, maxBlocks) then Following() && Addr(curBlock, curChunk) !in nand else OnNextPage()
      modifies this`curBlock, this`curChunk, this`buffer, this`byteOffs, this`pageSeq, this`accepted, this`refused
      ensures Valid()
      ensures Whole() ==> (ok <==> !AtEnd(pages, old(pageSeq), maxBlocks))
      ensures if ok then pageSeq == old(pageSeq) + 1 && byteOffs == HEADER_BYTES < chunkBytes && refused == old(refused)
              else pageSeq == old(pageSeq) && (byteOffs == chunkBytes || (byteOffs == HEADER_BYTES && refused))
      ensures var a := Addr(old(curBlock), old(curChunk));
              && (ok <==> a in nand && nand[a].chunkId == old(pageSeq) + 1 && nand[a].seqNumber == SEQUENCE_CHECKPOINT_DATA
                          && HeaderMatches(PageBytes(a)[..HEADER_BYTES], old(pageSeq), SumOf(taken), XorOf(taken)))
              && accepted == if ok then old(accepted) + [a] else old(accepted)
    {
      hide OnFlash, ReadOk, AtEnd, SumOf, XorOf, BlockList, Stored, HeaderMatches, TakenOk;
      var a := Addr(curBlock, curChunk);
      buffer := PageBytes(a);
      TakenBufferFree(nand, accepted, taken, old(buffer), buffer, chunkBytes, refused);
      if Whole() {
        FlashStored(stream, pages, nand, bad, chunkBytes, chunksPerBlock, nBlocks);
        if AtEnd(pages, pageSeq, maxBlocks) {
          BufferFree(stream, pages, pageSeq, at, old(buffer), buffer, sum, xor, chunkBytes);
        } else {
          ChunkAccepted(stream, pages, nand, chunkBytes, pageSeq, old(buffer), sum, xor, at);
          ChunkTaken(stream, pages, nand, chunkBytes, pageSeq, old(buffer), sum, xor, at);
        }
      }
      if a !in nand || nand[a].chunkId != pageSeq + 1 || nand[a].seqNumber != SEQUENCE_CHECKPOINT_DATA { return false; }
      byteOffs := HEADER_BYTES;
      if !HeaderMatches(buffer[..HEADER_BYTES], pageSeq, sum, xor) {
        refused := true;
        return false;
      }
      if !refused { PageTaken(nand, accepted, taken, buffer, chunkBytes, a); }
      accepted := accepted + [a];
      pageSeq := pageSeq + 1;
      curChunk := curChunk + 1;
      if curChunk >= chunksPerBlock { curBlock := -1; }
      ok := true;
    }

    /** Reads bytes one by one, a chunk at a time, whatever is on flash; all that is read without coming up short is from
        chunks that passed every check. In a stream as the writer leaves it, it comes up short only at the end, or before
        a block too many. */
    method Read(n: nat) returns (out: seq<byte>)
      requires Valid()
      modifies this`nextBlock, this`curBlock, this`curChunk, this`blockList, this`buffer, this`byteOffs, this`pageSeq, this`sum, this`xor, this`at,
               this`taken, this`accepted, this`refused
      ensures Valid() && |out| <= n && at == old(at) + |out| && taken == old(taken) + out
      ensures |out| == n ==> refused == old(refused)
      ensures |out| < n ==> byteOffs == chunkBytes || refused
      ensures Whole() ==> at <= |stream| && out == stream[old(at)..at]
      ensures Whole() && |out| < n ==> byteOffs == chunkBytes && AtEnd(pages, pageSeq, maxBlocks)
      ensures pageSeq > old(pageSeq) && !refused ==> byteOffs > HEADER_BYTES
    {
      hide OnFlash, ReadOk, ReadCursorOk, BlockList, AtEnd, TakenOk, SumOf, XorOf;
      out := [];
      while |out| < n
        invariant Valid() && |out| <= n && at == old(at) + |out| && taken == old(taken) + out && refused == old(refused)
        invariant Whole() ==> at <= |stream| && out == stream[old(at)..at]
        invariant pageSeq > old(pageSeq) && !refused ==> byteOffs > HEADER_BYTES
      {
        if byteOffs >= chunkBytes {
          var ok := LoadChunk();
          if !ok { return; }
        }
        var b := GetByte();
        out := out + [b];
      }
    }

    /** All of the data that was written, up to the padding, has been read exactly if its blocks are not too many. */
    lemma Outcome(data: seq<byte>)
      requires Valid() && Whole() && Padded(data, stream, chunkBytes) && at <= |data|
      requires at < |data| ==> byteOffs == chunkBytes && AtEnd(pages, pageSeq, maxBlocks)
      ensures at == |data| <==> BlocksOf(pages, |pages|) <= maxBlocks
      ensures at == |data| ==> |blockList| == BlocksOf(pages, |pages|)
      ensures stream[..at] == data[..at]
    {
      hide OnFlash, ReadOk, ReadCursorOk, BlocksOf, Base;
      FlashStored(stream, pages, nand, bad, chunkBytes, chunksPerBlock, nBlocks);
      PaddedPrefix(data, stream, chunkBytes, at);
      hide Padded;
      if at == |data| {
        AllTaken(stream, pages, pageSeq, at, buffer, byteOffs, sum, xor, chunkBytes);
        BlocksWithin();
      } else {
        EndMeansAll(stream, pages, pageSeq, at, buffer, sum, xor, chunkBytes);
        BlocksOfMonotone(pages, pageSeq + 1, |pages|);
      }
    }

    lemma BlocksWithin()
      requires Valid() && Whole() && pageSeq == |pages|
      ensures |blockList| == BlocksOf(pages, |pages|) <= maxBlocks
    {
      hide OnFlash, ReadOk, ReadCursorOk;
    }

    method GetByte() returns (b: byte)
      requires Valid() && byteOffs < chunkBytes
      modifies this`byteOffs, this`sum, this`xor, this`at, this`taken
      ensures Valid() && at == old(at) + 1 && taken == old(taken) + [b] && byteOffs == old(byteOffs) + 1
      ensures Whole() ==> at <= |stream| && b == stream[old(at)]
    {
      hide OnFlash, ReadOk, ReadCursorOk, BlockList, AddByte, XorByte, TakenOk, SumOf, XorOf;
      if Whole() {
        assert |stream| == Base(|pages|, chunkBytes) by { FlashStored(stream, pages, nand, bad, chunkBytes, chunksPerBlock, nBlocks); }
        ByteTaken(stream, pages, pageSeq, at, buffer, byteOffs, sum, xor, chunkBytes);
      }
      if !refused { ByteChecked(nand, accepted, taken, buffer, byteOffs, chunkBytes); }
      b := buffer[byteOffs];
      SumAppend(taken, b);
      sum := AddByte(sum, b);
      xor := XorByte(xor, b);
      byteOffs := byteOffs + 1;
      at, taken := at + 1, taken + [b];
    }
  }

  /** What the caller sees: a stream is reported as saved if and only if the blocks without which it would be noticed as
      lost, and perhaps one less than it needs, are empty ones. */
  ghost predicate Reported(n: nat, erased: int, reserved: int, blocks: seq<BlockState>, chunkBytes: nat, chunksPerBlock: nat)
    requires chunkBytes > HEADER_BYTES && chunksPerBlock > 0
  {
    erased > reserved && BlocksNoticed(n, chunkBytes, chunksPerBlock) <= CountEmpty(blocks)
  }

  /** No part is a single byte; none that the code writes is. */
  ghost predicate NoneSingle(parts: seq<seq<byte>>) {
    forall i :: 0 <= i < |parts| ==> |parts[i]| != 1
  }

  /** Whatever way a byte string is split into writes, and its length into reads: it is on flash exactly when erased blocks
      are to be had and the empty ones suffice for it, and is reported so also when only the last chunk finds none; if it
      is on flash, what is read is what was written, the reader counting the same blocks, exactly when it needs no more
      blocks than a reader looks for. */
  method RoundTrip(w: Writer, failing: set<nat>, parts: seq<seq<byte>>, sizes: seq<nat>)
    returns (reported: bool, saved: bool, got: seq<seq<byte>>, readBlocks: nat)
    requires w.Geometry() && ReadyOk(w.blocks, w.nand, w.bad) && |w.blocks| > 0
    requires Total(sizes) == |Flat(parts)|
    modifies w, w.buffer
    ensures var needed := BlocksNeeded(|Flat(parts)|, w.chunkBytes, w.chunksPerBlock);
            && (saved <==> old(w.nErasedBlocks) > w.nReservedBlocks && needed <= CountEmpty(Erased(old(w.blocks), failing)))
            && (saved ==> (Flat(got) == Flat(parts) <==> needed <= (|old(w.blocks)| - 1) / 16 + 2))
            && (saved ==> w.blocksInCheckpt == needed)
    ensures saved ==> reported && Flat(got) <= Flat(parts)
    ensures saved && Flat(got) == Flat(parts) ==> readBlocks == w.blocksInCheckpt && SameSizes(got, sizes)
    ensures NoneSingle(parts) ==>
              (reported <==> Reported(|Flat(parts)|, old(w.nErasedBlocks), w.nReservedBlocks, Erased(old(w.blocks), failing), w.chunkBytes, w.chunksPerBlock))
  {
    hide w.ValidAt, OnFlash, BlocksOf, Flat, Total, SameSizes, NoRoom, Padded, AtEnd, ReadyOk, w.InOrder, CountEmpty, Erased, BlocksNeeded,
      BlocksNoticed, NoneSingle;
    got, readBlocks := [], 0;
    reported, saved := Save(w, failing, parts);
    if !saved { return; }
    var r := new Reader(w.nand, w.bad, |w.blocks|, w.chunkBytes, w.chunksPerBlock, w.stream, w.pages);
    hide r.Valid;
    got := ReadParts(r, sizes);
    r.Outcome(Flat(parts));
    readBlocks := |r.blockList|;
  }

  /** Opens a stream, writes pieces to it as long as all of each is counted, and closes it. Bytes are stored behind the
      buffer exactly when a part ends with the byte that the buffer is lost on, and more is to come. */
  method Save(w: Writer, failing: set<nat>, parts: seq<seq<byte>>) returns (reported: bool, saved: bool)
    requires w.Geometry() && ReadyOk(w.blocks, w.nand, w.bad)
    modifies w, w.buffer
    ensures |w.blocks| == old(|w.blocks|)
    ensures var needed := BlocksNeeded(|Flat(parts)|, w.chunkBytes, w.chunksPerBlock);
            && (saved <==> old(w.nErasedBlocks) > w.nReservedBlocks && needed <= CountEmpty(Erased(old(w.blocks), failing)))
            && (saved ==> w.blocksInCheckpt == needed)
    ensures saved ==> && OnFlash(w.stream, w.pages, w.nand, w.bad, w.chunkBytes, w.chunksPerBlock, |w.blocks|)
                      && Padded(Flat(parts), w.stream, w.chunkBytes)
                      && w.blocksInCheckpt == BlocksOf(w.pages, |w.pages|)
    ensures saved ==> reported
    ensures NoneSingle(parts) ==>
              (reported <==> Reported(|Flat(parts)|, old(w.nErasedBlocks), w.nReservedBlocks, Erased(old(w.blocks), failing), w.chunkBytes, w.chunksPerBlock))
    ensures old(w.nErasedBlocks) > w.nReservedBlocks ==>
              (w.spilled != [] <==> EndsAt(parts, Base(CountEmpty(Erased(old(w.blocks), failing)) * w.chunksPerBlock + 1, w.chunkBytes)))
  {
    hide w.ValidAt, OnFlash, BlocksOf, Flat, NoRoom, Padded, ReadyOk, w.InOrder, CountEmpty, Erased, BlocksNeeded, BlocksNoticed, NoneSingle,
      EndsAt, Base;
    saved := w.Open(failing);
    if !saved { return false, false; }
    ghost var e := CountEmpty(w.blocks);
    reported := WriteParts(w, parts);
    FitsBrim(|Flat(parts)|, e, w.chunkBytes, w.chunksPerBlock);
    ghost var lost := w.Lost();
    var closed, flushed := w.Close();
    reported, saved := reported && closed, flushed;
    if saved {
      FlashWalk(w.stream, w.pages, w.nand, w.bad, w.chunkBytes, w.chunksPerBlock, |w.blocks|);
      BlocksOfStream(Flat(parts), w.stream, w.pages, w.chunkBytes, w.chunksPerBlock);
      w.RoomEnough();
    }
  }

  /** After some part exactly so many bytes have been written, and more are to come. */
  ghost predicate EndsAt(parts: seq<seq<byte>>, n: nat) {
    n < |Flat(parts)| && exists i :: 0 <= i <= |parts| && |Flat(parts[..i])| == n
  }

  /** The smallest instance of a checkpoint that is saved and cannot be read back: four blocks of one chunk that takes
      one byte, of which a reader looks for two, and three bytes. */
  method TooLongForReader() returns (saved: bool, got: seq<seq<byte>>)
    ensures saved && Flat(got) != [1, 2, 3]
  {
    var w := new Writer(HEADER_BYTES + 1, 1, 0, 4, [Empty, Empty, Empty, Empty], map[], {});
    var readBlocks;
    ThreeBytes();
    var reported;
    reported, saved, got, readBlocks := RoundTrip(w, {}, [[1, 2, 3]], [3]);
  }

  /** The smallest instance of a checkpoint that is reported as saved and is not: one empty block of one chunk that takes
      one byte, and two bytes. The second one is lost. */
  method LastByteLost() returns (reported: bool, saved: bool, spilled: seq<byte>)
    ensures reported && !saved && spilled == []
  {
    var w := new Writer(HEADER_BYTES + 1, 1, 0, 1, [Empty], map[], {});
    TwoBytes();
    reported, saved := Save(w, {}, [[1, 2]]);
    spilled := w.spilled;
  }

  /** With two bytes more to come, the first of them is stored behind the buffer, and then the loss is noticed. */
  method ByteBehindBuffer() returns (reported: bool, saved: bool, spilled: seq<byte>)
    ensures !reported && !saved && spilled != []
  {
    var w := new Writer(HEADER_BYTES + 1, 1, 0, 1, [Empty], map[], {});
    FourBytes();
    reported, saved := Save(w, {}, [[1, 2], [3, 4]]);
    spilled := w.spilled;
  }

  lemma TwoBytes()
    ensures Flat([[1, 2]]) == [1, 2] && NoneSingle([[1, 2]])
    ensures BlocksNeeded(2, HEADER_BYTES + 1, 1) == 2 && BlocksNoticed(2, HEADER_BYTES + 1, 1) == 1
    ensures CountEmpty(Erased([Empty], {})) == 1 && Base(2, HEADER_BYTES + 1) == 2
  {
    assert [[1, 2]][..0] == [];
    assert Erased([Empty], {}) == [Empty];
    OneMoreEmpty([]);
    assert [] + [Empty] == [Empty];
  }

  lemma FourBytes()
    ensures Flat([[1, 2], [3, 4]]) == [1, 2, 3, 4] && NoneSingle([[1, 2], [3, 4]]) && EndsAt([[1, 2], [3, 4]], 2)
    ensures BlocksNeeded(4, HEADER_BYTES + 1, 1) == 4 && BlocksNoticed(4, HEADER_BYTES + 1, 1) == 3
    ensures CountEmpty(Erased([Empty], {})) == 1 && Base(2, HEADER_BYTES + 1) == 2
  {
    TwoBytes();
    assert [[1, 2], [3, 4]][..1] == [[1, 2]];
  }

  lemma ThreeBytes()
    ensures Flat([[1, 2, 3]]) == [1, 2, 3] && Total([3]) == 3
    ensures BlocksNeeded(3, HEADER_BYTES + 1, 1) == 3
    ensures CountEmpty(Erased([Empty, Empty, Empty, Empty], {})) == 4
  {
    assert [[1, 2, 3]][..0] == [] && [3][..0] == [];
    assert Erased([Empty, Empty, Empty, Empty], {}) == [Empty, Empty, Empty, Empty];
    OneMoreEmpty([]);
    OneMoreEmpty([Empty]);
    OneMoreEmpty([Empty, Empty]);
    OneMoreEmpty([Empty, Empty, Empty]);
    assert [] + [Empty] == [Empty] && [Empty] + [Empty] == [Empty, Empty] && [Empty, Empty] + [Empty] == [Empty, Empty, Empty];
    assert [Empty, Empty, Empty] + [Empty] == [Empty, Empty, Empty, Empty];
  }

  ghost predicate SameSizes(got: seq<seq<byte>>, sizes: seq<nat>) {
    |got| == |sizes| && forall i :: 0 <= i < |got| ==> |got[i]| == sizes[i]
  }

  /** Writes the parts, as long as all of each is counted. */
  method WriteParts(w: Writer, parts: seq<seq<byte>>) returns (ok: bool)
    requires w.Writable() && !w.Lost() && w.InOrder() && w.stream == [] && w.nErasedBlocks > w.nReservedBlocks
    modifies w, w.buffer
    ensures w.Writable()
    ensures !w.Lost() ==> ok && w.InOrder() && w.stream == Flat(parts)
    ensures w.Lost() <==> w.Brim() <= |Flat(parts)|
    ensures w.Lost() ==> w.Exceeds(|Flat(parts)|, w.room)
    ensures NoneSingle(parts) ==> (ok <==> |Flat(parts)| <= w.Brim())
    ensures w.spilled != [] <==> EndsAt(parts, w.Brim())
    ensures |w.blocks| == old(|w.blocks|) && w.buffer == old(w.buffer) && w.room == old(w.room) && w.nErasedBlocks == old(w.nErasedBlocks)
  {
    hide w.ValidAt, w.InOrder, w.Exceeds, Flat, NoRoom, w.Brim, EndsAt;
    FlatNothing();
    w.BelowBrim();
    ghost var at := 0;
    for i := 0 to |parts|
      invariant w.Writable() && 0 <= at <= i
      invariant !w.Lost() ==> w.InOrder() && w.stream == Flat(parts[..i]) && |Flat(parts[..i])| < w.Brim() && w.spilled == []
      invariant w.Lost() ==> |Flat(parts[..at])| == w.Brim() && |Flat(parts[..i])| == w.Brim() + |w.spilled| && w.Exceeds(w.Brim(), w.room)
      invariant w.Lost() && NoneSingle(parts) ==> w.spilled == []
      invariant |w.blocks| == old(|w.blocks|) && w.buffer == old(w.buffer) && w.room == old(w.room) && w.nErasedBlocks == old(w.nErasedBlocks)
    {
      FlatStep(parts, i);
      ghost var lost := w.Lost();
      var n := w.Write(parts[i]);
      assert n == |parts[i]| ==> parts[i][..n] == parts[i];
      if n < |parts[i]| {
        w.MoreExceeds(w.Brim(), |Flat(parts)|, w.room);
        Overrun(parts, at, i, w.Brim(), lost);
        return false;
      }
      if !lost { at := i + 1; }
    }
    assert parts[..|parts|] == parts;
    if w.Lost() { w.MoreExceeds(w.Brim(), |Flat(parts)|, w.room); }
    AllCounted(parts, at, w.Brim(), |w.spilled|, w.Lost());
    ok := true;
  }

  /** A part has run over the length at which the stream is lost: it ended an earlier part, or none. */
  lemma Overrun(parts: seq<seq<byte>>, at: nat, i: nat, brim: nat, lost: bool)
    requires at <= i < |parts| && |Flat(parts[..i + 1])| > brim
    requires if lost then |Flat(parts[..at])| == brim else |Flat(parts[..i])| < brim
    ensures brim < |Flat(parts)| && (EndsAt(parts, brim) <==> lost)
  {
    hide Flat;
    assert parts[..|parts|] == parts;
    FlatGrows(parts, i + 1, |parts|);
    forall j | 0 <= j <= |parts| && !lost ensures |Flat(parts[..j])| != brim {
      if j <= i { FlatGrows(parts, j, i); } else { FlatGrows(parts, i + 1, j); }
    }
  }

  lemma AllCounted(parts: seq<seq<byte>>, at: nat, brim: nat, spilled: nat, lost: bool)
    requires at <= |parts| && if lost then |Flat(parts[..at])| == brim && |Flat(parts)| == brim + spilled else |Flat(parts)| < brim && spilled == 0
    ensures EndsAt(parts, brim) <==> spilled > 0
  {
    hide Flat;
  }

  /** Reads pieces of the given sizes. */
  method ReadParts(r: Reader, sizes: seq<nat>) returns (got: seq<seq<byte>>)
    requires r.Valid() && r.Whole() && r.at == 0
    modifies r
    ensures r.Valid() && r.at <= Total(sizes) && Flat(got) == r.stream[..r.at]
    ensures r.at < Total(sizes) ==> r.byteOffs == r.chunkBytes && AtEnd(r.pages, r.pageSeq, r.maxBlocks)
    ensures r.at == Total(sizes) ==> SameSizes(got, sizes)
  {
    hide r.Valid, Flat, Total, AtEnd;
    FlatNothing();
    got := [];
    for i := 0 to |sizes|
      invariant r.Valid() && r.at == Total(sizes[..i]) && r.at <= |r.stream| && Flat(got) == r.stream[..r.at]
      invariant |got| == i && forall j :: 0 <= j < i ==> |got[j]| == sizes[j]
    {
      TotalGrows(sizes, i);
      ghost var before := r.at;
      var out := r.Read(sizes[i]);
      FlatAppend(got, out);
      got := got + [out];
      assert r.stream[..r.at] == r.stream[..before] + out;
      if |out| < sizes[i] { return; }
    }
    assert sizes[..|sizes|] == sizes;
  }
}
