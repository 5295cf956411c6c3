/** Reading, writing and resizing files through the short-operation cache (yaffs_guts.c). A file is a row of bytes that
    continues in zeros; the cache never shows. */
module FileCache {
  import opened Answers
  import opened Arith
  import opened Bytes
  import opened FileCacheState

  const SMALL_HOLE_THRESHOLD: nat := 4

  class FileSystem {
    const chunkBytes: nat
    const cacheBypassAligned: bool
    const device: nat -> bool  // the answers to the questions whether there is room for more chunks and whether a write has worked
    var cache: seq<Entry>
    var files: map<nat, File>
    var cacheLastUse: int
    var asked: nat  // how many questions have been answered

    ghost var intact: bool  // no write to flash has failed so far
    ghost var markers: seq<(nat, nat)>  // the headers written to mark the start of a hole: file and size

    ghost function S(): State
      reads this
    {
      State(cache, files)
    }

    ghost predicate Valid()
      reads this
    {
      chunkBytes > 0 && Shape(S(), chunkBytes) && (intact ==> Coherent(S(), chunkBytes))
    }

    /** A file system with these files, all empty, and nothing cached yet. */
    constructor (chunkBytes: nat, cacheBypassAligned: bool, nCaches: nat, objs: set<nat>, device: nat -> bool)
      requires chunkBytes > 0 && 0 !in objs
      ensures this.chunkBytes == chunkBytes && this.cacheBypassAligned == cacheBypassAligned && this.device == device
      ensures asked == 0 && cacheLastUse == 0 && |cache| == nCaches && files.Keys == objs
      ensures intact && markers == [] && Fits(S(), chunkBytes) && Holds(map o | o in objs :: [])
    {
      this.chunkBytes, this.cacheBypassAligned, this.device, asked := chunkBytes, cacheBypassAligned, device, 0;
      cache := seq(nCaches, _ => UnusedSlot(chunkBytes));
      files := map o | o in objs :: File(0, 0, map[]);
      cacheLastUse, intact, markers := 0, true, [];
      new;
      hide ByteAt, Shape, Coherent, ZeroFrom;
      EmptyFiles(S(), nCaches, objs, chunkBytes);
    }

    // ----- Flash -----

    method Ask() returns (ok: bool)
      modifies this`asked
      ensures ok == device(old(asked)) && asked == old(asked) + 1
    {
      ok := device(asked);
      asked := asked + 1;
    }

    /** yaffs_rd_data_obj. */
    method RdDataObj(obj: nat, c: nat) returns (data: seq<byte>)
      ensures data == Flash(files, obj, c, chunkBytes)
    {
      if obj in files && c in files[obj].chunks { return files[obj].chunks[c]; }
      data := Zeros(chunkBytes);
    }

    function StoredSize(obj: nat, c: nat, nBytes: nat): nat
      requires obj in files && c > 0
      reads this
    {
      Max(files[obj].storedSize, (c - 1) * chunkBytes + nBytes)
    }

    /** yaffs_wr_data_obj: may fail, and then nothing is written. */
    method WrDataObj(obj: nat, c: nat, data: seq<byte>, nBytes: int) returns (ok: bool)
      requires obj in files && c > 0 && |data| == chunkBytes && 1 <= nBytes <= chunkBytes
      modifies this`files, this`intact, this`asked
      ensures ok == device(old(asked)) && asked == old(asked) + 1
      ensures ok ==> files == Written(old(files), obj, c, data, old(StoredSize(obj, c, nBytes))) && intact == old(intact)
      ensures !ok ==> files == old(files)[obj := old(files)[obj].(storedSize := old(StoredSize(obj, c, nBytes)))] && !intact
    {
      files := files[obj := files[obj].(storedSize := StoredSize(obj, c, nBytes))];
      ok := Ask();
      if ok {
        files := files[obj := files[obj].(chunks := files[obj].chunks[c := data])];
      } else {
        intact := false;
      }
    }

    // ----- The cache -----

    /** yaffs_find_chunk_cache. */
    method FindChunkCache(obj: nat, c: nat) returns (i: nat)
      ensures i == Slot(cache, obj, c)
    {
      i := 0;
      while i < |cache|
        invariant i <= |cache| && forall k :: 0 <= k < i ==> !For(cache[k], obj, c)
      {
        if For(cache[i], obj, c) { return; }
        i := i + 1;
      }
    }

    /** yaffs_use_cache; whoever writes also makes the slot dirty. */
    method UseCache(i: nat)
      requires Valid() && i < |cache|
      modifies this`cache, this`cacheLastUse
      ensures Valid() && OnlyTouched(old(cache), cache) && NoEffect(old(S()), S(), chunkBytes)
      ensures cacheLastUse == (if 0 <= old(cacheLastUse) <= 100000000 then old(cacheLastUse) + 1 else 1) && cache[i].lastUse == cacheLastUse
      ensures forall k :: 0 <= k < |cache| && k != i ==>
                cache[k].lastUse == if 0 <= old(cacheLastUse) <= 100000000 || k == 0 then old(cache)[k].lastUse else 0
    {
      hide Shape, Coherent, Effect;
      if cacheLastUse < 0 || cacheLastUse > 100000000 {
        for k := 1 to |cache|
          invariant OnlyTouched(old(cache), cache)
          invariant forall j :: 0 <= j < |cache| ==> cache[j].lastUse == if 1 <= j < k then 0 else old(cache)[j].lastUse
        {
          cache := cache[k := cache[k].(lastUse := 0)];
        }
        cacheLastUse := 0;
      }
      cacheLastUse := cacheLastUse + 1;
      cache := cache[i := cache[i].(lastUse := cacheLastUse)];
      TouchStep(old(S()), S(), chunkBytes);
    }

    /** yaffs_flush_single_cache; a slot is never locked between calls. */
    method FlushSingle(i: nat, discard: bool)
      requires Valid() && i < |cache| && cache[i].owner != 0
      modifies this`cache, this`files, this`intact, this`asked
      ensures Valid() && SameSizes(old(files), files) && |cache| == old(|cache|)
      ensures forall k :: 0 <= k < |cache| && k != i ==> cache[k] == old(cache[k])
      ensures cache[i] == old(cache[i]).(dirty := false, owner := if discard then 0 else old(cache[i]).owner)
      ensures !old(cache[i].dirty) ==> files == old(files)
      ensures asked >= old(asked)
      ensures intact ==> old(intact) && NoEffect(old(S()), S(), chunkBytes)
    {
      assert EntryOk(cache[i], files, chunkBytes);
      NoEffectAtAll(S(), chunkBytes);
      if cache[i].dirty { var ok := WriteBack(i); }
      label Clean:
      if discard {
        if intact {
          assert Coherent(S(), chunkBytes) && Shape(S(), chunkBytes);
          DropStep(S(), chunkBytes, i);
        } else {
          AfterDrop(S(), chunkBytes, i);
        }
        cache := cache[i := cache[i].(owner := 0)];
        if intact { NoEffectThen(old(S()), old@Clean(S()), S(), 0, 0, [], chunkBytes); }
      }
    }

    /** Writes a dirty slot to flash; it counts as clean even if that failed. */
    method WriteBack(i: nat) returns (ok: bool)
      requires Valid() && i < |cache| && cache[i].owner != 0 && cache[i].dirty
      modifies this`cache, this`files, this`intact, this`asked
      ensures Valid() && SameSizes(old(files), files) && cache == old(cache)[i := old(cache)[i].(dirty := false)]
      ensures intact ==> old(intact) && NoEffect(old(S()), S(), chunkBytes)
      ensures ok == device(old(asked)) && asked == old(asked) + 1 && (ok ==> intact == old(intact)) && (!ok ==> !intact)
    {
      var e := cache[i];
      assert EntryOk(e, files, chunkBytes);
      WriteBackStep(S(), chunkBytes, i, StoredSize(e.owner, e.chunkId, e.nBytes));
      ShapeCleaned(S(), chunkBytes, i, StoredSize(e.owner, e.chunkId, e.nBytes));
      ok := WrDataObj(e.owner, e.chunkId, e.data, e.nBytes);
      cache := cache[i := e.(dirty := false)];
    }

    /** yaffs_flush_file_cache. */
    method FlushFileCache(obj: nat, discard: bool)
      requires Valid() && obj != 0
      modifies this`cache, this`files, this`intact, this`asked
      ensures Valid() && SameSizes(old(files), files) && |cache| == old(|cache|)
      ensures forall k :: 0 <= k < |cache| ==> cache[k] == if old(cache)[k].owner != obj then old(cache)[k]
                                                          else old(cache)[k].(dirty := false, owner := if discard then 0 else obj)
      ensures (forall k :: 0 <= k < |cache| && old(cache)[k].owner == obj ==> !old(cache)[k].dirty) ==> files == old(files)
      ensures asked >= old(asked)
      ensures intact ==> old(intact) && NoEffect(old(S()), S(), chunkBytes)
    {
      hide Shape, Coherent, Effect;
      NoEffectAtAll(S(), chunkBytes);
      for i := 0 to |cache|
        invariant Valid() && SameSizes(old(files), files) && |cache| == old(|cache|)
        invariant forall k :: 0 <= k < |cache| ==> cache[k] == if k < i then Flushed(old(cache)[k], obj, discard) else old(cache)[k]
        invariant (forall k :: 0 <= k < |cache| && old(cache)[k].owner == obj ==> !old(cache)[k].dirty) ==> files == old(files)
        invariant asked >= old(asked)
        invariant intact ==> old(intact) && NoEffect(old(S()), S(), chunkBytes)
      {
        if cache[i].owner == obj {
          ghost var mid := S();
          FlushSingle(i, discard);
          if intact { NoEffectThen(old(S()), mid, S(), 0, 0, [], chunkBytes); }
        }
      }
    }

    /** yaffs_flush_whole_cache: afterwards everything that has been written is on flash. */
    method FlushWholeCache(discard: bool)
      requires Valid()
      modifies this`cache, this`files, this`intact, this`asked
      ensures Valid() && SameSizes(old(files), files) && |cache| == old(|cache|)
      ensures intact ==> old(intact) && NoEffect(old(S()), S(), chunkBytes)
      ensures asked >= old(asked)
      ensures intact ==> forall o, c :: o != 0 ==> Flash(files, o, c, chunkBytes) == View(S(), o, c, chunkBytes)
      ensures forall k :: 0 <= k < |cache| && cache[k].owner != 0 ==> !cache[k].dirty
    {
      hide Shape, Coherent, Effect;
      NoEffectAtAll(S(), chunkBytes);
      while true
        invariant Valid() && SameSizes(old(files), files) && |cache| == old(|cache|)
        invariant intact ==> old(intact) && NoEffect(old(S()), S(), chunkBytes)
        invariant asked >= old(asked)
        decreases DirtySlots(cache)
      {
        var obj := 0;
        var i := 0;
        while i < |cache| && obj == 0
          invariant i <= |cache|
          invariant if obj == 0 then forall k :: 0 <= k < i ==> cache[k].owner == 0 || !cache[k].dirty
                    else 0 < i && cache[i - 1].owner == obj && cache[i - 1].dirty
        {
          if cache[i].owner != 0 && cache[i].dirty { obj := cache[i].owner; }
          i := i + 1;
        }
        if obj == 0 { break; }
        ghost var mid := S();
        FlushFileCache(obj, discard);
        if intact { NoEffectThen(old(S()), mid, S(), 0, 0, [], chunkBytes); }
        assert i - 1 in DirtySlots(mid.cache) && i - 1 !in DirtySlots(cache) && DirtySlots(cache) <= DirtySlots(mid.cache);
      }
      if intact {
        forall o, c | o != 0 ensures Flash(files, o, c, chunkBytes) == View(S(), o, c, chunkBytes) {
          CleanView(S(), o, c, chunkBytes);
        }
      }
    }

    /** yaffs_grab_chunk_cache: an unused slot, or the least recently used one after it has been flushed. */
    method GrabChunkCache() returns (i: nat)
      requires Valid() && |cache| > 0
      modifies this`cache, this`files, this`intact, this`asked
      ensures Valid() && SameSizes(old(files), files) && |cache| == old(|cache|) && i < |cache| && cache[i].owner == 0
      ensures forall k :: 0 <= k < |cache| && k != i ==> cache[k] == old(cache)[k]
      ensures old(cache)[i].owner == 0
              || forall k :: 0 <= k < |cache| ==> old(cache)[k].owner != 0 && old(cache)[i].lastUse <= old(cache)[k].lastUse
      ensures asked >= old(asked)
      ensures intact ==> old(intact) && NoEffect(old(S()), S(), chunkBytes)
    {
      hide Shape, Coherent, Effect;
      i := 0;
      while i < |cache|
        invariant i <= |cache| && forall k :: 0 <= k < i ==> cache[k].owner != 0
      {
        if cache[i].owner == 0 {
          NoEffectAtAll(S(), chunkBytes);
          return;
        }
        i := i + 1;
      }
      i := 0;
      for k := 1 to |cache|
        invariant i < |cache| && forall j :: 0 <= j < k ==> cache[i].lastUse <= cache[j].lastUse
      {
        if cache[k].lastUse < cache[i].lastUse { i := k; }
      }
      FlushSingle(i, true);
    }

    /** Gives a chunk that is not cached a slot and loads it. */
    method LoadChunk(obj: nat, c: nat) returns (i: nat)
      requires Valid() && |cache| > 0 && obj in files && obj != 0 && c > 0 && Slot(cache, obj, c) == |cache|
      modifies this`cache, this`files, this`intact, this`asked
      ensures Valid() && SameSizes(old(files), files) && |cache| == old(|cache|) && i < |cache| && For(cache[i], obj, c)
      ensures Slot(cache, obj, c) == i && asked >= old(asked)
      ensures intact ==> old(intact) && NoEffect(old(S()), S(), chunkBytes)
    {
      hide Shape, Coherent, Effect, Flash;
      i := GrabChunkCache();
      label Grabbed:
      StillUncached(old(cache), cache, obj, c, i);
      var data := RdDataObj(obj, c);
      LoadStep(S(), chunkBytes, i, obj, c, cache[i].lastUse);
      cache := cache[i := Entry(obj, c, data, 0, false, cache[i].lastUse)];
      if intact { NoEffectThen(old(S()), old@Grabbed(S()), S(), 0, 0, [], chunkBytes); }
    }

    // ----- Reading -----

    /** One round of yaffs_file_rd: some bytes of a chunk, through the cache unless the chunk is wanted whole. */
    method ReadChunk(obj: nat, c: nat, start: nat, nCopy: nat) returns (piece: seq<byte>)
      requires Valid() && obj in files && obj != 0 && c > 0 && start + nCopy <= chunkBytes
      modifies this`cache, this`files, this`intact, this`asked, this`cacheLastUse
      ensures Valid() && SameSizes(old(files), files) && |cache| == old(|cache|)
      ensures intact ==> old(intact) && NoEffect(old(S()), S(), chunkBytes)
      ensures |piece| == nCopy && asked >= old(asked)
      ensures if |cache| == 0 || (old(Slot(cache, obj, c)) == |cache| && nCopy == chunkBytes) then cache == old(cache) && cacheLastUse == old(cacheLastUse)
              else Slot(cache, obj, c) < |cache| && cache[Slot(cache, obj, c)].lastUse == cacheLastUse
      ensures intact ==> forall j :: 0 <= j < nCopy ==> piece[j] == ByteAt(old(S()), obj, StartOf(c, chunkBytes) + start + j, chunkBytes)
    {
      hide Shape, Coherent, Effect, Flash, ByteAt;
      NoEffectAtAll(S(), chunkBytes);
      ViewLength(S(), obj, c, chunkBytes);
      var i := FindChunkCache(obj, c);
      if i < |cache| || nCopy != chunkBytes {
        if |cache| > 0 {
          if i == |cache| { i := LoadChunk(obj, c); }
          label Cached:
          UseCache(i);
          SlotAgrees(old@Cached(cache), cache, obj, c);
          if intact { NoEffectThen(old(S()), old@Cached(S()), S(), 0, 0, [], chunkBytes); }
          ViewLength(S(), obj, c, chunkBytes);
          piece := cache[i].data[start..start + nCopy];
        } else {
          var data := RdDataObj(obj, c);
          piece := data[start..start + nCopy];
        }
      } else {
        piece := RdDataObj(obj, c);
      }
      if intact { PieceBytes(old(S()), S(), obj, c, start, piece, chunkBytes); }
    }

    /** yaffs_addr_to_chunk: how many whole chunks lie before an offset, and how far it lies into the next. */
    method AddrToChunk(offset: nat) returns (chunk: nat, start: nat)
      requires chunkBytes > 0
      ensures start < chunkBytes && Start(chunk + 1, chunkBytes) + start == offset
    {
      chunk, start := offset / chunkBytes, offset % chunkBytes;
      DivBounds(offset, chunkBytes);
    }

    /** yaffs_file_rd: the bytes of the file at the offset, and no change to any file. */
    method FileRd(obj: nat, offset: nat, nBytes: nat) returns (buffer: seq<byte>)
      requires Valid() && obj in files && obj != 0
      modifies this`cache, this`files, this`intact, this`asked, this`cacheLastUse
      ensures Valid() && SameSizes(old(files), files) && |cache| == old(|cache|)
      ensures intact ==> old(intact) && NoEffect(old(S()), S(), chunkBytes)
      ensures |buffer| == nBytes && asked >= old(asked)
      ensures intact ==> forall j :: 0 <= j < nBytes ==> buffer[j] == ByteAt(old(S()), obj, offset + j, chunkBytes)
    {
      hide Shape, Coherent, Effect, ByteAt;
      NoEffectAtAll(S(), chunkBytes);
      var n, pos := nBytes, offset;
      buffer := [];
      while n > 0
        invariant Valid() && SameSizes(old(files), files) && |cache| == old(|cache|)
        invariant intact ==> old(intact) && NoEffect(old(S()), S(), chunkBytes)
        invariant asked >= old(asked)
        invariant n >= 0 && |buffer| + n == nBytes && pos == offset + |buffer|
        invariant intact ==> forall j :: 0 <= j < |buffer| ==> buffer[j] == ByteAt(old(S()), obj, offset + j, chunkBytes)
      {
        var chunk, start := AddrToChunk(pos);
        chunk := chunk + 1;
        var nCopy := if start + n < chunkBytes then n else chunkBytes - start;
        ghost var mid := S();
        var piece := ReadChunk(obj, chunk, start, nCopy);
        if intact {
          forall j | 0 <= j < nCopy ensures piece[j] == ByteAt(old(S()), obj, pos + j, chunkBytes) {
            SameBytes(old(S()), mid, chunkBytes, obj, pos + j);
          }
          NoEffectThen(old(S()), mid, S(), 0, 0, [], chunkBytes);
        }
        n := n - nCopy;
        pos := pos + nCopy;
        buffer := buffer + piece;
      }
    }

    // ----- Writing -----

    /** One round of yaffs_do_file_wr: a piece of a chunk goes into the cache, or past it when it is a whole chunk and
        the device is set up so. It is refused when no space can be promised for it. */
    method WriteChunk(obj: nat, c: nat, start: nat, piece: seq<byte>, nWriteback: nat, writeThrough: bool) returns (ok: bool)
      requires Valid() && obj in files && obj != 0 && c > 0 && start + |piece| <= chunkBytes && |piece| > 0 && 1 <= nWriteback <= chunkBytes
      requires StartOf(c, chunkBytes) + nWriteback <= Max(files[obj].size, StartOf(c, chunkBytes) + start + |piece|)
      modifies this`cache, this`files, this`intact, this`asked, this`cacheLastUse
      ensures Valid() && SameSizes(old(files), files) && |cache| == old(|cache|)
      ensures intact ==> old(intact)
      ensures intact && ok ==> Effect(old(S()), S(), obj, StartOf(c, chunkBytes) + start, piece, chunkBytes)
      ensures intact && !ok ==> NoEffect(old(S()), S(), chunkBytes)
      ensures asked >= old(asked) && (!ok ==> SaidNo(device, old(asked), asked))
      ensures intact && ok && writeThrough ==> !Dirty(cache, obj, c)
      ensures ok && (|cache| == 0 || (|piece| == chunkBytes && cacheBypassAligned)) ==>
                Slot(cache, obj, c) == |cache| && obj in files && c in files[obj].chunks
      ensures ok && |cache| > 0 && !(|piece| == chunkBytes && cacheBypassAligned) ==> Slot(cache, obj, c) < |cache|
      ensures intact && ok && !writeThrough && |cache| > 0 && !(|piece| == chunkBytes && cacheBypassAligned) ==> Dirty(cache, obj, c)
    {
      hide Shape, Coherent, Effect, Flash, Dirty, SaidNo, Slot;
      SaidNoOne(device, asked);
      if |piece| != chunkBytes || !cacheBypassAligned {
        if |cache| > 0 {
          ok := WriteCached(obj, c, start, piece, nWriteback, writeThrough);
        } else {
          var data := RdDataObj(obj, c);
          ViewLength(S(), obj, c, chunkBytes);
          ok := WriteDirect(obj, c, start, piece, Overlay(data, start, piece), nWriteback);
        }
      } else {
        ViewLength(S(), obj, c, chunkBytes);
        assert Overlay(View(S(), obj, c, chunkBytes), start, piece) == piece;
        ok := WriteDirect(obj, c, start, piece, piece, chunkBytes);
      }
    }

    method WriteDirect(obj: nat, c: nat, start: nat, piece: seq<byte>, data: seq<byte>, nBytes: nat) returns (ok: bool)
      requires Valid() && obj in files && obj != 0 && c > 0 && start + |piece| <= chunkBytes && |piece| > 0 && 1 <= nBytes <= chunkBytes
      requires |View(S(), obj, c, chunkBytes)| == chunkBytes && data == Overlay(View(S(), obj, c, chunkBytes), start, piece)
      requires StartOf(c, chunkBytes) + nBytes <= Max(files[obj].size, StartOf(c, chunkBytes) + start + |piece|)
      modifies this`cache, this`files, this`intact, this`asked
      ensures Valid() && SameSizes(old(files), files) && |cache| == old(|cache|)
      ensures intact ==> old(intact) && ok && Effect(old(S()), S(), obj, StartOf(c, chunkBytes) + start, piece, chunkBytes)
      ensures ok == device(old(asked)) && asked == old(asked) + 1
      ensures Slot(cache, obj, c) == |cache| && !Dirty(cache, obj, c)
      ensures ok ==> obj in files && c in files[obj].chunks && files[obj].chunks[c] == data
    {
      hide Shape, Coherent, Effect, Flash, View, Dirty, Slot;
      InvalidatedSlot(S(), chunkBytes, obj, c, obj, c);
      DirectStep(S(), chunkBytes, obj, c, start, piece, StoredSize(obj, c, nBytes));
      ShapeInvalidated(S(), chunkBytes, obj, c, StoredSize(obj, c, nBytes));
      ok := WrDataObj(obj, c, data, nBytes);
      InvalidateChunkCache(obj, c);
      UncachedClean(cache, obj, c);
    }

    method InvalidateChunkCache(obj: nat, c: nat)
      modifies this`cache
      ensures cache == Invalidated(old(cache), obj, c)
    {
      var i := FindChunkCache(obj, c);
      if i < |cache| { cache := cache[i := cache[i].(owner := 0)]; }
    }

    /** The chunk has a dirty slot, for which room has been found before. */
    ghost predicate Held(obj: nat, c: nat)
      reads this
    {
      var i := Slot(cache, obj, c);
      i < |cache| && cache[i].dirty
    }

    /** A piece written to the cache. A chunk that is not cached is loaded if there is room, and one that has only been
        read is given up if there is none. Writing through puts it on flash at once. */
    method WriteCached(obj: nat, c: nat, start: nat, piece: seq<byte>, nWriteback: nat, writeThrough: bool) returns (ok: bool)
      requires Valid() && obj in files && obj != 0 && c > 0 && start + |piece| <= chunkBytes && |piece| > 0 && 1 <= nWriteback <= chunkBytes
      requires |cache| > 0
      requires StartOf(c, chunkBytes) + nWriteback <= Max(files[obj].size, StartOf(c, chunkBytes) + start + |piece|)
      modifies this`cache, this`files, this`intact, this`asked, this`cacheLastUse
      ensures Valid() && SameSizes(old(files), files) && |cache| == old(|cache|)
      ensures intact ==> old(intact)
      ensures intact && ok ==> Effect(old(S()), S(), obj, StartOf(c, chunkBytes) + start, piece, chunkBytes)
      ensures intact && !ok ==> NoEffect(old(S()), S(), chunkBytes)
      ensures asked >= old(asked) && (!ok ==> SaidNo(device, old(asked), asked))
      ensures intact && ok && writeThrough ==> !Dirty(cache, obj, c)
      ensures !device(old(asked)) && !old(Held(obj, c)) ==> !ok && cache == old(cache) && files == old(files)
      ensures device(old(asked)) || old(Held(obj, c)) ==> Slot(cache, obj, c) < |cache| && (!writeThrough ==> ok && Dirty(cache, obj, c))
      ensures intact && (device(old(asked)) || old(Held(obj, c))) ==> ok
    {
      hide Shape, Coherent, Effect, Flash, Dirty, SaidNo, Slot;
      NoEffectAtAll(S(), chunkBytes);
      var i := FindChunkCache(obj, c);
      var available := Ask();
      if i == |cache| && available {
        i := LoadChunk(obj, c);
      } else if i < |cache| && !cache[i].dirty && !available {
        i := |cache|;
      }
      SaidNoOne(device, old(asked));
      if i == |cache| { return false; }
      ghost var mid, q := S(), asked;
      ok := WriteToSlot(i, obj, c, start, piece, nWriteback, writeThrough);
      SaidNoOne(device, q);
      if !ok { SaidNoWithin(device, q, asked, old(asked), asked); }
      if intact { NoEffectThen(old(S()), mid, S(), obj, StartOf(c, chunkBytes) + start, piece, chunkBytes); }
    }

    method WriteToSlot(i: nat, obj: nat, c: nat, start: nat, piece: seq<byte>, nWriteback: nat, writeThrough: bool) returns (ok: bool)
      requires Valid() && i < |cache| && For(cache[i], obj, c) && obj != 0 && c > 0
      requires start + |piece| <= chunkBytes && |piece| > 0 && 1 <= nWriteback <= chunkBytes
      requires obj in files
      requires StartOf(c, chunkBytes) + nWriteback <= Max(files[obj].size, StartOf(c, chunkBytes) + start + |piece|)
      modifies this`cache, this`files, this`intact, this`asked, this`cacheLastUse
      ensures Valid() && SameSizes(old(files), files) && |cache| == old(|cache|) && Slot(cache, obj, c) < |cache|
      ensures intact ==> old(intact) && ok && Effect(old(S()), S(), obj, StartOf(c, chunkBytes) + start, piece, chunkBytes)
      ensures if writeThrough then ok == device(old(asked)) && asked == old(asked) + 1 && !Dirty(cache, obj, c)
              else ok && Dirty(cache, obj, c) && asked == old(asked)
    {
      hide Shape, Coherent, Effect, Flash, Slot;
      PutInSlot(i, start, piece, nWriteback);
      ok := true;
      if writeThrough {
        ghost var mid := S();
        ok := WriteBack(i);
        if intact { ThenNoEffect(old(S()), mid, S(), obj, StartOf(c, chunkBytes) + start, piece, chunkBytes); }
        CachedClean(S(), chunkBytes, i);
      }
      assert For(cache[i], obj, c);
    }

    method PutInSlot(i: nat, start: nat, piece: seq<byte>, nWriteback: nat)
      requires Valid() && i < |cache| && cache[i].owner != 0 && cache[i].chunkId > 0
      requires start + |piece| <= chunkBytes && |piece| > 0 && 1 <= nWriteback <= chunkBytes
      requires var e := cache[i];
               && e.owner in files
               && StartOf(e.chunkId, chunkBytes) + nWriteback <= Max(files[e.owner].size, StartOf(e.chunkId, chunkBytes) + start + |piece|)
      modifies this`cache, this`cacheLastUse
      ensures Valid() && |cache| == old(|cache|) && cache[i].dirty && cache[i].owner == old(cache)[i].owner && cache[i].chunkId == old(cache)[i].chunkId
      ensures forall k :: 0 <= k < |cache| && k != i ==> cache[k] == old(cache)[k].(lastUse := cache[k].lastUse)
      ensures Effect(old(S()), S(), old(cache)[i].owner, StartOf(old(cache)[i].chunkId, chunkBytes) + start, piece, chunkBytes)
    {
      hide Shape, Coherent, Effect, Flash;
      UseCache(i);
      label Used:
      ghost var c := cache[i].chunkId;
      assert |cache[i].data| == chunkBytes by { EntryLength(S(), chunkBytes, i); }
      assert Start(c, chunkBytes) == StartOf(c, chunkBytes);
      PutStep(S(), chunkBytes, i, start, piece, nWriteback, cache[i].lastUse);
      cache := cache[i := cache[i].(data := Overlay(cache[i].data, start, piece), nBytes := nWriteback, dirty := true)];
      NoEffectThen(old(S()), old@Used(S()), S(), cache[i].owner, StartOf(c, chunkBytes) + start, piece, chunkBytes);
    }

    /** How much of a chunk to write back when a piece of it is written: as much as the file had there before, or up to
        the end of the piece. */
    method Writeback(obj: nat, chunkStart: nat, start: nat, n: nat) returns (nWriteback: nat)
      requires obj in files && n > 0 && start + n < chunkBytes
      ensures nWriteback == Max(start + n, if files[obj].size < chunkStart + chunkBytes then files[obj].size - chunkStart else chunkBytes)
    {
      var size := files[obj].size;
      var nBytesRead := if chunkStart > size then 0 else size - chunkStart;
      if nBytesRead > chunkBytes { nBytesRead := chunkBytes; }
      nWriteback := if nBytesRead > start + n then nBytesRead else start + n;
    }

    method SetSize(obj: nat, size: nat)
      requires Valid() && obj in files
      modifies this`files
      ensures Valid() && Resized(old(files), files, obj, size) && Effect(old(S()), S(), obj, size, [], chunkBytes)
    {
      hide Shape, Coherent, Effect;
      SizeStep(S(), chunkBytes, obj, size);
      files := files[obj := files[obj].(size := size)];
    }

    /** yaffs_do_file_wr: writes chunk by chunk until done or refused. */
    method DoFileWr(obj: nat, buffer: seq<byte>, offset: nat, writeThrough: bool) returns (done: nat)
      requires Valid() && obj in files && obj != 0
      modifies this`cache, this`files, this`intact, this`asked, this`cacheLastUse
      ensures Valid() && |cache| == old(|cache|) && done <= |buffer|
      ensures Resized(old(files), files, obj, Max(old(files)[obj].size, offset + done))
      ensures intact ==> old(intact) && Effect(old(S()), S(), obj, offset, buffer[..done], chunkBytes)
      ensures intact && writeThrough ==> OnFlash(S(), obj, offset, done, chunkBytes)
      ensures asked >= old(asked) && (done < |buffer| ==> SaidNo(device, old(asked), asked))
    {
      hide Shape, Coherent, Effect, OnFlash, NoneDirty, AllStored, Settles, Dirty, SaidNo;
      NothingDirty(S(), obj, offset, chunkBytes);
      EffectOfNothing(S(), chunkBytes, obj, offset);
      assert buffer[..0] == [];
      var n, pos, ok := |buffer|, offset, true;
      done := 0;
      while n > 0 && ok
        invariant Valid() && SameSizes(old(files), files) && |cache| == old(|cache|)
        invariant n >= 0 && done + n == |buffer| && pos == offset + done
        invariant intact ==> old(intact) && Effect(old(S()), S(), obj, offset, buffer[..done], chunkBytes)
        invariant intact && writeThrough ==> NoneDirty(cache, obj, offset, done, chunkBytes)
        invariant asked >= old(asked) && (!ok ==> SaidNo(device, old(asked), asked))
        decreases n, ok
      {
        var chunk, start := AddrToChunk(pos);
        chunk := chunk + 1;
        var nCopy, nWriteback := chunkBytes - start, chunkBytes;
        if start + n < chunkBytes {
          nCopy := n;
          nWriteback := Writeback(obj, StartOf(chunk, chunkBytes), start, n);
        }
        ghost var mid, q := S(), asked;
        ok := WriteChunk(obj, chunk, start, buffer[done..done + nCopy], nWriteback, writeThrough);
        if ok {
          if intact {
            EffectTwice(old(S()), mid, S(), obj, offset, buffer[..done], buffer[done..done + nCopy], chunkBytes);
            OnePieceMore(buffer, done, nCopy);
            if writeThrough {
              EffectStores(mid, S(), obj, pos, buffer[done..done + nCopy], chunkBytes);
              NoneDirtyMore(mid, S(), obj, offset, done, chunk, start, nCopy, chunkBytes);
            }
          }
          n := n - nCopy;
          pos := pos + nCopy;
          done := done + nCopy;
        } else {
          SaidNoWithin(device, q, asked, old(asked), asked);
          if intact {
            ThenNoEffect(old(S()), mid, S(), obj, offset, buffer[..done], chunkBytes);
            if writeThrough {
              EffectElsewhere(mid, S(), obj, chunkBytes);
              StillNoneDirty(mid, S(), obj, offset, done, 0, chunkBytes);
            }
          }
        }
      }
      ghost var mid := S();
      EffectOfNothing(S(), chunkBytes, obj, offset + done);
      if offset + done > files[obj].size { SetSize(obj, offset + done); }
      if intact {
        assert buffer[..done] + [] == buffer[..done];
        EffectTwice(old(S()), mid, S(), obj, offset, buffer[..done], [], chunkBytes);
        if writeThrough {
          StillNoneDirty(mid, S(), obj, offset, done, offset + done, chunkBytes);
          EffectStores(old(S()), S(), obj, offset, buffer[..done], chunkBytes);
          StoredOnFlash(S(), obj, offset, done, chunkBytes);
        }
      }
    }

    // ----- Resizing -----

    /** yaffs_prune_chunks: takes the chunks beyond a new size out of the file, from the last one down. */
    method PruneChunks(obj: nat, newSize: nat)
      requires obj in files && chunkBytes > 0
      modifies this`files
      ensures files == old(files)[obj := old(files)[obj].(chunks := Without(old(files)[obj].chunks, FirstBeyond(newSize, chunkBytes),
                                                                            LastWithin(old(files)[obj].size, chunkBytes)))]
    {
      var oldSize := files[obj].size;
      var lastDel := if oldSize > 0 then (oldSize - 1) / chunkBytes else 0;
      var startDel := (newSize + chunkBytes - 1) / chunkBytes;
      lastDel := lastDel + 1;
      startDel := startDel + 1;
      assert Without(files[obj].chunks, lastDel + 1, lastDel) == files[obj].chunks;
      var i := lastDel;
      while i >= startDel
        invariant startDel == FirstBeyond(newSize, chunkBytes) && lastDel == LastWithin(oldSize, chunkBytes) && i <= lastDel
        invariant i >= startDel - 1 || i == lastDel
        invariant files == old(files)[obj := old(files)[obj].(chunks := Without(old(files)[obj].chunks, i + 1, lastDel))]
      {
        hide FirstBeyond, LastWithin;
        assert Without(old(files)[obj].chunks, i, lastDel) == Without(old(files)[obj].chunks, i + 1, lastDel) - {i};
        files := files[obj := files[obj].(chunks := files[obj].chunks - {i})];
        i := i - 1;
      }
      assert Without(old(files)[obj].chunks, i + 1, lastDel) == Without(old(files)[obj].chunks, startDel, lastDel);
    }

    /** yaffs_resize_file_down: drops the chunks beyond the new size and rewrites the last one with zeros at its end. */
    method ResizeFileDown(obj: nat, newSize: nat)
      requires Valid() && obj in files && obj != 0
      requires intact ==> ZeroFrom(S(), obj, files[obj].size, chunkBytes) && CachedWithin(cache, obj, newSize, chunkBytes)
      modifies this`files, this`intact, this`asked
      ensures Valid() && Resized(old(files), files, obj, newSize)
      ensures intact ==> old(intact) && CutEffect(old(S()), S(), obj, newSize, chunkBytes)
      ensures asked == old(asked) + if newSize % chunkBytes != 0 then 1 else 0
      ensures intact == (old(intact) && (newSize % chunkBytes != 0 ==> device(old(asked))))
    {
      hide Shape, Coherent, ZeroFrom, CutEffect, Cut, Without;
      ghost var last := newSize / chunkBytes + 1;
      ghost var partial := Cut(Flash(files, obj, last, chunkBytes), last, newSize, chunkBytes);
      FlashLength(S(), obj, last, chunkBytes);
      ShapeShrunk(S(), chunkBytes, obj, newSize, partial);
      if intact {
        ShrunkEffect(S(), obj, newSize, partial, chunkBytes);
        ShrunkCoherent(S(), obj, newSize, partial, chunkBytes);
      }
      CutChunks(obj, newSize, partial);
    }

    method CutChunks(obj: nat, newSize: nat, ghost partial: seq<byte>)
      requires obj in files && chunkBytes > 0 && |Flash(files, obj, newSize / chunkBytes + 1, chunkBytes)| == chunkBytes
      requires partial == Cut(Flash(files, obj, newSize / chunkBytes + 1, chunkBytes), newSize / chunkBytes + 1, newSize, chunkBytes)
      modifies this`files, this`intact, this`asked
      ensures S() == Shrunk(old(S()), obj, newSize, partial, chunkBytes)
              || (!intact && S() == old(S()).(files := old(files)[obj := File(newSize, newSize,
                    Without(old(files)[obj].chunks, FirstBeyond(newSize, chunkBytes), LastWithin(old(files)[obj].size, chunkBytes)))]))
      ensures asked == old(asked) + if newSize % chunkBytes != 0 then 1 else 0
      ensures intact == (old(intact) && (newSize % chunkBytes != 0 ==> device(old(asked))))
    {
      hide FirstBeyond, LastWithin, Cut, Without;
      var newFull, newPartial := newSize / chunkBytes, newSize % chunkBytes;
      PruneChunks(obj, newSize);
      if newPartial != 0 {
        PartialIs(newSize, chunkBytes, newFull + 1);
        assert Flash(files, obj, newFull + 1, chunkBytes) == Flash(old(files), obj, newFull + 1, chunkBytes) by {
          KeptChunk(old(files)[obj].chunks, FirstBeyond(newSize, chunkBytes), LastWithin(old(files)[obj].size, chunkBytes), newFull + 1);
        }
        var lastChunk := 1 + newFull;
        var local := RdDataObj(obj, lastChunk);
        PartialCut(local, newSize, chunkBytes);
        local := local[..newPartial] + Zeros(chunkBytes - newPartial);
        var ok := WrDataObj(obj, lastChunk, local, newPartial);
      }
      files := files[obj := files[obj].(size := newSize, storedSize := newSize)];
    }

    /** yaffs2_handle_hole: fills a small hole with zeros; a large one, or one there is no room for, is left to a marker
        on flash, a header with the size before the hole. Either way nothing reads differently. */
    method HandleHole(obj: nat, newSize: nat) returns (marker: bool)
      requires Valid() && obj in files && obj != 0 && (intact ==> Bounded(S(), chunkBytes))
      modifies this`cache, this`files, this`intact, this`asked, this`cacheLastUse, this`markers
      ensures Valid() && |cache| == old(|cache|)
      ensures marker ==> newSize > old(files)[obj].size
      ensures markers == old(markers) + if marker then [(obj, old(files)[obj].size)] else []
      ensures Resized(old(files), files, obj, if marker then old(files)[obj].size else Max(old(files)[obj].size, newSize))
      ensures asked >= old(asked) && files.Keys == old(files).Keys
      ensures newSize > old(files)[obj].size && !(newSize - old(files)[obj].size < SMALL_HOLE_THRESHOLD * chunkBytes && device(old(asked))) ==>
                marker && cache == old(cache) && files == old(files)
      ensures marker && newSize - old(files)[obj].size < SMALL_HOLE_THRESHOLD * chunkBytes ==> SaidNo(device, old(asked), asked)
      ensures intact && !marker && newSize > old(files)[obj].size ==>
                AllStored(S(), obj, old(files)[obj].size, newSize - old(files)[obj].size, chunkBytes)
      ensures intact && old(Fits(S(), chunkBytes)) && (markers == old(markers) || newSize - old(files)[obj].size >= SMALL_HOLE_THRESHOLD * chunkBytes) ==>
                Fits(S(), chunkBytes)
      ensures intact ==> old(intact) && AllBytes(old(S()), S(), chunkBytes) && Bounded(S(), chunkBytes)
    {
      hide Shape, Coherent, Effect, ZeroFrom, AllStored, Settles, KeepsEnds, SaidNo, Fits;
      var oldSize := files[obj].size;
      AllBytesRefl(S(), chunkBytes);
      if newSize <= oldSize { return false; }
      var increase := newSize - oldSize;
      var available := Ask();
      SaidNoOne(device, old(asked));
      if !(increase < SMALL_HOLE_THRESHOLD * chunkBytes && available) {
        MarkHole(obj);
        return true;
      }
      ghost var q := asked;
      var filled := FillHole(obj, newSize);
      assert 0 !in files by { NoFileZero(old(S()), chunkBytes); }
      if intact {
        EffectStores(old(S()), S(), obj, oldSize, Zeros(filled), chunkBytes);
        StillFits(old(S()), S(), obj, oldSize, Zeros(filled), chunkBytes);
        assert ZeroFrom(old(S()), obj, oldSize, chunkBytes);
        ZerosOverZeros(old(S()), S(), obj, oldSize, filled, chunkBytes);
        ZeroFromLater(S(), obj, oldSize, oldSize + filled, chunkBytes);
        BoundedFrom(old(S()), S(), obj, chunkBytes);
      }
      marker := oldSize + filled < newSize;
      if marker {
        ghost var mid := S();
        SaidNoWithin(device, q, asked, old(asked), asked + if oldSize % chunkBytes != 0 then 1 else 0);
        if intact { CachedZero(S(), obj, oldSize, chunkBytes); }
        ResizeFileDown(obj, oldSize);
        if intact {
          CutOfZeros(old(S()), mid, S(), obj, oldSize, chunkBytes);
          BoundedFrom(mid, S(), obj, chunkBytes);
        }
        MarkHole(obj);
      }
    }

    /** yaffs_update_oh with the shrink flag: a header with the size of the file as it is. */
    method MarkHole(obj: nat)
      requires obj in files
      modifies this`markers
      ensures markers == old(markers) + [(obj, files[obj].size)]
    {
      markers := markers + [(obj, files[obj].size)];
    }

    /** Writes zeros from the end of the file up to a new size, as far as they are accepted. */
    method FillHole(obj: nat, newSize: nat) returns (filled: nat)
      requires Valid() && obj in files && obj != 0 && newSize > files[obj].size
      modifies this`cache, this`files, this`intact, this`asked, this`cacheLastUse
      ensures Valid() && |cache| == old(|cache|) && old(files)[obj].size + filled <= newSize
      ensures Resized(old(files), files, obj, old(files)[obj].size + filled)
      ensures intact ==> old(intact) && Effect(old(S()), S(), obj, old(files)[obj].size, Zeros(filled), chunkBytes)
      ensures asked >= old(asked) && (filled < newSize - old(files)[obj].size ==> SaidNo(device, old(asked), asked))
    {
      hide Shape, Coherent, Effect, SaidNo;
      var oldSize := files[obj].size;
      var pos, increase, ok := oldSize, newSize - oldSize, true;
      EffectOfNothing(S(), chunkBytes, obj, oldSize);
      filled := 0;
      assert Zeros(0) == [];
      while increase > 0 && ok
        invariant Valid() && |cache| == old(|cache|) && increase >= 0 && pos + increase == newSize
        invariant oldSize + filled <= newSize && (ok ==> oldSize + filled == pos)
        invariant Resized(old(files), files, obj, oldSize + filled)
        invariant intact ==> old(intact) && Effect(old(S()), S(), obj, oldSize, Zeros(filled), chunkBytes)
        invariant asked >= old(asked) && (!ok ==> SaidNo(device, old(asked), asked))
        decreases increase, ok
      {
        var thisWrite := if increase > chunkBytes then chunkBytes else increase;
        ghost var mid, q := S(), asked;
        var written := DoFileWr(obj, Zeros(thisWrite), pos, false);
        if intact {
          assert Zeros(thisWrite)[..written] == Zeros(written) && Zeros(filled) + Zeros(written) == Zeros(filled + written);
          EffectTwice(old(S()), mid, S(), obj, oldSize, Zeros(filled), Zeros(written), chunkBytes);
        }
        filled := filled + written;
        if written == thisWrite {
          pos := pos + thisWrite;
          increase := increase - thisWrite;
        } else {
          SaidNoWithin(device, q, asked, old(asked), asked);
          ok := false;
        }
      }
    }

    // ----- The operations on files -----

    /** Everything is in order, and the files read as the rows of bytes in m. */
    ghost predicate Holds(m: Flat)
      reads this
    {
      Valid() && (intact ==> Bounded(S(), chunkBytes) && Reads(S(), m, chunkBytes))
    }

    /** yaffs_wr_file: the bytes that were accepted are the file's from then on. */
    method WrFile(obj: nat, buffer: seq<byte>, offset: nat, writeThrough: bool, ghost m: Flat) returns (done: nat)
      requires Holds(m) && obj in files && obj in m
      modifies this`cache, this`files, this`intact, this`asked, this`cacheLastUse, this`markers
      ensures done <= |buffer| && files.Keys == old(files).Keys && |cache| == old(|cache|)
      ensures Holds(m[obj := FlatWrite(m[obj], offset, buffer[..done])])
      ensures intact ==> old(intact)
      ensures markers == old(markers) || (offset > old(files)[obj].size && markers == old(markers) + [(obj, old(files)[obj].size)])
      ensures markers == old(markers) ==> files[obj].size >= offset
      ensures asked >= old(asked) && (done < |buffer| ==> SaidNo(device, old(asked), asked))
      ensures intact && writeThrough ==> OnFlash(S(), obj, offset, done, chunkBytes)
      ensures intact && markers == old(markers) && offset > old(files)[obj].size ==>
                AllStored(S(), obj, old(files)[obj].size, offset - old(files)[obj].size, chunkBytes)
      ensures intact && old(Fits(S(), chunkBytes)) && (markers == old(markers) || offset - old(files)[obj].size >= SMALL_HOLE_THRESHOLD * chunkBytes) ==>
                Fits(S(), chunkBytes)
      ensures markers != old(markers) && offset - old(files)[obj].size < SMALL_HOLE_THRESHOLD * chunkBytes ==> SaidNo(device, old(asked), asked)
    {
      hide Fits, OnFlash, AllStored, SaidNo, Shape, Coherent, Effect, ZeroFrom, Bounded, ReadsFile, AllBytes;
      assert 0 !in files by { NoFileZero(S(), chunkBytes); }
      var marker := HandleHole(obj, offset);
      ghost var mid, q := S(), asked;
      done := DoFileWr(obj, buffer, offset, writeThrough);
      if marker && offset - old(files)[obj].size < SMALL_HOLE_THRESHOLD * chunkBytes { SaidNoWithin(device, old(asked), q, old(asked), asked); }
      if done < |buffer| { SaidNoWithin(device, q, asked, old(asked), asked); }
      if intact {
        StillFits(mid, S(), obj, offset, buffer[..done], chunkBytes);
        if !marker && offset > old(files)[obj].size {
          StaysStored(mid, S(), obj, old(files)[obj].size, offset - old(files)[obj].size, obj, offset, buffer[..done], chunkBytes);
        }
        BoundedAfter(mid, S(), obj, offset, buffer[..done], files[obj].size, chunkBytes);
        WrittenBytes(old(S()), mid, S(), obj, offset, buffer[..done], chunkBytes);
        ReadsWritten(old(S()), S(), m, obj, offset, buffer[..done], chunkBytes);
      }
    }

    /** yaffs_resize_file: cuts the file off, or lets it go on in zeros. */
    method ResizeFile(obj: nat, newSize: nat, ghost m: Flat)
      requires Holds(m) && obj in files && obj in m
      modifies this`cache, this`files, this`intact, this`asked, this`cacheLastUse, this`markers
      ensures files.Keys == old(files).Keys && |cache| == old(|cache|)
      ensures Holds(m[obj := FlatResize(m[obj], newSize)])
      ensures intact ==> old(intact)
      ensures files[obj].size == newSize
      ensures markers == old(markers) || (newSize > old(files)[obj].size && markers == old(markers) + [(obj, old(files)[obj].size)])
      ensures intact && markers == old(markers) && newSize > old(files)[obj].size ==>
                AllStored(S(), obj, old(files)[obj].size, newSize - old(files)[obj].size, chunkBytes)
      ensures forall k :: 0 <= k < |cache| && newSize <= old(files)[obj].size ==> cache[k].owner != obj
      ensures newSize == old(files)[obj].size && (forall k :: 0 <= k < |cache| && old(cache)[k].owner == obj ==> !old(cache)[k].dirty) ==>
                files == old(files)
      ensures intact && old(Fits(S(), chunkBytes)) && (markers == old(markers) || newSize - old(files)[obj].size >= SMALL_HOLE_THRESHOLD * chunkBytes) ==>
                Fits(S(), chunkBytes)
      ensures asked >= old(asked)
      ensures markers != old(markers) && newSize - old(files)[obj].size < SMALL_HOLE_THRESHOLD * chunkBytes ==> SaidNo(device, old(asked), asked)
    {
      hide Fits, SaidNo, AllStored, Shape, Coherent, Effect, ZeroFrom, Bounded, ReadsFile, AllBytes, CutEffect;
      assert 0 !in files by { NoFileZero(S(), chunkBytes); }
      var oldSize := files[obj].size;
      FlushFileCache(obj, true);
      InvalidateWholeCache(obj);
      label Flushed:
      if intact {
        SameFits(old(S()), S(), chunkBytes);
        BoundedSame(old(S()), S(), chunkBytes);
        NoEffectBytes(old(S()), S(), chunkBytes);
        ReadsSame(old(S()), S(), m, chunkBytes);
      }
      if newSize == oldSize {
        if intact { NoResize(S(), m, obj, chunkBytes); }
      } else if newSize > oldSize {
        ghost var q := asked;
        Extend(obj, newSize, m);
        if SaidNo(device, q, asked) { SaidNoWithin(device, q, asked, old(asked), asked); }
      } else {
        if intact { BoundedAt(S(), chunkBytes, obj); }
        ResizeFileDown(obj, newSize);
        if intact {
          FitsCut(old@Flushed(S()), S(), obj, newSize, chunkBytes);
          AfterCut(old@Flushed(S()), S(), m, obj, newSize, chunkBytes);
        }
      }
    }

    method Extend(obj: nat, newSize: nat, ghost m: Flat)
      requires Holds(m) && obj in files && obj in m && newSize > files[obj].size
      modifies this`cache, this`files, this`intact, this`asked, this`cacheLastUse, this`markers
      ensures files.Keys == old(files).Keys && |cache| == old(|cache|)
      ensures Holds(m[obj := FlatResize(m[obj], newSize)])
      ensures markers == old(markers) || markers == old(markers) + [(obj, old(files)[obj].size)]
      ensures intact ==> old(intact)
      ensures intact && markers == old(markers) && newSize > old(files)[obj].size ==>
                AllStored(S(), obj, old(files)[obj].size, newSize - old(files)[obj].size, chunkBytes)
      ensures files[obj].size == newSize
      ensures intact && old(Fits(S(), chunkBytes)) && (markers == old(markers) || newSize - old(files)[obj].size >= SMALL_HOLE_THRESHOLD * chunkBytes) ==>
                Fits(S(), chunkBytes)
      ensures asked >= old(asked)
      ensures markers != old(markers) && newSize - old(files)[obj].size < SMALL_HOLE_THRESHOLD * chunkBytes ==> SaidNo(device, old(asked), asked)
    {
      hide Fits, SaidNo, AllStored, Shape, Coherent, Effect, ZeroFrom, ReadsFile, AllBytes;
      assert 0 !in files by { NoFileZero(S(), chunkBytes); }
      var marker := HandleHole(obj, newSize);
      ghost var mid := S();
      SetSize(obj, newSize);
      if intact {
        if !marker { StaysStored(mid, S(), obj, old(files)[obj].size, newSize - old(files)[obj].size, obj, newSize, [], chunkBytes); }
        StillFits(mid, S(), obj, newSize, [], chunkBytes);
        NothingBytes(mid, S(), obj, newSize, chunkBytes);
        BoundedAfter(mid, S(), obj, newSize, [], newSize, chunkBytes);
        AfterExtend(old(S()), mid, S(), m, obj, newSize, chunkBytes);
      }
    }

    method ReadFile(obj: nat, offset: nat, nBytes: nat, ghost m: Flat) returns (buffer: seq<byte>)
      requires Holds(m) && obj in files && obj in m
      modifies this`cache, this`files, this`intact, this`asked, this`cacheLastUse
      ensures Holds(m) && files.Keys == old(files).Keys && (intact ==> old(intact))
      ensures intact && old(Fits(S(), chunkBytes)) ==> Fits(S(), chunkBytes)
      ensures asked >= old(asked) && markers == old(markers)
      ensures intact ==> buffer == FlatRead(m[obj], offset, nBytes)
    {
      hide Fits, Shape, Coherent, Effect, Bounded, ByteAt;
      assert 0 !in files by { NoFileZero(S(), chunkBytes); }
      buffer := FileRd(obj, offset, nBytes);
      if intact {
        assert ReadsFile(old(S()), obj, m[obj], chunkBytes);
        SameFits(old(S()), S(), chunkBytes);
        SameAfter(old(S()), S(), m, chunkBytes);
      }
    }

    /** One operation on the files. A write may be cut short for want of space; done says how much was accepted. */
    method Do(op: Op, ghost m: Flat) returns (done: nat, shown: seq<byte>)
      requires Holds(m) && files.Keys == m.Keys
      modifies this`cache, this`files, this`intact, this`asked, this`cacheLastUse, this`markers
      ensures Holds(Applied(m, op, done)) && files.Keys == old(files).Keys && (intact ==> old(intact) && shown == Shown(m, op))
      ensures op.Write? ==> done <= |op.data| && (op.obj in files && done < |op.data| ==> SaidNo(device, old(asked), asked))
      ensures op.Write? && op.obj in files && op.through && intact ==> OnFlash(S(), op.obj, op.offset, done, chunkBytes)
      ensures op.Flush? && op.obj in files ==> forall k :: 0 <= k < |cache| && cache[k].owner == op.obj ==> !cache[k].dirty && !op.discard
      ensures op.FlushAll? ==> forall k :: 0 <= k < |cache| && cache[k].owner != 0 ==> !cache[k].dirty
      ensures asked >= old(asked) && (intact && old(Fits(S(), chunkBytes)) && AllYes(device, old(asked), asked) ==> Fits(S(), chunkBytes))
    {
      hide Fits, AllYes, OnFlash, AllStored, SaidNo, Shape, Coherent, Effect, ZeroFrom, Bounded, ReadsFile, AllBytes, FlatWrite, FlatResize;
      done, shown := 0, [];
      match op {
        case Write(obj, data, offset, through) => 
          if obj in files {
            done := WrFile(obj, data, offset, through, m);
            NotBoth(device, old(asked), asked);
          }
        case Read(obj, offset, nBytes) => if obj in files { shown := ReadFile(obj, offset, nBytes, m); }
        case Resize(obj, size) => 
          if obj in files {
            ResizeFile(obj, size, m);
            NotBoth(device, old(asked), asked);
          }
        case Flush(obj, discard) =>
          if obj in files {
            assert obj != 0 by { NoFileZero(S(), chunkBytes); }
            FlushFileCache(obj, discard);
            if intact {
              SameFits(old(S()), S(), chunkBytes);
              SameAfter(old(S()), S(), m, chunkBytes);
            }
          }
        case FlushAll(discard) =>
          FlushWholeCache(discard);
          if intact {
            SameFits(old(S()), S(), chunkBytes);
            SameAfter(old(S()), S(), m, chunkBytes);
          }
      }
    }

    /** Any run of operations: reads show the latest bytes written, as if there were no cache, and no flash. */
    method Run(ops: seq<Op>, ghost m: Flat) returns (done: seq<nat>, shown: seq<seq<byte>>)
      requires Holds(m) && files.Keys == m.Keys
      modifies this`cache, this`files, this`intact, this`asked, this`cacheLastUse, this`markers
      ensures |done| == |shown| == |ops| && Holds(AppliedAll(m, ops, done)) && (intact ==> old(intact))
      ensures intact ==> forall k :: 0 <= k < |ops| ==> shown[k] == Shown(AppliedAll(m, ops[..k], done[..k]), ops[k])
      ensures intact && old(Fits(S(), chunkBytes)) && AllYes(device, old(asked), asked) ==> Fits(S(), chunkBytes)
    {
      hide Fits, AllYes, Valid, Holds, Applied, Shown;
      done, shown := [], [];
      ghost var now := m;
      for i := 0 to |ops|
        invariant |done| == |shown| == i && now == AppliedAll(m, ops[..i], done) && Holds(now) && files.Keys == now.Keys
        invariant intact ==> old(intact)
        invariant asked >= old(asked) && (intact && old(Fits(S(), chunkBytes)) && AllYes(device, old(asked), asked) ==> Fits(S(), chunkBytes))
        invariant intact ==> forall k :: 0 <= k < i ==> shown[k] == Shown(AppliedAll(m, ops[..k], done[..k]), ops[k])
      {
        ghost var q := asked;
        var d, out := Do(ops[i], now);
        assert ops[..i + 1][..i] == ops[..i] && (done + [d])[..i] == done;
        assert forall k :: 0 <= k < i ==> (done + [d])[..k] == done[..k];
        AllYesParts(device, old(asked), q, asked);
        AppliedKeys(now, ops[i], d);
        now := Applied(now, ops[i], d);
        done, shown := done + [d], shown + [out];
      }
      assert ops[..|ops|] == ops;
    }

    /** yaffs_invalidate_whole_cache. */
    method InvalidateWholeCache(obj: nat)
      requires obj != 0
      modifies this`cache
      ensures |cache| == old(|cache|) && forall k :: 0 <= k < |cache| ==> cache[k] == if old(cache)[k].owner == obj then old(cache)[k].(owner := 0) else old(cache)[k]
      ensures (forall k :: 0 <= k < |old(cache)| ==> old(cache)[k].owner != obj) ==> cache == old(cache)
    {
      for i := 0 to |cache|
        invariant |cache| == old(|cache|)
        invariant forall k :: 0 <= k < |cache| ==> cache[k] == if k < i && old(cache)[k].owner == obj then old(cache)[k].(owner := 0) else old(cache)[k]
      {
        if cache[i].owner == obj { cache := cache[i := cache[i].(owner := 0)]; }
      }
    }
  }

  lemma SaidNoOne(answers: nat -> bool, a: nat)
    ensures !answers(a) ==> SaidNo(answers, a, a + 1)
  {
  }

  ghost predicate CachedWithin(cache: seq<Entry>, obj: nat, size: nat, chunkBytes: nat) {
    forall i :: 0 <= i < |cache| && cache[i].owner == obj ==> TailZero(cache[i].data, cache[i].chunkId, size, chunkBytes)
  }

  lemma CachedZero(s: State, obj: nat, size: nat, chunkBytes: nat)
    requires ZeroFrom(s, obj, size, chunkBytes)
    ensures CachedWithin(s.cache, obj, size, chunkBytes)
  {
  }

  /** One file has a new size, and no other has. */
  ghost predicate Resized(a: map<nat, File>, b: map<nat, File>, obj: nat, size: nat) {
    a.Keys == b.Keys && forall o :: o in a ==> b[o].size == if o == obj then size else a[o].size
  }

  lemma OnePieceMore(buffer: seq<byte>, done: nat, n: nat)
    requires done + n <= |buffer|
    ensures buffer[..done] + buffer[done..done + n] == buffer[..done + n]
  {
  }

  lemma EmptyFiles(s: State, nCaches: nat, objs: set<nat>, chunkBytes: nat)
    requires chunkBytes > 0 && 0 !in objs
    requires s == State(seq(nCaches, _ => UnusedSlot(chunkBytes)), map o | o in objs :: File(0, 0, map[]))
    ensures Shape(s, chunkBytes) && Coherent(s, chunkBytes) && Bounded(s, chunkBytes) && Reads(s, map o | o in objs :: [], chunkBytes)
  {
    forall o: nat, c: nat | o != 0 ensures View(s, o, c, chunkBytes) == Zeros(chunkBytes) && Flash(s.files, o, c, chunkBytes) == Zeros(chunkBytes) {
      assert forall i :: 0 <= i < |s.cache| ==> !For(s.cache[i], o, c);
    }
  }

  /** Start, for a chunk that there can be. */
  function StartOf(c: nat, chunkBytes: nat): (r: nat)
    requires c > 0
    ensures r == Start(c, chunkBytes)
  {
    (c - 1) * chunkBytes
  }

  ghost function DirtySlots(cache: seq<Entry>): set<nat> {
    set i | 0 <= i < |cache| && cache[i].owner != 0 && cache[i].dirty
  }

  lemma StillUncached(was: seq<Entry>, now: seq<Entry>, obj: nat, c: nat, i: nat)
    requires obj != 0 && Slot(was, obj, c) == |was| == |now| && i < |now| && now[i].owner == 0
    requires forall k :: 0 <= k < |now| && k != i ==> now[k] == was[k]
    ensures Slot(now, obj, c) == |now|
  {
    SlotAgrees(was, now, obj, c);
  }

  function Flushed(e: Entry, obj: nat, discard: bool): Entry {
    if e.owner == obj then e.(dirty := false, owner := if discard then 0 else obj) else e
  }
}
