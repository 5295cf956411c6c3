/** The short-operation cache as a value (yaffs_guts.c): a few chunk buffers, shared by all files, in front of what is
    on flash. */
module FileCacheState {
  import opened Arith
  import opened Bytes

  /** A cache slot; object 0 stands for an unused one. */
  datatype Entry = Entry(owner: nat, chunkId: nat, data: seq<byte>, nBytes: int, dirty: bool, lastUse: int)

  /** A file's chunks on flash, numbered from 1, each of a whole chunk's bytes. */
  datatype File = File(size: nat, storedSize: nat, chunks: map<nat, seq<byte>>)

  datatype State = State(cache: seq<Entry>, files: map<nat, File>)

  // ----- Reading -----

  /** A chunk as it is on flash; a hole reads as zeros. */
  function Flash(files: map<nat, File>, obj: nat, c: nat, chunkBytes: nat): seq<byte> {
    if obj in files && c in files[obj].chunks then files[obj].chunks[c] else Zeros(chunkBytes)
  }

  /** A slot in which nothing has been cached yet. */
  function UnusedSlot(chunkBytes: nat): Entry {
    Entry(0, 0, Zeros(chunkBytes), 0, false, 0)
  }

  predicate For(e: Entry, obj: nat, c: nat) {
    e.owner == obj && e.chunkId == c
  }

  /** The first slot for a chunk, or the number of slots. */
  function Slot(cache: seq<Entry>, obj: nat, c: nat): (r: nat)
    ensures r <= |cache|
    ensures r == |cache| || For(cache[r], obj, c)
    ensures forall i :: 0 <= i < r ==> !For(cache[i], obj, c)
  {
    if cache == [] || For(cache[0], obj, c) then 0 else 1 + Slot(cache[1..], obj, c)
  }

  /** What a file's chunk reads as. */
  function View(s: State, obj: nat, c: nat, chunkBytes: nat): seq<byte> {
    var i := Slot(s.cache, obj, c);
    if i < |s.cache| then s.cache[i].data else Flash(s.files, obj, c, chunkBytes)
  }

  // ----- Invariants -----

  /** Buffers and chunks have a chunk's length; slots belong to files, and no two to the same chunk. */
  ghost predicate Shape(s: State, chunkBytes: nat) {
    && chunkBytes > 0 && 0 !in s.files
    && (forall i :: 0 <= i < |s.cache| ==> EntryOk(s.cache[i], s.files, chunkBytes))
    && (forall i, j :: 0 <= i < j < |s.cache| ==> Distinct(s.cache[i], s.cache[j]))
    && (forall o, c :: o in s.files && c in s.files[o].chunks ==> c > 0 && |s.files[o].chunks[c]| == chunkBytes)
  }

  ghost predicate EntryOk(e: Entry, files: map<nat, File>, chunkBytes: nat) {
    && |e.data| == chunkBytes
    && (e.owner != 0 ==> e.owner in files && e.chunkId > 0)
    && (e.dirty ==> 1 <= e.nBytes <= chunkBytes)
  }

  ghost predicate Distinct(a: Entry, b: Entry) {
    a.owner != 0 && a.owner == b.owner ==> a.chunkId != b.chunkId
  }

  /** A slot that is not dirty holds what is on flash. */
  ghost predicate Coherent(s: State, chunkBytes: nat) {
    forall i :: 0 <= i < |s.cache| ==> CleanOk(s.cache[i], s.files, chunkBytes)
  }

  ghost predicate CleanOk(e: Entry, files: map<nat, File>, chunkBytes: nat) {
    e.owner != 0 && !e.dirty ==> e.data == Flash(files, e.owner, e.chunkId, chunkBytes)
  }

  /** Every chunk of every file reads the same. */
  ghost predicate SameView(s: State, t: State, chunkBytes: nat) {
    forall o, c :: o != 0 ==> View(t, o, c, chunkBytes) == View(s, o, c, chunkBytes)
  }

  /** Every chunk reads the same but one, which reads as data. */
  ghost predicate ViewPut(s: State, t: State, obj: nat, k: nat, data: seq<byte>, chunkBytes: nat) {
    forall o, c :: o != 0 ==> View(t, o, c, chunkBytes) == if o == obj && c == k then data else View(s, o, c, chunkBytes)
  }

  // ----- Slots -----

  /** The slot found is fixed by which slots are for the chunk. */
  lemma SlotAgrees(a: seq<Entry>, b: seq<Entry>, obj: nat, c: nat)
    requires |a| == |b| && forall k :: 0 <= k < |a| ==> (For(a[k], obj, c) <==> For(b[k], obj, c))
    ensures Slot(a, obj, c) == Slot(b, obj, c)
  {
  }

  /** With distinct slots, the slot found is the only one. */
  lemma SlotIs(s: State, chunkBytes: nat, i: nat)
    requires Shape(s, chunkBytes) && i < |s.cache| && s.cache[i].owner != 0
    ensures Slot(s.cache, s.cache[i].owner, s.cache[i].chunkId) == i
  {
    assert forall k :: 0 <= k < i ==> Distinct(s.cache[k], s.cache[i]);
  }

  /** Changing one slot matters only to the chunks it held or holds. */
  lemma SlotElsewhere(cache: seq<Entry>, i: nat, e: Entry, obj: nat, c: nat)
    requires i < |cache| && (For(e, obj, c) <==> For(cache[i], obj, c))
    ensures Slot(cache[i := e], obj, c) == Slot(cache, obj, c)
  {
    SlotAgrees(cache[i := e], cache, obj, c);
  }

  lemma ShapeWith(s: State, chunkBytes: nat, i: nat, e: Entry)
    requires Shape(s, chunkBytes) && i < |s.cache| && EntryOk(e, s.files, chunkBytes)
    requires e.owner == 0 || Slot(s.cache, e.owner, e.chunkId) in {i, |s.cache|}
    ensures Shape(s.(cache := s.cache[i := e]), chunkBytes)
  {
    var t := s.(cache := s.cache[i := e]);
    forall a, b | 0 <= a < b < |t.cache| ensures Distinct(t.cache[a], t.cache[b]) {
      if a != i && b != i {
        assert Distinct(s.cache[a], s.cache[b]);
      } else {
        var other: nat := if a == i then b else a;
        if e.owner != 0 && For(s.cache[other], e.owner, e.chunkId) { SlotIs(s, chunkBytes, other); }
      }
    }
    forall a | 0 <= a < |t.cache| ensures EntryOk(t.cache[a], t.files, chunkBytes) { assert EntryOk(s.cache[a], s.files, chunkBytes); }
  }

  lemma CoherentWith(s: State, chunkBytes: nat, i: nat, e: Entry)
    requires Coherent(s, chunkBytes) && i < |s.cache| && CleanOk(e, s.files, chunkBytes)
    ensures Coherent(s.(cache := s.cache[i := e]), chunkBytes)
  {
    var t := s.(cache := s.cache[i := e]);
    forall a | 0 <= a < |t.cache| ensures CleanOk(t.cache[a], t.files, chunkBytes) { assert CleanOk(s.cache[a], s.files, chunkBytes); }
  }

  // ----- Steps -----

  /** A file with one chunk written. */
  function Written(files: map<nat, File>, obj: nat, c: nat, data: seq<byte>, storedSize: nat): map<nat, File>
    requires obj in files
  {
    files[obj := files[obj].(chunks := files[obj].chunks[c := data], storedSize := storedSize)]
  }

  lemma FlashWritten(files: map<nat, File>, obj: nat, c: nat, data: seq<byte>, storedSize: nat, chunkBytes: nat, o: nat, k: nat)
    requires obj in files
    ensures Flash(Written(files, obj, c, data, storedSize), o, k, chunkBytes) == if o == obj && k == c then data else Flash(files, o, k, chunkBytes)
  {
  }

  lemma ShapeWritten(s: State, chunkBytes: nat, obj: nat, c: nat, data: seq<byte>, storedSize: nat)
    requires Shape(s, chunkBytes) && obj in s.files && c > 0 && |data| == chunkBytes
    ensures Shape(s.(files := Written(s.files, obj, c, data, storedSize)), chunkBytes)
  {
    var t := s.(files := Written(s.files, obj, c, data, storedSize));
    forall a | 0 <= a < |t.cache| ensures EntryOk(t.cache[a], t.files, chunkBytes) { assert EntryOk(s.cache[a], s.files, chunkBytes); }
  }

  /** Writing a slot to flash: the slot is clean and nothing reads differently. */
  lemma AfterWriteBack(s: State, chunkBytes: nat, i: nat, storedSize: nat)
    requires Shape(s, chunkBytes) && i < |s.cache| && s.cache[i].owner in s.files
    ensures var e := s.cache[i];
            var t := State(s.cache[i := e.(dirty := false)], Written(s.files, e.owner, e.chunkId, e.data, storedSize));
            && Shape(t, chunkBytes) && (Coherent(s, chunkBytes) ==> Coherent(t, chunkBytes)) && SameView(s, t, chunkBytes)
  {
    var e := s.cache[i];
    var mid := s.(files := Written(s.files, e.owner, e.chunkId, e.data, storedSize));
    assert EntryOk(e, s.files, chunkBytes);
    ShapeWritten(s, chunkBytes, e.owner, e.chunkId, e.data, storedSize);
    SlotIs(s, chunkBytes, i);
    SlotIs(mid, chunkBytes, i);
    ShapeWith(mid, chunkBytes, i, e.(dirty := false));
    var t := State(s.cache[i := e.(dirty := false)], mid.files);
    forall o, c | o != 0 ensures View(t, o, c, chunkBytes) == View(s, o, c, chunkBytes) {
      SlotElsewhere(s.cache, i, e.(dirty := false), o, c);
    }
    if Coherent(s, chunkBytes) {
      forall a | 0 <= a < |t.cache| ensures CleanOk(t.cache[a], t.files, chunkBytes) {
        assert CleanOk(s.cache[a], s.files, chunkBytes);
        if a < i { assert Distinct(s.cache[a], s.cache[i]); }
        if i < a { assert Distinct(s.cache[i], s.cache[a]); }
      }
    }
  }

  /** Giving up a clean slot. */
  lemma AfterDrop(s: State, chunkBytes: nat, i: nat)
    requires Shape(s, chunkBytes) && i < |s.cache|
    ensures var t := s.(cache := s.cache[i := s.cache[i].(owner := 0)]);
            && Shape(t, chunkBytes)
            && (Coherent(s, chunkBytes) ==> Coherent(t, chunkBytes))
            && (Coherent(s, chunkBytes) && !s.cache[i].dirty ==> SameView(s, t, chunkBytes))
  {
    var e := s.cache[i];
    var t := s.(cache := s.cache[i := e.(owner := 0)]);
    assert EntryOk(e, s.files, chunkBytes);
    ShapeWith(s, chunkBytes, i, e.(owner := 0));
    if Coherent(s, chunkBytes) {
      CoherentWith(s, chunkBytes, i, e.(owner := 0));
      if !e.dirty {
        forall o, c | o != 0 ensures View(t, o, c, chunkBytes) == View(s, o, c, chunkBytes) {
          if For(e, o, c) {
            SlotIs(s, chunkBytes, i);
            assert CleanOk(e, s.files, chunkBytes);
            NotElsewhere(s, chunkBytes, i, e.(owner := 0), o, c);
          } else {
            SlotElsewhere(s.cache, i, e.(owner := 0), o, c);
          }
        }
      }
    }
  }

  /** Once its slot is given to something else, a chunk is not cached. */
  lemma NotElsewhere(s: State, chunkBytes: nat, i: nat, e: Entry, obj: nat, c: nat)
    requires Shape(s, chunkBytes) && i < |s.cache| && obj != 0 && For(s.cache[i], obj, c) && !For(e, obj, c)
    ensures Slot(s.cache[i := e], obj, c) == |s.cache|
  {
    forall k | 0 <= k < |s.cache| && k != i ensures !For(s.cache[k], obj, c) {
      assert if k < i then Distinct(s.cache[k], s.cache[i]) else Distinct(s.cache[i], s.cache[k]);
    }
  }

  /** Loading a chunk that is not cached into an unused slot. */
  lemma AfterLoad(s: State, chunkBytes: nat, i: nat, obj: nat, c: nat, lastUse: int)
    requires Shape(s, chunkBytes) && i < |s.cache| && s.cache[i].owner == 0 && obj in s.files && c > 0
    requires Slot(s.cache, obj, c) == |s.cache|
    ensures var t := s.(cache := s.cache[i := Entry(obj, c, Flash(s.files, obj, c, chunkBytes), 0, false, lastUse)]);
            && Shape(t, chunkBytes) && SameView(s, t, chunkBytes) && Slot(t.cache, obj, c) == i
            && (Coherent(s, chunkBytes) ==> Coherent(t, chunkBytes))
  {
    var e := Entry(obj, c, Flash(s.files, obj, c, chunkBytes), 0, false, lastUse);
    var t := s.(cache := s.cache[i := e]);
    ShapeWith(s, chunkBytes, i, e);
    SlotIs(t, chunkBytes, i);
    forall o, k | o != 0 ensures View(t, o, k, chunkBytes) == View(s, o, k, chunkBytes) {
      if !For(e, o, k) { SlotElsewhere(s.cache, i, e, o, k); }
    }
    if Coherent(s, chunkBytes) { CoherentWith(s, chunkBytes, i, e); }
  }

  /** Changing the bytes of a slot, which makes it dirty. */
  lemma AfterPut(s: State, chunkBytes: nat, i: nat, data: seq<byte>, nBytes: int, lastUse: int)
    requires Shape(s, chunkBytes) && i < |s.cache| && s.cache[i].owner != 0 && |data| == chunkBytes && 1 <= nBytes <= chunkBytes
    ensures var e := s.cache[i];
            var t := s.(cache := s.cache[i := e.(data := data, nBytes := nBytes, dirty := true, lastUse := lastUse)]);
            && Shape(t, chunkBytes) && ViewPut(s, t, e.owner, e.chunkId, data, chunkBytes)
            && (Coherent(s, chunkBytes) ==> Coherent(t, chunkBytes))
  {
    var e := s.cache[i];
    var e' := e.(data := data, nBytes := nBytes, dirty := true, lastUse := lastUse);
    assert EntryOk(e, s.files, chunkBytes);
    SlotIs(s, chunkBytes, i);
    ShapeWith(s, chunkBytes, i, e');
    var t := s.(cache := s.cache[i := e']);
    forall o, c | o != 0 ensures View(t, o, c, chunkBytes) == if o == e.owner && c == e.chunkId then data else View(s, o, c, chunkBytes) {
      SlotElsewhere(s.cache, i, e', o, c);
      if o == e.owner && c == e.chunkId { assert View(t, o, c, chunkBytes) == t.cache[i].data; }
    }
    if Coherent(s, chunkBytes) { CoherentWith(s, chunkBytes, i, e'); }
  }

  /** The slots are the same but for when they were last used. */
  ghost predicate OnlyTouched(a: seq<Entry>, b: seq<Entry>) {
    |a| == |b| && forall i :: 0 <= i < |a| ==> b[i] == a[i].(lastUse := b[i].lastUse)
  }

  lemma AfterTouch(s: State, t: State, chunkBytes: nat)
    requires Shape(s, chunkBytes) && t.files == s.files && OnlyTouched(s.cache, t.cache)
    ensures Shape(t, chunkBytes) && SameView(s, t, chunkBytes) && (Coherent(s, chunkBytes) ==> Coherent(t, chunkBytes))
  {
    forall o, c | o != 0 ensures View(t, o, c, chunkBytes) == View(s, o, c, chunkBytes) {
      SlotAgrees(s.cache, t.cache, o, c);
    }
    forall a | 0 <= a < |t.cache| ensures EntryOk(t.cache[a], t.files, chunkBytes) { assert EntryOk(s.cache[a], s.files, chunkBytes); }
    forall a, b | 0 <= a < b < |t.cache| ensures Distinct(t.cache[a], t.cache[b]) { assert Distinct(s.cache[a], s.cache[b]); }
    if Coherent(s, chunkBytes) {
      forall a | 0 <= a < |t.cache| ensures CleanOk(t.cache[a], t.files, chunkBytes) { assert CleanOk(s.cache[a], s.files, chunkBytes); }
    }
  }

  /** Writing a whole chunk past the cache, whose slot for the chunk is then given up. */
  lemma AfterDirect(s: State, chunkBytes: nat, obj: nat, c: nat, data: seq<byte>, storedSize: nat)
    requires Shape(s, chunkBytes) && obj in s.files && c > 0 && |data| == chunkBytes
    ensures var t := State(Invalidated(s.cache, obj, c), Written(s.files, obj, c, data, storedSize));
            && Shape(t, chunkBytes) && ViewPut(s, t, obj, c, data, chunkBytes) && (Coherent(s, chunkBytes) ==> Coherent(t, chunkBytes))
  {
    var mid := s.(files := Written(s.files, obj, c, data, storedSize));
    ShapeWritten(s, chunkBytes, obj, c, data, storedSize);
    var t := mid.(cache := Invalidated(s.cache, obj, c));
    var i := Slot(s.cache, obj, c);
    hide Slot, Shape, Flash;
    if i < |s.cache| { AfterDrop(mid, chunkBytes, i); }
    DirectView(s, chunkBytes, obj, c, data, storedSize);
    if Coherent(s, chunkBytes) { DirectCoherent(s, chunkBytes, obj, c, data, storedSize); }
  }

  lemma DirectView(s: State, chunkBytes: nat, obj: nat, c: nat, data: seq<byte>, storedSize: nat)
    requires Shape(s, chunkBytes) && obj in s.files && c > 0 && |data| == chunkBytes
    ensures ViewPut(s, State(Invalidated(s.cache, obj, c), Written(s.files, obj, c, data, storedSize)), obj, c, data, chunkBytes)
  {
    hide Shape, Invalidated, Slot, Written, Flash;
    var t := State(Invalidated(s.cache, obj, c), Written(s.files, obj, c, data, storedSize));
    forall o, k | o != 0 ensures View(t, o, k, chunkBytes) == if o == obj && k == c then data else View(s, o, k, chunkBytes) {
      InvalidatedSlot(s, chunkBytes, obj, c, o, k);
      FlashWritten(s.files, obj, c, data, storedSize, chunkBytes, o, k);
    }
  }

  lemma DirectCoherent(s: State, chunkBytes: nat, obj: nat, c: nat, data: seq<byte>, storedSize: nat)
    requires Shape(s, chunkBytes) && obj in s.files && c > 0 && |data| == chunkBytes && Coherent(s, chunkBytes)
    ensures Coherent(State(Invalidated(s.cache, obj, c), Written(s.files, obj, c, data, storedSize)), chunkBytes)
  {
    hide Shape, Slot, Written, Flash;
    var t := State(Invalidated(s.cache, obj, c), Written(s.files, obj, c, data, storedSize));
    forall a | 0 <= a < |t.cache| ensures CleanOk(t.cache[a], t.files, chunkBytes) {
      var e := t.cache[a];
      assert CleanOk(s.cache[a], s.files, chunkBytes);
      if s.cache[a].owner != 0 { SlotIs(s, chunkBytes, a); }
      FlashWritten(s.files, obj, c, data, storedSize, chunkBytes, e.owner, e.chunkId);
    }
  }

  function Invalidated(cache: seq<Entry>, obj: nat, c: nat): (r: seq<Entry>)
    ensures |r| == |cache|
  {
    var i := Slot(cache, obj, c);
    if i < |cache| then cache[i := cache[i].(owner := 0)] else cache
  }

  lemma InvalidatedSlot(s: State, chunkBytes: nat, obj: nat, c: nat, o: nat, k: nat)
    requires Shape(s, chunkBytes) && o != 0
    ensures Slot(Invalidated(s.cache, obj, c), o, k) == if o == obj && k == c then |s.cache| else Slot(s.cache, o, k)
    ensures var r := Slot(Invalidated(s.cache, obj, c), o, k);
            r < |s.cache| ==> Invalidated(s.cache, obj, c)[r] == s.cache[r]
  {
    var i := Slot(s.cache, obj, c);
    if i < |s.cache| {
      if o == obj && k == c {
        NotElsewhere(s, chunkBytes, i, s.cache[i].(owner := 0), o, k);
      } else {
        SlotElsewhere(s.cache, i, s.cache[i].(owner := 0), o, k);
      }
    }
  }

  // ----- Bytes of files -----

  /** The offset in a file of the first byte of chunk c, where chunks count from 1. */
  function Start(c: nat, chunkBytes: nat): int {
    (c - 1) * chunkBytes
  }

  lemma ChunkOf(off: nat, chunkBytes: nat, c: nat)
    requires chunkBytes > 0 && c > 0
    ensures off / chunkBytes + 1 == c <==> Start(c, chunkBytes) <= off < Start(c, chunkBytes) + chunkBytes
    ensures off / chunkBytes + 1 == c ==> off % chunkBytes == off - Start(c, chunkBytes)
  {
    var q := off / chunkBytes;
    assert off == q * chunkBytes + off % chunkBytes;
    if q < c - 1 { Multiples(q + 1, c - 1, chunkBytes); }
    if q > c - 1 { Multiples(c, q, chunkBytes); }
  }

  function ByteAt(s: State, obj: nat, off: nat, chunkBytes: nat): byte
    requires chunkBytes > 0
  {
    var v := View(s, obj, off / chunkBytes + 1, chunkBytes);
    if off % chunkBytes < |v| then v[off % chunkBytes] else 0
  }

  /** The bytes of a chunk from offset z of the file on are zeros. */
  ghost predicate TailZero(data: seq<byte>, c: nat, z: nat, chunkBytes: nat) {
    forall j :: 0 <= j < |data| && Start(c, chunkBytes) + j >= z ==> data[j] == 0
  }

  /** Neither a slot nor a chunk on flash holds anything but zeros from offset z of the file on. */
  ghost predicate ZeroFrom(s: State, obj: nat, z: nat, chunkBytes: nat) {
    && (forall i :: 0 <= i < |s.cache| && s.cache[i].owner == obj ==> TailZero(s.cache[i].data, s.cache[i].chunkId, z, chunkBytes))
    && (obj in s.files ==> forall c :: c in s.files[obj].chunks ==> TailZero(s.files[obj].chunks[c], c, z, chunkBytes))
  }

  ghost predicate PieceZero(offset: nat, piece: seq<byte>, z: nat) {
    forall k :: 0 <= k < |piece| && offset + k >= z ==> piece[k] == 0
  }

  function Overlaid(was: byte, off: nat, offset: nat, piece: seq<byte>): byte {
    if offset <= off < offset + |piece| then piece[off - offset] else was
  }

  /** A byte of a file once a piece has been written to another, or to itself. */
  function ByteAfter(s: State, o: nat, off: nat, obj: nat, offset: nat, piece: seq<byte>, chunkBytes: nat): byte
    requires chunkBytes > 0
  {
    if o == obj then Overlaid(ByteAt(s, o, off, chunkBytes), off, offset, piece) else ByteAt(s, o, off, chunkBytes)
  }

  // ----- What is on flash -----

  /** A chunk has been changed in the cache and not written back yet. */
  ghost predicate Dirty(cache: seq<Entry>, obj: nat, c: nat) {
    exists i :: 0 <= i < |cache| && For(cache[i], obj, c) && cache[i].dirty
  }

  /** A chunk is on flash or about to be: it is no hole. */
  ghost predicate Stored(s: State, obj: nat, c: nat) {
    Dirty(s.cache, obj, c) || (obj in s.files && c in s.files[obj].chunks)
  }

  /** Some of n bytes from an offset on lie in chunk c. */
  ghost predicate Touches(offset: nat, n: nat, c: nat, chunkBytes: nat) {
    n > 0 && Start(c, chunkBytes) < offset + n && offset < Start(c, chunkBytes) + chunkBytes
  }

  /** Chunks become dirty only where bytes have been written, all these are stored, and none is lost. */
  ghost predicate Settles(s: State, t: State, obj: nat, offset: nat, n: nat, chunkBytes: nat) {
    forall o: nat, c: nat :: o != 0 ==>
      && (Dirty(t.cache, o, c) ==> Dirty(s.cache, o, c) || (o == obj && Touches(offset, n, c, chunkBytes)))
      && (Stored(s, o, c) || (c > 0 && o == obj && Touches(offset, n, c, chunkBytes)) ==> Stored(t, o, c))
  }

  /** The chunks that some bytes lie in are on flash as they are read, and not dirty. */
  ghost predicate OnFlash(s: State, obj: nat, offset: nat, n: nat, chunkBytes: nat) {
    forall c: nat :: c > 0 && Touches(offset, n, c, chunkBytes) ==>
      && !Dirty(s.cache, obj, c)
      && obj in s.files && c in s.files[obj].chunks && s.files[obj].chunks[c] == View(s, obj, c, chunkBytes)
  }

  ghost predicate NoneDirty(cache: seq<Entry>, obj: nat, offset: nat, n: nat, chunkBytes: nat) {
    forall c: nat :: c > 0 && Touches(offset, n, c, chunkBytes) ==> !Dirty(cache, obj, c)
  }

  ghost predicate AllStored(s: State, obj: nat, offset: nat, n: nat, chunkBytes: nat) {
    forall c: nat :: c > 0 && Touches(offset, n, c, chunkBytes) ==> Stored(s, obj, c)
  }

  /** No byte of a file is recorded to lie at z or beyond: not by its size or its stored size, nor by a slot that is still
      to be written. */
  ghost predicate Ends(s: State, o: nat, z: nat, chunkBytes: nat) {
    && (o in s.files ==> s.files[o].size <= z && s.files[o].storedSize <= z)
    && forall i :: 0 <= i < |s.cache| && s.cache[i].owner == o && s.cache[i].dirty ==> Start(s.cache[i].chunkId, chunkBytes) + s.cache[i].nBytes <= z
  }

  /** Nothing is recorded to lie further on than before, but for the bytes written. */
  ghost predicate KeepsEnds(s: State, t: State, obj: nat, offset: nat, n: nat, chunkBytes: nat) {
    forall o: nat, z: nat :: o != 0 && Ends(s, o, z, chunkBytes) && (o == obj ==> z >= offset + n) ==> Ends(t, o, z, chunkBytes)
  }

  /** Of every file no more is recorded than its size says. */
  ghost predicate Fits(s: State, chunkBytes: nat) {
    forall o :: o in s.files ==> Ends(s, o, s.files[o].size, chunkBytes)
  }

  lemma FitsAfter(s: State, t: State, obj: nat, offset: nat, piece: seq<byte>, chunkBytes: nat)
    requires chunkBytes > 0 && Fits(s, chunkBytes) && Effect(s, t, obj, offset, piece, chunkBytes) && 0 !in s.files
    requires t.files.Keys == s.files.Keys
    requires forall o :: o in s.files ==> t.files[o].size >= s.files[o].size && (o == obj ==> t.files[o].size >= offset + |piece|)
    ensures Fits(t, chunkBytes)
  {
    hide ByteAt, KeepsZeros, Settles;
    forall o | o in t.files ensures Ends(t, o, t.files[o].size, chunkBytes) {
      EndsLater(s, o, s.files[o].size, t.files[o].size, chunkBytes);
    }
  }

  lemma StillFits(s: State, t: State, obj: nat, offset: nat, piece: seq<byte>, chunkBytes: nat)
    requires chunkBytes > 0 && Effect(s, t, obj, offset, piece, chunkBytes) && 0 !in s.files
    requires t.files.Keys == s.files.Keys
    requires forall o :: o in s.files ==> t.files[o].size >= s.files[o].size && (o == obj ==> t.files[o].size >= offset + |piece|)
    ensures Fits(s, chunkBytes) ==> Fits(t, chunkBytes)
  {
    hide Fits, Effect;
    if Fits(s, chunkBytes) { FitsAfter(s, t, obj, offset, piece, chunkBytes); }
  }

  lemma SameFits(s: State, t: State, chunkBytes: nat)
    requires chunkBytes > 0 && NoEffect(s, t, chunkBytes) && SameSizes(s.files, t.files) && 0 !in s.files
    ensures Fits(s, chunkBytes) ==> Fits(t, chunkBytes)
  {
    hide Fits, Effect;
    StillFits(s, t, 0, 0, [], chunkBytes);
  }

  lemma FitsCut(s: State, t: State, obj: nat, size: nat, chunkBytes: nat)
    requires chunkBytes > 0 && CutEffect(s, t, obj, size, chunkBytes) && 0 !in s.files && t.files.Keys == s.files.Keys
    requires forall o :: o in s.files ==> t.files[o].size == if o == obj then size else s.files[o].size
    requires forall i :: 0 <= i < |s.cache| ==> s.cache[i].owner != obj
    ensures Fits(s, chunkBytes) ==> Fits(t, chunkBytes)
  {
    hide ByteAt, ZeroFrom, Ends;
  }

  lemma EndsLater(s: State, o: nat, z: nat, later: nat, chunkBytes: nat)
    requires Ends(s, o, z, chunkBytes) && z <= later
    ensures Ends(s, o, later, chunkBytes)
  {
    hide Start;
  }

  lemma KeepsEndsTwice(s: State, t: State, u: State, obj: nat, offset: nat, n: nat, m: nat, chunkBytes: nat)
    requires KeepsEnds(s, t, obj, offset, n, chunkBytes) && KeepsEnds(t, u, obj, offset + n, m, chunkBytes)
    ensures KeepsEnds(s, u, obj, offset, n + m, chunkBytes)
  {
    hide Ends;
  }

  lemma NothingThenKeeps(s: State, t: State, u: State, obj: nat, offset: nat, n: nat, chunkBytes: nat)
    requires KeepsEnds(s, t, 0, 0, 0, chunkBytes) && KeepsEnds(t, u, obj, offset, n, chunkBytes)
    ensures KeepsEnds(s, u, obj, offset, n, chunkBytes)
  {
    hide Ends;
  }

  lemma KeepsThenNothing(s: State, t: State, u: State, obj: nat, offset: nat, n: nat, chunkBytes: nat)
    requires KeepsEnds(s, t, obj, offset, n, chunkBytes) && KeepsEnds(t, u, 0, 0, 0, chunkBytes)
    ensures KeepsEnds(s, u, obj, offset, n, chunkBytes)
  {
    hide Ends;
  }

  lemma NothingTouched(offset: nat, chunkBytes: nat)
    ensures forall c: nat :: !Touches(offset, 0, c, chunkBytes)
  {
  }

  lemma TouchesMore(offset: nat, n: nat, m: nat, c: nat, chunkBytes: nat)
    requires chunkBytes > 0
    ensures Touches(offset, n + m, c, chunkBytes) <==> Touches(offset, n, c, chunkBytes) || Touches(offset + n, m, c, chunkBytes)
  {
    hide Start;
  }

  /** Bytes within one chunk lie in no other. */
  lemma TouchesOne(c: nat, start: nat, n: nat, k: nat, chunkBytes: nat)
    requires c > 0 && k > 0 && start + n <= chunkBytes && n > 0 && Start(c, chunkBytes) >= 0
    ensures Touches(Start(c, chunkBytes) + start, n, k, chunkBytes) <==> k == c
  {
    if k < c { Multiples(k, c - 1, chunkBytes); }
    if c < k { Multiples(c, k - 1, chunkBytes); }
  }

  ghost predicate TouchesJust(offset: nat, n: nat, c: nat, chunkBytes: nat) {
    forall k: nat :: k > 0 ==> (Touches(offset, n, k, chunkBytes) <==> k == c)
  }

  lemma TouchesOnly(c: nat, start: nat, n: nat, chunkBytes: nat)
    requires c > 0 && start + n <= chunkBytes && n > 0 && Start(c, chunkBytes) >= 0
    ensures TouchesJust(Start(c, chunkBytes) + start, n, c, chunkBytes)
  {
    hide Touches;
    var offset := Start(c, chunkBytes) + start;
    forall k: nat | k > 0 ensures Touches(offset, n, k, chunkBytes) <==> k == c {
      TouchesOne(c, start, n, k, chunkBytes);
    }
  }

  lemma SettlesTwice(s: State, t: State, u: State, obj: nat, offset: nat, n: nat, m: nat, chunkBytes: nat)
    requires chunkBytes > 0 && Settles(s, t, obj, offset, n, chunkBytes) && Settles(t, u, obj, offset + n, m, chunkBytes)
    ensures Settles(s, u, obj, offset, n + m, chunkBytes)
  {
    hide Dirty, Stored, Touches;
    forall o: nat, c: nat | o != 0
      ensures Dirty(u.cache, o, c) ==> Dirty(s.cache, o, c) || (o == obj && Touches(offset, n + m, c, chunkBytes))
      ensures Stored(s, o, c) || (c > 0 && o == obj && Touches(offset, n + m, c, chunkBytes)) ==> Stored(u, o, c)
    {
      TouchesMore(offset, n, m, c, chunkBytes);
    }
  }

  lemma SettlesItself(s: State, obj: nat, offset: nat, chunkBytes: nat)
    ensures Settles(s, s, obj, offset, 0, chunkBytes)
  {
    hide Dirty, Stored;
  }

  /** With nothing written it does not matter where. */
  lemma SettlesAnywhere(s: State, t: State, obj: nat, offset: nat, obj': nat, offset': nat, chunkBytes: nat)
    requires Settles(s, t, obj, offset, 0, chunkBytes)
    ensures Settles(s, t, obj', offset', 0, chunkBytes)
  {
    hide Dirty, Stored;
  }

  /** Nothing written before or after makes no difference. */
  lemma NothingThenSettles(s: State, t: State, u: State, obj: nat, offset: nat, n: nat, chunkBytes: nat)
    requires chunkBytes > 0 && Settles(s, t, 0, 0, 0, chunkBytes) && Settles(t, u, obj, offset, n, chunkBytes)
    ensures Settles(s, u, obj, offset, n, chunkBytes)
  {
    hide Settles;
    SettlesAnywhere(s, t, 0, 0, obj, offset, chunkBytes);
    SettlesTwice(s, t, u, obj, offset, 0, n, chunkBytes);
  }

  lemma SettlesThenNothing(s: State, t: State, u: State, obj: nat, offset: nat, n: nat, chunkBytes: nat)
    requires chunkBytes > 0 && Settles(s, t, obj, offset, n, chunkBytes) && Settles(t, u, 0, 0, 0, chunkBytes)
    ensures Settles(s, u, obj, offset, n, chunkBytes)
  {
    hide Settles;
    SettlesAnywhere(t, u, 0, 0, obj, offset + n, chunkBytes);
    SettlesTwice(s, t, u, obj, offset, n, 0, chunkBytes);
  }

  /** What was written through and not dirty stays so while more is written through. */
  lemma NoneDirtyMore(s: State, t: State, obj: nat, offset: nat, n: nat, c: nat, start: nat, m: nat, chunkBytes: nat)
    requires chunkBytes > 0 && obj != 0 && NoneDirty(s.cache, obj, offset, n, chunkBytes) && Settles(s, t, obj, offset + n, m, chunkBytes)
    requires c > 0 && start + m <= chunkBytes && m > 0 && 0 <= Start(c, chunkBytes) && Start(c, chunkBytes) + start == offset + n && !Dirty(t.cache, obj, c)
    ensures NoneDirty(t.cache, obj, offset, n + m, chunkBytes)
  {
    hide Dirty, Stored, Touches, Start;
    forall k: nat | k > 0 && Touches(offset, n + m, k, chunkBytes) ensures !Dirty(t.cache, obj, k) {
      TouchesMore(offset, n, m, k, chunkBytes);
      TouchesOne(c, start, m, k, chunkBytes);
    }
  }

  lemma NothingDirty(s: State, obj: nat, offset: nat, chunkBytes: nat)
    ensures NoneDirty(s.cache, obj, offset, 0, chunkBytes)
  {
    hide Dirty;
    NothingTouched(offset, chunkBytes);
  }

  lemma StillNoneDirty(s: State, t: State, obj: nat, offset: nat, n: nat, offset': nat, chunkBytes: nat)
    requires chunkBytes > 0 && obj != 0 && NoneDirty(s.cache, obj, offset, n, chunkBytes) && Effect(s, t, obj, offset', [], chunkBytes)
    ensures NoneDirty(t.cache, obj, offset, n, chunkBytes)
  {
    hide ByteAt, KeepsZeros, KeepsEnds, Dirty, Stored;
    NothingTouched(offset', chunkBytes);
  }

  /** What is stored and not dirty is on flash. */
  lemma StoredOnFlash(s: State, obj: nat, offset: nat, n: nat, chunkBytes: nat)
    requires Coherent(s, chunkBytes) && obj != 0 && AllStored(s, obj, offset, n, chunkBytes) && NoneDirty(s.cache, obj, offset, n, chunkBytes)
    ensures OnFlash(s, obj, offset, n, chunkBytes)
  {
    hide Touches;
    forall c: nat | c > 0 && Touches(offset, n, c, chunkBytes)
      ensures !Dirty(s.cache, obj, c) && obj in s.files && c in s.files[obj].chunks && s.files[obj].chunks[c] == View(s, obj, c, chunkBytes)
    {
      var i := Slot(s.cache, obj, c);
      if i < |s.cache| {
        assert For(s.cache[i], obj, c);
        assert CleanOk(s.cache[i], s.files, chunkBytes);
      }
    }
  }

  lemma EffectStores(s: State, t: State, obj: nat, offset: nat, piece: seq<byte>, chunkBytes: nat)
    requires chunkBytes > 0 && obj != 0 && Effect(s, t, obj, offset, piece, chunkBytes)
    ensures AllStored(t, obj, offset, |piece|, chunkBytes) && Settles(s, t, obj, offset, |piece|, chunkBytes)
  {
    hide KeepsEnds, ByteAt, KeepsZeros, Dirty, Stored, Touches;
  }

  lemma StaysStored(s: State, t: State, obj: nat, offset: nat, n: nat, obj': nat, offset': nat, piece: seq<byte>, chunkBytes: nat)
    requires chunkBytes > 0 && obj != 0 && AllStored(s, obj, offset, n, chunkBytes) && Effect(s, t, obj', offset', piece, chunkBytes)
    ensures AllStored(t, obj, offset, n, chunkBytes)
  {
    hide KeepsEnds, ByteAt, KeepsZeros, Dirty, Stored, Touches;
  }

  /** The piece has been written at the offset, and nothing else reads differently; nor has anything but the piece been
      put where there were zeros. */
  ghost predicate Effect(s: State, t: State, obj: nat, offset: nat, piece: seq<byte>, chunkBytes: nat)
    requires chunkBytes > 0
  {
    && (forall o: nat, off: nat :: o != 0 ==> ByteAt(t, o, off, chunkBytes) == ByteAfter(s, o, off, obj, offset, piece, chunkBytes))
    && KeepsZeros(s, t, obj, offset, piece, chunkBytes)
    && Settles(s, t, obj, offset, |piece|, chunkBytes)
    && KeepsEnds(s, t, obj, offset, |piece|, chunkBytes)
  }

  ghost predicate KeepsZeros(s: State, t: State, obj: nat, offset: nat, piece: seq<byte>, chunkBytes: nat) {
    forall o, z :: o != 0 && ZeroFrom(s, o, z, chunkBytes) && (o == obj ==> PieceZero(offset, piece, z)) ==> ZeroFrom(t, o, z, chunkBytes)
  }

  /** No effect at all. */
  ghost predicate NoEffect(s: State, t: State, chunkBytes: nat)
    requires chunkBytes > 0
  {
    Effect(s, t, 0, 0, [], chunkBytes)
  }

  lemma EffectTwice(s: State, t: State, u: State, obj: nat, offset: nat, piece: seq<byte>, more: seq<byte>, chunkBytes: nat)
    requires chunkBytes > 0 && Effect(s, t, obj, offset, piece, chunkBytes) && Effect(t, u, obj, offset + |piece|, more, chunkBytes)
    ensures Effect(s, u, obj, offset, piece + more, chunkBytes)
  {
    hide KeepsEnds, ByteAt, ZeroFrom, Settles;
    KeepsEndsTwice(s, t, u, obj, offset, |piece|, |more|, chunkBytes);
    SettlesTwice(s, t, u, obj, offset, |piece|, |more|, chunkBytes);
    forall o, z | o != 0 && ZeroFrom(s, o, z, chunkBytes) && (o == obj ==> PieceZero(offset, piece + more, z)) ensures ZeroFrom(u, o, z, chunkBytes) {
      if o == obj {
        assert forall k :: 0 <= k < |piece| ==> (piece + more)[k] == piece[k];
        assert forall k :: 0 <= k < |more| ==> (piece + more)[|piece| + k] == more[k];
      }
    }
  }

  lemma NoEffectThen(s: State, t: State, u: State, obj: nat, offset: nat, piece: seq<byte>, chunkBytes: nat)
    requires chunkBytes > 0 && NoEffect(s, t, chunkBytes) && Effect(t, u, obj, offset, piece, chunkBytes)
    ensures Effect(s, u, obj, offset, piece, chunkBytes)
  {
    hide KeepsEnds, ByteAt, ZeroFrom, Settles;
    NothingThenKeeps(s, t, u, obj, offset, |piece|, chunkBytes);
    NothingThenSettles(s, t, u, obj, offset, |piece|, chunkBytes);
  }

  lemma ThenNoEffect(s: State, t: State, u: State, obj: nat, offset: nat, piece: seq<byte>, chunkBytes: nat)
    requires chunkBytes > 0 && Effect(s, t, obj, offset, piece, chunkBytes) && NoEffect(t, u, chunkBytes)
    ensures Effect(s, u, obj, offset, piece, chunkBytes)
  {
    hide KeepsEnds, ByteAt, ZeroFrom, Settles;
    KeepsThenNothing(s, t, u, obj, offset, |piece|, chunkBytes);
    SettlesThenNothing(s, t, u, obj, offset, |piece|, chunkBytes);
  }

  lemma SameHasNoEffect(s: State, t: State, chunkBytes: nat)
    requires chunkBytes > 0 && SameView(s, t, chunkBytes)
    requires forall o, z :: o != 0 && ZeroFrom(s, o, z, chunkBytes) ==> ZeroFrom(t, o, z, chunkBytes)
    requires Settles(s, t, 0, 0, 0, chunkBytes) && KeepsEnds(s, t, 0, 0, 0, chunkBytes)
    ensures NoEffect(s, t, chunkBytes)
  {
    hide View, ZeroFrom, Settles, KeepsEnds;
  }

  /** Replacing part of one chunk's bytes. */
  lemma PutHasEffect(s: State, t: State, obj: nat, c: nat, start: nat, piece: seq<byte>, data: seq<byte>, chunkBytes: nat)
    requires chunkBytes > 0 && obj != 0 && c > 0 && Start(c, chunkBytes) >= 0 && start + |piece| <= chunkBytes
    requires |View(s, obj, c, chunkBytes)| == chunkBytes == |data|
    requires data == View(s, obj, c, chunkBytes)[..start] + piece + View(s, obj, c, chunkBytes)[start + |piece|..]
    requires ViewPut(s, t, obj, c, data, chunkBytes)
    requires KeepsZeros(s, t, obj, Start(c, chunkBytes) + start, piece, chunkBytes)
    requires Settles(s, t, obj, Start(c, chunkBytes) + start, |piece|, chunkBytes)
    requires KeepsEnds(s, t, obj, Start(c, chunkBytes) + start, |piece|, chunkBytes)
    ensures Effect(s, t, obj, Start(c, chunkBytes) + start, piece, chunkBytes)
  {
    hide View, ZeroFrom, Start, KeepsZeros, Settles, KeepsEnds;
    forall o, off | o != 0
      ensures ByteAt(t, o, off, chunkBytes)
              == if o == obj then Overlaid(ByteAt(s, o, off, chunkBytes), off, Start(c, chunkBytes) + start, piece) else ByteAt(s, o, off, chunkBytes)
    {
      if o == obj { ChunkOf(off, chunkBytes, c); }
    }
  }

  lemma ViewZero(s: State, obj: nat, c: nat, z: nat, chunkBytes: nat)
    requires ZeroFrom(s, obj, z, chunkBytes)
    ensures TailZero(View(s, obj, c, chunkBytes), c, z, chunkBytes)
    ensures TailZero(Flash(s.files, obj, c, chunkBytes), c, z, chunkBytes)
  {
    hide Start;
  }

  function Overlay(v: seq<byte>, start: nat, piece: seq<byte>): seq<byte>
    requires start + |piece| <= |v|
  {
    v[..start] + piece + v[start + |piece|..]
  }

  lemma OverlayZero(v: seq<byte>, start: nat, piece: seq<byte>, c: nat, z: nat, chunkBytes: nat)
    requires c > 0 && chunkBytes > 0 && Start(c, chunkBytes) >= 0
    requires start + |piece| <= |v| && TailZero(v, c, z, chunkBytes) && PieceZero(Start(c, chunkBytes) + start, piece, z)
    ensures TailZero(Overlay(v, start, piece), c, z, chunkBytes)
  {
    hide Start;
    var r := Overlay(v, start, piece);
    forall j | 0 <= j < |r| && Start(c, chunkBytes) + j >= z ensures r[j] == 0 {
      if start <= j < start + |piece| { assert r[j] == piece[j - start]; }
    }
  }

  lemma FlashLength(s: State, obj: nat, c: nat, chunkBytes: nat)
    requires Shape(s, chunkBytes)
    ensures |Flash(s.files, obj, c, chunkBytes)| == chunkBytes
  {
  }

  lemma ViewLength(s: State, obj: nat, c: nat, chunkBytes: nat)
    requires Shape(s, chunkBytes)
    ensures |View(s, obj, c, chunkBytes)| == chunkBytes == |Flash(s.files, obj, c, chunkBytes)|
  {
    var i := Slot(s.cache, obj, c);
    if i < |s.cache| { assert EntryOk(s.cache[i], s.files, chunkBytes); }
  }

  // ----- The steps again, by their effect -----

  /** What a step keeps. */
  ghost predicate Kept(s: State, t: State, chunkBytes: nat) {
    Shape(t, chunkBytes) && (Coherent(s, chunkBytes) ==> Coherent(t, chunkBytes))
  }

  ghost predicate NoDirtier(a: Entry, b: Entry) {
    b == a.(lastUse := b.lastUse) || (!b.dirty && (a.owner == 0 || !a.dirty)) || (b.owner == 0 && !a.dirty)
  }

  /** No slot is newly dirty, none that was dirty is lost, and no chunk is gone from flash. */
  lemma FewerDirty(s: State, t: State, chunkBytes: nat)
    requires |t.cache| == |s.cache|
    requires forall k :: 0 <= k < |t.cache| ==> NoDirtier(s.cache[k], t.cache[k])
    requires forall o :: o in s.files ==> o in t.files && t.files[o].chunks == s.files[o].chunks
    ensures Settles(s, t, 0, 0, 0, chunkBytes)
  {
    forall o: nat, c: nat | o != 0 ensures Dirty(t.cache, o, c) ==> Dirty(s.cache, o, c)
                                  ensures Stored(s, o, c) ==> Stored(t, o, c)
    {
      if Dirty(t.cache, o, c) {
        var k :| 0 <= k < |t.cache| && For(t.cache[k], o, c) && t.cache[k].dirty;
        assert For(s.cache[k], o, c);
      }
      if Dirty(s.cache, o, c) {
        var k :| 0 <= k < |s.cache| && For(s.cache[k], o, c) && s.cache[k].dirty;
        assert For(t.cache[k], o, c);
      }
    }
  }

  lemma FewerEnds(s: State, t: State, chunkBytes: nat)
    requires |t.cache| == |s.cache| && t.files == s.files
    requires forall k :: 0 <= k < |t.cache| ==> NoDirtier(s.cache[k], t.cache[k])
    ensures KeepsEnds(s, t, 0, 0, 0, chunkBytes)
  {
    hide Start;
  }

  lemma WriteBackEnds(s: State, t: State, chunkBytes: nat, i: nat, storedSize: nat)
    requires i < |s.cache| && s.cache[i].owner in s.files && s.cache[i].dirty
    requires var e := s.cache[i];
             && t == State(s.cache[i := e.(dirty := false)], Written(s.files, e.owner, e.chunkId, e.data, storedSize))
             && storedSize == Max(s.files[e.owner].storedSize, Start(e.chunkId, chunkBytes) + e.nBytes)
    ensures KeepsEnds(s, t, 0, 0, 0, chunkBytes)
  {
    hide Start;
  }

  lemma PutEnds(s: State, t: State, chunkBytes: nat, i: nat, offset: nat, n: nat)
    requires i < |s.cache| == |t.cache| && t.files == s.files && t.cache == s.cache[i := t.cache[i]]
    requires t.cache[i].owner == s.cache[i].owner && s.cache[i].owner in s.files
    requires Start(t.cache[i].chunkId, chunkBytes) + t.cache[i].nBytes <= Max(s.files[s.cache[i].owner].size, offset + n)
    ensures KeepsEnds(s, t, s.cache[i].owner, offset, n, chunkBytes)
  {
    hide Start;
  }

  lemma DirectEnds(s: State, t: State, chunkBytes: nat, obj: nat, c: nat, data: seq<byte>, storedSize: nat, offset: nat, n: nat)
    requires obj in s.files && t == State(Invalidated(s.cache, obj, c), Written(s.files, obj, c, data, storedSize))
    requires storedSize <= Max(s.files[obj].storedSize, Max(s.files[obj].size, offset + n))
    ensures KeepsEnds(s, t, obj, offset, n, chunkBytes)
  {
    hide Start, Slot;
  }

  lemma WriteBackSettles(s: State, t: State, chunkBytes: nat, i: nat, storedSize: nat)
    requires i < |s.cache| && s.cache[i].owner in s.files
    requires var e := s.cache[i];
             t == State(s.cache[i := e.(dirty := false)], Written(s.files, e.owner, e.chunkId, e.data, storedSize))
    ensures Settles(s, t, 0, 0, 0, chunkBytes)
  {
    forall o: nat, c: nat | o != 0 ensures Dirty(t.cache, o, c) ==> Dirty(s.cache, o, c)
                                  ensures Stored(s, o, c) ==> Stored(t, o, c)
    {
      if Dirty(t.cache, o, c) {
        var k :| 0 <= k < |t.cache| && For(t.cache[k], o, c) && t.cache[k].dirty;
        assert For(s.cache[k], o, c);
      }
      if Dirty(s.cache, o, c) {
        var k :| 0 <= k < |s.cache| && For(s.cache[k], o, c) && s.cache[k].dirty;
        if k != i { assert For(t.cache[k], o, c); }
      }
    }
  }

  lemma PutSettles(s: State, t: State, chunkBytes: nat, i: nat, offset: nat, n: nat)
    requires i < |s.cache| == |t.cache| && t.files == s.files && t.cache == s.cache[i := t.cache[i]] && t.cache[i].dirty
    requires t.cache[i].owner == s.cache[i].owner && t.cache[i].chunkId == s.cache[i].chunkId
    requires TouchesJust(offset, n, s.cache[i].chunkId, chunkBytes)
    requires s.cache[i].chunkId > 0
    ensures Settles(s, t, s.cache[i].owner, offset, n, chunkBytes)
  {
    hide Touches;
    assert For(t.cache[i], s.cache[i].owner, s.cache[i].chunkId);
    forall o: nat, c: nat | o != 0
      ensures Dirty(t.cache, o, c) ==> Dirty(s.cache, o, c) || (o == s.cache[i].owner && Touches(offset, n, c, chunkBytes))
      ensures Stored(s, o, c) ==> Stored(t, o, c)
    {
      if Dirty(t.cache, o, c) {
        var k :| 0 <= k < |t.cache| && For(t.cache[k], o, c) && t.cache[k].dirty;
        if k != i { assert For(s.cache[k], o, c); }
      }
      if Dirty(s.cache, o, c) {
        var k :| 0 <= k < |s.cache| && For(s.cache[k], o, c) && s.cache[k].dirty;
        assert For(t.cache[k], o, c);
      }
    }
  }

  lemma DirectSettles(s: State, t: State, chunkBytes: nat, obj: nat, c: nat, data: seq<byte>, storedSize: nat, offset: nat, n: nat)
    requires obj in s.files && c > 0 && t == State(Invalidated(s.cache, obj, c), Written(s.files, obj, c, data, storedSize))
    requires TouchesJust(offset, n, c, chunkBytes)
    ensures Settles(s, t, obj, offset, n, chunkBytes)
  {
    hide Touches, Slot;
    forall o: nat, k: nat | o != 0
      ensures Dirty(t.cache, o, k) ==> Dirty(s.cache, o, k)
      ensures Stored(s, o, k) ==> Stored(t, o, k)
    {
      if Dirty(t.cache, o, k) {
        var j :| 0 <= j < |t.cache| && For(t.cache[j], o, k) && t.cache[j].dirty;
        assert For(s.cache[j], o, k);
      }
      if Dirty(s.cache, o, k) && !(o == obj && k == c) {
        var j :| 0 <= j < |s.cache| && For(s.cache[j], o, k) && s.cache[j].dirty;
        assert For(t.cache[j], o, k);
      }
    }
  }

  /** A chunk without a slot is not dirty. */
  lemma UncachedClean(cache: seq<Entry>, obj: nat, c: nat)
    requires Slot(cache, obj, c) == |cache|
    ensures !Dirty(cache, obj, c)
  {
  }

  /** A chunk whose slot is clean is not dirty. */
  lemma CachedClean(s: State, chunkBytes: nat, i: nat)
    requires Shape(s, chunkBytes) && i < |s.cache| && s.cache[i].owner != 0 && !s.cache[i].dirty
    ensures !Dirty(s.cache, s.cache[i].owner, s.cache[i].chunkId)
  {
    forall k | 0 <= k < |s.cache| && For(s.cache[k], s.cache[i].owner, s.cache[i].chunkId) ensures k == i {
      assert k < i ==> Distinct(s.cache[k], s.cache[i]);
      assert i < k ==> Distinct(s.cache[i], s.cache[k]);
    }
  }

  lemma WriteBackStep(s: State, chunkBytes: nat, i: nat, storedSize: nat)
    requires Shape(s, chunkBytes) && i < |s.cache| && s.cache[i].owner in s.files && s.cache[i].dirty
    requires var e := s.cache[i]; storedSize == Max(s.files[e.owner].storedSize, Start(e.chunkId, chunkBytes) + e.nBytes)
    ensures var e := s.cache[i];
            var t := State(s.cache[i := e.(dirty := false)], Written(s.files, e.owner, e.chunkId, e.data, storedSize));
            Kept(s, t, chunkBytes) && NoEffect(s, t, chunkBytes)
  {
    var e := s.cache[i];
    var t := State(s.cache[i := e.(dirty := false)], Written(s.files, e.owner, e.chunkId, e.data, storedSize));
    AfterWriteBack(s, chunkBytes, i, storedSize);
    WriteBackSettles(s, t, chunkBytes, i, storedSize);
    WriteBackEnds(s, t, chunkBytes, i, storedSize);
    hide Settles, KeepsEnds, Shape, Coherent, TailZero, SameView;
    SameHasNoEffect(s, t, chunkBytes);
  }

  lemma DropStep(s: State, chunkBytes: nat, i: nat)
    requires Shape(s, chunkBytes) && i < |s.cache| && Coherent(s, chunkBytes) && !s.cache[i].dirty
    ensures var t := s.(cache := s.cache[i := s.cache[i].(owner := 0)]);
            Kept(s, t, chunkBytes) && NoEffect(s, t, chunkBytes)
  {
    AfterDrop(s, chunkBytes, i);
    FewerDirty(s, s.(cache := s.cache[i := s.cache[i].(owner := 0)]), chunkBytes);
    FewerEnds(s, s.(cache := s.cache[i := s.cache[i].(owner := 0)]), chunkBytes);
    hide Settles, KeepsEnds, Shape, Coherent, TailZero, SameView;
    SameHasNoEffect(s, s.(cache := s.cache[i := s.cache[i].(owner := 0)]), chunkBytes);
  }

  lemma LoadStep(s: State, chunkBytes: nat, i: nat, obj: nat, c: nat, lastUse: int)
    requires Shape(s, chunkBytes) && i < |s.cache| && s.cache[i].owner == 0 && obj in s.files && c > 0
    requires Slot(s.cache, obj, c) == |s.cache|
    ensures var t := s.(cache := s.cache[i := Entry(obj, c, Flash(s.files, obj, c, chunkBytes), 0, false, lastUse)]);
            Kept(s, t, chunkBytes) && NoEffect(s, t, chunkBytes) && Slot(t.cache, obj, c) == i
  {
    AfterLoad(s, chunkBytes, i, obj, c, lastUse);
    hide Settles, KeepsEnds, Shape, Coherent, TailZero, SameView, Slot, Flash;
    var t := s.(cache := s.cache[i := Entry(obj, c, Flash(s.files, obj, c, chunkBytes), 0, false, lastUse)]);
    FewerDirty(s, t, chunkBytes);
    FewerEnds(s, t, chunkBytes);
    forall o, z | o != 0 && ZeroFrom(s, o, z, chunkBytes) ensures ZeroFrom(t, o, z, chunkBytes) {
      ViewZero(s, o, c, z, chunkBytes);
    }
    SameHasNoEffect(s, t, chunkBytes);
  }

  lemma TouchStep(s: State, t: State, chunkBytes: nat)
    requires Shape(s, chunkBytes) && t.files == s.files && OnlyTouched(s.cache, t.cache)
    ensures Kept(s, t, chunkBytes) && NoEffect(s, t, chunkBytes)
  {
    AfterTouch(s, t, chunkBytes);
    FewerDirty(s, t, chunkBytes);
    FewerEnds(s, t, chunkBytes);
    hide Settles, KeepsEnds, Shape, Coherent, TailZero, SameView;
    SameHasNoEffect(s, t, chunkBytes);
  }

  lemma PutStep(s: State, chunkBytes: nat, i: nat, start: nat, piece: seq<byte>, nBytes: int, lastUse: int)
    requires Shape(s, chunkBytes) && i < |s.cache| && s.cache[i].owner != 0 && s.cache[i].chunkId > 0
    requires |s.cache[i].data| == chunkBytes && start + |piece| <= chunkBytes && 1 <= nBytes <= chunkBytes
    requires Start(s.cache[i].chunkId, chunkBytes) >= 0 && |piece| > 0 && s.cache[i].owner in s.files
    requires var e := s.cache[i]; Start(e.chunkId, chunkBytes) + nBytes <= Max(s.files[e.owner].size, Start(e.chunkId, chunkBytes) + start + |piece|)
    ensures var e := s.cache[i];
            var t := s.(cache := s.cache[i := e.(data := Overlay(e.data, start, piece), nBytes := nBytes, dirty := true, lastUse := lastUse)]);
            Kept(s, t, chunkBytes) && Effect(s, t, e.owner, Start(e.chunkId, chunkBytes) + start, piece, chunkBytes)
  {
    var e := s.cache[i];
    var data := Overlay(e.data, start, piece);
    var t := s.(cache := s.cache[i := e.(data := data, nBytes := nBytes, dirty := true, lastUse := lastUse)]);
    assert |data| == chunkBytes;
    AfterPut(s, chunkBytes, i, data, nBytes, lastUse);
    SlotIs(s, chunkBytes, i);
    TouchesOnly(e.chunkId, start, |piece|, chunkBytes);
    PutSettles(s, t, chunkBytes, i, Start(e.chunkId, chunkBytes) + start, |piece|);
    PutEnds(s, t, chunkBytes, i, Start(e.chunkId, chunkBytes) + start, |piece|);
    hide Settles, KeepsEnds, Shape, Coherent, TailZero, Slot, Flash, Start, ViewPut;
    forall o, z | o != 0 && ZeroFrom(s, o, z, chunkBytes) && (o == e.owner ==> PieceZero(Start(e.chunkId, chunkBytes) + start, piece, z))
      ensures ZeroFrom(t, o, z, chunkBytes)
    {
      if o == e.owner { OverlayZero(e.data, start, piece, e.chunkId, z, chunkBytes); }
    }
    PutHasEffect(s, t, e.owner, e.chunkId, start, piece, data, chunkBytes);
  }

  /** Writing a chunk past the cache with part of its bytes replaced. */
  lemma DirectStep(s: State, chunkBytes: nat, obj: nat, c: nat, start: nat, piece: seq<byte>, storedSize: nat)
    requires Shape(s, chunkBytes) && obj in s.files && c > 0 && start + |piece| <= chunkBytes && Start(c, chunkBytes) >= 0
    requires |View(s, obj, c, chunkBytes)| == chunkBytes && |piece| > 0
    requires storedSize <= Max(s.files[obj].storedSize, Max(s.files[obj].size, Start(c, chunkBytes) + start + |piece|))
    ensures var t := State(Invalidated(s.cache, obj, c), Written(s.files, obj, c, Overlay(View(s, obj, c, chunkBytes), start, piece), storedSize));
            Kept(s, t, chunkBytes) && Effect(s, t, obj, Start(c, chunkBytes) + start, piece, chunkBytes)
  {
    var data := Overlay(View(s, obj, c, chunkBytes), start, piece);
    var t := State(Invalidated(s.cache, obj, c), Written(s.files, obj, c, data, storedSize));
    assert |data| == chunkBytes;
    AfterDirect(s, chunkBytes, obj, c, data, storedSize);
    TouchesOnly(c, start, |piece|, chunkBytes);
    DirectSettles(s, t, chunkBytes, obj, c, data, storedSize, Start(c, chunkBytes) + start, |piece|);
    DirectEnds(s, t, chunkBytes, obj, c, data, storedSize, Start(c, chunkBytes) + start, |piece|);
    hide Settles, KeepsEnds, Coherent, TailZero, Slot, Flash, Start, ViewPut, View;
    forall o, z | o != 0 && ZeroFrom(s, o, z, chunkBytes) && (o == obj ==> PieceZero(Start(c, chunkBytes) + start, piece, z))
      ensures ZeroFrom(t, o, z, chunkBytes)
    {
      if o == obj {
        ViewZero(s, obj, c, z, chunkBytes);
        OverlayZero(View(s, obj, c, chunkBytes), start, piece, c, z, chunkBytes);
      }
    }
    hide Shape;
    PutHasEffect(s, t, obj, c, start, piece, data, chunkBytes);
  }

  // ----- Shrinking a file -----

  /** The bytes of a chunk with zeros from offset z of the file on. */
  function Cut(data: seq<byte>, c: nat, z: nat, chunkBytes: nat): (r: seq<byte>)
    ensures |r| == |data|
  {
    seq(|data|, j requires 0 <= j < |data| => if Start(c, chunkBytes) + j >= z then 0 else data[j])
  }

  function Without(chunks: map<nat, seq<byte>>, first: nat, last: nat): map<nat, seq<byte>> {
    map c | c in chunks && !(first <= c <= last) :: chunks[c]
  }

  /** The first chunk that lies wholly at or beyond a size, and the last chunk that a file of a size reaches into. */
  function FirstBeyond(size: nat, chunkBytes: nat): nat
    requires chunkBytes > 0
  {
    (size + chunkBytes - 1) / chunkBytes + 1
  }

  function LastWithin(size: nat, chunkBytes: nat): nat
    requires chunkBytes > 0
  {
    if size > 0 then (size - 1) / chunkBytes + 1 else 1
  }

  /** A file after it has been shrunk. */
  function ShrunkFile(f: File, newSize: nat, chunkBytes: nat, partial: seq<byte>): File
    requires chunkBytes > 0
  {
    var left := Without(f.chunks, FirstBeyond(newSize, chunkBytes), LastWithin(f.size, chunkBytes));
    File(newSize, newSize, if newSize % chunkBytes != 0 then left[newSize / chunkBytes + 1 := partial] else left)
  }

  /** k multiples of m reach n exactly from the rounded-up quotient on. */
  lemma CeilReaches(n: nat, m: nat, k: nat)
    requires m > 0
    ensures k >= (n + m - 1) / m <==> k * m >= n
  {
    var q := (n + m - 1) / m;
    DivBounds(n + m - 1, m);
    if k >= q { Multiples(q, k, m); } else { Multiples(k + 1, q, m); }
  }

  lemma FloorFits(n: nat, m: nat, k: nat)
    requires m > 0
    ensures k < n / m ==> k * m + m <= n
    ensures k > n / m ==> k * m > n
    ensures k == n / m && n % m == 0 ==> k * m == n
  {
    DivBounds(n, m);
    if k < n / m { Multiples(k + 1, n / m, m); }
    if k > n / m { Multiples(n / m + 1, k, m); }
  }

  lemma FirstBeyondIs(newSize: nat, chunkBytes: nat, c: nat)
    requires chunkBytes > 0 && c > 0
    ensures c >= FirstBeyond(newSize, chunkBytes) <==> Start(c, chunkBytes) >= newSize
  {
    CeilReaches(newSize, chunkBytes, c - 1);
  }

  /** The chunk that a new size falls into comes before those that go, and the others before them lie within the size. */
  lemma PartialIs(newSize: nat, chunkBytes: nat, c: nat)
    requires chunkBytes > 0 && c > 0
    ensures newSize % chunkBytes != 0 ==> newSize / chunkBytes + 1 < FirstBeyond(newSize, chunkBytes)
    ensures c < FirstBeyond(newSize, chunkBytes) && (newSize % chunkBytes == 0 || c != newSize / chunkBytes + 1) ==> Start(c, chunkBytes) + chunkBytes <= newSize
  {
    FirstBeyondIs(newSize, chunkBytes, c);
    FirstBeyondIs(newSize, chunkBytes, newSize / chunkBytes + 1);
    FloorFits(newSize, chunkBytes, c - 1);
    DivBounds(newSize, chunkBytes);
  }

  lemma LastWithinIs(oldSize: nat, chunkBytes: nat, c: nat)
    requires chunkBytes > 0 && c > 0
    ensures c > LastWithin(oldSize, chunkBytes) ==> Start(c, chunkBytes) >= oldSize
  {
    if oldSize > 0 { FloorFits(oldSize - 1, chunkBytes, c - 1); }
  }

  /** What is on flash after shrinking: the old bytes up to the new size, and zeros. */
  lemma ShrunkFlash(files: map<nat, File>, obj: nat, newSize: nat, partial: seq<byte>, chunkBytes: nat, c: nat)
    requires chunkBytes > 0 && obj in files && c > 0
    requires partial == Cut(Flash(files, obj, newSize / chunkBytes + 1, chunkBytes), newSize / chunkBytes + 1, newSize, chunkBytes)
    requires |Flash(files, obj, c, chunkBytes)| == chunkBytes
    requires TailZero(Flash(files, obj, c, chunkBytes), c, files[obj].size, chunkBytes)
    ensures Flash(files[obj := ShrunkFile(files[obj], newSize, chunkBytes, partial)], obj, c, chunkBytes)
            == Cut(Flash(files, obj, c, chunkBytes), c, newSize, chunkBytes)
  {
    hide FirstBeyond, LastWithin, Start;
    FirstBeyondIs(newSize, chunkBytes, c);
    PartialIs(newSize, chunkBytes, c);
    LastWithinIs(files[obj].size, chunkBytes, c);
    var files' := files[obj := ShrunkFile(files[obj], newSize, chunkBytes, partial)];
    var was, now := Flash(files, obj, c, chunkBytes), Flash(files', obj, c, chunkBytes);
    if newSize % chunkBytes != 0 && c == newSize / chunkBytes + 1 {
      assert now == partial;
    } else if c < FirstBeyond(newSize, chunkBytes) {
      assert now == was;
    } else {
      assert now == Zeros(chunkBytes) || now == was;
    }
  }

  lemma CutIsSame(data: seq<byte>, c: nat, z: nat, chunkBytes: nat)
    requires TailZero(data, c, z, chunkBytes)
    ensures Cut(data, c, z, chunkBytes) == data
  {
    hide Start;
  }

  function Shrunk(s: State, obj: nat, newSize: nat, partial: seq<byte>, chunkBytes: nat): State
    requires chunkBytes > 0 && obj in s.files
  {
    s.(files := s.files[obj := ShrunkFile(s.files[obj], newSize, chunkBytes, partial)])
  }

  /** What has to hold before a file is shrunk: nothing but zeros beyond its size, and none cached beyond the new one. */
  ghost predicate Shrinkable(s: State, obj: nat, newSize: nat, partial: seq<byte>, chunkBytes: nat) {
    && Shape(s, chunkBytes) && obj in s.files && ZeroFrom(s, obj, s.files[obj].size, chunkBytes)
    && (forall i :: 0 <= i < |s.cache| && s.cache[i].owner == obj ==> TailZero(s.cache[i].data, s.cache[i].chunkId, newSize, chunkBytes))
    && partial == Cut(Flash(s.files, obj, newSize / chunkBytes + 1, chunkBytes), newSize / chunkBytes + 1, newSize, chunkBytes)
  }

  lemma ShrunkFlashAll(s: State, obj: nat, newSize: nat, partial: seq<byte>, chunkBytes: nat, o: nat, c: nat)
    requires Shrinkable(s, obj, newSize, partial, chunkBytes) && c > 0
    ensures Flash(Shrunk(s, obj, newSize, partial, chunkBytes).files, o, c, chunkBytes)
            == if o == obj then Cut(Flash(s.files, o, c, chunkBytes), c, newSize, chunkBytes) else Flash(s.files, o, c, chunkBytes)
  {
    hide ShrunkFile, TailZero, Cut;
    if o == obj {
      ViewZero(s, obj, c, s.files[obj].size, chunkBytes);
      ShrunkFlash(s.files, obj, newSize, partial, chunkBytes, c);
    }
  }

  lemma ShrunkShape(s: State, obj: nat, newSize: nat, partial: seq<byte>, chunkBytes: nat)
    requires Shrinkable(s, obj, newSize, partial, chunkBytes)
    ensures Shape(Shrunk(s, obj, newSize, partial, chunkBytes), chunkBytes)
  {
    hide TailZero, FirstBeyond, LastWithin;
    var t := Shrunk(s, obj, newSize, partial, chunkBytes);
    assert |partial| == chunkBytes;
    forall a | 0 <= a < |t.cache| ensures EntryOk(t.cache[a], t.files, chunkBytes) { assert EntryOk(s.cache[a], s.files, chunkBytes); }
  }

  lemma ShrunkCoherent(s: State, obj: nat, newSize: nat, partial: seq<byte>, chunkBytes: nat)
    requires Shrinkable(s, obj, newSize, partial, chunkBytes) && Coherent(s, chunkBytes)
    ensures Coherent(Shrunk(s, obj, newSize, partial, chunkBytes), chunkBytes)
  {
    hide TailZero, ShrunkFile, Flash, Cut;
    var t := Shrunk(s, obj, newSize, partial, chunkBytes);
    forall a | 0 <= a < |t.cache| ensures CleanOk(t.cache[a], t.files, chunkBytes) {
      var e := s.cache[a];
      assert CleanOk(e, s.files, chunkBytes) && EntryOk(e, s.files, chunkBytes);
      if e.owner != 0 {
        ShrunkFlashAll(s, obj, newSize, partial, chunkBytes, e.owner, e.chunkId);
        if e.owner == obj { CutIsSame(e.data, e.chunkId, newSize, chunkBytes); }
      }
    }
  }

  /** A shrunk file keeps its bytes up to the new size and reads as zeros beyond. */
  lemma ShrunkBytes(s: State, obj: nat, newSize: nat, partial: seq<byte>, chunkBytes: nat, o: nat, off: nat)
    requires Shrinkable(s, obj, newSize, partial, chunkBytes) && o != 0
    ensures ByteAt(Shrunk(s, obj, newSize, partial, chunkBytes), o, off, chunkBytes)
            == if o == obj && off >= newSize then 0 else ByteAt(s, o, off, chunkBytes)
  {
    hide TailZero, ShrunkFile, Flash, Start;
    var c := off / chunkBytes + 1;
    ShrunkFlashAll(s, obj, newSize, partial, chunkBytes, o, c);
    ChunkOf(off, chunkBytes, c);
    var i := Slot(s.cache, o, c);
    if o == obj && i < |s.cache| { CutIsSame(s.cache[i].data, c, newSize, chunkBytes); }
  }

  lemma ShrunkZeros(s: State, obj: nat, newSize: nat, partial: seq<byte>, chunkBytes: nat, o: nat, z: nat)
    requires Shrinkable(s, obj, newSize, partial, chunkBytes)
    requires if o == obj then z == newSize else ZeroFrom(s, o, z, chunkBytes)
    ensures ZeroFrom(Shrunk(s, obj, newSize, partial, chunkBytes), o, z, chunkBytes)
  {
    hide FirstBeyond, LastWithin, Start;
    var t := Shrunk(s, obj, newSize, partial, chunkBytes);
    if o == obj {
      ShrunkShape(s, obj, newSize, partial, chunkBytes);
      forall c | c in t.files[obj].chunks ensures TailZero(t.files[obj].chunks[c], c, newSize, chunkBytes) {
        ShrunkFlashAll(s, obj, newSize, partial, chunkBytes, obj, c);
      }
    }
  }

  // ----- Sizes -----

  /** Files differ at most in their recorded sizes. */
  lemma ResizeStep(s: State, chunkBytes: nat, obj: nat, size: nat, storedSize: nat)
    requires Shape(s, chunkBytes) && obj in s.files
    ensures var t := s.(files := s.files[obj := s.files[obj].(size := size, storedSize := storedSize)]);
            Kept(s, t, chunkBytes) && SameView(s, t, chunkBytes)
  {
    var t := s.(files := s.files[obj := s.files[obj].(size := size, storedSize := storedSize)]);
    forall a | 0 <= a < |t.cache| ensures EntryOk(t.cache[a], t.files, chunkBytes) { assert EntryOk(s.cache[a], s.files, chunkBytes); }
    assert forall o, c :: Flash(t.files, o, c, chunkBytes) == Flash(s.files, o, c, chunkBytes);
    if Coherent(s, chunkBytes) {
      forall a | 0 <= a < |t.cache| ensures CleanOk(t.cache[a], t.files, chunkBytes) { assert CleanOk(s.cache[a], s.files, chunkBytes); }
    }
  }

  /** A new size of a file is no effect but that the file may end there. */
  lemma SizeStep(s: State, chunkBytes: nat, obj: nat, size: nat)
    requires Shape(s, chunkBytes) && obj in s.files
    ensures var t := s.(files := s.files[obj := s.files[obj].(size := size)]);
            Kept(s, t, chunkBytes) && Effect(s, t, obj, size, [], chunkBytes)
  {
    var t := s.(files := s.files[obj := s.files[obj].(size := size)]);
    ResizeStep(s, chunkBytes, obj, size, s.files[obj].storedSize);
    SizeSettles(s, t, chunkBytes, obj, size);
    hide Shape, Coherent, TailZero, Flash, View, Settles, KeepsEnds;
  }

  lemma SizeSettles(s: State, t: State, chunkBytes: nat, obj: nat, size: nat)
    requires obj in s.files && t == s.(files := s.files[obj := s.files[obj].(size := size)])
    ensures Settles(s, t, obj, size, 0, chunkBytes) && KeepsEnds(s, t, obj, size, 0, chunkBytes)
  {
    hide Dirty, Start, Touches;
    NothingTouched(size, chunkBytes);
  }

  /** The same files of the same sizes. */
  ghost predicate SameSizes(a: map<nat, File>, b: map<nat, File>) {
    a.Keys == b.Keys && forall o :: o in a ==> b[o].size == a[o].size
  }

  lemma ZeroFromLater(s: State, obj: nat, z: nat, later: nat, chunkBytes: nat)
    requires ZeroFrom(s, obj, z, chunkBytes) && z <= later
    ensures ZeroFrom(s, obj, later, chunkBytes)
  {
    hide Start;
  }

  /** The bytes of a chunk as the bytes of the file. */
  lemma ViewBytes(s: State, obj: nat, c: nat, chunkBytes: nat, j: nat)
    requires chunkBytes > 0 && c > 0 && Start(c, chunkBytes) >= 0 && j < chunkBytes == |View(s, obj, c, chunkBytes)|
    ensures ByteAt(s, obj, Start(c, chunkBytes) + j, chunkBytes) == View(s, obj, c, chunkBytes)[j]
  {
    hide View, Start;
    ChunkOf(Start(c, chunkBytes) + j, chunkBytes, c);
  }

  /** With no slot for the chunk and none dirty elsewhere, flash is what is read. */
  lemma CleanView(s: State, obj: nat, c: nat, chunkBytes: nat)
    requires Coherent(s, chunkBytes) && obj != 0
    requires forall i :: 0 <= i < |s.cache| && s.cache[i].owner == obj ==> !s.cache[i].dirty
    ensures View(s, obj, c, chunkBytes) == Flash(s.files, obj, c, chunkBytes)
  {
    var i := Slot(s.cache, obj, c);
    if i < |s.cache| { assert CleanOk(s.cache[i], s.files, chunkBytes); }
  }

  lemma NoEffectAtAll(s: State, chunkBytes: nat)
    requires chunkBytes > 0
    ensures NoEffect(s, s, chunkBytes)
  {
    hide Ends, ByteAt, ZeroFrom, Settles;
    SettlesItself(s, 0, 0, chunkBytes);
  }

  /** A slot given up as clean without having been written. */
  lemma ShapeCleaned(s: State, chunkBytes: nat, i: nat, storedSize: nat)
    requires Shape(s, chunkBytes) && i < |s.cache| && s.cache[i].owner in s.files
    ensures var e := s.cache[i];
            Shape(State(s.cache[i := e.(dirty := false)], s.files[e.owner := s.files[e.owner].(storedSize := storedSize)]), chunkBytes)
  {
    var e := s.cache[i];
    assert EntryOk(e, s.files, chunkBytes);
    var mid := s.(files := s.files[e.owner := s.files[e.owner].(size := s.files[e.owner].size, storedSize := storedSize)]);
    ResizeStep(s, chunkBytes, e.owner, s.files[e.owner].size, storedSize);
    SlotIs(s, chunkBytes, i);
    hide Shape, Coherent, SameView;
    ShapeWith(mid, chunkBytes, i, e.(dirty := false));
  }

  lemma SameBytes(s: State, t: State, chunkBytes: nat, obj: nat, off: nat)
    requires chunkBytes > 0 && NoEffect(s, t, chunkBytes) && obj != 0
    ensures ByteAt(t, obj, off, chunkBytes) == ByteAt(s, obj, off, chunkBytes)
  {
    hide KeepsEnds, Settles, ByteAt, ZeroFrom;
  }

  /** Bytes taken from what a chunk reads as are the file's, as they were before. */
  lemma PieceBytes(s: State, t: State, obj: nat, c: nat, start: nat, piece: seq<byte>, chunkBytes: nat)
    requires chunkBytes > 0 && NoEffect(s, t, chunkBytes) && obj != 0 && c > 0 && Start(c, chunkBytes) >= 0
    requires start + |piece| <= chunkBytes == |View(t, obj, c, chunkBytes)| && piece == View(t, obj, c, chunkBytes)[start..start + |piece|]
    ensures forall j :: 0 <= j < |piece| ==> piece[j] == ByteAt(s, obj, Start(c, chunkBytes) + start + j, chunkBytes)
  {
    hide View, Effect, ByteAt, Start;
    forall j | 0 <= j < |piece| ensures piece[j] == ByteAt(s, obj, Start(c, chunkBytes) + start + j, chunkBytes) {
      ViewBytes(t, obj, c, chunkBytes, start + j);
      SameBytes(s, t, chunkBytes, obj, Start(c, chunkBytes) + start + j);
    }
  }

  lemma EntryLength(s: State, chunkBytes: nat, i: nat)
    requires Shape(s, chunkBytes) && i < |s.cache|
    ensures |s.cache[i].data| == chunkBytes
  {
    assert EntryOk(s.cache[i], s.files, chunkBytes);
  }

  lemma ShapeInvalidated(s: State, chunkBytes: nat, obj: nat, c: nat, storedSize: nat)
    requires Shape(s, chunkBytes) && obj in s.files
    ensures Shape(State(Invalidated(s.cache, obj, c), s.files[obj := s.files[obj].(storedSize := storedSize)]), chunkBytes)
  {
    var mid := s.(files := s.files[obj := s.files[obj].(size := s.files[obj].size, storedSize := storedSize)]);
    ResizeStep(s, chunkBytes, obj, s.files[obj].size, storedSize);
    var i := Slot(s.cache, obj, c);
    hide Shape, Coherent, SameView;
    if i < |s.cache| { AfterDrop(mid, chunkBytes, i); }
  }

  lemma EffectOfNothing(s: State, chunkBytes: nat, obj: nat, offset: nat)
    requires chunkBytes > 0
    ensures Effect(s, s, obj, offset, [], chunkBytes)
  {
    hide Ends, ByteAt, ZeroFrom, Settles;
    SettlesItself(s, obj, offset, chunkBytes);
  }

  /** A file has been cut off at a size, and nothing else has changed. */
  ghost predicate CutEffect(s: State, t: State, obj: nat, size: nat, chunkBytes: nat)
    requires chunkBytes > 0
  {
    && (forall o: nat, off: nat :: o != 0 ==> ByteAt(t, o, off, chunkBytes) == if o == obj && off >= size then 0 else ByteAt(s, o, off, chunkBytes))
    && ZeroFrom(t, obj, size, chunkBytes)
    && OthersKeep(s, t, obj, chunkBytes)
    && OthersEnd(s, t, obj, chunkBytes)
    && ((forall i :: 0 <= i < |s.cache| ==> s.cache[i].owner != obj) ==> Ends(t, obj, size, chunkBytes))
  }

  ghost predicate OthersEnd(s: State, t: State, obj: nat, chunkBytes: nat) {
    forall o: nat, z: nat :: o != 0 && o != obj && Ends(s, o, z, chunkBytes) ==> Ends(t, o, z, chunkBytes)
  }

  ghost predicate OthersKeep(s: State, t: State, obj: nat, chunkBytes: nat) {
    forall o, z :: o != 0 && o != obj && ZeroFrom(s, o, z, chunkBytes) ==> ZeroFrom(t, o, z, chunkBytes)
  }

  lemma ShrunkEffect(s: State, obj: nat, newSize: nat, partial: seq<byte>, chunkBytes: nat)
    requires Shrinkable(s, obj, newSize, partial, chunkBytes)
    ensures CutEffect(s, Shrunk(s, obj, newSize, partial, chunkBytes), obj, newSize, chunkBytes)
  {
    assert chunkBytes > 0;
    hide Shape, ZeroFrom, Flash, TailZero, Cut, ByteAt, ShrunkFile;
    var t := Shrunk(s, obj, newSize, partial, chunkBytes);
    forall o: nat, off: nat | o != 0 ensures ByteAt(t, o, off, chunkBytes) == if o == obj && off >= newSize then 0 else ByteAt(s, o, off, chunkBytes) {
      ShrunkBytes(s, obj, newSize, partial, chunkBytes, o, off);
    }
    ShrunkZeros(s, obj, newSize, partial, chunkBytes, obj, newSize);
    forall o, z | o != 0 && o != obj && ZeroFrom(s, o, z, chunkBytes) ensures ZeroFrom(t, o, z, chunkBytes) {
      ShrunkZeros(s, obj, newSize, partial, chunkBytes, o, z);
    }
  }

  /** With fewer chunks everything keeps its form. */
  lemma ShapeFewer(s: State, chunkBytes: nat, obj: nat, f: File)
    requires Shape(s, chunkBytes) && obj in s.files && forall c :: c in f.chunks ==> c > 0 && |f.chunks[c]| == chunkBytes
    ensures Shape(s.(files := s.files[obj := f]), chunkBytes)
  {
    var t := s.(files := s.files[obj := f]);
    forall a | 0 <= a < |t.cache| ensures EntryOk(t.cache[a], t.files, chunkBytes) { assert EntryOk(s.cache[a], s.files, chunkBytes); }
  }

  lemma ShapeShrunk(s: State, chunkBytes: nat, obj: nat, newSize: nat, partial: seq<byte>)
    requires Shape(s, chunkBytes) && obj in s.files && |partial| == chunkBytes
    ensures Shape(Shrunk(s, obj, newSize, partial, chunkBytes), chunkBytes)
    ensures Shape(s.(files := s.files[obj := File(newSize, newSize, Without(s.files[obj].chunks, FirstBeyond(newSize, chunkBytes), LastWithin(s.files[obj].size, chunkBytes)))]), chunkBytes)
  {
    hide FirstBeyond, LastWithin;
    ShapeFewer(s, chunkBytes, obj, ShrunkFile(s.files[obj], newSize, chunkBytes, partial));
    ShapeFewer(s, chunkBytes, obj, File(newSize, newSize, Without(s.files[obj].chunks, FirstBeyond(newSize, chunkBytes), LastWithin(s.files[obj].size, chunkBytes))));
  }

  /** The rewritten last chunk is the old one cut off. */
  lemma PartialCut(data: seq<byte>, size: nat, chunkBytes: nat)
    requires chunkBytes > 0 && |data| == chunkBytes
    ensures data[..size % chunkBytes] + Zeros(chunkBytes - size % chunkBytes) == Cut(data, size / chunkBytes + 1, size, chunkBytes)
  {
    DivBounds(size, chunkBytes);
    assert Start(size / chunkBytes + 1, chunkBytes) == size - size % chunkBytes;
  }

  // ----- Files as rows of bytes -----

  /** Whatever files hold beyond their sizes is zeros. */
  ghost predicate Bounded(s: State, chunkBytes: nat) {
    forall o :: o in s.files ==> ZeroFrom(s, o, s.files[o].size, chunkBytes)
  }

  ghost predicate AllBytes(s: State, t: State, chunkBytes: nat)
    requires chunkBytes > 0
  {
    forall o: nat, off: nat :: o != 0 ==> ByteAt(t, o, off, chunkBytes) == ByteAt(s, o, off, chunkBytes)
  }

  lemma ZeroByte(s: State, obj: nat, z: nat, off: nat, chunkBytes: nat)
    requires chunkBytes > 0 && ZeroFrom(s, obj, z, chunkBytes) && off >= z
    ensures ByteAt(s, obj, off, chunkBytes) == 0
  {
    var c := off / chunkBytes + 1;
    ViewZero(s, obj, c, z, chunkBytes);
    ChunkOf(off, chunkBytes, c);
    hide View, Start;
  }

  /** Writing within the bounds, if the file's size is moved along. */
  lemma BoundedAfter(s: State, t: State, obj: nat, offset: nat, piece: seq<byte>, size: nat, chunkBytes: nat)
    requires chunkBytes > 0 && Bounded(s, chunkBytes) && Effect(s, t, obj, offset, piece, chunkBytes) && 0 !in s.files
    requires t.files.Keys == s.files.Keys && forall o :: o in s.files ==> t.files[o].size == if o == obj then size else s.files[o].size
    requires obj in s.files ==> size >= s.files[obj].size && size >= offset + |piece|
    ensures Bounded(t, chunkBytes)
  {
    hide KeepsEnds, Settles, ZeroFrom, ByteAt;
    forall o | o in t.files ensures ZeroFrom(t, o, t.files[o].size, chunkBytes) {
      if o == obj { ZeroFromLater(s, o, s.files[o].size, size, chunkBytes); }
    }
  }

  /** Zeros written where there were zeros change nothing. */
  lemma ZerosOverZeros(s: State, t: State, obj: nat, size: nat, n: nat, chunkBytes: nat)
    requires chunkBytes > 0 && ZeroFrom(s, obj, size, chunkBytes) && obj != 0 && Effect(s, t, obj, size, Zeros(n), chunkBytes)
    ensures AllBytes(s, t, chunkBytes) && ZeroFrom(t, obj, size, chunkBytes)
    ensures OthersKeep(s, t, obj, chunkBytes)
  {
    hide KeepsEnds, Settles, ZeroFrom, ByteAt;
    forall o: nat, off: nat | o != 0 ensures ByteAt(t, o, off, chunkBytes) == ByteAt(s, o, off, chunkBytes) {
      if o == obj && off >= size { ZeroByte(s, obj, size, off, chunkBytes); }
    }
  }

  lemma CutOfZeros(s: State, t: State, u: State, obj: nat, size: nat, chunkBytes: nat)
    requires chunkBytes > 0 && AllBytes(s, t, chunkBytes) && ZeroFrom(s, obj, size, chunkBytes) && CutEffect(t, u, obj, size, chunkBytes) && obj != 0
    ensures AllBytes(s, u, chunkBytes)
  {
    hide ZeroFrom, ByteAt;
    forall o: nat, off: nat | o != 0 ensures ByteAt(u, o, off, chunkBytes) == ByteAt(s, o, off, chunkBytes) {
      if o == obj && off >= size { ZeroByte(s, obj, size, off, chunkBytes); }
    }
  }

  lemma AllBytesRefl(s: State, chunkBytes: nat)
    requires chunkBytes > 0
    ensures AllBytes(s, s, chunkBytes)
  {
    hide ByteAt;
  }

  lemma NoFileZero(s: State, chunkBytes: nat)
    requires Shape(s, chunkBytes)
    ensures 0 !in s.files
  {
  }

  lemma KeptChunk(chunks: map<nat, seq<byte>>, first: nat, last: nat, c: nat)
    requires c < first
    ensures c in Without(chunks, first, last) <==> c in chunks
    ensures c in chunks ==> Without(chunks, first, last)[c] == chunks[c]
  {
  }

  lemma BoundedFrom(s: State, t: State, obj: nat, chunkBytes: nat)
    requires Bounded(s, chunkBytes) && OthersKeep(s, t, obj, chunkBytes) && 0 !in s.files && obj in s.files
    requires t.files.Keys == s.files.Keys && forall o :: o in s.files && o != obj ==> t.files[o].size == s.files[o].size
    requires ZeroFrom(t, obj, t.files[obj].size, chunkBytes)
    ensures Bounded(t, chunkBytes)
  {
    hide ZeroFrom;
  }

  /** Every file as the bytes up to its size. */
  type Flat = map<nat, seq<byte>>

  function FlatAt(f: seq<byte>, off: nat): byte {
    if off < |f| then f[off] else 0
  }

  /** A row of bytes with a piece written into it, and zeros in between if it begins beyond the end. */
  function FlatWrite(f: seq<byte>, offset: nat, piece: seq<byte>): seq<byte> {
    seq(if |f| > offset + |piece| then |f| else offset + |piece|,
        off requires off >= 0 => Overlaid(FlatAt(f, off), off, offset, piece))
  }

  function FlatResize(f: seq<byte>, size: nat): seq<byte> {
    seq(size, off requires off >= 0 => FlatAt(f, off))
  }

  function FlatRead(f: seq<byte>, offset: nat, n: nat): seq<byte> {
    seq<byte>(n, j requires j >= 0 => if offset + j < |f| then f[offset + j] else 0)
  }

  ghost predicate Reads(s: State, m: Flat, chunkBytes: nat)
    requires chunkBytes > 0
  {
    && s.files.Keys == m.Keys && 0 !in m
    && forall o :: o in m ==> s.files[o].size == |m[o]| && ReadsFile(s, o, m[o], chunkBytes)
  }

  ghost predicate ReadsFile(s: State, o: nat, f: seq<byte>, chunkBytes: nat)
    requires chunkBytes > 0
  {
    forall off: nat :: ByteAt(s, o, off, chunkBytes) == FlatAt(f, off)
  }

  lemma ReadsSame(s: State, t: State, m: Flat, chunkBytes: nat)
    requires chunkBytes > 0 && Reads(s, m, chunkBytes) && AllBytes(s, t, chunkBytes) && SameSizes(s.files, t.files)
    ensures Reads(t, m, chunkBytes)
  {
    hide ByteAt;
  }

  lemma ReadsWritten(s: State, t: State, m: Flat, obj: nat, offset: nat, piece: seq<byte>, chunkBytes: nat)
    requires chunkBytes > 0 && Reads(s, m, chunkBytes) && obj in m
    requires forall o: nat, off: nat :: o != 0 ==> ByteAt(t, o, off, chunkBytes) == ByteAfter(s, o, off, obj, offset, piece, chunkBytes)
    requires t.files.Keys == s.files.Keys && forall o :: o in s.files ==> t.files[o].size == if o == obj then |FlatWrite(m[obj], offset, piece)| else s.files[o].size
    ensures Reads(t, m[obj := FlatWrite(m[obj], offset, piece)], chunkBytes)
  {
    hide ByteAt;
    var m' := m[obj := FlatWrite(m[obj], offset, piece)];
    forall o | o in m' ensures ReadsFile(t, o, m'[o], chunkBytes) {
      assert ReadsFile(s, o, m[o], chunkBytes);
    }
  }

  lemma ReadsResized(s: State, t: State, m: Flat, obj: nat, size: nat, chunkBytes: nat)
    requires chunkBytes > 0 && Reads(s, m, chunkBytes) && obj in m
    requires forall o: nat, off: nat :: o != 0 ==> ByteAt(t, o, off, chunkBytes) == if o == obj && off >= size then 0 else ByteAt(s, o, off, chunkBytes)
    requires t.files.Keys == s.files.Keys && forall o :: o in s.files ==> t.files[o].size == if o == obj then size else s.files[o].size
    ensures Reads(t, m[obj := FlatResize(m[obj], size)], chunkBytes)
  {
    hide ByteAt;
    var m' := m[obj := FlatResize(m[obj], size)];
    forall o | o in m' ensures ReadsFile(t, o, m'[o], chunkBytes) {
      assert ReadsFile(s, o, m[o], chunkBytes);
    }
  }

  lemma WrittenBytes(s: State, t: State, u: State, obj: nat, offset: nat, piece: seq<byte>, chunkBytes: nat)
    requires chunkBytes > 0 && AllBytes(s, t, chunkBytes) && Effect(t, u, obj, offset, piece, chunkBytes)
    ensures forall o: nat, off: nat :: o != 0 ==> ByteAt(u, o, off, chunkBytes) == ByteAfter(s, o, off, obj, offset, piece, chunkBytes)
  {
    hide KeepsEnds, Settles, ByteAt, ZeroFrom;
  }

  lemma NoEffectBytes(s: State, t: State, chunkBytes: nat)
    requires chunkBytes > 0 && NoEffect(s, t, chunkBytes)
    ensures AllBytes(s, t, chunkBytes)
  {
    hide KeepsEnds, Settles, ByteAt, ZeroFrom;
  }

  lemma NothingBytes(s: State, t: State, obj: nat, offset: nat, chunkBytes: nat)
    requires chunkBytes > 0 && Effect(s, t, obj, offset, [], chunkBytes)
    ensures AllBytes(s, t, chunkBytes)
  {
    hide ByteAt, KeepsZeros, Settles, KeepsEnds;
  }

  lemma BoundedSame(s: State, t: State, chunkBytes: nat)
    requires chunkBytes > 0 && Bounded(s, chunkBytes) && NoEffect(s, t, chunkBytes) && SameSizes(s.files, t.files) && 0 !in s.files
    ensures Bounded(t, chunkBytes)
  {
    hide KeepsEnds, Settles, ZeroFrom, ByteAt;
  }

  lemma NoResize(s: State, m: Flat, obj: nat, chunkBytes: nat)
    requires chunkBytes > 0 && Reads(s, m, chunkBytes) && obj in m
    ensures Reads(s, m[obj := FlatResize(m[obj], s.files[obj].size)], chunkBytes)
  {
    hide ReadsFile;
    assert FlatResize(m[obj], |m[obj]|) == m[obj];
    assert m[obj := m[obj]] == m;
  }

  lemma AfterCut(s: State, t: State, m: Flat, obj: nat, size: nat, chunkBytes: nat)
    requires chunkBytes > 0 && Reads(s, m, chunkBytes) && Bounded(s, chunkBytes) && obj in m && CutEffect(s, t, obj, size, chunkBytes)
    requires t.files.Keys == s.files.Keys && forall o :: o in s.files ==> t.files[o].size == if o == obj then size else s.files[o].size
    ensures Reads(t, m[obj := FlatResize(m[obj], size)], chunkBytes) && Bounded(t, chunkBytes)
  {
    hide ZeroFrom, ByteAt;
    ReadsResized(s, t, m, obj, size, chunkBytes);
    BoundedFrom(s, t, obj, chunkBytes);
  }

  /** No effect is no effect on any file in particular. */
  lemma EffectElsewhere(s: State, t: State, obj: nat, chunkBytes: nat)
    requires chunkBytes > 0 && NoEffect(s, t, chunkBytes)
    ensures Effect(s, t, obj, 0, [], chunkBytes)
  {
    hide Ends, ZeroFrom, ByteAt, Settles;
    SettlesAnywhere(s, t, 0, 0, obj, 0, chunkBytes);
  }

  lemma AfterExtend(s: State, t: State, u: State, m: Flat, obj: nat, size: nat, chunkBytes: nat)
    requires chunkBytes > 0 && Reads(s, m, chunkBytes) && Bounded(s, chunkBytes) && obj in m && size >= s.files[obj].size
    requires AllBytes(s, t, chunkBytes) && AllBytes(t, u, chunkBytes)
    requires u.files.Keys == s.files.Keys && forall o :: o in s.files ==> u.files[o].size == if o == obj then size else s.files[o].size
    ensures Reads(u, m[obj := FlatResize(m[obj], size)], chunkBytes)
  {
    hide ZeroFrom, ByteAt;
    forall o: nat, off: nat | o != 0 ensures ByteAt(u, o, off, chunkBytes) == if o == obj && off >= size then 0 else ByteAt(s, o, off, chunkBytes) {
      if o == obj && off >= size { ZeroByte(s, obj, s.files[obj].size, off, chunkBytes); }
    }
    ReadsResized(s, u, m, obj, size, chunkBytes);
  }

  lemma BoundedAt(s: State, chunkBytes: nat, o: nat)
    requires Bounded(s, chunkBytes) && o in s.files
    ensures ZeroFrom(s, o, s.files[o].size, chunkBytes)
  {
  }

  // ----- Runs -----

  datatype Op =
    | Write(obj: nat, data: seq<byte>, offset: nat, through: bool)
    | Read(obj: nat, offset: nat, nBytes: nat)
    | Resize(obj: nat, size: nat)
    | Flush(obj: nat, discard: bool)
    | FlushAll(discard: bool)

  /** The files after an operation of which a write has accepted done bytes. */
  function Applied(m: Flat, op: Op, done: nat): Flat {
    match op
    case Write(obj, data, offset, _) => if obj in m && done <= |data| then m[obj := FlatWrite(m[obj], offset, data[..done])] else m
    case Resize(obj, size) => if obj in m then m[obj := FlatResize(m[obj], size)] else m
    case _ => m
  }

  /** What an operation shows of the files. */
  function Shown(m: Flat, op: Op): seq<byte> {
    match op
    case Read(obj, offset, nBytes) => if obj in m then FlatRead(m[obj], offset, nBytes) else []
    case _ => []
  }

  /** The files after the first operations of a run. */
  function AppliedAll(m: Flat, ops: seq<Op>, done: seq<nat>): Flat
    requires |done| == |ops|
  {
    if ops == [] then m else Applied(AppliedAll(m, ops[..|ops| - 1], done[..|ops| - 1]), ops[|ops| - 1], done[|ops| - 1])
  }

  lemma AppliedKeys(m: Flat, op: Op, done: nat)
    ensures Applied(m, op, done).Keys == m.Keys
  {
  }

  lemma SameAfter(s: State, t: State, m: Flat, chunkBytes: nat)
    requires chunkBytes > 0 && Bounded(s, chunkBytes) && Reads(s, m, chunkBytes) && NoEffect(s, t, chunkBytes) && SameSizes(s.files, t.files)
    ensures Bounded(t, chunkBytes) && Reads(t, m, chunkBytes)
  {
    hide ZeroFrom, ReadsFile, Effect, AllBytes;
    BoundedSame(s, t, chunkBytes);
    NoEffectBytes(s, t, chunkBytes);
    ReadsSame(s, t, m, chunkBytes);
  }
}
