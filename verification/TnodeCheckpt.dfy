/** Saving a file's look-up tree to the checkpoint stream and building it again from there (yaffs_yaffs2.c). The stream
    is a row of 32-bit words here: each leaf is a base chunk followed by the leaf's words, and a word of ones ends the
    list. */
module TnodeCheckpt {
  import opened Words
  import opened TnodeLeaf
  import opened TnodeTree

  datatype Record = Record(n: nat, words: seq<Bits>)

  const END_MARKER: nat := 0xFFFF_FFFF

  // ----- What is saved -----

  /** The leaves of a subtree in the order in which the worker meets them. */
  function Records(t: Tnode, level: nat, width: nat, offset: nat): seq<Record>
    requires TreeOk(t, level, width)
    decreases level, 9
  {
    match t
    case Null => []
    case Level0(words) => [Record(offset, words)]
    case Internal(_) => EntryRecords(t, level, width, offset, 8)
  }

  /** The leaves under the first k entries. */
  function EntryRecords(t: Tnode, level: nat, width: nat, offset: nat, k: nat): seq<Record>
    requires TreeOk(t, level, width) && t.Internal? && k <= 8
    decreases level, k
  {
    if k == 0 then [] else EntryRecords(t, level, width, offset, k - 1) + Records(t.entries[k - 1], level - 1, width, 8 * offset + k - 1)
  }

  /** The last record for leaf n, as a leaf. */
  function LastOf(records: seq<Record>, n: nat): Tnode {
    if records == [] then Null
    else if records[|records| - 1].n == n then Level0(records[|records| - 1].words)
    else LastOf(records[..|records| - 1], n)
  }

  lemma {:induction false} LastOfBoth(a: seq<Record>, b: seq<Record>, n: nat)
    ensures LastOf(a + b, n) == if LastOf(b, n).Null? then LastOf(a, n) else LastOf(b, n)
  {
    if b == [] {
      assert a + b == a;
    } else {
      assert (a + b)[..|a + b| - 1] == a + b[..|b| - 1];
      LastOfBoth(a, b[..|b| - 1], n);
    }
  }

  /** The records of a subtree are its leaves, under their full numbers. */
  lemma {:induction false} RecordsAreLeaves(t: Tnode, level: nat, width: nat, offset: nat, n: nat)
    requires TreeOk(t, level, width)
    ensures LastOf(Records(t, level, width, offset), n) == if Above(n, level) == offset then LeafAt(t, level, width, n) else Null
    decreases level, 9
  {
    if t.Internal? {
      EntryRecordsAreLeaves(t, level, width, offset, 8, n);
      PrefixSplit(n, level);
    } else if t.Level0? {
      assert Records(t, level, width, offset)[..0] == [];
    }
  }

  lemma {:induction false} EntryRecordsAreLeaves(t: Tnode, level: nat, width: nat, offset: nat, k: nat, n: nat)
    requires TreeOk(t, level, width) && t.Internal? && k <= 8
    ensures LastOf(EntryRecords(t, level, width, offset, k), n)
            == if Above(n, level) == offset && Index(n, level) < k then LeafAt(t, level, width, n) else Null
    decreases level, k
  {
    if k > 0 {
      EntryRecordsAreLeaves(t, level, width, offset, k - 1, n);
      RecordsAreLeaves(t.entries[k - 1], level - 1, width, 8 * offset + k - 1, n);
      LastOfBoth(EntryRecords(t, level, width, offset, k - 1), Records(t.entries[k - 1], level - 1, width, 8 * offset + k - 1), n);
      PrefixSplit(n, level);
    }
  }

  // ----- The words on the stream -----

  function EncodedOne(r: Record): seq<Bits> { [FromNat(16 * r.n, 32)] + r.words }

  function Encoded(records: seq<Record>): seq<Bits> {
    if records == [] then [] else EncodedOne(records[0]) + Encoded(records[1..])
  }

  lemma {:induction false} EncodedBoth(a: seq<Record>, b: seq<Record>)
    ensures Encoded(a + b) == Encoded(a) + Encoded(b)
  {
    if a == [] {
      assert a + b == b;
    } else {
      assert (a + b)[1..] == a[1..] + b;
      EncodedBoth(a[1..], b);
    }
  }

  /** A record that can be told from the end of the list, and whose leaf can be plugged in. */
  ghost predicate RecordOk(r: Record, width: nat) {
    LeafOk(r.words, width) && 16 * r.n <= MAX_CHUNK_ID
  }

  lemma {:induction false} RecordsOk(t: Tnode, level: nat, width: nat, offset: nat)
    requires TreeOk(t, level, width)
    ensures forall r :: r in Records(t, level, width, offset) ==> LeafOk(r.words, width) && Above(r.n, level) == offset
    decreases level, 9
  {
    if t.Internal? { EntryRecordsOk(t, level, width, offset, 8); }
  }

  lemma {:induction false} EntryRecordsOk(t: Tnode, level: nat, width: nat, offset: nat, k: nat)
    requires TreeOk(t, level, width) && t.Internal? && k <= 8
    ensures forall r :: r in EntryRecords(t, level, width, offset, k) ==> LeafOk(r.words, width) && Above(r.n, level) == offset
    decreases level, k
  {
    if k > 0 {
      EntryRecordsOk(t, level, width, offset, k - 1);
      RecordsOk(t.entries[k - 1], level - 1, width, 8 * offset + k - 1);
      forall r | r in Records(t.entries[k - 1], level - 1, width, 8 * offset + k - 1) ensures Above(r.n, level) == offset {
        PrefixSplit(r.n, level);
      }
    }
  }

  lemma FileRecordsOk(t: Tnode, level: nat, width: nat)
    requires TreeOk(t, level, width) && level <= TNODES_MAX_LEVEL
    ensures forall r :: r in Records(t, level, width, 0) ==> RecordOk(r, width)
  {
    RecordsOk(t, level, width, 0);
    forall r | r in Records(t, level, width, 0) ensures 16 * r.n <= MAX_CHUNK_ID {
      InRange(r.n, level);
      Pow8Monotone(level, TNODES_MAX_LEVEL);
      assert Pow8(8) == 0x100_0000;
    }
  }

  lemma {:induction false} Pow8Monotone(i: nat, j: nat)
    requires i <= j
    ensures Pow8(i) <= Pow8(j)
  {
    if i < j { Pow8Monotone(i, j - 1); }
  }

  // ----- Saving -----

  /** yaffs2_checkpt_tnode_worker. */
  method SaveWorker(t: Tnode, level: nat, width: nat, chunkOffset: nat) returns (out: seq<Bits>)
    requires TreeOk(t, level, width)
    ensures out == Encoded(Records(t, level, width, chunkOffset))
    decreases level
  {
    out := [];
    if t.Null? { return; }
    if level > 0 {
      for i := 0 to 8
        invariant out == Encoded(EntryRecords(t, level, width, chunkOffset, i))
      {
        EncodedBoth(EntryRecords(t, level, width, chunkOffset, i), Records(t.entries[i], level - 1, width, 8 * chunkOffset + i));
        if t.entries[i].Null? {
          assert Records(t.entries[i], level - 1, width, 8 * chunkOffset + i) == [];
          continue;
        }
        var part := SaveWorker(t.entries[i], level - 1, width, 8 * chunkOffset + i);
        out := out + part;
      }
      return;
    }
    out := [FromNat(16 * chunkOffset, 32)] + t.words;
    assert Records(t, level, width, chunkOffset)[1..] == [];
  }

  /** yaffs2_wr_checkpt_tnodes. */
  method WrCheckptTnodes(f: FileVar) returns (out: seq<Bits>)
    requires f.Valid()
    ensures out == Encoded(Records(f.top, f.topLevel, f.width, 0)) + [FromNat(END_MARKER, 32)]
  {
    out := SaveWorker(f.top, f.topLevel, f.width, 0);
    out := out + [FromNat(END_MARKER, 32)];
  }

  // ----- Restoring -----

  /** What the stream has to hold from here on: the records, the end of the list, and whatever comes after. */
  ghost predicate Holds(stream: seq<Bits>, records: seq<Record>, width: nat, rest: seq<Bits>) {
    && stream == Encoded(records) + [FromNat(END_MARKER, 32)] + rest
    && forall r :: r in records ==> RecordOk(r, width)
  }

  lemma HoldsEnd(stream: seq<Bits>, width: nat, rest: seq<Bits>)
    requires Holds(stream, [], width, rest)
    ensures |stream| > 0 && ToNat(stream[0]) == END_MARKER && stream[1..] == rest
  {
    WordRoundTrip(END_MARKER);
  }

  lemma HoldsNext(stream: seq<Bits>, records: seq<Record>, width: nat, rest: seq<Bits>)
    requires Holds(stream, records, width, rest) && records != []
    ensures |stream| > width / 2 && ToNat(stream[0]) == 16 * records[0].n <= MAX_CHUNK_ID
    ensures stream[1..1 + width / 2] == records[0].words && Holds(stream[1 + width / 2..], records[1..], width, rest)
  {
    hide FromNat, ToNat, Encoded, IsZero;
    var r, tail := records[0], Encoded(records[1..]) + [FromNat(END_MARKER, 32)] + rest;
    assert |r.words| == width / 2 && 16 * r.n <= MAX_CHUNK_ID by { assert RecordOk(r, width); }
    EncodedFirst(records);
    assert stream == [FromNat(16 * r.n, 32)] + r.words + tail;
    hide RecordOk;
    Sliced(FromNat(16 * r.n, 32), r.words, tail);
    WordRoundTrip(16 * r.n);
  }

  lemma EncodedFirst(records: seq<Record>)
    requires records != []
    ensures Encoded(records) == [FromNat(16 * records[0].n, 32)] + records[0].words + Encoded(records[1..])
  {
    hide FromNat;
  }

  lemma Sliced(a: Bits, words: seq<Bits>, tail: seq<Bits>)
    ensures var s := [a] + words + tail;
            s[0] == a && s[1..1 + |words|] == words && s[1 + |words|..] == tail
  {
  }

  /** A leaf of a file into which records have been put. */
  ghost function Patched(records: seq<Record>, n: nat, was: Tnode): Tnode {
    if LastOf(records, n).Null? then was else LastOf(records, n)
  }

  /** yaffs2_rd_checkpt_tnodes: fails when the stream ends too soon or names a chunk that cannot be; given a list of
      records, it plugs in every leaf, the last one for a chunk prevailing, and leaves the rest of the stream. */
  method RdCheckptTnodes(f: FileVar, stream: seq<Bits>, ghost records: seq<Record>, ghost rest: seq<Bits>) returns (ok: bool, left: seq<Bits>)
    requires f.Valid()
    modifies f
    ensures f.Valid()
    ensures Holds(stream, records, f.width, rest) ==> ok && left == rest
    ensures Holds(stream, records, f.width, rest) ==> forall n: nat :: f.LeafOf(n) == Patched(records, n, old(f.LeafOf(n)))
  {
    hide Holds, Patched;
    assert forall n: nat, was :: Patched([], n, was) == was by { PatchedNothing(); }
    ghost var good := Holds(stream, records, f.width, rest);
    ghost var done: seq<Record>, todo := [], records;
    left := stream;
    ok := true;
    while ok && left != [] && ToNat(left[0]) != END_MARKER
      invariant f.Valid()
      invariant good ==> ok && done + todo == records && Holds(left, todo, f.width, rest)
      invariant good ==> forall n: nat :: f.LeafOf(n) == Patched(done, n, old(f.LeafOf(n)))
      decreases |left|, ok
    {
      if good && todo == [] { HoldsEnd(left, f.width, rest); }
      if good { HoldsNext(left, todo, f.width, rest); }
      ok, left := RestoreOne(f, left);
      if good {
        LastOfEach(done, todo[0]);
        done, todo := done + [todo[0]], todo[1..];
      }
    }
    if good && todo != [] { HoldsNext(left, todo, f.width, rest); }
    if good { HoldsEnd(left, f.width, rest); }
    assert good ==> done == records;
    ok := ok && left != [];
    if ok { left := left[1..]; }
  }

  lemma PatchedNothing()
    ensures forall n: nat, was :: Patched([], n, was) == was
  {
  }

  lemma LastOfEach(records: seq<Record>, r: Record)
    ensures forall n: nat, was :: Patched(records + [r], n, was) == if n == r.n then Level0(r.words) else Patched(records, n, was)
  {
    assert (records + [r])[..|records|] == records;
  }

  method RestoreOne(f: FileVar, stream: seq<Bits>) returns (ok: bool, left: seq<Bits>)
    requires f.Valid() && stream != []
    modifies f
    ensures f.Valid() && |left| < |stream|
    ensures ok <==> |stream| > f.width / 2 && ToNat(stream[0]) <= MAX_CHUNK_ID
    ensures ok ==> left == stream[1 + f.width / 2..]
    ensures ok ==> forall n: nat :: f.LeafOf(n) == if n == ToNat(stream[0]) / 16 then Level0(stream[1..1 + f.width / 2]) else old(f.LeafOf(n))
  {
    var baseChunk := ToNat(stream[0]);
    if |stream| <= f.width / 2 { return false, []; }
    left := stream[1 + f.width / 2..];
    ok := f.AddFindTnode0(baseChunk, Level0(stream[1..1 + f.width / 2]));
  }

  // ----- The round trip -----

  lemma {:induction false} SpineLeaf(t: Tnode, level: nat, width: nat)
    requires TreeOk(t, level, width) && SpineOk(t, level)
    ensures LeafAt(t, level, width, 0).Level0?
    decreases level
  {
    if level > 0 {
      InRange(0, level - 1);
      SpineLeaf(t.entries[0], level - 1, width);
    }
  }

  /** Whatever the shape and height of a file's tree, a fresh file restored from its saved leaves has the same leaf for
      every chunk, and so the same map. */
  method SaveAndRestore(f: FileVar, rest: seq<Bits>) returns (g: FileVar, left: seq<Bits>)
    requires f.Valid()
    ensures fresh(g) && g.Valid() && g.width == f.width && left == rest
    ensures forall n: nat :: g.LeafOf(n) == f.LeafOf(n)
    ensures forall chunk: nat :: g.Map(chunk) == f.Map(chunk)
  {
    var stream := WrCheckptTnodes(f);
    g := new FileVar(f.width);
    ghost var records := Records(f.top, f.topLevel, f.width, 0);
    FileRecordsOk(f.top, f.topLevel, f.width);
    var ok;
    label Fresh:
    ok, left := RdCheckptTnodes(g, stream + rest, records, rest);
    forall n: nat ensures g.LeafOf(n) == f.LeafOf(n) {
      RestoredLeaf(f.top, f.topLevel, f.width, n);
    }
  }

  lemma RestoredLeaf(t: Tnode, level: nat, width: nat, n: nat)
    requires TreeOk(t, level, width) && SpineOk(t, level) && 16 <= width <= 30 && width % 2 == 0
    ensures Patched(Records(t, level, width, 0), n, Leaf(Level0(BlankLeaf(width)), 0, width, n)) == Leaf(t, level, width, n)
  {
    RecordsAreLeaves(t, level, width, 0, n);
    InRange(n, level);
    SpineLeaf(t, level, width);
  }
}
