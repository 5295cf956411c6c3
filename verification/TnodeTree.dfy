/** The look-up tree of a file (yaffs_guts.c): internal tnodes of eight entries over packed level-0 tnodes of sixteen
    chunk numbers, as tall as the file needs. It stands for a map from file chunks to flash chunks. */
module TnodeTree {
  import opened Words
  import opened TnodeLeaf

  const TNODES_MAX_LEVEL: nat := 8
  const MAX_CHUNK_ID: nat := 0x0FFF_FFFF

  datatype Tnode = Null | Level0(words: seq<Bits>) | Internal(entries: seq<Tnode>)

  function Pow8(n: nat): (r: nat)
    ensures r > 0
  {
    if n == 0 then 1 else 8 * Pow8(n - 1)
  }

  // ----- Trees -----

  ghost predicate TreeOk(t: Tnode, level: nat, width: nat)
    decreases level
  {
    match t
    case Null => true
    case Level0(words) => level == 0 && LeafOk(words, width)
    case Internal(entries) => level > 0 && |entries| == 8 && forall i :: 0 <= i < 8 ==> TreeOk(entries[i], level - 1, width)
  }

  /** The leftmost path down to level 0 is there. */
  ghost predicate SpineOk(t: Tnode, level: nat)
    decreases level
  {
    if level == 0 then t.Level0? else t.Internal? && |t.entries| == 8 && SpineOk(t.entries[0], level - 1)
  }

  /** n without the bits that the given number of levels resolves. */
  function Above(n: nat, level: nat): nat {
    if level == 0 then n else Above(n, level - 1) / 8
  }

  /** Which entry of a tnode at the given level leads to level-0 tnode n: three bits of the chunk number. */
  function Index(n: nat, level: nat): (i: nat)
    requires level > 0
    ensures i < 8
  {
    Above(n, level - 1) % 8
  }

  /** The level-0 tnode reached with the bits of n below the given level, or Null. */
  function LeafAt(t: Tnode, level: nat, width: nat, n: nat): (r: Tnode)
    requires TreeOk(t, level, width)
    ensures r.Null? || (r.Level0? && LeafOk(r.words, width))
    decreases level
  {
    if level == 0 || t.Null? then t else LeafAt(t.entries[Index(n, level)], level - 1, width, n)
  }

  /** The level-0 tnode for chunks 16n to 16n + 15 in a tree of the given height. */
  function Leaf(t: Tnode, level: nat, width: nat, n: nat): (r: Tnode)
    requires TreeOk(t, level, width)
    ensures r.Null? || (r.Level0? && LeafOk(r.words, width))
  {
    if n < Pow8(level) then LeafAt(t, level, width, n) else Null
  }

  /** The number a leaf holds for a chunk; an absent leaf counts as zeros. */
  function Held(leaf: Tnode, width: nat, chunk: nat): nat
    requires leaf.Null? || (leaf.Level0? && LeafOk(leaf.words, width))
  {
    if leaf.Null? then 0 else Number(leaf.words, width, chunk % 16)
  }

  // ----- Arithmetic of entries -----

  /** The part of n above an entry, and which entry. */
  lemma PrefixSplit(n: nat, level: nat)
    requires level > 0
    ensures Above(n, level - 1) == 8 * Above(n, level) + Index(n, level)
  {
  }

  lemma {:induction false} AboveShifts(n: nat, level: nat)
    ensures Above(n / 8, level) == Above(n, level + 1)
  {
    if level > 0 { AboveShifts(n, level - 1); }
  }

  lemma {:induction false} InRange(n: nat, level: nat)
    ensures n < Pow8(level) <==> Above(n, level) == 0
  {
    if level > 0 {
      InRange(n / 8, level - 1);
      AboveShifts(n, level - 1);
      assert n / 8 < Pow8(level - 1) <==> n < 8 * Pow8(level - 1);
    }
  }

  // ----- Height -----

  function RequiredDepth(n: nat): nat {
    if n == 0 then 0 else 1 + RequiredDepth(n / 8)
  }

  lemma {:induction false} DepthSuffices(n: nat, level: nat)
    ensures RequiredDepth(n) <= level <==> n < Pow8(level)
  {
    if level > 0 {
      DepthSuffices(n / 8, level - 1);
      assert n / 8 < Pow8(level - 1) <==> n < 8 * Pow8(level - 1);
    }
  }

  /** A tree one level taller, with the old one as its first entry. */
  function Raised(t: Tnode): Tnode {
    Internal([t, Null, Null, Null, Null, Null, Null, Null])
  }

  lemma RaisedLeaf(t: Tnode, level: nat, width: nat, n: nat)
    requires TreeOk(t, level, width)
    ensures TreeOk(Raised(t), level + 1, width) && Leaf(Raised(t), level + 1, width, n) == Leaf(t, level, width, n)
    ensures SpineOk(t, level) ==> SpineOk(Raised(t), level + 1)
  {
    PrefixSplit(n, level + 1);
    InRange(n, level + 1);
    InRange(n, level);
    var up := Raised(t);
    assert TreeOk(up, level + 1, width);
    assert LeafAt(up, level + 1, width, n) == LeafAt(up.entries[Index(n, level + 1)], level, width, n);
  }

  // ----- Adding a leaf -----

  const BLANK: Tnode := Internal([Null, Null, Null, Null, Null, Null, Null, Null])

  /** The leaf that ends up at the bottom of the path: the one passed in, the one found, or a fresh one. */
  function Settled(t: Tnode, width: nat, passed: Tnode): Tnode
    requires 16 <= width <= 30 && width % 2 == 0
  {
    if passed.Level0? then passed else if t.Null? then Level0(BlankLeaf(width)) else t
  }

  /** The tree with the path to leaf n filled in (yaffs_add_find_tnode_0, second step). */
  function Added(t: Tnode, level: nat, width: nat, n: nat, passed: Tnode): Tnode
    requires TreeOk(t, level, width) && 16 <= width <= 30 && width % 2 == 0
    decreases level
  {
    if level == 0 then Settled(t, width, passed)
    else
      var entries := if t.Null? then BLANK.entries else t.entries;
      Internal(entries[Index(n, level) := Added(entries[Index(n, level)], level - 1, width, n, passed)])
  }

  lemma {:induction false} AddedOk(t: Tnode, level: nat, width: nat, n: nat, passed: Tnode)
    requires TreeOk(t, level, width) && 16 <= width <= 30 && width % 2 == 0
    requires passed.Null? || (passed.Level0? && LeafOk(passed.words, width))
    ensures TreeOk(Added(t, level, width, n, passed), level, width)
    ensures SpineOk(t, level) ==> SpineOk(Added(t, level, width, n, passed), level)
    decreases level
  {
    if level > 0 {
      var entries := if t.Null? then BLANK.entries else t.entries;
      AddedOk(entries[Index(n, level)], level - 1, width, n, passed);
    }
  }

  /** Adding leaf n leaves every other leaf alone. */
  lemma {:induction false} AddedLeaf(t: Tnode, level: nat, width: nat, n: nat, passed: Tnode, m: nat)
    requires TreeOk(t, level, width) && 16 <= width <= 30 && width % 2 == 0
    requires passed.Null? || (passed.Level0? && LeafOk(passed.words, width))
    requires Above(m, level) == Above(n, level)
    ensures TreeOk(Added(t, level, width, n, passed), level, width)
    ensures LeafAt(Added(t, level, width, n, passed), level, width, m)
            == if m == n then Settled(LeafAt(t, level, width, n), width, passed) else LeafAt(t, level, width, m)
    decreases level
  {
    AddedOk(t, level, width, n, passed);
    if level > 0 {
      PrefixSplit(n, level);
      PrefixSplit(m, level);
      var entries := if t.Null? then BLANK.entries else t.entries;
      if Index(m, level) == Index(n, level) {
        AddedLeaf(entries[Index(n, level)], level - 1, width, n, passed, m);
      }
    }
  }

  /** A fresh leaf holds what an absent one does. */
  lemma SettledHolds(leaf: Tnode, width: nat)
    requires 16 <= width <= 30 && width % 2 == 0
    requires leaf.Null? || (leaf.Level0? && LeafOk(leaf.words, width))
    ensures Settled(leaf, width, Null).Level0? && LeafOk(Settled(leaf, width, Null).words, width)
    ensures forall chunk :: Held(Settled(leaf, width, Null), width, chunk) == Held(leaf, width, chunk)
  {
    ZeroNumbers(BlankLeaf(width), width);
  }

  // ----- Pruning -----

  ghost predicate Live(t: Tnode) { t.Level0? && !ZeroWords(t.words) }

  /** yaffs_prune_worker: what is left of a subtree; del0 allows the whole of it to go. */
  function Pruned(t: Tnode, level: nat, width: nat, del0: bool): Tnode
    requires TreeOk(t, level, width)
    decreases level, 1
  {
    match t
    case Null => Null
    case Level0(words) => if ZeroWords(words) && del0 then Null else t
    case Internal(entries) =>
      var left := PrunedEntries(t, level, width, del0);
      if del0 && forall i :: 0 <= i < 8 ==> left[i].Null? then Null else Internal(left)
  }

  function PrunedEntries(t: Tnode, level: nat, width: nat, del0: bool): (r: seq<Tnode>)
    requires TreeOk(t, level, width) && t.Internal?
    ensures |r| == 8
    decreases level, 0
  {
    seq(8, i requires 0 <= i < 8 => Pruned(t.entries[i], level - 1, width, if i == 0 then del0 else true))
  }

  lemma {:induction false} PrunedOk(t: Tnode, level: nat, width: nat, del0: bool)
    requires TreeOk(t, level, width)
    ensures TreeOk(Pruned(t, level, width, del0), level, width)
    ensures !del0 && SpineOk(t, level) ==> SpineOk(Pruned(t, level, width, del0), level)
    decreases level
  {
    if t.Internal? {
      forall i | 0 <= i < 8 ensures TreeOk(Pruned(t.entries[i], level - 1, width, if i == 0 then del0 else true), level - 1, width) {
        PrunedOk(t.entries[i], level - 1, width, if i == 0 then del0 else true);
      }
      PrunedOk(t.entries[0], level - 1, width, del0);
    }
  }

  /** Pruning takes away only leaves of zeros. */
  lemma {:induction false} PrunedLeaf(t: Tnode, level: nat, width: nat, del0: bool, n: nat)
    requires TreeOk(t, level, width)
    ensures TreeOk(Pruned(t, level, width, del0), level, width)
    ensures var before, after := LeafAt(t, level, width, n), LeafAt(Pruned(t, level, width, del0), level, width, n);
            after == before || (after.Null? && before.Level0? && ZeroWords(before.words))
    decreases level
  {
    PrunedOk(t, level, width, del0);
    if t.Internal? {
      var i := Index(n, level);
      assert PrunedEntries(t, level, width, del0)[i] == Pruned(t.entries[i], level - 1, width, if i == 0 then del0 else true);
      PrunedLeaf(t.entries[i], level - 1, width, if i == 0 then del0 else true, n);
    }
  }

  /** A subtree that pruning leaves standing, though it could have gone, holds a chunk. */
  lemma {:induction false} PrunedLive(t: Tnode, level: nat, width: nat, prefix: nat) returns (n: nat)
    requires TreeOk(t, level, width) && !Pruned(t, level, width, true).Null?
    ensures TreeOk(Pruned(t, level, width, true), level, width)
    ensures Above(n, level) == prefix && Live(LeafAt(Pruned(t, level, width, true), level, width, n))
    decreases level
  {
    PrunedOk(t, level, width, true);
    if level == 0 {
      n := prefix;
    } else {
      var left := Pruned(t, level, width, true);
      var i :| 0 <= i < 8 && !left.entries[i].Null?;
      n := PrunedLive(t.entries[i], level - 1, width, 8 * prefix + i);
      PrefixSplit(n, level);
    }
  }

  /** A number that is not zero shows that its leaf is live, and the other way round. */
  lemma LiveHolds(leaf: Tnode, width: nat)
    requires leaf.Level0? && LeafOk(leaf.words, width)
    ensures Live(leaf) <==> exists pos :: 0 <= pos < 16 && Number(leaf.words, width, pos) != 0
  {
    ZeroNumbers(leaf.words, width);
  }

  /** A tree of which only the first entry is in use, and that entry. */
  lemma ShortenedLeaf(t: Tnode, level: nat, width: nat, n: nat)
    requires TreeOk(t, level + 1, width) && SpineOk(t, level + 1) && forall i :: 1 <= i < 8 ==> t.entries[i].Null?
    ensures TreeOk(t.entries[0], level, width) && SpineOk(t.entries[0], level)
    ensures Leaf(t.entries[0], level, width, n) == Leaf(t, level + 1, width, n)
  {
    PrefixSplit(n, level + 1);
    InRange(n, level + 1);
    InRange(n, level);
    assert LeafAt(t, level + 1, width, n) == LeafAt(t.entries[Index(n, level + 1)], level, width, n);
  }

  /** Leaves that hold the same numbers. */
  ghost predicate Same(a: Tnode, b: Tnode) {
    a == b || (a.Null? && b.Level0? && ZeroWords(b.words))
  }

  /** Leaf n, which lies under the given prefix, holds a chunk. */
  ghost predicate LiveAt(t: Tnode, level: nat, width: nat, prefix: nat, n: nat)
    requires TreeOk(t, level, width)
  {
    Above(n, level) == prefix && Live(LeafAt(t, level, width, n))
  }

  ghost predicate HasLive(t: Tnode, level: nat, width: nat, prefix: nat)
    requires TreeOk(t, level, width)
  {
    exists n: nat :: LiveAt(t, level, width, prefix, n)
  }

  /** A tree that has been pruned: whatever hangs from the leftmost path holds a chunk. */
  ghost predicate TreePruned(t: Tnode, level: nat, width: nat)
    requires TreeOk(t, level, width)
    decreases level
  {
    t.Internal? ==>
      && TreePruned(t.entries[0], level - 1, width)
      && forall i :: 1 <= i < 8 && !t.entries[i].Null? ==> HasLive(t.entries[i], level - 1, width, i)
  }

  lemma {:induction false} PrunedIsPruned(t: Tnode, level: nat, width: nat, del0: bool)
    requires TreeOk(t, level, width)
    ensures TreeOk(Pruned(t, level, width, del0), level, width) && TreePruned(Pruned(t, level, width, del0), level, width)
    decreases level
  {
    PrunedOk(t, level, width, del0);
    if t.Internal? {
      PrunedIsPruned(t.entries[0], level - 1, width, del0);
      var left := PrunedEntries(t, level, width, del0);
      assert left[0] == Pruned(t.entries[0], level - 1, width, del0);
      forall i | 1 <= i < 8 && !left[i].Null?
        ensures TreeOk(left[i], level - 1, width) && HasLive(left[i], level - 1, width, i)
      {
        assert left[i] == Pruned(t.entries[i], level - 1, width, true);
        var n := PrunedLive(t.entries[i], level - 1, width, i);
        assert LiveAt(left[i], level - 1, width, i, n);
      }
    }
  }

  lemma SameHeld(a: Tnode, b: Tnode, width: nat, chunk: nat)
    requires a.Null? || (a.Level0? && LeafOk(a.words, width))
    requires b.Null? || (b.Level0? && LeafOk(b.words, width))
    requires Same(a, b)
    ensures Held(a, width, chunk) == Held(b, width, chunk)
  {
    if b.Level0? { ZeroNumbers(b.words, width); }
  }

  /** In a pruned tree an entry beside the first leads to a chunk beyond the reach of the first. */
  lemma TallForAReason(t: Tnode, level: nat, width: nat, i: nat) returns (chunk: nat)
    requires TreeOk(t, level, width) && TreePruned(t, level, width) && t.Internal? && 1 <= i < 8 && !t.entries[i].Null?
    ensures chunk >= 16 * Pow8(level - 1) && Held(Leaf(t, level, width, chunk / 16), width, chunk) != 0
  {
    var n: nat :| LiveAt(t.entries[i], level - 1, width, i, n);
    PrefixSplit(n, level);
    InRange(n, level);
    InRange(n, level - 1);
    var leaf := LeafAt(t.entries[i], level - 1, width, n);
    assert Index(n, level) == i && LeafAt(t, level, width, n) == leaf;
    LiveHolds(leaf, width);
    var pos :| 0 <= pos < 16 && Number(leaf.words, width, pos) != 0;
    chunk := 16 * n + pos;
    assert chunk / 16 == n && chunk % 16 == pos;
  }

  // ----- The file -----

  class FileVar {
    const width: nat
    var top: Tnode
    var topLevel: int

    ghost predicate Valid()
      reads this
    {
      && 16 <= width <= 30 && width % 2 == 0
      && 0 <= topLevel <= TNODES_MAX_LEVEL && TreeOk(top, topLevel, width) && SpineOk(top, topLevel)
    }

    /** The leaf for chunks 16n to 16n + 15. */
    ghost function LeafOf(n: nat): Tnode
      requires Valid()
      reads this
    {
      Leaf(top, topLevel, width, n)
    }

    /** The map that the tree stands for: the flash chunk of a file chunk, or 0. */
    ghost function Map(chunk: nat): nat
      requires Valid()
      reads this
    {
      Held(LeafOf(chunk / 16), width, chunk)
    }

    /** A new file has one level-0 tnode. */
    constructor (width: nat)
      requires 16 <= width <= 30 && width % 2 == 0
      ensures Valid() && this.width == width && top == Level0(BlankLeaf(width)) && topLevel == 0
    {
      this.width, top, topLevel := width, Level0(BlankLeaf(width)), 0;
    }

    /** yaffs_find_tnode_0. */
    method FindTnode0(chunkId: nat) returns (leaf: Tnode)
      requires Valid()
      ensures leaf == if chunkId > MAX_CHUNK_ID then Null else LeafOf(chunkId / 16)
    {
      var level := topLevel;
      if chunkId > MAX_CHUNK_ID { return Null; }
      var required := Depth(chunkId / 16);
      DepthSuffices(chunkId / 16, topLevel);
      if required > topLevel { return Null; }
      leaf := top;
      while level > 0 && !leaf.Null?
        invariant 0 <= level && TreeOk(leaf, level, width)
        invariant LeafAt(leaf, level, width, chunkId / 16) == LeafAt(top, topLevel, width, chunkId / 16)
      {
        leaf := leaf.entries[Index(chunkId / 16, level)];
        level := level - 1;
      }
    }

    static method Depth(n: nat) returns (depth: nat)
      ensures depth == RequiredDepth(n)
    {
      var i := n;
      depth := 0;
      while i != 0
        invariant depth + RequiredDepth(i) == RequiredDepth(n)
      {
        i := i / 8;
        depth := depth + 1;
      }
    }

    /** yaffs_add_find_tnode_0: makes the tree tall enough, then fills in the path to the chunk's leaf, which becomes
        the leaf passed in if there is one. */
    method AddFindTnode0(chunkId: nat, passed: Tnode) returns (ok: bool)
      requires Valid() && (passed.Null? || (passed.Level0? && LeafOk(passed.words, width)))
      modifies this
      ensures Valid() && (ok <==> chunkId <= MAX_CHUNK_ID)
      ensures !ok ==> top == old(top) && topLevel == old(topLevel)
      ensures ok ==> LeafOf(chunkId / 16) == Settled(old(LeafOf(chunkId / 16)), width, passed)
      ensures ok ==> forall n: nat :: n != chunkId / 16 ==> LeafOf(n) == old(LeafOf(n))
    {
      if chunkId > MAX_CHUNK_ID { return false; }
      var required := Depth(chunkId / 16);
      Grow(required, chunkId / 16);
      label Grown:
      assert chunkId / 16 < Pow8(topLevel) by { DepthSuffices(chunkId / 16, topLevel); }
      AddedOk(top, topLevel, width, chunkId / 16, passed);
      forall n: nat ensures Leaf(Added(top, topLevel, width, chunkId / 16, passed), topLevel, width, n)
                            == if n == chunkId / 16 then Settled(LeafOf(n), width, passed) else LeafOf(n)
      {
        if n < Pow8(topLevel) {
          InRange(n, topLevel);
          InRange(chunkId / 16, topLevel);
          AddedLeaf(top, topLevel, width, chunkId / 16, passed, n);
        }
      }
      top := Added(top, topLevel, width, chunkId / 16, passed);
      ok := true;
    }

    /** Makes the tree tall enough without changing what it stands for. */
    method Grow(required: nat, n: nat)
      requires Valid() && required == RequiredDepth(n) && n <= MAX_CHUNK_ID / 16
      modifies this
      ensures Valid() && topLevel >= required
      ensures forall m: nat :: LeafOf(m) == old(LeafOf(m))
    {
      assert required <= TNODES_MAX_LEVEL by {
        assert Pow8(8) == 0x100_0000;
        DepthSuffices(n, 8);
      }
      while topLevel < required
        invariant Valid()
        invariant forall m: nat :: LeafOf(m) == old(LeafOf(m))
      {
        forall m: nat ensures Leaf(Raised(top), topLevel + 1, width, m) == Leaf(top, topLevel, width, m) {
          RaisedLeaf(top, topLevel, width, m);
        }
        RaisedLeaf(top, topLevel, width, 0);
        top := Raised(top);
        topLevel := topLevel + 1;
      }
    }

    /** yaffs_prune_tree: drops what holds no chunks, and then takes off the top as long as only its first entry is in
        use. */
    method PruneTree()
      requires Valid()
      modifies this
      ensures Valid() && topLevel <= old(topLevel)
      ensures forall chunk: nat :: Map(chunk) == old(Map(chunk))
      ensures topLevel > 0 ==> exists chunk: nat :: chunk >= 16 * Pow8(topLevel - 1) && Map(chunk) != 0
    {
      if topLevel < 1 { return; }
      PrunedOk(top, topLevel, width, false);
      PrunedIsPruned(top, topLevel, width, false);
      forall n: nat ensures Same(Leaf(Pruned(top, topLevel, width, false), topLevel, width, n), LeafOf(n)) {
        PrunedLeaf(top, topLevel, width, false, n);
      }
      top := Pruned(top, topLevel, width, false);
      label Cut:
      Shorten();
      forall chunk: nat ensures Map(chunk) == old(Map(chunk)) {
        SameHeld(LeafOf(chunk / 16), old(LeafOf(chunk / 16)), width, chunk);
      }
    }

    method Shorten()
      requires Valid() && TreePruned(top, topLevel, width)
      modifies this
      ensures Valid() && topLevel <= old(topLevel)
      ensures forall n: nat :: LeafOf(n) == old(LeafOf(n))
      ensures topLevel > 0 ==> exists chunk: nat :: chunk >= 16 * Pow8(topLevel - 1) && Map(chunk) != 0
    {
      var done := false;
      while topLevel > 0 && !done
        invariant Valid() && topLevel <= old(topLevel)
        invariant forall n: nat :: LeafOf(n) == old(LeafOf(n))
        invariant TreePruned(top, topLevel, width)
        invariant done ==> topLevel > 0 && exists i :: 1 <= i < 8 && !top.entries[i].Null?
        decreases topLevel, !done
      {
        if forall i :: 1 <= i < 8 ==> top.entries[i].Null? {
          forall n: nat ensures Leaf(top.entries[0], topLevel - 1, width, n) == LeafOf(n) {
            ShortenedLeaf(top, topLevel - 1, width, n);
          }
          ShortenedLeaf(top, topLevel - 1, width, 0);
          top := top.entries[0];
          topLevel := topLevel - 1;
        } else {
          done := true;
        }
      }
      if topLevel > 0 {
        ghost var i :| 1 <= i < 8 && !top.entries[i].Null?;
        ghost var chunk := TallForAReason(top, topLevel, width, i);
        assert Map(chunk) != 0;
      }
    }

    /** The tree's part of yaffs_put_chunk_in_file, while running (inScan == 0) or during the backward scan (inScan < 0):
        the scan keeps a chunk that is there already, and chunk 0 only makes room. */
    method PutChunk(inodeChunk: nat, nandChunk: nat, inScan: int) returns (ok: bool)
      requires Valid() && nandChunk < PowerOfTwo(width) && inScan <= 0
      modifies this
      ensures Valid() && (ok <==> inodeChunk <= MAX_CHUNK_ID)
      ensures forall chunk: nat :: chunk != inodeChunk ==> Map(chunk) == old(Map(chunk))
      ensures Map(inodeChunk) == if !ok || nandChunk == 0 || (inScan != 0 && old(Map(inodeChunk)) > 0) then old(Map(inodeChunk)) else nandChunk
    {
      ok := AddFindTnode0(inodeChunk, Null);
      if !ok { return; }
      SettledHolds(old(LeafOf(inodeChunk / 16)), width);
      assert forall chunk: nat :: Map(chunk) == old(Map(chunk));
      if nandChunk == 0 { return; }
      var leaf := FindTnode0(inodeChunk);
      var existing := Number(leaf.words, width, inodeChunk % 16);
      if inScan != 0 && existing > 0 { return; }
      LoadSlot(inodeChunk, nandChunk);
    }

    /** Loads the slot of a chunk whose leaf is there: in place in the code, here by plugging in the leaf with the slot
        loaded. */
    method LoadSlot(inodeChunk: nat, nandChunk: nat)
      requires Valid() && inodeChunk <= MAX_CHUNK_ID && nandChunk < PowerOfTwo(width) && LeafOf(inodeChunk / 16).Level0?
      modifies this
      ensures Valid() && Map(inodeChunk) == nandChunk
      ensures forall chunk: nat :: chunk != inodeChunk ==> Map(chunk) == old(Map(chunk))
    {
      hide PowerOfTwo, FromNat, Loaded, TreeOk, SpineOk, LeafOk;
      var leaf := FindTnode0(inodeChunk);
      LoadedNumber(leaf.words, width, inodeChunk % 16, nandChunk);
      var filled := AddFindTnode0(inodeChunk, Level0(Loaded(leaf.words, width, inodeChunk % 16, FromNat(nandChunk, 32))));
      forall chunk: nat | chunk != inodeChunk ensures Map(chunk) == old(Map(chunk)) {
        if chunk / 16 == inodeChunk / 16 { assert chunk % 16 != inodeChunk % 16; }
      }
    }
  }
}
