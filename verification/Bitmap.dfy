/** The bitmap of a block's chunks in use (yaffs_bitmap.c): eight chunks to a byte. It stands for a set. */
module Bitmap {
  import Hweight

  /** 1 << k. */
  function Weight(k: nat): bv8
    requires k < 8
  {
    match k
    case 0 => 1
    case 1 => 2
    case 2 => 4
    case 3 => 8
    case 4 => 16
    case 5 => 32
    case 6 => 64
    case _ => 128
  }

  predicate Has(x: bv8, k: nat)
    requires k < 8
  {
    x & Weight(k) != 0
  }

  predicate InUse(bytes: seq<bv8>, chunk: nat)
    requires chunk < 8 * |bytes|
  {
    Has(bytes[chunk / 8], chunk % 8)
  }

  /** The chunks that are in use. */
  ghost function ChunksOf(bytes: seq<bv8>): set<nat> {
    set c: nat | c < 8 * |bytes| && InUse(bytes, c)
  }

  // ----- Bits of a byte -----

  lemma SetBit(x: bv8, k: nat, j: nat)
    requires k < 8 && j < 8
    ensures Has(x | Weight(k), j) == (j == k || Has(x, j))
  {
  }

  lemma ClearBit(x: bv8, k: nat, j: nat)
    requires k < 8 && j < 8
    ensures Has(x & !Weight(k), j) == (j != k && Has(x, j))
  {
  }

  // ----- Changing and reading -----

  /** yaffs_set_chunk_bit. */
  method SetChunkBit(bits: array<bv8>, chunk: nat)
    requires chunk < 8 * bits.Length
    modifies bits
    ensures ChunksOf(bits[..]) == ChunksOf(old(bits[..])) + {chunk}
  {
    hide Has, Weight;
    forall j | 0 <= j < 8 ensures Has(bits[chunk / 8] | Weight(chunk % 8), j) == (j == chunk % 8 || Has(bits[chunk / 8], j)) {
      SetBit(bits[chunk / 8], chunk % 8, j);
    }
    bits[chunk / 8] := bits[chunk / 8] | Weight(chunk % 8);
  }

  /** yaffs_clear_chunk_bit. */
  method ClearChunkBit(bits: array<bv8>, chunk: nat)
    requires chunk < 8 * bits.Length
    modifies bits
    ensures ChunksOf(bits[..]) == ChunksOf(old(bits[..])) - {chunk}
  {
    hide Has, Weight;
    forall j | 0 <= j < 8 ensures Has(bits[chunk / 8] & !Weight(chunk % 8), j) == (j != chunk % 8 && Has(bits[chunk / 8], j)) {
      ClearBit(bits[chunk / 8], chunk % 8, j);
    }
    bits[chunk / 8] := bits[chunk / 8] & !Weight(chunk % 8);
  }

  /** yaffs_check_chunk_bit. */
  method CheckChunkBit(bits: array<bv8>, chunk: nat) returns (r: bool)
    requires chunk < 8 * bits.Length
    ensures r <==> chunk in ChunksOf(bits[..])
  {
    r := bits[chunk / 8] & Weight(chunk % 8) != 0;
  }

  /** yaffs_still_some_chunks. */
  method StillSomeChunks(bits: array<bv8>) returns (r: bool)
    ensures r <==> ChunksOf(bits[..]) != {}
  {
    hide Has;
    for i := 0 to bits.Length
      invariant forall c: nat :: c < 8 * i ==> c !in ChunksOf(bits[..])
    {
      if bits[i] != 0 {
        var k := SomeBit(bits[i]);
        assert (8 * i + k) / 8 == i && (8 * i + k) % 8 == k;
        assert 8 * i + k in ChunksOf(bits[..]);
        return true;
      }
      forall c: nat | c < 8 * (i + 1) ensures c !in ChunksOf(bits[..]) {
        if c >= 8 * i { NoBit(c % 8); }
      }
    }
    r := false;
  }

  lemma SomeBit(x: bv8) returns (k: nat)
    requires x != 0
    ensures k < 8 && Has(x, k)
  {
    k := if x & 1 != 0 then 0 else if x & 2 != 0 then 1 else if x & 4 != 0 then 2 else if x & 8 != 0 then 3
         else if x & 16 != 0 then 4 else if x & 32 != 0 then 5 else if x & 64 != 0 then 6 else 7;
  }

  lemma NoBit(k: nat)
    requires k < 8
    ensures !Has(0, k)
  {
  }

  // ----- Counting -----

  /** yaffs_count_chunk_bits: the table's counts add up to the number of chunks in use. */
  method CountChunkBits(bits: array<bv8>) returns (n: nat)
    ensures n == |ChunksOf(bits[..])|
  {
    hide Has, Hweight.Hweight8;
    n := 0;
    for i := 0 to bits.Length
      invariant n == |ChunksOf(bits[..i])|
    {
      assert bits[..i + 1] == bits[..i] + [bits[i]];
      OneByteMore(bits[..i], bits[i]);
      n := n + Hweight.Hweight8(bits[i]);
    }
    assert bits[..bits.Length] == bits[..];
  }

  ghost function BitsUpTo(x: bv8, base: nat, j: nat): set<nat>
    requires j <= 8
  {
    if j == 0 then {} else BitsUpTo(x, base, j - 1) + if Has(x, j - 1) then {base + j - 1} else {}
  }

  function OnesUpTo(x: bv8, j: nat): nat
    requires j <= 8
  {
    if j == 0 then 0 else OnesUpTo(x, j - 1) + if Has(x, j - 1) then 1 else 0
  }

  lemma {:induction false} BitsCounted(x: bv8, base: nat, j: nat)
    requires j <= 8
    ensures |BitsUpTo(x, base, j)| == OnesUpTo(x, j)
    ensures forall c :: c in BitsUpTo(x, base, j) <==> base <= c < base + j && Has(x, c - base)
  {
    hide Has;
    if j > 0 { BitsCounted(x, base, j - 1); }
  }

  function One(b: bool): nat { if b then 1 else 0 }

  lemma FourOnes(x: bv8)
    ensures OnesUpTo(x, 4) == One(Has(x, 0)) + One(Has(x, 1)) + One(Has(x, 2)) + One(Has(x, 3))
  {
    hide Has;
    assert OnesUpTo(x, 1) == One(Has(x, 0)) && OnesUpTo(x, 2) == OnesUpTo(x, 1) + One(Has(x, 1));
    assert OnesUpTo(x, 3) == OnesUpTo(x, 2) + One(Has(x, 2));
  }

  lemma EachHas(x: bv8)
    ensures One(Has(x, 0)) == Hweight.One(x & 1) && One(Has(x, 1)) == Hweight.One(x & 2)
    ensures One(Has(x, 2)) == Hweight.One(x & 4) && One(Has(x, 3)) == Hweight.One(x & 8)
    ensures One(Has(x, 4)) == Hweight.One(x & 16) && One(Has(x, 5)) == Hweight.One(x & 32)
    ensures One(Has(x, 6)) == Hweight.One(x & 64) && One(Has(x, 7)) == Hweight.One(x & 128)
  {
  }

  lemma OnesCounted(x: bv8)
    ensures OnesUpTo(x, 8) == Hweight.Hweight8(x)
  {
    hide Hweight.Hweight8;
    Hweight.TableRight(x);
    FourOnes(x);
    hide Has;
    assert OnesUpTo(x, 5) == OnesUpTo(x, 4) + One(Has(x, 4)) && OnesUpTo(x, 6) == OnesUpTo(x, 5) + One(Has(x, 5));
    assert OnesUpTo(x, 7) == OnesUpTo(x, 6) + One(Has(x, 6)) && OnesUpTo(x, 8) == OnesUpTo(x, 7) + One(Has(x, 7));
    EachHas(x);
  }

  lemma OneByteMore(bytes: seq<bv8>, x: bv8)
    ensures |ChunksOf(bytes + [x])| == |ChunksOf(bytes)| + Hweight.Hweight8(x)
  {
    hide Has, Hweight.Hweight8;
    var base := 8 * |bytes|;
    BitsCounted(x, base, 8);
    OnesCounted(x);
    hide BitsUpTo, OnesUpTo;
    ChunksAppend(bytes, x);
    assert ChunksOf(bytes) !! BitsUpTo(x, base, 8);
  }

  lemma ChunksAppend(bytes: seq<bv8>, x: bv8)
    ensures ChunksOf(bytes + [x]) == ChunksOf(bytes) + BitsUpTo(x, 8 * |bytes|, 8)
  {
    hide Has, BitsUpTo;
    var base, more := 8 * |bytes|, bytes + [x];
    BitsCounted(x, base, 8);
    forall c: nat ensures c in ChunksOf(more) <==> c in ChunksOf(bytes) + BitsUpTo(x, base, 8) {
      ChunkAppended(bytes, x, c);
    }
  }

  lemma ChunkAppended(bytes: seq<bv8>, x: bv8, c: nat)
    ensures c in ChunksOf(bytes + [x]) <==> c in ChunksOf(bytes) || (8 * |bytes| <= c < 8 * |bytes| + 8 && Has(x, c - 8 * |bytes|))
  {
    hide Has;
    if c < 8 * |bytes| {
      assert (bytes + [x])[c / 8] == bytes[c / 8];
    } else if c < 8 * |bytes| + 8 {
      assert c / 8 == |bytes| && c % 8 == c - 8 * |bytes|;
    }
  }
}
