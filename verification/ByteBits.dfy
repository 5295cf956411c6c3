/** Exclusive-or of bytes, bit by bit. */
module ByteBits {
  import opened Bytes

  function XorByte(x: byte, b: byte): byte { ((x as bv8) ^ (b as bv8)) as int }

  predicate Masked(v: bv8, m: bv8) { v & m != 0 }

  predicate Bit8(v: bv8, k: nat)
    requires k < 8
  {
    match k
    case 0 => Masked(v, 1)
    case 1 => Masked(v, 2)
    case 2 => Masked(v, 4)
    case 3 => Masked(v, 8)
    case 4 => Masked(v, 16)
    case 5 => Masked(v, 32)
    case 6 => Masked(v, 64)
    case 7 => Masked(v, 128)
  }

  predicate BitAt(x: byte, k: nat)
    requires k < 8
  {
    Bit8(x as bv8, k)
  }

  lemma XorLowBits(x: bv8, y: bv8)
    ensures Masked(x ^ y, 1) <==> Masked(x, 1) != Masked(y, 1)
    ensures Masked(x ^ y, 2) <==> Masked(x, 2) != Masked(y, 2)
    ensures Masked(x ^ y, 4) <==> Masked(x, 4) != Masked(y, 4)
    ensures Masked(x ^ y, 8) <==> Masked(x, 8) != Masked(y, 8)
  {
  }

  lemma XorHighBits(x: bv8, y: bv8)
    ensures Masked(x ^ y, 16) <==> Masked(x, 16) != Masked(y, 16)
    ensures Masked(x ^ y, 32) <==> Masked(x, 32) != Masked(y, 32)
    ensures Masked(x ^ y, 64) <==> Masked(x, 64) != Masked(y, 64)
    ensures Masked(x ^ y, 128) <==> Masked(x, 128) != Masked(y, 128)
  {
  }

  lemma XorBits8(x: bv8, y: bv8, k: nat)
    requires k < 8
    ensures Bit8(x ^ y, k) <==> Bit8(x, k) != Bit8(y, k)
  {
    hide Masked;
    XorLowBits(x, y);
    XorHighBits(x, y);
  }

  lemma ByteBack(v: bv8)
    ensures (v as int) as bv8 == v
  {
  }

  lemma XorByteIs(x: byte, b: byte)
    ensures XorByte(x, b) as bv8 == (x as bv8) ^ (b as bv8)
  {
    ByteBack((x as bv8) ^ (b as bv8));
  }

  lemma XorBits(x: byte, b: byte, k: nat)
    requires k < 8
    ensures BitAt(XorByte(x, b), k) <==> BitAt(x, k) != BitAt(b, k)
  {
    hide Bit8, XorByte;
    XorByteIs(x, b);
    XorBits8(x as bv8, b as bv8, k);
  }

  lemma Bits8Tell(x: bv8, y: bv8)
    requires forall k :: 0 <= k < 8 ==> Bit8(x, k) == Bit8(y, k)
    ensures x == y
  {
    assert Bit8(x, 0) == Bit8(y, 0) && Bit8(x, 1) == Bit8(y, 1) && Bit8(x, 2) == Bit8(y, 2) && Bit8(x, 3) == Bit8(y, 3);
    assert Bit8(x, 4) == Bit8(y, 4) && Bit8(x, 5) == Bit8(y, 5) && Bit8(x, 6) == Bit8(y, 6) && Bit8(x, 7) == Bit8(y, 7);
  }

  lemma ThereAndBack(x: byte)
    ensures (x as bv8) as int == x
  {
  }

  /** Two bytes with the same bits are the same. */
  lemma BitsTell(x: byte, y: byte)
    requires forall k :: 0 <= k < 8 ==> BitAt(x, k) == BitAt(y, k)
    ensures x == y
  {
    hide Bit8;
    var v, w := x as bv8, y as bv8;
    forall k | 0 <= k < 8 ensures Bit8(v, k) == Bit8(w, k) {
      assert BitAt(x, k) == BitAt(y, k);
    }
    Bits8Tell(v, w);
    ThereAndBack(x);
    ThereAndBack(y);
  }

  lemma NoBits(k: nat)
    requires k < 8
    ensures !BitAt(0, k)
  {
  }

  lemma XorZero(x: byte)
    ensures XorByte(x, 0) == x
  {
    assert (x as bv8) ^ (0 as bv8) == x as bv8;
  }
}
