/** 32-bit words as their bits, least significant first, and the operations the code uses on them. */
module Words {

  type Bits = s: seq<bool> | |s| == 32 witness FromNat(0, 32)

  predicate IsZero(x: seq<bool>) {
    forall b :: 0 <= b < |x| ==> !x[b]
  }

  // ----- The word operations the code uses -----

  function And(x: Bits, y: Bits): Bits { seq(32, k requires 0 <= k < 32 => x[k] && y[k]) }

  function Or(x: Bits, y: Bits): Bits { seq(32, k requires 0 <= k < 32 => x[k] || y[k]) }

  function Not(x: Bits): Bits { seq(32, k requires 0 <= k < 32 => !x[k]) }

  function ShiftLeft(x: Bits, n: nat): Bits { seq(32, k requires 0 <= k < 32 => k >= n && x[k - n]) }

  function ShiftRight(x: Bits, n: nat): Bits { seq(32, k requires 0 <= k < 32 => k + n < 32 && x[k + n]) }

  /** A mask of the lowest width bits (tnode_mask). */
  function Mask(width: nat): Bits { seq(32, k => k < width) }

  // ----- Words and numbers -----

  function ToNat(x: seq<bool>): nat {
    if x == [] then 0 else (if x[0] then 1 else 0) + 2 * ToNat(x[1..])
  }

  function FromNat(n: nat, len: nat): (r: seq<bool>)
    ensures |r| == len
  {
    if len == 0 then [] else [n % 2 == 1] + FromNat(n / 2, len - 1)
  }

  function PowerOfTwo(e: nat): nat { if e == 0 then 1 else 2 * PowerOfTwo(e - 1) }

  lemma {:induction false} NumberRoundTrip(n: nat, len: nat)
    requires n < PowerOfTwo(len)
    ensures ToNat(FromNat(n, len)) == n
  {
    if len > 0 {
      NumberRoundTrip(n / 2, len - 1);
      assert FromNat(n, len)[1..] == FromNat(n / 2, len - 1);
    }
  }

  /** A number below 2^e has no bits from e on. */
  lemma {:induction false} NumberFits(n: nat, len: nat, e: nat, k: nat)
    requires n < PowerOfTwo(e) && e <= k < len
    ensures !FromNat(n, len)[k]
  {
    if e > 0 {
      NumberFits(n / 2, len - 1, e - 1, k - 1);
    } else if k > 0 {
      NumberFits(0, len - 1, 0, k - 1);
    }
  }

  lemma {:induction false} ZeroMeansNoBits(x: seq<bool>)
    ensures ToNat(x) == 0 <==> IsZero(x)
  {
    if x != [] {
      ZeroMeansNoBits(x[1..]);
      if ToNat(x) == 0 {
        forall k | 0 <= k < |x| ensures !x[k] {
          if k > 0 { assert x[k] == x[1..][k - 1]; }
        }
      }
    }
  }

  lemma {:induction false} Narrower(n: nat, e: nat, f: nat)
    requires n < PowerOfTwo(e) && e <= f
    ensures n < PowerOfTwo(f)
  {
    if e < f { Narrower(n, e, f - 1); }
  }

  function Xor(x: Bits, y: Bits): Bits { seq(32, k requires 0 <= k < 32 => x[k] != y[k]) }

  lemma WordFits()
    ensures PowerOfTwo(32) == 0x1_0000_0000
  {
    assert PowerOfTwo(4) == 16;
    assert PowerOfTwo(8) == 256;
    assert PowerOfTwo(12) == 0x1000;
    assert PowerOfTwo(16) == 0x1_0000;
    assert PowerOfTwo(20) == 0x10_0000;
    assert PowerOfTwo(24) == 0x100_0000;
    assert PowerOfTwo(28) == 0x1000_0000;
  }

  lemma WordRoundTrip(n: nat)
    requires n < 0x1_0000_0000
    ensures ToNat(FromNat(n, 32)) == n
  {
    WordFits();
    NumberRoundTrip(n, 32);
  }
}
