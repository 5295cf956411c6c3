/** Bytes in memory. */
module Bytes {

  type byte = x: int | 0 <= x < 256

  type u32 = x: int | 0 <= x < 0x1_0000_0000

  function Zeros(n: nat): (r: seq<byte>)
    ensures |r| == n
  {
    seq(n, _ => 0)
  }

  // ----- 32-bit words in memory order, least significant byte first -----

  function EncodeU32(x: u32): (r: seq<byte>)
    ensures |r| == 4
  {
    [x % 256, x / 0x100 % 256, x / 0x1_0000 % 256, x / 0x100_0000]
  }

  function DecodeU32(s: seq<byte>): u32
    requires |s| == 4
  {
    (s[0] as int) + 0x100 * (s[1] as int) + 0x1_0000 * (s[2] as int) + 0x100_0000 * (s[3] as int)
  }

  lemma U32RoundTrip(x: u32)
    ensures DecodeU32(EncodeU32(x)) == x
  {
    var a, b, c := x / 0x100, x / 0x1_0000, x / 0x100_0000;
    assert b == a / 0x100 && c == b / 0x100 by { Halves(x); }
    assert x == 0x100 * a + x % 0x100 && a == 0x100 * b + a % 0x100 && b == 0x100 * c + b % 0x100;
  }

  /** The word read from what a word is written as is that word, and the other way round. */
  lemma U32Back(s: seq<byte>)
    requires |s| == 4
    ensures EncodeU32(DecodeU32(s)) == s
  {
    var x := DecodeU32(s);
    var a, b, c := x / 0x100, x / 0x1_0000, x / 0x100_0000;
    assert a == (s[1] as int) + 0x100 * (s[2] as int) + 0x1_0000 * (s[3] as int) && x % 0x100 == s[0];
    assert b == (s[2] as int) + 0x100 * (s[3] as int) && a % 0x100 == s[1];
    assert c == s[3] && b % 0x100 == s[2];
  }

  /** Changing one byte changes the word by so many units of the byte's place, the first place being that of the ones. */
  lemma U32Places(s: seq<byte>, b: byte)
    requires |s| == 4
    ensures DecodeU32(s[0 := b]) - DecodeU32(s) == b - s[0]
    ensures DecodeU32(s[1 := b]) - DecodeU32(s) == (b - s[1]) * 0x100
    ensures DecodeU32(s[2 := b]) - DecodeU32(s) == (b - s[2]) * 0x1_0000
    ensures DecodeU32(s[3 := b]) - DecodeU32(s) == (b - s[3]) * 0x100_0000
    ensures DecodeU32([0, 0, 0, 0]) == 0
  {
  }

  // ----- Sums -----

  /** The plain total of the bytes. */
  function TotalOf(s: seq<byte>): nat {
    if s == [] then 0 else TotalOf(s[..|s| - 1]) + s[|s| - 1]
  }

  lemma Remainders(n: nat, b: nat)
    ensures (n % 0x1_0000_0000 + b) % 0x1_0000_0000 == (n + b) % 0x1_0000_0000
  {
  }

  lemma Halves(x: nat)
    ensures x / 0x1_0000 == x / 0x100 / 0x100 && x / 0x100_0000 == x / 0x1_0000 / 0x100
  {
  }
}
