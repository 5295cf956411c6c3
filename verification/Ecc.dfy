/** Error correction over any number of bytes (yaffs_ecc.c, the "other" routines): one wrong bit is put right, two are
    noticed. */
module Ecc {
  import opened Words
  import opened ColumnParity
  import Hweight

  datatype Ecc = Ecc(col: bv8, line: Bits, prime: Bits)

  // ----- The code of some data -----

  function Zero(): Bits { seq(32, k => false) }

  function Step(e: Ecc, x: Byte, i: nat): Ecc {
    var b := Table(Pack(x));
    if b & 1 != 0 then Ecc(Plus(e.col, b), Xor(e.line, FromNat(i, 32)), Xor(e.prime, Not(FromNat(i, 32))))
    else Ecc(Plus(e.col, b), e.line, e.prime)
  }

  /** The sums over all bytes. */
  function Raw(data: seq<Byte>): Ecc {
    if data == [] then Ecc(0, Zero(), Zero()) else Step(Raw(data[..|data| - 1]), data[|data| - 1], |data| - 1)
  }

  function ColumnOf(raw: bv8): bv8 { (raw >> 2) & 0x3F }

  function Calc(data: seq<Byte>): Ecc {
    var raw := Raw(data);
    Ecc(ColumnOf(raw.col), raw.line, raw.prime)
  }

  /** yaffs_ecc_calc_other. */
  method CalcOther(data: array<Byte>) returns (ecc: Ecc)
    ensures ecc == Calc(data[..])
  {
    ghost var d := data[..];
    var colParity, lineParity, lineParityPrime := 0, Zero(), Zero();
    for i := 0 to data.Length
      invariant data[..] == d && Ecc(colParity, lineParity, lineParityPrime) == Raw(d[..i])
    {
      hide Table, Pack, Plus, Xor, Not, FromNat;
      assert d[..i + 1][..i] == d[..i] && d[..i + 1][i] == data[i];
      var b := Table(Pack(data[i]));
      colParity := Plus(colParity, b);
      if b & 1 != 0 {
        lineParity := Xor(lineParity, FromNat(i, 32));
        lineParityPrime := Xor(lineParityPrime, Not(FromNat(i, 32)));
      }
    }
    assert d[..data.Length] == d;
    ecc := Ecc(ColumnOf(colParity), lineParity, lineParityPrime);
  }

  // ----- Exclusive-or -----

  lemma XorTwice(a: Bits, c: Bits)
    ensures Xor(Xor(a, c), c) == a
  {
  }

  lemma XorSwaps(a: Bits, b: Bits, c: Bits)
    ensures Xor(Xor(a, b), c) == Xor(Xor(a, c), b)
  {
  }

  lemma PlusSwaps(a: bv8, b: bv8, c: bv8)
    ensures Plus(Plus(a, b), c) == Plus(Plus(a, c), b)
  {
  }

  lemma ColumnOdd(a: bv8, b: nat)
    requires b < 8
    ensures Plus(a, Column(b)) & 1 != 0 <==> !(a & 1 != 0)
  {
  }

  /** The sums after one bit of the data has been flipped. */
  lemma {:induction false} RawFlipped(data: seq<Byte>, p: nat, b: nat)
    requires p < |data| && b < 8
    ensures var raw := Raw(data);
            Raw(data[p := Flipped(data[p], b)]) == Ecc(Plus(raw.col, Column(b)), Xor(raw.line, FromNat(p, 32)), Xor(raw.prime, Not(FromNat(p, 32))))
  {
    hide Table, Pack, Plus, Column, Xor, Not, FromNat;
    var data', n := data[p := Flipped(data[p], b)], |data| - 1;
    if p == n {
      assert data'[..n] == data[..n];
      var e, t := Raw(data[..n]), Table(Pack(data[n]));
      TableLinear(data[n], b);
      ColumnOdd(t, b);
      PlusJoins(e.col, t, Column(b));
      XorTwice(e.line, FromNat(n, 32));
      XorTwice(e.prime, Not(FromNat(n, 32)));
    } else {
      assert data'[..n] == data[..n][p := Flipped(data[p], b)];
      RawFlipped(data[..n], p, b);
      var e, t := Raw(data[..n]), Table(Pack(data[n]));
      PlusSwaps(e.col, Column(b), t);
      XorSwaps(e.line, FromNat(p, 32), FromNat(n, 32));
      XorSwaps(e.prime, Not(FromNat(p, 32)), Not(FromNat(n, 32)));
    }
  }

  lemma PlusJoins(a: bv8, b: bv8, c: bv8)
    ensures Plus(a, Plus(b, c)) == Plus(Plus(a, b), c)
  {
  }

  // ----- What the code says -----

  function Blank(): Byte { [false, false, false, false, false, false, false, false] }

  /** Bytes of zeros have a code of zeros. */
  lemma {:induction false} ZeroCode(data: seq<Byte>)
    requires forall i :: 0 <= i < |data| ==> data[i] == Blank()
    ensures Raw(data) == Ecc(0, Zero(), Zero()) && Calc(data) == Ecc(0, Zero(), Zero())
  {
    if data != [] {
      ZeroCode(data[..|data| - 1]);
      BlankColumns();
      hide Table, Pack;
    }
  }

  lemma BlankColumns()
    ensures Table(Pack(Blank())) == 0
  {
    assert Pack(Blank()) == 0;
  }

  function Mixed(x: Byte, y: Byte): Byte { seq(8, k requires 0 <= k < 8 => x[k] != y[k]) }

  /** Exclusive-or of data, byte by byte. */
  function MixedData(a: seq<Byte>, b: seq<Byte>): (r: seq<Byte>)
    requires |a| == |b|
    ensures |r| == |a|
  {
    seq(|a|, i requires 0 <= i < |a| => Mixed(a[i], b[i]))
  }

  /** The code of mixed data is that of the one mixed with that of the other. */
  lemma {:induction false} CodeLinear(a: seq<Byte>, b: seq<Byte>)
    requires |a| == |b|
    ensures Raw(MixedData(a, b)) == Difference(Raw(a), Raw(b)) && Calc(MixedData(a, b)) == Difference(Calc(a), Calc(b))
  {
    var n := |a| - 1;
    if n >= 0 {
      CodeLinear(a[..n], b[..n]);
      assert MixedData(a, b)[..n] == MixedData(a[..n], b[..n]);
      StepLinear(Raw(a[..n]), Raw(b[..n]), a[n], b[n], n);
    }
    hide Table, Pack, Step, Xor, Not, FromNat;
    ColumnsLinear(Raw(a).col, Raw(b).col);
  }

  lemma ColumnsLinear(a: bv8, b: bv8)
    ensures ColumnOf(Plus(a, b)) == Plus(ColumnOf(a), ColumnOf(b))
  {
  }

  lemma StepLinear(d: Ecc, e: Ecc, x: Byte, y: Byte, i: nat)
    ensures Step(Difference(d, e), Mixed(x, y), i) == Difference(Step(d, x, i), Step(e, y, i))
  {
    TableMixed(x, y);
    var s, t := Table(Pack(x)), Table(Pack(y));
    hide Table, Pack, Mixed;
    OddSum(s, t);
    PlusRegroups(d.col, e.col, s, t);
    XorRegroups(d.line, e.line, FromNat(i, 32));
    XorRegroups(d.prime, e.prime, Not(FromNat(i, 32)));
    hide FromNat, Not, Xor, Plus;
  }

  lemma OddSum(s: bv8, t: bv8)
    ensures Plus(s, t) & 1 != 0 <==> (s & 1 != 0) != (t & 1 != 0)
  {
  }

  lemma PlusRegroups(a: bv8, b: bv8, s: bv8, t: bv8)
    ensures Plus(Plus(a, b), Plus(s, t)) == Plus(Plus(a, s), Plus(b, t))
  {
    hide Plus;
    PlusJoins(Plus(a, b), s, t);
    PlusSwaps(a, b, s);
    PlusJoins(Plus(a, s), b, t);
  }

  lemma XorRegroups(a: Bits, b: Bits, x: Bits)
    ensures Xor(Xor(a, b), x) == Xor(Xor(a, x), b) == Xor(a, Xor(b, x))
    ensures Xor(Xor(a, x), Xor(b, x)) == Xor(a, b)
  {
  }

  /** The first j bits mixed. */
  function MixedTo(x: Byte, y: Byte, j: nat): Byte { seq(8, k requires 0 <= k < 8 => if k < j then x[k] != y[k] else x[k]) }

  /** Mixing in a byte bit by bit adds the columns of its bits. */
  lemma {:induction false} TableMixedTo(x: Byte, y: Byte, j: nat)
    requires j <= 8
    ensures Table(Pack(MixedTo(x, y, j))) == Plus(Table(Pack(x)), Table(Pack(MixedTo(Blank(), y, j))))
  {
    hide Table, Pack, Plus, Column;
    if j == 0 {
      assert MixedTo(x, y, 0) == x && MixedTo(Blank(), y, 0) == Blank();
      BlankColumns();
      PlusZero(Table(Pack(x)));
    } else {
      TableMixedTo(x, y, j - 1);
      var m, n := MixedTo(x, y, j - 1), MixedTo(Blank(), y, j - 1);
      if y[j - 1] {
        assert MixedTo(x, y, j) == Flipped(m, j - 1) && MixedTo(Blank(), y, j) == Flipped(n, j - 1);
        TableLinear(m, j - 1);
        TableLinear(n, j - 1);
        PlusJoins(Table(Pack(x)), Table(Pack(n)), Column(j - 1));
      } else {
        assert MixedTo(x, y, j) == m && MixedTo(Blank(), y, j) == n;
      }
    }
  }

  lemma PlusZero(a: bv8)
    ensures Plus(a, 0) == a
  {
  }

  lemma TableMixed(x: Byte, y: Byte)
    ensures Table(Pack(Mixed(x, y))) == Plus(Table(Pack(x)), Table(Pack(y)))
  {
    hide Table, Pack, Plus;
    TableMixedTo(x, y, 8);
    assert MixedTo(x, y, 8) == Mixed(x, y) && MixedTo(Blank(), y, 8) == y;
  }

  function Ones(x: Byte): nat {
    (if x[0] then 1 else 0) + (if x[1] then 1 else 0) + (if x[2] then 1 else 0) + (if x[3] then 1 else 0)
    + (if x[4] then 1 else 0) + (if x[5] then 1 else 0) + (if x[6] then 1 else 0) + (if x[7] then 1 else 0)
  }

  /** How many bits are set in the bytes whose number has bit k set, or clear. */
  function OnesWhere(data: seq<Byte>, k: nat, set_: bool): nat
    requires k < 32
  {
    if data == [] then 0
    else
      var n := |data| - 1;
      OnesWhere(data[..n], k, set_) + if FromNat(n, 32)[k] == set_ then Ones(data[n]) else 0
  }

  /** Bit k of the line parity is the parity of the lines whose number has bit k set, and of the primed one of the others. */
  lemma {:induction false} LineParity(data: seq<Byte>, k: nat)
    requires k < 32
    ensures Raw(data).line[k] <==> OnesWhere(data, k, true) % 2 == 1
    ensures Raw(data).prime[k] <==> OnesWhere(data, k, false) % 2 == 1
  {
    if data != [] {
      var n := |data| - 1;
      LineParity(data[..n], k);
      StepLines(Raw(data[..n]), data[n], n, k);
      OddSumOf(OnesWhere(data[..n], k, true), Ones(data[n]));
      OddSumOf(OnesWhere(data[..n], k, false), Ones(data[n]));
      hide Step, Ones, FromNat;
    }
  }

  lemma OddSumOf(m: nat, n: nat)
    ensures (m + n) % 2 == 1 <==> (m % 2 == 1) != (n % 2 == 1)
  {
  }

  lemma StepLines(e: Ecc, x: Byte, i: nat, k: nat)
    requires k < 32
    ensures Step(e, x, i).line[k] <==> e.line[k] != (Ones(x) % 2 == 1 && FromNat(i, 32)[k])
    ensures Step(e, x, i).prime[k] <==> e.prime[k] != (Ones(x) % 2 == 1 && !FromNat(i, 32)[k])
  {
    OddByte(x);
    hide Table, Pack, Ones, FromNat, Plus;
  }

  lemma OddByte(x: Byte)
    ensures Table(Pack(x)) & 1 != 0 <==> Ones(x) % 2 == 1
  {
    hide Table, Sum, Pack;
    TableRight(Pack(x));
    SumOfBits(x);
    OddBits(x[0], x[1], x[2], x[3], x[4], x[5], x[6], x[7]);
  }

  lemma OddBits(b0: bool, b1: bool, b2: bool, b3: bool, b4: bool, b5: bool, b6: bool, b7: bool)
    ensures BitSum(b0, b1, b2, b3, b4, b5, b6, b7) & 1 != 0 <==>
            (b0 != (b1 != (b2 != (b3 != (b4 != (b5 != (b6 != b7)))))))
  {
  }

  // ----- Correcting -----

  function Difference(a: Ecc, b: Ecc): Ecc {
    Ecc(Plus(a.col, b.col), Xor(a.line, b.line), Xor(a.prime, b.prime))
  }

  /** What one wrong bit in the data makes of the difference: line parities that are each other's complement, and one
      of each pair of column parities. */
  predicate LooksLikeData(d: Ecc) {
    d.line == Not(d.prime) && (d.col ^ (d.col >> 1)) & 0x15 == 0x15
  }

  /** The bit that the column parities point at. */
  function BitOf(col: bv8): (r: nat)
    ensures r < 8
  {
    (if col & 0x20 != 0 then 4 else 0) + (if col & 8 != 0 then 2 else 0) + (if col & 2 != 0 then 1 else 0)
  }

  /** hweight8 of one of a word's bytes. */
  function WordByte(x: Bits, k: nat): bv8
    requires k < 4
  {
    Pack(x[8 * k..8 * k + 8])
  }

  function Hweight32(x: Bits): nat {
    Hweight.Hweight8(WordByte(x, 0)) + Hweight.Hweight8(WordByte(x, 1)) + Hweight.Hweight8(WordByte(x, 2)) + Hweight.Hweight8(WordByte(x, 3))
  }

  function Weight(d: Ecc): nat {
    Hweight32(d.line) + Hweight32(d.prime) + Hweight.Hweight8(d.col)
  }

  datatype Outcome = Outcome(result: int, data: seq<Byte>, ecc: Ecc)

  /** What comes of data and code as read, given the code of the data as read. */
  function Corrected(data: seq<Byte>, readEcc: Ecc, testEcc: Ecc): Outcome {
    var d := Difference(readEcc, testEcc);
    if d.col == 0 && IsZero(d.line) && IsZero(d.prime) then Outcome(0, data, readEcc)
    else if LooksLikeData(d) then
      var at := ToNat(d.line);
      if at >= |data| then Outcome(-1, data, readEcc) else Outcome(1, data[at := Flipped(data[at], BitOf(d.col))], readEcc)
    else if Weight(d) == 1 then Outcome(1, data, testEcc)
    else Outcome(-1, data, readEcc)
  }

  /** yaffs_ecc_correct_other. */
  method CorrectOther(data: array<Byte>, readEcc: Ecc, testEcc: Ecc) returns (result: int, ecc: Ecc)
    modifies data
    ensures Outcome(result, data[..], ecc) == Corrected(old(data[..]), readEcc, testEcc)
  {
    hide Plus, Xor, Not, Weight, ToNat;
    ecc := readEcc;
    var deltaCol, deltaLine, deltaLinePrime := Plus(readEcc.col, testEcc.col), Xor(readEcc.line, testEcc.line), Xor(readEcc.prime, testEcc.prime);
    if deltaCol == 0 && IsZero(deltaLine) && IsZero(deltaLinePrime) { return 0, ecc; }
    if deltaLine == Not(deltaLinePrime) && (deltaCol ^ (deltaCol >> 1)) & 0x15 == 0x15 {
      var bit := BitOf(deltaCol);
      if ToNat(deltaLine) >= data.Length { return -1, ecc; }
      data[ToNat(deltaLine)] := Flipped(data[ToNat(deltaLine)], bit);
      return 1, ecc;
    }
    if Weight(Ecc(deltaCol, deltaLine, deltaLinePrime)) == 1 { return 1, testEcc; }
    result := -1;
  }

  // ----- Counting ones -----

  function Count(x: seq<bool>): nat {
    if x == [] then 0 else (if x[0] then 1 else 0) + Count(x[1..])
  }

  lemma {:induction false} CountSplit(x: seq<bool>, k: nat)
    requires k <= |x|
    ensures Count(x) == Count(x[..k]) + Count(x[k..])
  {
    if k > 0 {
      CountSplit(x[1..], k - 1);
      assert x[1..][..k - 1] == x[..k][1..] && x[1..][k - 1..] == x[k..];
    } else {
      assert x[..0] == [] && x[0..] == x;
    }
  }

  /** The bits of a byte that is a bit-vector. */
  function Bits8(x: bv8): Byte {
    [Has(x, 1), Has(x, 2), Has(x, 4), Has(x, 8), Has(x, 16), Has(x, 32), Has(x, 64), Has(x, 128)]
  }

  predicate Has(x: bv8, m: bv8) { x & m != 0 }

  lemma Count8(x: Byte)
    ensures Count(x) == C(x[0]) + C(x[1]) + C(x[2]) + C(x[3]) + C(x[4]) + C(x[5]) + C(x[6]) + C(x[7])
  {
    CountSplit(x, 4);
    Count4(x[..4]);
    Count4(x[4..]);
  }

  function C(b: bool): nat { if b then 1 else 0 }

  lemma Count4(x: seq<bool>)
    requires |x| == 4
    ensures Count(x) == C(x[0]) + C(x[1]) + C(x[2]) + C(x[3])
  {
    assert Count(x[1..]) == C(x[1]) + Count(x[1..][1..]);
    assert Count(x[1..][1..]) == C(x[2]) + Count(x[1..][1..][1..]);
    assert Count(x[1..][1..][1..]) == C(x[3]);
  }

  lemma Hweight8Counts(x: bv8)
    ensures Hweight.Hweight8(x) == Count(Bits8(x))
  {
    hide Hweight.Hweight8, Count;
    Hweight.TableRight(x);
    Count8(Bits8(x));
  }

  lemma PackedBits(x: Byte)
    ensures Bits8(Pack(x)) == x
  {
    hide Pack;
    PackBits(x);
  }

  lemma PackedCounts(x: Byte)
    ensures Hweight.Hweight8(Pack(x)) == Count(x)
  {
    hide Hweight.Hweight8, Pack, Count;
    Hweight8Counts(Pack(x));
    PackedBits(x);
  }

  lemma Hweight32Counts(x: Bits)
    ensures Hweight32(x) == Count(x)
  {
    hide Hweight.Hweight8, Pack, Count;
    PackedCounts(x[0..8]);
    PackedCounts(x[8..16]);
    PackedCounts(x[16..24]);
    PackedCounts(x[24..32]);
    CountSplit(x, 8);
    CountSplit(x[8..], 8);
    CountSplit(x[8..][8..], 8);
    assert x[..8] == x[0..8] && x[8..][..8] == x[8..16];
    assert x[8..][8..][..8] == x[16..24] && x[8..][8..][8..] == x[24..32];
  }

  lemma {:induction false} CountXor(a: seq<bool>, b: seq<bool>, c: seq<bool>)
    requires |a| == |b| == |c| && forall i :: 0 <= i < |a| ==> c[i] == (a[i] != b[i])
    ensures (Count(a) + Count(b)) % 2 == Count(c) % 2
  {
    if a != [] {
      assert forall i :: 0 <= i < |a| - 1 ==> c[1..][i] == (a[1..][i] != b[1..][i]) by {
        assert forall i :: 0 <= i < |a| - 1 ==> c[1..][i] == c[i + 1] && a[1..][i] == a[i + 1] && b[1..][i] == b[i + 1];
      }
      CountXor(a[1..], b[1..], c[1..]);
    }
  }

  lemma {:induction false} CountNot(a: seq<bool>, c: seq<bool>)
    requires |a| == |c| && forall i :: 0 <= i < |a| ==> c[i] == !a[i]
    ensures Count(a) + Count(c) == |a|
  {
    if a != [] {
      assert forall i :: 0 <= i < |a| - 1 ==> c[1..][i] == !a[1..][i] by {
        assert forall i :: 0 <= i < |a| - 1 ==> c[1..][i] == c[i + 1] && a[1..][i] == a[i + 1];
      }
      CountNot(a[1..], c[1..]);
    }
  }

  lemma {:induction false} CountNone(a: seq<bool>)
    requires IsZero(a)
    ensures Count(a) == 0
  {
    if a != [] {
      assert forall i :: 0 <= i < |a| - 1 ==> a[1..][i] == a[i + 1];
      CountNone(a[1..]);
    }
  }

  lemma CountOne(a: seq<bool>, k: nat)
    requires k < |a| && forall i :: 0 <= i < |a| ==> a[i] == (i == k)
    ensures Count(a) == 1
  {
    CountSplit(a, k);
    CountNone(a[..k]);
    CountNone(a[k..][1..]);
  }

  // ----- Flipped bits -----

  /** A bit of the data, or one of the 70 bits of the code that mean something: 6 of the columns, and 32 of each line
      parity. */
  datatype Flip = InData(p: nat, b: nat) | InCode(k: nat)

  datatype Stored = Stored(data: seq<Byte>, ecc: Ecc)

  predicate FlipOk(f: Flip, n: nat) {
    match f
    case InData(p, b) => p < n && b < 8
    case InCode(k) => k < 70
  }

  function UnitColumn(k: nat): bv8
    requires k < 6
  {
    match k
    case 0 => 1
    case 1 => 2
    case 2 => 4
    case 3 => 8
    case 4 => 16
    case _ => 32
  }

  function UnitWord(k: nat): Bits { seq(32, i => i == k) }

  /** What a flip adds to the difference of the codes. */
  function Delta(f: Flip): Ecc
    requires FlipOk(f, 0x1_0000_0000)
  {
    match f
    case InData(p, b) => Ecc(ColumnOf(Column(b)), FromNat(p, 32), Not(FromNat(p, 32)))
    case InCode(k) =>
      if k < 6 then Ecc(UnitColumn(k), Zero(), Zero())
      else if k < 38 then Ecc(0, UnitWord(k - 6), Zero())
      else Ecc(0, Zero(), UnitWord(k - 38))
  }

  function Flipping(s: Stored, f: Flip): (r: Stored)
    requires |s.data| <= 0x1_0000_0000 && FlipOk(f, |s.data|)
    ensures |r.data| == |s.data|
  {
    match f
    case InData(p, b) => s.(data := s.data[p := Flipped(s.data[p], b)])
    case InCode(k) => s.(ecc := Difference(s.ecc, Delta(f)))
  }

  lemma ColumnOfPlus(a: bv8, b: bv8)
    ensures ColumnOf(Plus(a, b)) == Plus(ColumnOf(a), ColumnOf(b))
  {
  }

  lemma XorJoins(a: Bits, b: Bits, c: Bits)
    ensures Xor(a, Xor(b, c)) == Xor(Xor(a, b), c)
  {
  }

  function Drift(s: Stored): Ecc { Difference(s.ecc, Calc(s.data)) }

  /** Every flip adds its own share to the difference that the reader will see. */
  lemma DriftFlipped(s: Stored, f: Flip)
    requires |s.data| <= 0x1_0000_0000 && FlipOk(f, |s.data|)
    ensures Drift(Flipping(s, f)) == Difference(Drift(s), Delta(f))
  {
    hide Plus, Xor, Not, FromNat, ColumnOf, Column, Raw, UnitColumn;
    var test := Calc(s.data);
    if f.InData? {
      RawFlipped(s.data, f.p, f.b);
      ColumnOfPlus(Raw(s.data).col, Column(f.b));
      PlusJoins(s.ecc.col, test.col, ColumnOf(Column(f.b)));
      XorJoins(s.ecc.line, test.line, FromNat(f.p, 32));
      XorJoins(s.ecc.prime, test.prime, Not(FromNat(f.p, 32)));
    } else {
      var d := Delta(f);
      PlusSwaps(s.ecc.col, d.col, test.col);
      XorSwaps(s.ecc.line, d.line, test.line);
      XorSwaps(s.ecc.prime, d.prime, test.prime);
    }
  }

  // ----- Weights -----

  lemma WeightCounts(d: Ecc)
    ensures Weight(d) == Count(d.line) + Count(d.prime) + Count(Bits8(d.col))
  {
    hide Hweight.Hweight8, Hweight32, Count, Bits8;
    Hweight32Counts(d.line);
    Hweight32Counts(d.prime);
    Hweight8Counts(d.col);
  }

  lemma Bits8Plus(a: bv8, b: bv8)
    ensures forall i :: 0 <= i < 8 ==> Bits8(Plus(a, b))[i] == (Bits8(a)[i] != Bits8(b)[i])
  {
    hide Has, Plus, Bits8;
    MasksPlus(a, b);
    BitsAt(a);
    BitsAt(b);
    BitsAt(Plus(a, b));
    EachBit(Bits8(a), Bits8(b), Bits8(Plus(a, b)));
  }

  lemma BitsAt(x: bv8)
    ensures var r := Bits8(x);
            && r[0] == Has(x, 1) && r[1] == Has(x, 2) && r[2] == Has(x, 4) && r[3] == Has(x, 8)
            && r[4] == Has(x, 16) && r[5] == Has(x, 32) && r[6] == Has(x, 64) && r[7] == Has(x, 128)
  {
    hide Has;
  }

  lemma EachBit(x: Byte, y: Byte, z: Byte)
    requires z[0] == (x[0] != y[0]) && z[1] == (x[1] != y[1]) && z[2] == (x[2] != y[2]) && z[3] == (x[3] != y[3])
    requires z[4] == (x[4] != y[4]) && z[5] == (x[5] != y[5]) && z[6] == (x[6] != y[6]) && z[7] == (x[7] != y[7])
    ensures forall i :: 0 <= i < 8 ==> z[i] == (x[i] != y[i])
  {
    forall i | 0 <= i < 8 ensures z[i] == (x[i] != y[i]) {
      assert i == 0 || i == 1 || i == 2 || i == 3 || i == 4 || i == 5 || i == 6 || i == 7;
    }
  }

  lemma MasksPlus(a: bv8, b: bv8)
    ensures Has(Plus(a, b), 1) == (Has(a, 1) != Has(b, 1)) && Has(Plus(a, b), 2) == (Has(a, 2) != Has(b, 2))
    ensures Has(Plus(a, b), 4) == (Has(a, 4) != Has(b, 4)) && Has(Plus(a, b), 8) == (Has(a, 8) != Has(b, 8))
    ensures Has(Plus(a, b), 16) == (Has(a, 16) != Has(b, 16)) && Has(Plus(a, b), 32) == (Has(a, 32) != Has(b, 32))
    ensures Has(Plus(a, b), 64) == (Has(a, 64) != Has(b, 64)) && Has(Plus(a, b), 128) == (Has(a, 128) != Has(b, 128))
  {
  }

  /** Weights add up modulo two. */
  lemma WeightParity(a: Ecc, b: Ecc)
    ensures Weight(Difference(a, b)) % 2 == (Weight(a) + Weight(b)) % 2
  {
    hide Weight, Count, Bits8, Plus, Xor;
    WeightCounts(a);
    WeightCounts(b);
    WeightCounts(Difference(a, b));
    Bits8Plus(a.col, b.col);
    CountXorWord(a.line, b.line);
    CountXorWord(a.prime, b.prime);
    CountXor(Bits8(a.col), Bits8(b.col), Bits8(Plus(a.col, b.col)));
    ParitiesAdd(Count(a.line) + Count(b.line), Count(Xor(a.line, b.line)), Count(a.prime) + Count(b.prime), Count(Xor(a.prime, b.prime)));
    ParitiesAdd(Count(a.line) + Count(b.line) + (Count(a.prime) + Count(b.prime)), Count(Xor(a.line, b.line)) + Count(Xor(a.prime, b.prime)),
                Count(Bits8(a.col)) + Count(Bits8(b.col)), Count(Bits8(Plus(a.col, b.col))));
  }

  lemma CountXorWord(a: Bits, b: Bits)
    ensures (Count(a) + Count(b)) % 2 == Count(Xor(a, b)) % 2
  {
    CountXor(a, b, Xor(a, b));
  }

  lemma ParitiesAdd(a: nat, b: nat, c: nat, d: nat)
    requires a % 2 == b % 2 && c % 2 == d % 2
    ensures (a + c) % 2 == (b + d) % 2
  {
  }

  lemma ThreeColumns(col: bv8)
    requires (col ^ (col >> 1)) & 0x15 == 0x15 && col < 64
    ensures Count(Bits8(col)) == 3 && col != 0
  {
    hide Count;
    Count8(Bits8(col));
  }

  /** What looks like a wrong data bit weighs 35. */
  lemma DataWeight(d: Ecc)
    requires LooksLikeData(d) && d.col < 64
    ensures Weight(d) == 35 && d.col != 0
  {
    hide Weight, Count, Bits8;
    WeightCounts(d);
    ThreeColumns(d.col);
    CountNot(d.prime, d.line);
  }

  lemma ColumnLooksLikeData(b: nat)
    requires b < 8
    ensures var col := ColumnOf(Column(b)); (col ^ (col >> 1)) & 0x15 == 0x15 && col < 64 && BitOf(col) == b
  {
  }

  lemma DataDelta(f: Flip)
    requires f.InData? && FlipOk(f, 0x1_0000_0000)
    ensures LooksLikeData(Delta(f)) && Delta(f).col < 64 && BitOf(Delta(f).col) == f.b && ToNat(Delta(f).line) == f.p
  {
    hide FromNat, ToNat, ColumnOf, Column, BitOf;
    ColumnLooksLikeData(f.b);
    WordRoundTrip(f.p);
    assert Not(Not(FromNat(f.p, 32))) == FromNat(f.p, 32);
  }

  lemma CodeDelta(f: Flip)
    requires f.InCode? && FlipOk(f, 0x1_0000_0000)
    ensures Weight(Delta(f)) == 1 && Delta(f).col < 64
  {
    hide Weight, Count, Bits8, UnitColumn;
    WeightCounts(Delta(f));
    CountNone(Zero());
    if f.k < 6 {
      UnitColumnCount(f.k);
    } else {
      NoColumns();
      CountOne(UnitWord(if f.k < 38 then f.k - 6 else f.k - 38), if f.k < 38 then f.k - 6 else f.k - 38);
    }
  }

  lemma UnitColumnCount(k: nat)
    requires k < 6
    ensures Count(Bits8(UnitColumn(k))) == 1 && UnitColumn(k) < 64
  {
    hide Count;
    Count8(Bits8(UnitColumn(k)));
  }

  lemma NoColumns()
    ensures Count(Bits8(0)) == 0
  {
    hide Count;
    Count8(Bits8(0));
  }

  predicate IsNothing(d: Ecc) { d.col == 0 && IsZero(d.line) && IsZero(d.prime) }

  lemma NothingWeighs(d: Ecc)
    requires IsNothing(d)
    ensures Weight(d) == 0
  {
    hide Weight, Count, Bits8;
    WeightCounts(d);
    CountNone(d.line);
    CountNone(d.prime);
    NoColumns();
  }

  // ----- The results -----

  lemma DriftNone(data: seq<Byte>)
    ensures IsNothing(Drift(Stored(data, Calc(data))))
  {
    hide Raw;
    PlusSelf(Calc(data).col);
  }

  lemma PlusSelf(a: bv8)
    ensures Plus(a, a) == 0 && Plus(0, a) == a
  {
  }

  lemma FromNothing(d: Ecc, e: Ecc)
    requires IsNothing(d)
    ensures Difference(d, e) == e
  {
    PlusSelf(e.col);
    assert Xor(d.line, e.line) == e.line && Xor(d.prime, e.prime) == e.prime;
  }

  /** Data and code as written are taken as they are. */
  lemma Unspoiled(data: seq<Byte>)
    ensures Corrected(data, Calc(data), Calc(data)) == Outcome(0, data, Calc(data))
  {
    hide Raw, Weight;
    DriftNone(data);
  }

  /** One wrong bit in the data is put right. */
  lemma OneDataBit(data: seq<Byte>, p: nat, b: nat)
    requires |data| <= 0x1_0000_0000 && p < |data| && b < 8
    ensures var spoilt := data[p := Flipped(data[p], b)];
            Corrected(spoilt, Calc(data), Calc(spoilt)) == Outcome(1, data, Calc(data))
  {
    hide Raw, Weight, Difference, Delta, LooksLikeData, ToNat, BitOf, Calc;
    var s, f := Stored(data, Calc(data)), InData(p, b);
    DriftNone(data);
    DriftFlipped(s, f);
    FromNothing(Drift(s), Delta(f));
    DataDelta(f);
    DataWeight(Delta(f));
    var spoilt := data[p := Flipped(data[p], b)];
    assert Flipped(spoilt[p], b) == data[p];
    assert spoilt[p := data[p]] == data;
  }

  /** One wrong bit in the code leaves the data alone and puts the code right. */
  lemma OneCodeBit(data: seq<Byte>, k: nat)
    requires |data| <= 0x1_0000_0000 && k < 70
    ensures Corrected(data, Difference(Calc(data), Delta(InCode(k))), Calc(data)) == Outcome(1, data, Calc(data))
  {
    hide Raw, Weight, Difference, Delta, LooksLikeData, ToNat, BitOf, Calc;
    var s, f := Stored(data, Calc(data)), InCode(k);
    DriftNone(data);
    DriftFlipped(s, f);
    FromNothing(Drift(s), Delta(f));
    CodeDelta(f);
    NotDataNorNothing(Delta(f));
  }

  lemma NotDataNorNothing(d: Ecc)
    requires Weight(d) == 1 && d.col < 64
    ensures !LooksLikeData(d) && !IsNothing(d)
  {
    hide Weight, LooksLikeData, IsNothing;
    if LooksLikeData(d) { DataWeight(d); }
    if IsNothing(d) { NothingWeighs(d); }
  }

  /** Different flips add different shares. */
  lemma DeltasDiffer(f: Flip, g: Flip)
    requires FlipOk(f, 0x1_0000_0000) && FlipOk(g, 0x1_0000_0000) && f != g
    ensures Delta(f) != Delta(g)
  {
    hide Weight, FromNat, ToNat, ColumnOf, Column, BitOf, LooksLikeData;
    if f.InData? {
      DataDelta(f);
      DataWeight(Delta(f));
    } else {
      CodeDelta(f);
    }
    if g.InData? {
      DataDelta(g);
      DataWeight(Delta(g));
    } else {
      CodeDelta(g);
    }
    if f.InCode? && g.InCode? { UnitsDiffer(f.k, g.k); }
  }

  lemma UnitsDiffer(j: nat, k: nat)
    requires j < 70 && k < 70 && j != k
    ensures Delta(InCode(j)) != Delta(InCode(k))
  {
    if 6 <= j < 38 { assert UnitWord(j - 6)[j - 6]; }
    if j >= 38 { assert UnitWord(j - 38)[j - 38]; }
    if 6 <= k < 38 { assert UnitWord(k - 6)[k - 6]; }
    if k >= 38 { assert UnitWord(k - 38)[k - 38]; }
  }

  lemma NothingBetween(d: Ecc, e: Ecc)
    requires IsNothing(Difference(d, e))
    ensures d == e
  {
    assert d.col == e.col by { assert Plus(d.col, e.col) == 0; }
    assert forall i :: 0 <= i < 32 ==> Xor(d.line, e.line)[i] == (d.line[i] != e.line[i]);
    assert forall i :: 0 <= i < 32 ==> Xor(d.prime, e.prime)[i] == (d.prime[i] != e.prime[i]);
  }

  lemma NarrowColumns(a: bv8, b: bv8)
    requires a < 64 && b < 64
    ensures Plus(a, b) < 64
  {
  }

  /** Two wrong bits anywhere among the data and the bits of the code that count are noticed, and nothing is touched. */
  lemma TwoBits(data: seq<Byte>, f: Flip, g: Flip)
    requires |data| <= 0x1_0000_0000 && FlipOk(f, |data|) && FlipOk(g, |data|) && f != g
    ensures var spoilt := Flipping(Flipping(Stored(data, Calc(data)), f), g);
            Corrected(spoilt.data, spoilt.ecc, Calc(spoilt.data)) == Outcome(-1, spoilt.data, spoilt.ecc)
  {
    hide Raw, Weight, Difference, Delta, LooksLikeData, ToNat, BitOf, Calc, Plus;
    var s := Stored(data, Calc(data));
    DriftNone(data);
    DriftFlipped(s, f);
    FromNothing(Drift(s), Delta(f));
    DriftFlipped(Flipping(s, f), g);
    TwoDeltas(f, g);
  }

  lemma TwoDeltas(f: Flip, g: Flip)
    requires FlipOk(f, 0x1_0000_0000) && FlipOk(g, 0x1_0000_0000) && f != g
    ensures var d := Difference(Delta(f), Delta(g)); !IsNothing(d) && !LooksLikeData(d) && Weight(d) != 1
  {
    hide Weight, Delta, LooksLikeData, ToNat, BitOf, Plus, IsNothing;
    var d := Difference(Delta(f), Delta(g));
    DeltasDiffer(f, g);
    if IsNothing(d) { NothingBetween(Delta(f), Delta(g)); }
    DeltaWeight(f);
    DeltaWeight(g);
    WeightParity(Delta(f), Delta(g));
    NarrowColumns(Delta(f).col, Delta(g).col);
    if LooksLikeData(d) { DataWeight(d); }
  }

  lemma DeltaWeight(f: Flip)
    requires FlipOk(f, 0x1_0000_0000)
    ensures Weight(Delta(f)) % 2 == 1 && Delta(f).col < 64
  {
    hide Weight, Delta, LooksLikeData, ToNat, BitOf;
    if f.InData? {
      DataDelta(f);
      DataWeight(Delta(f));
    } else {
      CodeDelta(f);
    }
  }
}
