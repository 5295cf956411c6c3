/** Bytes as their bits, and the table that gives a byte's column parities (yaffs_ecc.c). */
module ColumnParity {

  /** A byte as its bits, least significant first. */
  type Byte = s: seq<bool> | |s| == 8 witness [false, false, false, false, false, false, false, false]

  function Bit(b: bool, weight: bv8): bv8 { if b then weight else 0 }

  function Pack(x: Byte): bv8 {
    Bit(x[0], 1) | Bit(x[1], 2) | Bit(x[2], 4) | Bit(x[3], 8) | Bit(x[4], 16) | Bit(x[5], 32) | Bit(x[6], 64) | Bit(x[7], 128)
  }

  function Flipped(x: Byte, b: nat): Byte
    requires b < 8
  {
    x[b := !x[b]]
  }

  // ----- column_parity_table, in eight parts -----

  function Part0(x: bv8): bv8 {
    if x == 0 then 0x00 else if x == 1 then 0x55 else if x == 2 then 0x59 else if x == 3 then 0x0c else
    if x == 4 then 0x65 else if x == 5 then 0x30 else if x == 6 then 0x3c else if x == 7 then 0x69 else
    if x == 8 then 0x69 else if x == 9 then 0x3c else if x == 10 then 0x30 else if x == 11 then 0x65 else
    if x == 12 then 0x0c else if x == 13 then 0x59 else if x == 14 then 0x55 else if x == 15 then 0x00 else
    if x == 16 then 0x95 else if x == 17 then 0xc0 else if x == 18 then 0xcc else if x == 19 then 0x99 else
    if x == 20 then 0xf0 else if x == 21 then 0xa5 else if x == 22 then 0xa9 else if x == 23 then 0xfc else
    if x == 24 then 0xfc else if x == 25 then 0xa9 else if x == 26 then 0xa5 else if x == 27 then 0xf0 else
    if x == 28 then 0x99 else if x == 29 then 0xcc else if x == 30 then 0xc0 else 0x95
  }

  function Part1(x: bv8): bv8 {
    if x == 32 then 0x99 else if x == 33 then 0xcc else if x == 34 then 0xc0 else if x == 35 then 0x95 else
    if x == 36 then 0xfc else if x == 37 then 0xa9 else if x == 38 then 0xa5 else if x == 39 then 0xf0 else
    if x == 40 then 0xf0 else if x == 41 then 0xa5 else if x == 42 then 0xa9 else if x == 43 then 0xfc else
    if x == 44 then 0x95 else if x == 45 then 0xc0 else if x == 46 then 0xcc else if x == 47 then 0x99 else
    if x == 48 then 0x0c else if x == 49 then 0x59 else if x == 50 then 0x55 else if x == 51 then 0x00 else
    if x == 52 then 0x69 else if x == 53 then 0x3c else if x == 54 then 0x30 else if x == 55 then 0x65 else
    if x == 56 then 0x65 else if x == 57 then 0x30 else if x == 58 then 0x3c else if x == 59 then 0x69 else
    if x == 60 then 0x00 else if x == 61 then 0x55 else if x == 62 then 0x59 else 0x0c
  }

  function Part2(x: bv8): bv8 {
    if x == 64 then 0xa5 else if x == 65 then 0xf0 else if x == 66 then 0xfc else if x == 67 then 0xa9 else
    if x == 68 then 0xc0 else if x == 69 then 0x95 else if x == 70 then 0x99 else if x == 71 then 0xcc else
    if x == 72 then 0xcc else if x == 73 then 0x99 else if x == 74 then 0x95 else if x == 75 then 0xc0 else
    if x == 76 then 0xa9 else if x == 77 then 0xfc else if x == 78 then 0xf0 else if x == 79 then 0xa5 else
    if x == 80 then 0x30 else if x == 81 then 0x65 else if x == 82 then 0x69 else if x == 83 then 0x3c else
    if x == 84 then 0x55 else if x == 85 then 0x00 else if x == 86 then 0x0c else if x == 87 then 0x59 else
    if x == 88 then 0x59 else if x == 89 then 0x0c else if x == 90 then 0x00 else if x == 91 then 0x55 else
    if x == 92 then 0x3c else if x == 93 then 0x69 else if x == 94 then 0x65 else 0x30
  }

  function Part3(x: bv8): bv8 {
    if x == 96 then 0x3c else if x == 97 then 0x69 else if x == 98 then 0x65 else if x == 99 then 0x30 else
    if x == 100 then 0x59 else if x == 101 then 0x0c else if x == 102 then 0x00 else if x == 103 then 0x55 else
    if x == 104 then 0x55 else if x == 105 then 0x00 else if x == 106 then 0x0c else if x == 107 then 0x59 else
    if x == 108 then 0x30 else if x == 109 then 0x65 else if x == 110 then 0x69 else if x == 111 then 0x3c else
    if x == 112 then 0xa9 else if x == 113 then 0xfc else if x == 114 then 0xf0 else if x == 115 then 0xa5 else
    if x == 116 then 0xcc else if x == 117 then 0x99 else if x == 118 then 0x95 else if x == 119 then 0xc0 else
    if x == 120 then 0xc0 else if x == 121 then 0x95 else if x == 122 then 0x99 else if x == 123 then 0xcc else
    if x == 124 then 0xa5 else if x == 125 then 0xf0 else if x == 126 then 0xfc else 0xa9
  }

  function Part4(x: bv8): bv8 {
    if x == 128 then 0xa9 else if x == 129 then 0xfc else if x == 130 then 0xf0 else if x == 131 then 0xa5 else
    if x == 132 then 0xcc else if x == 133 then 0x99 else if x == 134 then 0x95 else if x == 135 then 0xc0 else
    if x == 136 then 0xc0 else if x == 137 then 0x95 else if x == 138 then 0x99 else if x == 139 then 0xcc else
    if x == 140 then 0xa5 else if x == 141 then 0xf0 else if x == 142 then 0xfc else if x == 143 then 0xa9 else
    if x == 144 then 0x3c else if x == 145 then 0x69 else if x == 146 then 0x65 else if x == 147 then 0x30 else
    if x == 148 then 0x59 else if x == 149 then 0x0c else if x == 150 then 0x00 else if x == 151 then 0x55 else
    if x == 152 then 0x55 else if x == 153 then 0x00 else if x == 154 then 0x0c else if x == 155 then 0x59 else
    if x == 156 then 0x30 else if x == 157 then 0x65 else if x == 158 then 0x69 else 0x3c
  }

  function Part5(x: bv8): bv8 {
    if x == 160 then 0x30 else if x == 161 then 0x65 else if x == 162 then 0x69 else if x == 163 then 0x3c else
    if x == 164 then 0x55 else if x == 165 then 0x00 else if x == 166 then 0x0c else if x == 167 then 0x59 else
    if x == 168 then 0x59 else if x == 169 then 0x0c else if x == 170 then 0x00 else if x == 171 then 0x55 else
    if x == 172 then 0x3c else if x == 173 then 0x69 else if x == 174 then 0x65 else if x == 175 then 0x30 else
    if x == 176 then 0xa5 else if x == 177 then 0xf0 else if x == 178 then 0xfc else if x == 179 then 0xa9 else
    if x == 180 then 0xc0 else if x == 181 then 0x95 else if x == 182 then 0x99 else if x == 183 then 0xcc else
    if x == 184 then 0xcc else if x == 185 then 0x99 else if x == 186 then 0x95 else if x == 187 then 0xc0 else
    if x == 188 then 0xa9 else if x == 189 then 0xfc else if x == 190 then 0xf0 else 0xa5
  }

  function Part6(x: bv8): bv8 {
    if x == 192 then 0x0c else if x == 193 then 0x59 else if x == 194 then 0x55 else if x == 195 then 0x00 else
    if x == 196 then 0x69 else if x == 197 then 0x3c else if x == 198 then 0x30 else if x == 199 then 0x65 else
    if x == 200 then 0x65 else if x == 201 then 0x30 else if x == 202 then 0x3c else if x == 203 then 0x69 else
    if x == 204 then 0x00 else if x == 205 then 0x55 else if x == 206 then 0x59 else if x == 207 then 0x0c else
    if x == 208 then 0x99 else if x == 209 then 0xcc else if x == 210 then 0xc0 else if x == 211 then 0x95 else
    if x == 212 then 0xfc else if x == 213 then 0xa9 else if x == 214 then 0xa5 else if x == 215 then 0xf0 else
    if x == 216 then 0xf0 else if x == 217 then 0xa5 else if x == 218 then 0xa9 else if x == 219 then 0xfc else
    if x == 220 then 0x95 else if x == 221 then 0xc0 else if x == 222 then 0xcc else 0x99
  }

  function Part7(x: bv8): bv8 {
    if x == 224 then 0x95 else if x == 225 then 0xc0 else if x == 226 then 0xcc else if x == 227 then 0x99 else
    if x == 228 then 0xf0 else if x == 229 then 0xa5 else if x == 230 then 0xa9 else if x == 231 then 0xfc else
    if x == 232 then 0xfc else if x == 233 then 0xa9 else if x == 234 then 0xa5 else if x == 235 then 0xf0 else
    if x == 236 then 0x99 else if x == 237 then 0xcc else if x == 238 then 0xc0 else if x == 239 then 0x95 else
    if x == 240 then 0x00 else if x == 241 then 0x55 else if x == 242 then 0x59 else if x == 243 then 0x0c else
    if x == 244 then 0x65 else if x == 245 then 0x30 else if x == 246 then 0x3c else if x == 247 then 0x69 else
    if x == 248 then 0x69 else if x == 249 then 0x3c else if x == 250 then 0x30 else if x == 251 then 0x65 else
    if x == 252 then 0x0c else if x == 253 then 0x59 else if x == 254 then 0x55 else 0x00
  }

  function Table(x: bv8): bv8 {
    if x < 32 then Part0(x) else
    if x < 64 then Part1(x) else
    if x < 96 then Part2(x) else
    if x < 128 then Part3(x) else
    if x < 160 then Part4(x) else
    if x < 192 then Part5(x) else
    if x < 224 then Part6(x) else
    Part7(x)
  }

  /** The parities that each bit of a byte takes part in. */
  function Column(b: nat): bv8
    requires b < 8
  {
    match b
    case 0 => 0x55
    case 1 => 0x59
    case 2 => 0x65
    case 3 => 0x69
    case 4 => 0x95
    case 5 => 0x99
    case 6 => 0xA5
    case _ => 0xA9
  }

  /** What the table should give: the sum of the columns of the ones. */
  function Sum(x: bv8): bv8 {
    Term(x & 1, 0x55) ^ Term(x & 2, 0x59) ^ Term(x & 4, 0x65) ^ Term(x & 8, 0x69)
    ^ Term(x & 16, 0x95) ^ Term(x & 32, 0x99) ^ Term(x & 64, 0xA5) ^ Term(x & 128, 0xA9)
  }

  function Term(x: bv8, column: bv8): bv8 { if x != 0 then column else 0 }

  lemma Part0Right(x: bv8)
    requires x < 32
    ensures Part0(x) == Sum(x)
  {
  }

  lemma Part1Right(x: bv8)
    requires 32 <= x < 64
    ensures Part1(x) == Sum(x)
  {
  }

  lemma Part2Right(x: bv8)
    requires 64 <= x < 96
    ensures Part2(x) == Sum(x)
  {
  }

  lemma Part3Right(x: bv8)
    requires 96 <= x < 128
    ensures Part3(x) == Sum(x)
  {
  }

  lemma Part4Right(x: bv8)
    requires 128 <= x < 160
    ensures Part4(x) == Sum(x)
  {
  }

  lemma Part5Right(x: bv8)
    requires 160 <= x < 192
    ensures Part5(x) == Sum(x)
  {
  }

  lemma Part6Right(x: bv8)
    requires 192 <= x < 224
    ensures Part6(x) == Sum(x)
  {
  }

  lemma Part7Right(x: bv8)
    requires x >= 224
    ensures Part7(x) == Sum(x)
  {
  }

  lemma TableRight(x: bv8)
    ensures Table(x) == Sum(x)
  {
    hide Sum, Part0, Part1, Part2, Part3, Part4, Part5, Part6, Part7;
    if x < 32 { Part0Right(x); } else if x < 64 { Part1Right(x); } else if x < 96 { Part2Right(x); }
    else if x < 128 { Part3Right(x); } else if x < 160 { Part4Right(x); } else if x < 192 { Part5Right(x); }
    else if x < 224 { Part6Right(x); } else { Part7Right(x); }
  }

  /** Exclusive-or of bytes. */
  function Plus(a: bv8, b: bv8): bv8 { a ^ b }

  /** The sum in terms of the bits themselves. */
  function BitSum(b0: bool, b1: bool, b2: bool, b3: bool, b4: bool, b5: bool, b6: bool, b7: bool): bv8 {
    Bit(b0, 0x55) ^ Bit(b1, 0x59) ^ Bit(b2, 0x65) ^ Bit(b3, 0x69) ^ Bit(b4, 0x95) ^ Bit(b5, 0x99) ^ Bit(b6, 0xA5) ^ Bit(b7, 0xA9)
  }

  lemma SumOfBits(x: Byte)
    ensures Sum(Pack(x)) == BitSum(x[0], x[1], x[2], x[3], x[4], x[5], x[6], x[7])
  {
    PackBits(x);
    hide Pack;
    var p := Pack(x);
    assert Term(p & 1, 0x55) == Bit(x[0], 0x55) && Term(p & 2, 0x59) == Bit(x[1], 0x59);
    assert Term(p & 4, 0x65) == Bit(x[2], 0x65) && Term(p & 8, 0x69) == Bit(x[3], 0x69);
    assert Term(p & 16, 0x95) == Bit(x[4], 0x95) && Term(p & 32, 0x99) == Bit(x[5], 0x99);
    assert Term(p & 64, 0xA5) == Bit(x[6], 0xA5) && Term(p & 128, 0xA9) == Bit(x[7], 0xA9);
    hide Term, Bit;
  }

  /** Flipping a bit adds its column to the sum. */
  lemma FlippedLowSum(b0: bool, b1: bool, b2: bool, b3: bool, b4: bool, b5: bool, b6: bool, b7: bool)
    ensures var s := BitSum(b0, b1, b2, b3, b4, b5, b6, b7);
            && BitSum(!b0, b1, b2, b3, b4, b5, b6, b7) == Plus(s, 0x55) && BitSum(b0, !b1, b2, b3, b4, b5, b6, b7) == Plus(s, 0x59)
            && BitSum(b0, b1, !b2, b3, b4, b5, b6, b7) == Plus(s, 0x65) && BitSum(b0, b1, b2, !b3, b4, b5, b6, b7) == Plus(s, 0x69)
  {
  }

  lemma FlippedHighSum(b0: bool, b1: bool, b2: bool, b3: bool, b4: bool, b5: bool, b6: bool, b7: bool)
    ensures var s := BitSum(b0, b1, b2, b3, b4, b5, b6, b7);
            && BitSum(b0, b1, b2, b3, !b4, b5, b6, b7) == Plus(s, 0x95) && BitSum(b0, b1, b2, b3, b4, !b5, b6, b7) == Plus(s, 0x99)
            && BitSum(b0, b1, b2, b3, b4, b5, !b6, b7) == Plus(s, 0xA5) && BitSum(b0, b1, b2, b3, b4, b5, b6, !b7) == Plus(s, 0xA9)
  {
  }

  lemma FlippedSum(x: Byte, b: nat)
    requires b < 8
    ensures Sum(Pack(Flipped(x, b))) == Plus(Sum(Pack(x)), Column(b))
  {
    hide Sum, Pack, BitSum, Plus;
    SumOfBits(x);
    SumOfBits(Flipped(x, b));
    if b < 4 {
      FlippedLowSum(x[0], x[1], x[2], x[3], x[4], x[5], x[6], x[7]);
    } else {
      FlippedHighSum(x[0], x[1], x[2], x[3], x[4], x[5], x[6], x[7]);
    }
  }

  /** The bits of a packed byte. */
  lemma PackBits(x: Byte)
    ensures var p := Pack(x);
            && (p & 1 != 0 <==> x[0]) && (p & 2 != 0 <==> x[1]) && (p & 4 != 0 <==> x[2]) && (p & 8 != 0 <==> x[3])
            && (p & 16 != 0 <==> x[4]) && (p & 32 != 0 <==> x[5]) && (p & 64 != 0 <==> x[6]) && (p & 128 != 0 <==> x[7])
  {
  }

  /** Flipping one bit of any byte adds that bit's column to what the table gives. */
  lemma TableLinear(x: Byte, b: nat)
    requires b < 8
    ensures Table(Pack(Flipped(x, b))) == Plus(Table(Pack(x)), Column(b))
  {
    hide Table, Sum, Pack, Plus, Column;
    TableRight(Pack(x));
    TableRight(Pack(Flipped(x, b)));
    FlippedSum(x, b);
  }
}
