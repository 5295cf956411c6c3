/** Counting the bits of a byte and of a word by table (yaffs_hweight.c). */
module Hweight {

  // ----- yaffs_count_bits_table, in eight parts -----

  function CountPart0(x: bv8): nat {
    if x == 0 then 0 else if x == 1 then 1 else if x == 2 then 1 else if x == 3 then 2 else if x == 4 then 1 else if x == 5 then 2 else if x == 6 then 2 else if x == 7 then 3 else
    if x == 8 then 1 else if x == 9 then 2 else if x == 10 then 2 else if x == 11 then 3 else if x == 12 then 2 else if x == 13 then 3 else if x == 14 then 3 else if x == 15 then 4 else
    if x == 16 then 1 else if x == 17 then 2 else if x == 18 then 2 else if x == 19 then 3 else if x == 20 then 2 else if x == 21 then 3 else if x == 22 then 3 else if x == 23 then 4 else
    if x == 24 then 2 else if x == 25 then 3 else if x == 26 then 3 else if x == 27 then 4 else if x == 28 then 3 else if x == 29 then 4 else if x == 30 then 4 else 5
  }

  function CountPart1(x: bv8): nat {
    if x == 32 then 1 else if x == 33 then 2 else if x == 34 then 2 else if x == 35 then 3 else if x == 36 then 2 else if x == 37 then 3 else if x == 38 then 3 else if x == 39 then 4 else
    if x == 40 then 2 else if x == 41 then 3 else if x == 42 then 3 else if x == 43 then 4 else if x == 44 then 3 else if x == 45 then 4 else if x == 46 then 4 else if x == 47 then 5 else
    if x == 48 then 2 else if x == 49 then 3 else if x == 50 then 3 else if x == 51 then 4 else if x == 52 then 3 else if x == 53 then 4 else if x == 54 then 4 else if x == 55 then 5 else
    if x == 56 then 3 else if x == 57 then 4 else if x == 58 then 4 else if x == 59 then 5 else if x == 60 then 4 else if x == 61 then 5 else if x == 62 then 5 else 6
  }

  function CountPart2(x: bv8): nat {
    if x == 64 then 1 else if x == 65 then 2 else if x == 66 then 2 else if x == 67 then 3 else if x == 68 then 2 else if x == 69 then 3 else if x == 70 then 3 else if x == 71 then 4 else
    if x == 72 then 2 else if x == 73 then 3 else if x == 74 then 3 else if x == 75 then 4 else if x == 76 then 3 else if x == 77 then 4 else if x == 78 then 4 else if x == 79 then 5 else
    if x == 80 then 2 else if x == 81 then 3 else if x == 82 then 3 else if x == 83 then 4 else if x == 84 then 3 else if x == 85 then 4 else if x == 86 then 4 else if x == 87 then 5 else
    if x == 88 then 3 else if x == 89 then 4 else if x == 90 then 4 else if x == 91 then 5 else if x == 92 then 4 else if x == 93 then 5 else if x == 94 then 5 else 6
  }

  function CountPart3(x: bv8): nat {
    if x == 96 then 2 else if x == 97 then 3 else if x == 98 then 3 else if x == 99 then 4 else if x == 100 then 3 else if x == 101 then 4 else if x == 102 then 4 else if x == 103 then 5 else
    if x == 104 then 3 else if x == 105 then 4 else if x == 106 then 4 else if x == 107 then 5 else if x == 108 then 4 else if x == 109 then 5 else if x == 110 then 5 else if x == 111 then 6 else
    if x == 112 then 3 else if x == 113 then 4 else if x == 114 then 4 else if x == 115 then 5 else if x == 116 then 4 else if x == 117 then 5 else if x == 118 then 5 else if x == 119 then 6 else
    if x == 120 then 4 else if x == 121 then 5 else if x == 122 then 5 else if x == 123 then 6 else if x == 124 then 5 else if x == 125 then 6 else if x == 126 then 6 else 7
  }

  function CountPart4(x: bv8): nat {
    if x == 128 then 1 else if x == 129 then 2 else if x == 130 then 2 else if x == 131 then 3 else if x == 132 then 2 else if x == 133 then 3 else if x == 134 then 3 else if x == 135 then 4 else
    if x == 136 then 2 else if x == 137 then 3 else if x == 138 then 3 else if x == 139 then 4 else if x == 140 then 3 else if x == 141 then 4 else if x == 142 then 4 else if x == 143 then 5 else
    if x == 144 then 2 else if x == 145 then 3 else if x == 146 then 3 else if x == 147 then 4 else if x == 148 then 3 else if x == 149 then 4 else if x == 150 then 4 else if x == 151 then 5 else
    if x == 152 then 3 else if x == 153 then 4 else if x == 154 then 4 else if x == 155 then 5 else if x == 156 then 4 else if x == 157 then 5 else if x == 158 then 5 else 6
  }

  function CountPart5(x: bv8): nat {
    if x == 160 then 2 else if x == 161 then 3 else if x == 162 then 3 else if x == 163 then 4 else if x == 164 then 3 else if x == 165 then 4 else if x == 166 then 4 else if x == 167 then 5 else
    if x == 168 then 3 else if x == 169 then 4 else if x == 170 then 4 else if x == 171 then 5 else if x == 172 then 4 else if x == 173 then 5 else if x == 174 then 5 else if x == 175 then 6 else
    if x == 176 then 3 else if x == 177 then 4 else if x == 178 then 4 else if x == 179 then 5 else if x == 180 then 4 else if x == 181 then 5 else if x == 182 then 5 else if x == 183 then 6 else
    if x == 184 then 4 else if x == 185 then 5 else if x == 186 then 5 else if x == 187 then 6 else if x == 188 then 5 else if x == 189 then 6 else if x == 190 then 6 else 7
  }

  function CountPart6(x: bv8): nat {
    if x == 192 then 2 else if x == 193 then 3 else if x == 194 then 3 else if x == 195 then 4 else if x == 196 then 3 else if x == 197 then 4 else if x == 198 then 4 else if x == 199 then 5 else
    if x == 200 then 3 else if x == 201 then 4 else if x == 202 then 4 else if x == 203 then 5 else if x == 204 then 4 else if x == 205 then 5 else if x == 206 then 5 else if x == 207 then 6 else
    if x == 208 then 3 else if x == 209 then 4 else if x == 210 then 4 else if x == 211 then 5 else if x == 212 then 4 else if x == 213 then 5 else if x == 214 then 5 else if x == 215 then 6 else
    if x == 216 then 4 else if x == 217 then 5 else if x == 218 then 5 else if x == 219 then 6 else if x == 220 then 5 else if x == 221 then 6 else if x == 222 then 6 else 7
  }

  function CountPart7(x: bv8): nat {
    if x == 224 then 3 else if x == 225 then 4 else if x == 226 then 4 else if x == 227 then 5 else if x == 228 then 4 else if x == 229 then 5 else if x == 230 then 5 else if x == 231 then 6 else
    if x == 232 then 4 else if x == 233 then 5 else if x == 234 then 5 else if x == 235 then 6 else if x == 236 then 5 else if x == 237 then 6 else if x == 238 then 6 else if x == 239 then 7 else
    if x == 240 then 4 else if x == 241 then 5 else if x == 242 then 5 else if x == 243 then 6 else if x == 244 then 5 else if x == 245 then 6 else if x == 246 then 6 else if x == 247 then 7 else
    if x == 248 then 5 else if x == 249 then 6 else if x == 250 then 6 else if x == 251 then 7 else if x == 252 then 6 else if x == 253 then 7 else if x == 254 then 7 else 8
  }

  /** yaffs_hweight8. */
  function Hweight8(x: bv8): nat {
    if x < 32 then CountPart0(x) else
    if x < 64 then CountPart1(x) else
    if x < 96 then CountPart2(x) else
    if x < 128 then CountPart3(x) else
    if x < 160 then CountPart4(x) else
    if x < 192 then CountPart5(x) else
    if x < 224 then CountPart6(x) else
    CountPart7(x)
  }

  /** The ones among the bits of a byte. */
  function Ones(x: bv8): nat {
    One(x & 1) + One(x & 2) + One(x & 4) + One(x & 8) + One(x & 16) + One(x & 32) + One(x & 64) + One(x & 128)
  }

  function One(x: bv8): nat { if x != 0 then 1 else 0 }

  lemma CountPart0Right(x: bv8)
    requires x < 32
    ensures CountPart0(x) == Ones(x)
  {
  }

  lemma CountPart1Right(x: bv8)
    requires 32 <= x < 64
    ensures CountPart1(x) == Ones(x)
  {
  }

  lemma CountPart2Right(x: bv8)
    requires 64 <= x < 96
    ensures CountPart2(x) == Ones(x)
  {
  }

  lemma CountPart3Right(x: bv8)
    requires 96 <= x < 128
    ensures CountPart3(x) == Ones(x)
  {
  }

  lemma CountPart4Right(x: bv8)
    requires 128 <= x < 160
    ensures CountPart4(x) == Ones(x)
  {
  }

  lemma CountPart5Right(x: bv8)
    requires 160 <= x < 192
    ensures CountPart5(x) == Ones(x)
  {
  }

  lemma CountPart6Right(x: bv8)
    requires 192 <= x < 224
    ensures CountPart6(x) == Ones(x)
  {
  }

  lemma CountPart7Right(x: bv8)
    requires x >= 224
    ensures CountPart7(x) == Ones(x)
  {
  }

  /** The table gives the number of ones for every byte. */
  lemma TableRight(x: bv8)
    ensures Hweight8(x) == Ones(x)
  {
    hide Ones, CountPart0, CountPart1, CountPart2, CountPart3, CountPart4, CountPart5, CountPart6, CountPart7;
    if x < 32 { CountPart0Right(x); } else if x < 64 { CountPart1Right(x); } else if x < 96 { CountPart2Right(x); }
    else if x < 128 { CountPart3Right(x); } else if x < 160 { CountPart4Right(x); } else if x < 192 { CountPart5Right(x); }
    else if x < 224 { CountPart6Right(x); } else { CountPart7Right(x); }
  }
}
