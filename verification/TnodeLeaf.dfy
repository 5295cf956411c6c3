/** Level-0 tnodes (yaffs_guts.c): sixteen chunk numbers packed into 32-bit words, each tnode_width bits wide, so that a
    number may straddle two words. */
module TnodeLeaf {

  import opened Words

  // ----- The bits of a leaf in one row -----

  /** Sixteen numbers of width bits fill width / 2 words exactly. */
  predicate LeafOk(words: seq<Bits>, width: nat) {
    16 <= width <= 30 && width % 2 == 0 && |words| == width / 2
  }

  function Bit(words: seq<Bits>, k: nat): bool
    requires k < 32 * |words|
  {
    words[k / 32][k % 32]
  }

  /** The number in slot pos, as a word. */
  function Slot(words: seq<Bits>, width: nat, pos: nat): (r: Bits)
    requires LeafOk(words, width) && pos < 16
  {
    SlotFits(width, pos);
    seq(32, j requires 0 <= j < 32 => j < width && Bit(words, pos * width + j))
  }

  lemma SlotFits(width: nat, pos: nat)
    requires 16 <= width <= 30 && width % 2 == 0 && pos < 16
    ensures pos * width + width <= 16 * width == 32 * (width / 2)
  {
    assert pos * width + width == (pos + 1) * width;
    assert (pos + 1) * width + (15 - pos) * width == 16 * width;
  }

  /** Different slots have no bit in common. */
  lemma {:induction false} SlotsApart(width: nat, p: nat, q: nat)
    requires p < q
    ensures p * width + width <= q * width
  {
    if p + 1 < q { SlotsApart(width, p, q - 1); }
  }

  lemma SlotReached(width: nat, q: nat)
    requires width > 0
    ensures q >= 16 ==> q * width >= 16 * width
  {
  }

  /** Every bit lies in a slot. */
  lemma BitInSlot(width: nat, k: nat)
    requires 16 <= width <= 30 && width % 2 == 0 && k < 32 * (width / 2)
    ensures k / width < 16 && k == (k / width) * width + k % width && 0 <= k % width < width
  {
    SlotFits(width, 0);
    SlotReached(width, k / width);
  }

  /** Whether words' is words with the width bits from base on replaced by the low bits of val. */
  predicate Stored(words: seq<Bits>, words': seq<Bits>, width: nat, base: nat, val: Bits) {
    && |words'| == |words|
    && (forall k :: 0 <= k < 32 * |words| ==> Bit(words', k) == if base <= k < base + width && k - base < 32 then val[k - base] else Bit(words, k))
  }

  lemma FieldKept(words: seq<Bits>, words': seq<Bits>, width: nat, at: nat, other: nat, val: Bits)
    requires Stored(words, words', width, at, val) && (other + width <= at || at + width <= other) && other + width <= 32 * |words|
    ensures forall k :: other <= k < other + width ==> Bit(words', k) == Bit(words, k)
  {
    hide Bit;
  }

  lemma FieldLoaded(words: seq<Bits>, words': seq<Bits>, width: nat, at: nat, val: Bits)
    requires Stored(words, words', width, at, val) && at + width <= 32 * |words| && width <= 32
    ensures forall k :: at <= k < at + width ==> Bit(words', k) == val[k - at]
  {
    hide Bit;
  }

  /** Loading a slot makes it read back, and leaves the other fifteen alone. */
  lemma LoadedReadsBack(words: seq<Bits>, words': seq<Bits>, width: nat, pos: nat, val: Bits)
    requires LeafOk(words, width) && pos < 16 && Stored(words, words', width, pos * width, val)
    requires forall j :: width <= j < 32 ==> !val[j]
    ensures LeafOk(words', width) && Slot(words', width, pos) == val
    ensures forall q :: 0 <= q < 16 && q != pos ==> Slot(words', width, q) == Slot(words, width, q)
  {
    SlotFits(width, pos);
    hide Bit;
    forall q | 0 <= q < 16 && q != pos ensures Slot(words', width, q) == Slot(words, width, q) {
      SlotFits(width, q);
      if q < pos { SlotsApart(width, q, pos); } else { SlotsApart(width, pos, q); }
      FieldKept(words, words', width, pos * width, q * width, val);
    }
    FieldLoaded(words, words', width, pos * width, val);
  }

  /** A set bit shows in the slot it lies in, and only set bits show. */
  lemma BitShows(words: seq<Bits>, width: nat, k: nat)
    requires LeafOk(words, width) && k < 32 * |words|
    ensures k / width < 16 && k % width < 32 && Slot(words, width, k / width)[k % width] == Bit(words, k)
  {
    BitInSlot(width, k);
  }

  lemma ZeroWordsRead(words: seq<Bits>, width: nat, pos: nat)
    requires LeafOk(words, width) && pos < 16 && forall i :: 0 <= i < |words| ==> IsZero(words[i])
    ensures IsZero(Slot(words, width, pos))
  {
    SlotFits(width, pos);
    assert forall k :: 0 <= k < 32 * |words| ==> !Bit(words, k);
  }

  lemma ZeroSlotsCover(words: seq<Bits>, width: nat, i: nat, b: nat)
    requires LeafOk(words, width) && i < |words| && b < 32
    requires forall pos :: 0 <= pos < 16 ==> IsZero(Slot(words, width, pos))
    ensures !words[i][b]
  {
    hide Slot;
    var k := 32 * i + b;
    BitShows(words, width, k);
    assert k / 32 == i && k % 32 == b;
  }

  /** A leaf of zero words, and no other, holds only zeros. */
  lemma ZeroLeaf(words: seq<Bits>, width: nat)
    requires LeafOk(words, width)
    ensures (forall i :: 0 <= i < |words| ==> IsZero(words[i])) <==> (forall pos :: 0 <= pos < 16 ==> IsZero(Slot(words, width, pos)))
  {
    hide Slot;
    if forall pos :: 0 <= pos < 16 ==> IsZero(Slot(words, width, pos)) {
      forall i, b | 0 <= i < |words| && 0 <= b < 32 ensures !words[i][b] { ZeroSlotsCover(words, width, i, b); }
    } else if forall i :: 0 <= i < |words| ==> IsZero(words[i]) {
      forall pos | 0 <= pos < 16 ensures IsZero(Slot(words, width, pos)) { ZeroWordsRead(words, width, pos); }
    }
  }

  // ----- Reading and writing a slot -----

  /** The width bits from bit base on. */
  function Field(words: seq<Bits>, width: nat, base: nat): Bits
    requires base + width <= 32 * |words|
  {
    seq(32, j requires 0 <= j < 32 => j < width && Bit(words, base + j))
  }

  /** Bits of the field at bit s of word i, across the end of the word. */
  lemma BitAt(words: seq<Bits>, i: nat, s: nat, j: nat)
    requires s < 32 && 32 * i + s + j < 32 * |words| && j < 32
    ensures Bit(words, 32 * i + s + j) == if s + j < 32 then words[i][s + j] else words[i + 1][s + j - 32]
  {
    var k := 32 * i + s + j;
    assert if s + j < 32 then k / 32 == i && k % 32 == s + j else k / 32 == i + 1 && k % 32 == s + j - 32;
  }

  /** The bits that two adjacent words show of the field at bit s of the first. */
  lemma WordsRead(lo: Bits, hi: Bits, s: nat, width: nat, j: nat)
    requires s < 32 && j < 32 && 0 < width < 32
    ensures And(if width > 32 - s then Or(ShiftRight(lo, s), ShiftLeft(hi, 32 - s)) else ShiftRight(lo, s), Mask(width))[j]
            == (j < width && if s + j < 32 then lo[s + j] else hi[s + j - 32])
  {
  }

  lemma WordLoaded(x: Bits, s: nat, width: nat, val: Bits, b: nat)
    requires s < 32 && b < 32
    ensures LoadedWord(x, s, width, val)[b] == if s <= b < s + width then val[b - s] else x[b]
  {
  }

  lemma WordCarried(x: Bits, n: nat, width: nat, val: Bits, b: nat)
    requires b < 32
    ensures CarriedWord(x, n, width, val)[b] == if b + n < width && b + n < 32 then val[b + n] else x[b]
  {
  }

  /** yaffs_get_group_base, for chunk groups of one. */
  method GetGroupBase(leaf: array<Bits>, width: nat, pos: nat) returns (val: Bits)
    requires LeafOk(leaf[..], width)
    ensures val == Slot(leaf[..], width, pos % 16)
  {
    SlotFits(width, pos % 16);
    val := GetField(leaf, width, pos % 16 * width);
  }

  method GetField(leaf: array<Bits>, width: nat, bitInMap: nat) returns (val: Bits)
    requires 16 <= width <= 30 && bitInMap + width <= 32 * leaf.Length
    ensures val == Field(leaf[..], width, bitInMap)
  {
    var wordInMap, bitInWord := bitInMap / 32, bitInMap % 32;
    val := ShiftRight(leaf[wordInMap], bitInWord);
    if width > 32 - bitInWord {
      val := Or(val, ShiftLeft(leaf[wordInMap + 1], 32 - bitInWord));
    }
    val := And(val, Mask(width));
    forall j | 0 <= j < 32 ensures val[j] == (j < width && Bit(leaf[..], bitInMap + j)) {
      hide And, Or, ShiftLeft, ShiftRight, Mask, Bit;
      WordsRead(leaf[wordInMap], if width > 32 - bitInWord then leaf[wordInMap + 1] else leaf[wordInMap], bitInWord, width, j);
      if j < width { BitAt(leaf[..], wordInMap, bitInWord, j); }
    }
  }

  /** yaffs_load_tnode_0, for chunk groups of one. */
  method LoadTnode0(leaf: array<Bits>, width: nat, pos: nat, val: Bits)
    requires LeafOk(leaf[..], width)
    modifies leaf
    ensures leaf[..] == Loaded(old(leaf[..]), width, pos % 16, val)
  {
    hide Stored, Loaded;
    SlotFits(width, pos % 16);
    LoadField(leaf, width, pos % 16 * width, val);
    StoredIsLoaded(old(leaf[..]), leaf[..], width, pos % 16, val);
  }

  method LoadField(leaf: array<Bits>, width: nat, bitInMap: nat, val: Bits)
    requires 16 <= width <= 30 && bitInMap + width <= 32 * leaf.Length
    modifies leaf
    ensures Stored(old(leaf[..]), leaf[..], width, bitInMap, val)
  {
    hide And, Or, Not, ShiftLeft, ShiftRight, Mask, Stored;
    var wordInMap, bitInWord := bitInMap / 32, bitInMap % 32;
    var mask := ShiftLeft(Mask(width), bitInWord);
    leaf[wordInMap] := And(leaf[wordInMap], Not(mask));
    leaf[wordInMap] := Or(leaf[wordInMap], And(mask, ShiftLeft(val, bitInWord)));
    if width > 32 - bitInWord {
      bitInWord := 32 - bitInWord;
      wordInMap := wordInMap + 1;
      mask := ShiftRight(Mask(width), bitInWord);
      leaf[wordInMap] := And(leaf[wordInMap], Not(mask));
      leaf[wordInMap] := Or(leaf[wordInMap], And(mask, ShiftRight(val, bitInWord)));
    }
    WordsStored(old(leaf[..]), leaf[..], width, bitInMap / 32, bitInMap % 32, val);
  }

  function LoadedWord(x: Bits, s: nat, width: nat, val: Bits): Bits {
    var mask := ShiftLeft(Mask(width), s);
    Or(And(x, Not(mask)), And(mask, ShiftLeft(val, s)))
  }

  function CarriedWord(x: Bits, n: nat, width: nat, val: Bits): Bits {
    var mask := ShiftRight(Mask(width), n);
    Or(And(x, Not(mask)), And(mask, ShiftRight(val, n)))
  }

  /** The word operations on one or two words amount to storing the field. */
  lemma WordsStored(words: seq<Bits>, words': seq<Bits>, width: nat, i: nat, s: nat, val: Bits)
    requires 16 <= width <= 30 && s < 32 && 32 * i + s + width <= 32 * |words| && |words'| == |words|
    requires words'[i] == LoadedWord(words[i], s, width, val)
    requires width > 32 - s ==> words'[i + 1] == CarriedWord(words[i + 1], 32 - s, width, val)
    requires forall o :: 0 <= o < |words| && o != i && (o != i + 1 || width <= 32 - s) ==> words'[o] == words[o]
    ensures Stored(words, words', width, 32 * i + s, val)
  {
    hide LoadedWord, CarriedWord;
    var base := 32 * i + s;
    forall k | 0 <= k < 32 * |words| ensures Bit(words', k) == if base <= k < base + width && k - base < 32 then val[k - base] else Bit(words, k) {
      var o, b := k / 32, k % 32;
      assert k == 32 * o + b && 0 <= o < |words|;
      if o == i {
        WordLoaded(words[i], s, width, val, b);
      } else if o == i + 1 && width > 32 - s {
        WordCarried(words[o], 32 - s, width, val, b);
      }
    }
  }

  // ----- A leaf as sixteen numbers -----

  /** The number in a slot; 0 stands for no chunk. */
  function Number(words: seq<Bits>, width: nat, pos: nat): nat
    requires LeafOk(words, width) && pos < 16
  {
    ToNat(Slot(words, width, pos))
  }

  /** The words after a slot has been loaded. */
  function Loaded(words: seq<Bits>, width: nat, pos: nat, val: Bits): (r: seq<Bits>)
    requires LeafOk(words, width) && pos < 16
    ensures |r| == |words|
  {
    WordsWith(words, width, pos * width, val)
  }

  function WordsWith(words: seq<Bits>, width: nat, base: nat, val: Bits): (r: seq<Bits>)
    ensures |r| == |words| && forall i :: 0 <= i < |words| ==> r[i] == WordWith(words[i], 32 * i, width, base, val)
  {
    if words == [] then []
    else WordsWith(words[..|words| - 1], width, base, val) + [WordWith(words[|words| - 1], 32 * (|words| - 1), width, base, val)]
  }

  /** A word whose bits are numbered from first on, with the width bits from base on replaced. */
  function WordWith(x: Bits, first: nat, width: nat, base: nat, val: Bits): Bits {
    seq(32, b requires 0 <= b < 32 => if base <= first + b < base + width && first + b - base < 32 then val[first + b - base] else x[b])
  }

  lemma LoadedIsStored(words: seq<Bits>, width: nat, pos: nat, val: Bits)
    requires LeafOk(words, width) && pos < 16
    ensures Stored(words, Loaded(words, width, pos, val), width, pos * width, val)
  {
    var base, words' := pos * width, Loaded(words, width, pos, val);
    forall k | 0 <= k < 32 * |words| ensures Bit(words', k) == if base <= k < base + width && k - base < 32 then val[k - base] else Bit(words, k) {
      assert k == 32 * (k / 32) + k % 32;
    }
  }

  /** Words with the same bits are the same. */
  lemma SameBits(a: seq<Bits>, b: seq<Bits>)
    requires |a| == |b| && forall k :: 0 <= k < 32 * |a| ==> Bit(a, k) == Bit(b, k)
    ensures a == b
  {
    forall i | 0 <= i < |a| ensures a[i] == b[i] {
      forall j | 0 <= j < 32 ensures a[i][j] == b[i][j] {
        BitOf(a, i, j);
        BitOf(b, i, j);
        assert Bit(a, 32 * i + j) == Bit(b, 32 * i + j);
        hide Bit;
      }
    }
  }

  lemma BitOf(words: seq<Bits>, i: nat, j: nat)
    requires i < |words| && j < 32
    ensures Bit(words, 32 * i + j) == words[i][j]
  {
  }

  /** What LoadTnode0 stores is determined. */
  lemma StoredIsLoaded(words: seq<Bits>, words': seq<Bits>, width: nat, pos: nat, val: Bits)
    requires LeafOk(words, width) && pos < 16 && Stored(words, words', width, pos * width, val)
    ensures words' == Loaded(words, width, pos, val)
  {
    LoadedIsStored(words, width, pos, val);
    hide Loaded;
    SameBits(words', Loaded(words, width, pos, val)) by { hide LeafOk; }
  }

  /** A chunk number that fits the width reads back from its slot, and no other slot changes. */
  lemma LoadedNumber(words: seq<Bits>, width: nat, pos: nat, n: nat)
    requires LeafOk(words, width) && pos < 16 && n < PowerOfTwo(width)
    ensures var words' := Loaded(words, width, pos, FromNat(n, 32));
            && LeafOk(words', width) && Number(words', width, pos) == n
            && forall q :: 0 <= q < 16 && q != pos ==> Number(words', width, q) == Number(words, width, q)
  {
    var val: Bits := FromNat(n, 32);
    LoadedIsStored(words, width, pos, val);
    forall j | width <= j < 32 ensures !val[j] { NumberFits(n, 32, width, j); }
    LoadedReadsBack(words, Loaded(words, width, pos, val), width, pos, val);
    Narrower(n, width, 32);
    NumberRoundTrip(n, 32);
  }

  /** Whether every word is zero, which is what pruning tests. */
  predicate ZeroWords(words: seq<Bits>) {
    forall i :: 0 <= i < |words| ==> IsZero(words[i])
  }

  lemma ZeroNumbers(words: seq<Bits>, width: nat)
    requires LeafOk(words, width)
    ensures ZeroWords(words) <==> forall pos :: 0 <= pos < 16 ==> Number(words, width, pos) == 0
  {
    hide Slot;
    ZeroLeaf(words, width);
    forall pos | 0 <= pos < 16 ensures Number(words, width, pos) == 0 <==> IsZero(Slot(words, width, pos)) {
      ZeroMeansNoBits(Slot(words, width, pos));
    }
  }

  function Blanks(n: nat): (r: seq<Bits>)
    ensures |r| == n && ZeroWords(r)
  {
    if n == 0 then [] else Blanks(n - 1) + [seq(32, _ => false)]
  }

  /** A fresh tnode. */
  function BlankLeaf(width: nat): (r: seq<Bits>)
    requires 16 <= width <= 30 && width % 2 == 0
    ensures LeafOk(r, width) && ZeroWords(r)
  {
    Blanks(width / 2)
  }
}
