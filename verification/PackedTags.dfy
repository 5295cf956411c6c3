/** Packing a chunk's tags into four words and an error-correcting code, and getting them back (yaffs_packedtags2.c). The
    words lie in memory least significant byte first. */
module PackedTags {
  import opened Words
  import opened ColumnParity
  import opened Ecc

  // ----- Tags -----

  datatype EccResult = Unknown | NoError | Fixed | Unfixed

  /** The fields of yaffs_ext_tags that packing is about. */
  datatype ExtTags = ExtTags(
    chunkUsed: bool, objId: Bits, chunkId: Bits, nBytes: Bits, seqNumber: Bits,
    extraAvailable: bool, extraParentId: Bits, extraIsShrink: bool, extraShadows: bool,
    extraObjType: Bits, extraFileSize: Bits, extraEquivId: Bits)

  datatype PackedTags = PackedTags(seqNumber: Bits, objId: Bits, chunkId: Bits, nBytes: Bits)

  const EXTRA_HEADER_INFO_BIT: nat := 31
  const EXTRA_SHRINK_BIT: nat := 30
  const EXTRA_SHADOWS_BIT: nat := 29
  const EXTRA_OBJECT_TYPE_SHIFT: nat := 28

  function Ones(): Bits { seq(32, k => true) }

  function OneBit(b: nat): Bits { UnitWord(b) }

  function FileType(): Bits { FromNat(1, 32) }

  function HardlinkType(): Bits { FromNat(4, 32) }

  function Blank(): ExtTags {
    ExtTags(false, Zero(), Zero(), Zero(), Zero(), false, Zero(), false, false, Zero(), Zero(), Zero())
  }

  /** The mask of the top four bits (ALL_EXTRA_FLAGS, EXTRA_OBJECT_TYPE_MASK). */
  function TopMask(): Bits { seq(32, k => k >= 28) }

  // ----- Packing -----

  /** yaffs_check_tags_extra_packable. */
  predicate ExtraPackable(t: ExtTags) {
    && IsZero(t.chunkId) && t.extraAvailable
    && !(t.extraObjType == FileType() && t.extraFileSize[31])
  }

  function Flagged(parent: Bits, isShrink: bool, shadows: bool): Bits {
    var flagged := Or(OneBit(EXTRA_HEADER_INFO_BIT), parent);
    var shrink := if isShrink then Or(flagged, OneBit(EXTRA_SHRINK_BIT)) else flagged;
    if shadows then Or(shrink, OneBit(EXTRA_SHADOWS_BIT)) else shrink
  }

  /** yaffs_pack_tags2_tags_only. */
  function PackTagsOnly(t: ExtTags): PackedTags {
    if ExtraPackable(t) then
      var chunkId := Flagged(t.extraParentId, t.extraIsShrink, t.extraShadows);
      var objId := Or(And(t.objId, Not(TopMask())), ShiftLeft(t.extraObjType, EXTRA_OBJECT_TYPE_SHIFT));
      var nBytes := if t.extraObjType == HardlinkType() then t.extraEquivId else if t.extraObjType == FileType() then t.extraFileSize else Zero();
      PackedTags(t.seqNumber, objId, chunkId, nBytes)
    else PackedTags(t.seqNumber, t.objId, t.chunkId, t.nBytes)
  }

  /** yaffs_unpack_tags2_tags_only. */
  function UnpackTagsOnly(p: PackedTags): ExtTags {
    if p.seqNumber == Ones() then Blank()
    else if p.chunkId[EXTRA_HEADER_INFO_BIT] then
      var objType := ShiftRight(p.objId, EXTRA_OBJECT_TYPE_SHIFT);
      ExtTags(true, And(p.objId, Not(TopMask())), Zero(), Zero(), p.seqNumber,
              true, And(p.chunkId, Not(TopMask())), p.chunkId[EXTRA_SHRINK_BIT], p.chunkId[EXTRA_SHADOWS_BIT],
              objType, if objType == HardlinkType() then Zero() else p.nBytes, if objType == HardlinkType() then p.nBytes else Zero())
    else ExtTags(true, p.objId, p.chunkId, p.nBytes, p.seqNumber, false, Zero(), false, false, Zero(), Zero(), Zero())
  }

  /** Tags that fit: numbers of objects and chunks of 28 bits, a type of four, and a sequence number that is not the
      mark of an unused chunk. */
  predicate InRange(t: ExtTags) {
    && t.seqNumber != Ones()
    && (forall k :: 28 <= k < 32 ==> !t.objId[k] && !t.chunkId[k] && !t.extraParentId[k])
    && (forall k :: 4 <= k < 32 ==> !t.extraObjType[k])
  }

  /** What the tags say, in the fields that are kept. */
  function Meaning(t: ExtTags): ExtTags {
    if ExtraPackable(t) then
      ExtTags(true, t.objId, Zero(), Zero(), t.seqNumber, true, t.extraParentId, t.extraIsShrink, t.extraShadows, t.extraObjType,
              if t.extraObjType == FileType() then t.extraFileSize else Zero(),
              if t.extraObjType == HardlinkType() then t.extraEquivId else Zero())
    else ExtTags(true, t.objId, t.chunkId, t.nBytes, t.seqNumber, false, Zero(), false, false, Zero(), Zero(), Zero())
  }

  lemma TypesDiffer()
    ensures FileType() != HardlinkType()
  {
    WordRoundTrip(1);
    WordRoundTrip(4);
    hide FromNat, ToNat;
  }

  /** The type in the top bits of the object number comes off again. */
  lemma TypeFieldBack(objId: Bits, objType: Bits)
    requires (forall k :: 28 <= k < 32 ==> !objId[k]) && (forall k :: 4 <= k < 32 ==> !objType[k])
    ensures var w := Or(And(objId, Not(TopMask())), ShiftLeft(objType, EXTRA_OBJECT_TYPE_SHIFT));
            ShiftRight(w, EXTRA_OBJECT_TYPE_SHIFT) == objType && And(w, Not(TopMask())) == objId
  {
  }

  /** So do the flags in the top bits of the chunk number. */
  lemma FlagsBack(parent: Bits, shrink: bool, shadows: bool)
    requires forall k :: 28 <= k < 32 ==> !parent[k]
    ensures var w := Flagged(parent, shrink, shadows);
            && w[EXTRA_HEADER_INFO_BIT] && w[EXTRA_SHRINK_BIT] == shrink && w[EXTRA_SHADOWS_BIT] == shadows
            && And(w, Not(TopMask())) == parent
  {
  }

  /** Packing and unpacking gives back what the tags say, in the plain form and with the extra header information. */
  lemma TagsRoundTrip(t: ExtTags)
    requires InRange(t)
    ensures UnpackTagsOnly(PackTagsOnly(t)) == Meaning(t)
  {
    hide FromNat, Or, And, Not, ShiftLeft, ShiftRight, Flagged;
    TypesDiffer();
    if ExtraPackable(t) {
      TypeFieldBack(t.objId, t.extraObjType);
      FlagsBack(t.extraParentId, t.extraIsShrink, t.extraShadows);
    }
  }

  /** The extra header information is kept exactly for headers that have it, unless they are of a file so large that
      the highest bit of its size is set; then the header is packed without it. */
  lemma ExtraKept(t: ExtTags)
    requires InRange(t)
    ensures UnpackTagsOnly(PackTagsOnly(t)).extraAvailable <==>
            t.extraAvailable && (forall k :: 0 <= k < 32 ==> !t.chunkId[k]) && (t.extraObjType == FromNat(1, 32) ==> !t.extraFileSize[31])
  {
    TagsRoundTrip(t);
    hide PackTagsOnly, UnpackTagsOnly, FromNat;
  }

  /** Tags with a sequence number of all ones are those of an unused chunk, whatever else they say. */
  lemma UnusedSaysNothing(p: PackedTags)
    ensures var t := UnpackTagsOnly(p);
            && (t.chunkUsed <==> exists k :: 0 <= k < 32 && !p.seqNumber[k])
            && (!t.chunkUsed ==> !t.extraAvailable && !t.extraIsShrink && !t.extraShadows
                                 && forall k :: 0 <= k < 32 ==> !t.objId[k] && !t.chunkId[k] && !t.nBytes[k] && !t.seqNumber[k])
  {
    assert p.seqNumber == Ones() <==> forall k :: 0 <= k < 32 ==> p.seqNumber[k] == Ones()[k];
  }

  // ----- Bytes -----

  function WordBytes(x: Bits): (r: seq<Byte>)
    ensures |r| == 4
  {
    [x[0..8], x[8..16], x[16..24], x[24..32]]
  }

  function BytesOf(p: PackedTags): (r: seq<Byte>)
    ensures |r| == 16
  {
    WordBytes(p.seqNumber) + WordBytes(p.objId) + WordBytes(p.chunkId) + WordBytes(p.nBytes)
  }

  function WordOf(b: seq<Byte>): Bits
    requires |b| == 4
  {
    seq(32, k requires 0 <= k < 32 => b[k / 8][k % 8])
  }

  function PackedOf(b: seq<Byte>): PackedTags
    requires |b| == 16
  {
    PackedTags(WordOf(b[0..4]), WordOf(b[4..8]), WordOf(b[8..12]), WordOf(b[12..16]))
  }

  lemma WordBack(x: Bits)
    ensures WordOf(WordBytes(x)) == x
  {
  }

  lemma BytesBack(p: PackedTags)
    ensures PackedOf(BytesOf(p)) == p
  {
    hide WordBytes, WordOf;
    var b := BytesOf(p);
    assert b[0..4] == WordBytes(p.seqNumber) && b[4..8] == WordBytes(p.objId) && b[8..12] == WordBytes(p.chunkId) && b[12..16] == WordBytes(p.nBytes);
    WordBack(p.seqNumber);
    WordBack(p.objId);
    WordBack(p.chunkId);
    WordBack(p.nBytes);
  }

  // ----- Packed tags with their code -----

  /** yaffs_pack_tags2 with tags_ecc: the words as bytes, and their code. */
  function PackTags2(t: ExtTags): (r: Stored)
    ensures |r.data| == 16
  {
    Stored(BytesOf(PackTagsOnly(t)), Calc(BytesOf(PackTagsOnly(t))))
  }

  /** yaffs_unpack_tags2 with tags_ecc: what the tags are taken to say, and what has become of the stored form. */
  method UnpackTags2(bytes: array<Byte>, readEcc: Ecc) returns (t: ExtTags, result: EccResult, ecc: Ecc)
    requires bytes.Length == 16
    modifies bytes
    ensures (t, result) == Unpacked(Stored(old(bytes[..]), readEcc))
    ensures (bytes[..], ecc) == Healed(Stored(old(bytes[..]), readEcc))
  {
    hide Calc, Corrected, UnpackTagsOnly;
    result, ecc := NoError, readEcc;
    if PackedOf(bytes[..]).seqNumber != Ones() {
      var test := CalcOther(bytes);
      var r;
      r, ecc := CorrectOther(bytes, readEcc, test);
      result := ResultOf(r);
    }
    t := UnpackTagsOnly(PackedOf(bytes[..]));
  }

  function ResultOf(r: int): EccResult {
    if r == 0 then NoError else if r == 1 then Fixed else if r == -1 then Unfixed else Unknown
  }

  /** Unused chunks are not corrected; of others the data is put right as far as that goes. */
  function Healed(s: Stored): (seq<Byte>, Ecc)
    requires |s.data| == 16
  {
    if PackedOf(s.data).seqNumber == Ones() then (s.data, s.ecc)
    else var o := Corrected(s.data, s.ecc, Calc(s.data)); (o.data, o.ecc)
  }

  function Unpacked(s: Stored): (r: (ExtTags, EccResult))
    requires |s.data| == 16
  {
    if PackedOf(s.data).seqNumber == Ones() then (UnpackTagsOnly(PackedOf(s.data)), NoError)
    else var o := Corrected(s.data, s.ecc, Calc(s.data)); (if |o.data| == 16 then UnpackTagsOnly(PackedOf(o.data)) else Blank(), ResultOf(o.result))
  }

  /** What has not been spoilt is read without an error. */
  lemma ReadBack(t: ExtTags)
    requires InRange(t)
    ensures Unpacked(PackTags2(t)) == (Meaning(t), NoError)
  {
    hide Calc, Corrected, UnpackTagsOnly, Meaning, BytesOf, PackedOf;
    var p := PackTagsOnly(t);
    BytesBack(p);
    Unspoiled(BytesOf(p));
    TagsRoundTrip(t);
  }

  /** A flip is fatal if it makes the sequence number look unused: it hits the one zero among the number's bits. */
  predicate Fatal(seqNumber: Bits, f: Flip) {
    f.InData? && f.p < 4 && f.b < 8 && seqNumber[8 * f.p + f.b := true] == Ones() && !seqNumber[8 * f.p + f.b]
  }

  /** The sequence number that the reader sees after a flip in the data. */
  lemma SeqAfterFlip(p: PackedTags, at: nat, b: nat)
    requires at < 16 && b < 8
    ensures var bytes := BytesOf(p);
            PackedOf(bytes[at := Flipped(bytes[at], b)]).seqNumber == if at < 4 then p.seqNumber[8 * at + b := !p.seqNumber[8 * at + b]] else p.seqNumber
  {
    hide WordOf;
    var bytes := BytesOf(p);
    var bytes' := bytes[at := Flipped(bytes[at], b)];
    if at < 4 {
      assert bytes'[0..4] == WordBytes(p.seqNumber)[at := Flipped(WordBytes(p.seqNumber)[at], b)];
      WordAfterFlip(p.seqNumber, at, b);
    } else {
      assert bytes'[0..4] == WordBytes(p.seqNumber);
      WordBack(p.seqNumber);
    }
  }

  lemma WordAfterFlip(x: Bits, at: nat, b: nat)
    requires at < 4 && b < 8
    ensures WordOf(WordBytes(x)[at := Flipped(WordBytes(x)[at], b)]) == x[8 * at + b := !x[8 * at + b]]
  {
    var bytes := WordBytes(x)[at := Flipped(WordBytes(x)[at], b)];
    var y := x[8 * at + b := !x[8 * at + b]];
    forall k | 0 <= k < 32 ensures WordOf(bytes)[k] == y[k] {
      assert k == 8 * (k / 8) + k % 8;
      assert WordBytes(x)[k / 8][k % 8] == x[k];
    }
  }

  lemma FatalMeansUnused(x: Bits, at: nat, b: nat)
    requires at < 4 && b < 8 && x != Ones()
    ensures x[8 * at + b := !x[8 * at + b]] == Ones() <==> Fatal(x, InData(at, b))
  {
    var k := 8 * at + b;
    if x[k := !x[k]] == Ones() { assert x[k := !x[k]][k]; }
  }

  /** One wrong bit anywhere in the stored tags or their code is put right, unless it makes the chunk look unused: then
      the tags are lost, and no error shows. */
  lemma OneFlip(t: ExtTags, f: Flip)
    requires InRange(t) && FlipOk(f, 16)
    ensures var s := Flipping(PackTags2(t), f);
            if Fatal(t.seqNumber, f) then Unpacked(s) == (Blank(), NoError) && !Unpacked(s).0.chunkUsed
            else Unpacked(s) == (Meaning(t), Fixed) && Healed(s) == (PackTags2(t).data, PackTags2(t).ecc)
  {
    hide Calc, Corrected, Meaning, BytesOf, PackedOf, PackTagsOnly, InRange, Fatal;
    var p := PackTagsOnly(t);
    SeqKept(t);
    BytesBack(p);
    TagsRoundTrip(t);
    var bytes := BytesOf(p);
    match f {
      case InData(at, b) =>
        SeqAfterFlip(p, at, b);
        if at < 4 { FatalMeansUnused(p.seqNumber, at, b); } else { FatalInSeq(p.seqNumber, f); }
        OneDataBit(bytes, at, b);
      case InCode(k) =>
        FatalInSeq(p.seqNumber, f);
        OneCodeBit(bytes, k);
    }
  }

  /** Two wrong bits are reported as such and nothing is put right, unless they make the chunk look unused. */
  lemma TwoFlips(t: ExtTags, f: Flip, g: Flip)
    requires InRange(t) && FlipOk(f, 16) && FlipOk(g, 16) && f != g
    ensures var s := Flipping(Flipping(PackTags2(t), f), g);
            && Healed(s) == (s.data, s.ecc)
            && Unpacked(s).1 == if PackedOf(s.data).seqNumber == Ones() then NoError else Unfixed
  {
    hide Calc, Corrected, UnpackTagsOnly, BytesOf, PackedOf, PackTagsOnly, InRange, Flipping;
    TwoBits(BytesOf(PackTagsOnly(t)), f, g);
  }

  lemma SeqKept(t: ExtTags)
    requires InRange(t)
    ensures PackTagsOnly(t).seqNumber == t.seqNumber != Ones()
  {
  }

  lemma FatalInSeq(x: Bits, f: Flip)
    requires f.InCode? || f.p >= 4
    ensures !Fatal(x, f)
  {
  }

  predicate TwoZeros(x: Bits) {
    exists i, j :: 0 <= i < j < 32 && !x[i] && !x[j]
  }

  /** Tags survive every single wrong bit exactly if their sequence number has two zeros among its bits. */
  lemma SafeSequenceNumbers(t: ExtTags)
    requires InRange(t)
    ensures (forall f :: FlipOk(f, 16) ==> Unpacked(Flipping(PackTags2(t), f)) == (Meaning(t), Fixed)) <==> TwoZeros(t.seqNumber)
  {
    hide Unpacked, Flipping, PackTags2, Meaning, Healed;
    if TwoZeros(t.seqNumber) {
      forall f | FlipOk(f, 16) ensures Unpacked(Flipping(PackTags2(t), f)) == (Meaning(t), Fixed) {
        OneFlip(t, f);
        NeverFatal(t.seqNumber, f);
      }
    } else {
      var k := OnlyZero(t.seqNumber);
      var f := InData(k / 8, k % 8);
      assert Fatal(t.seqNumber, f);
      OneFlip(t, f);
      assert Unpacked(Flipping(PackTags2(t), f)).1 == NoError;
    }
  }

  lemma NeverFatal(x: Bits, f: Flip)
    requires TwoZeros(x)
    ensures !Fatal(x, f)
  {
    var i, j :| 0 <= i < j < 32 && !x[i] && !x[j];
    if f.InData? && f.p < 4 && f.b < 8 {
      var k := 8 * f.p + f.b;
      var other := if k == i then j else i;
      assert x[k := true][other] == x[other] && Ones()[other];
    }
  }

  lemma OnlyZero(x: Bits) returns (k: nat)
    requires x != Ones() && !TwoZeros(x)
    ensures k < 32 && !x[k] && x[k := true] == Ones()
  {
    assert x == Ones() <==> forall i :: 0 <= i < 32 ==> x[i] == Ones()[i];
    k :| 0 <= k < 32 && !x[k];
    assert forall i :: 0 <= i < 32 && i != k ==> x[i];
  }

  /** The sequence number 0x7FFFFFFF, which is in the device's range, loses its chunk to a flip of its highest bit. */
  lemma HighestBitLost(t: ExtTags)
    requires InRange(t) && t.seqNumber == Ones()[31 := false]
    ensures Unpacked(Flipping(PackTags2(t), InData(3, 7))) == (Blank(), NoError)
  {
    hide Unpacked, Flipping, PackTags2, Meaning;
    assert Ones()[31 := false][31 := true] == Ones();
    OneFlip(t, InData(3, 7));
  }
}
