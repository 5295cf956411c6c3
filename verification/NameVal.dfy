/** The name-value store for extended attributes (yaffs_nameval.c): records of a size, a name and a value, one after
    another in a fixed buffer whose rest is zeros. It stands for a map from names to values. The buffer is the
    beginning of a piece of memory, so that writing beyond its end can be spoken of. */
module NameVal {
  import opened Bytes

  const EEXIST: int := 17
  const ERANGE: int := 34
  const ENOSPC: int := 28
  const ENODATA: int := 61

  // ----- Records -----

  /** A record; names are strings that end with a zero byte when stored. */
  datatype Rec = Rec(name: seq<byte>, value: seq<byte>)

  function Size(r: Rec): nat { 4 + |r.name| + 1 + |r.value| }

  predicate RecOk(r: Rec) { 0 !in r.name && Size(r) < 0x8000_0000 }

  type Record = r: Rec | RecOk(r) witness Rec([], [])

  function RecBytes(r: Record): (b: seq<byte>)
    ensures |b| == Size(r)
  {
    EncodeU32(Size(r)) + r.name + [0] + r.value
  }

  /** No name occurs twice. */
  ghost predicate RecsOk(recs: seq<Record>) {
    forall j, k :: 0 <= j < k < |recs| ==> recs[j].name != recs[k].name
  }

  function Layout(recs: seq<Record>): seq<byte>
  {
    if recs == [] then [] else RecBytes(recs[0]) + Layout(recs[1..])
  }

  lemma {:induction false} LayoutBoth(a: seq<Record>, b: seq<Record>)
    ensures Layout(a + b) == Layout(a) + Layout(b)
  {
    hide RecBytes;
    if a == [] {
      assert a + b == b;
    } else {
      assert (a + b)[1..] == a[1..] + b;
      LayoutBoth(a[1..], b);
    }
  }

  /** Where record k begins. */
  function Start(recs: seq<Record>, k: nat): nat
    requires k <= |recs|
  {
    |Layout(recs[..k])|
  }

  /** The buffer holds the records and, after them, zeros. */
  ghost predicate Stored(b: seq<byte>, recs: seq<Record>) {
    && RecsOk(recs) && 4 <= |b| < 0x8000_0000
    && |Layout(recs)| <= |b|
    && b == Layout(recs) + Zeros(|b| - |Layout(recs)|)
  }

  /** There is a zero after the records. Without one, the last of them is not seen. */
  ghost predicate Holds(b: seq<byte>, recs: seq<Record>) {
    Stored(b, recs) && |Layout(recs)| < |b|
  }

  /** The records that the loops walking the buffer come to. */
  ghost function Visible(recs: seq<Record>, xbSize: nat): (r: seq<Record>)
    requires |Layout(recs)| <= xbSize && xbSize > 0
    ensures |r| <= |recs| && r == recs[..|r|]
  {
    if |Layout(recs)| < xbSize then recs else recs[..|recs| - 1]
  }

  /** Between two records, and before the first, there is always room for a size. */
  lemma RoomBefore(recs: seq<Record>, k: nat)
    requires k < |recs|
    ensures Start(recs, k) + Size(recs[k]) <= |Layout(recs)| && Start(recs, k + 1) == Start(recs, k) + Size(recs[k])
    ensures Start(recs, k) + Size(recs[k]) < |Layout(recs)| <==> k + 1 < |recs|
  {
    LayoutAround(recs, k);
    if k + 1 < |recs| {
      assert recs[k + 1..] != [];
      assert |Layout(recs[k + 1..])| >= |RecBytes(recs[k + 1..][0])|;
    } else {
      assert recs[k + 1..] == [];
    }
    hide RecBytes, Layout;
  }

  /** The loops go into record k, past which they go on to the next, exactly if it can be seen. */
  lemma EnteredIfVisible(recs: seq<Record>, k: nat, xbSize: nat)
    requires k < |recs| && |Layout(recs)| <= xbSize
    ensures Start(recs, k) + Size(recs[k]) < xbSize <==> k < |Visible(recs, xbSize)|
    ensures Start(recs, k) < xbSize - 4
  {
    RoomBefore(recs, k);
    hide Layout, RecBytes, Start;
  }

  /** The layout around record k. */
  lemma LayoutAround(recs: seq<Record>, k: nat)
    requires k < |recs|
    ensures Layout(recs) == Layout(recs[..k]) + RecBytes(recs[k]) + Layout(recs[k + 1..])
    ensures Layout(recs[..k + 1]) == Layout(recs[..k]) + RecBytes(recs[k])
  {
    hide RecBytes, Layout;
    LayoutOne(recs[k]);
    LayoutBoth(recs[..k], [recs[k]]);
    Around(recs, k);
    LayoutBoth(recs[..k + 1], recs[k + 1..]);
  }

  lemma Around(recs: seq<Record>, k: nat)
    requires k < |recs|
    ensures recs[..k + 1] == recs[..k] + [recs[k]] && recs == recs[..k + 1] + recs[k + 1..]
  {
  }

  lemma LayoutOne(r: Record)
    ensures Layout([r]) == RecBytes(r)
  {
    hide RecBytes;
    assert Layout([r][1..]) == [];
  }

  /** Record k in its place. */
  lemma RecordAt(b: seq<byte>, recs: seq<Record>, k: nat)
    requires Stored(b, recs) && k < |recs|
    ensures var at := Start(recs, k);
            && at + Size(recs[k]) <= |b| && b[at..at + Size(recs[k])] == RecBytes(recs[k])
            && Start(recs, k + 1) == at + Size(recs[k])
  {
    LayoutAround(recs, k);
    hide RecBytes, Layout;
  }

  /** The parts of a record. */
  lemma RecordParts(r: Record)
    ensures var b := RecBytes(r);
            && b[..4] == EncodeU32(Size(r)) && b[4..4 + |r.name|] == r.name && b[4 + |r.name|] == 0 && b[5 + |r.name|..] == r.value
  {
    hide EncodeU32;
  }

  // ----- The map -----

  ghost function MapOf(recs: seq<Record>): map<seq<byte>, seq<byte>> {
    if recs == [] then map[] else MapOf(recs[..|recs| - 1])[recs[|recs| - 1].name := recs[|recs| - 1].value]
  }

  /** The record for a name, or the number of records. */
  function IndexOf(recs: seq<Record>, name: seq<byte>): (k: nat)
    ensures k <= |recs|
    ensures k < |recs| ==> recs[k].name == name
    ensures forall j :: 0 <= j < k ==> recs[j].name != name
  {
    if recs == [] || recs[0].name == name then 0 else 1 + IndexOf(recs[1..], name)
  }

  lemma {:induction false} MapFinds(recs: seq<Record>, name: seq<byte>)
    requires RecsOk(recs)
    ensures var k := IndexOf(recs, name);
            && (name in MapOf(recs) <==> k < |recs|) && (k < |recs| ==> MapOf(recs)[name] == recs[k].value)
  {
    if recs != [] {
      MapFinds(recs[..|recs| - 1], name);
      var k, j := IndexOf(recs, name), IndexOf(recs[..|recs| - 1], name);
      if k < |recs| - 1 { assert recs[..|recs| - 1][k].name == name; }
    }
  }

  function Without(recs: seq<Record>, k: nat): (r: seq<Record>)
    requires k < |recs|
    ensures |r| == |recs| - 1
  {
    recs[..k] + recs[k + 1..]
  }

  lemma RecsWithout(recs: seq<Record>, k: nat)
    requires RecsOk(recs) && k < |recs|
    ensures RecsOk(Without(recs, k))
  {
    var r := Without(recs, k);
    assert forall i :: 0 <= i < |r| ==> r[i] == recs[if i < k then i else i + 1];
  }

  /** The record that is at place j once record k is gone. */
  function Behind(k: nat, j: nat): nat { if j < k then j else j + 1 }

  lemma WithoutAt(recs: seq<Record>, k: nat, j: nat)
    requires k < |recs| && j < |recs| - 1
    ensures Without(recs, k)[j] == recs[Behind(k, j)] && Behind(k, j) != k
  {
  }

  lemma StillFound(recs: seq<Record>, k: nat, name: seq<byte>, i: nat)
    requires RecsOk(recs) && k < |recs| && i < |recs| && i != k && recs[i].name == name
    ensures var j := IndexOf(Without(recs, k), name); j < |recs| - 1 && Without(recs, k)[j] == recs[i]
  {
    hide Without, IndexOf;
    var at: nat := if i < k then i else i - 1;
    WithoutAt(recs, k, at);
    var j := IndexOf(Without(recs, k), name);
    if j < |recs| - 1 { WithoutAt(recs, k, j); }
  }

  lemma NoLongerFound(recs: seq<Record>, k: nat, name: seq<byte>)
    requires RecsOk(recs) && k < |recs| && (recs[k].name == name || IndexOf(recs, name) == |recs|)
    ensures IndexOf(Without(recs, k), name) == |recs| - 1
  {
    hide Without, IndexOf;
    var j := IndexOf(Without(recs, k), name);
    if j < |recs| - 1 { WithoutAt(recs, k, j); }
  }

  lemma MapWithout(recs: seq<Record>, k: nat)
    requires RecsOk(recs) && k < |recs|
    ensures MapOf(Without(recs, k)) == MapOf(recs) - {recs[k].name}
  {
    hide MapOf, Without, IndexOf;
    var a, b := MapOf(Without(recs, k)), MapOf(recs) - {recs[k].name};
    RecsWithout(recs, k);
    forall name: seq<byte> ensures (name in a <==> name in b) && (name in a ==> a[name] == b[name]) {
      var i := IndexOf(recs, name);
      if i < |recs| && i != k { StillFound(recs, k, name, i); } else { NoLongerFound(recs, k, name); }
      MapFinds(recs, name);
      MapFinds(Without(recs, k), name);
    }
  }

  lemma MapAppend(recs: seq<Record>, r: Record)
    ensures MapOf(recs + [r]) == MapOf(recs)[r.name := r.value]
  {
    assert (recs + [r])[..|recs|] == recs;
  }

  // ----- The buffer -----

  /** What has become of the bytes behind the buffer when a record has been written that leaves so many spare. */
  function Overrun(tail: seq<byte>, spare: nat): (r: seq<byte>)
    requires |tail| >= 4
    ensures |r| == |tail|
  {
    if spare < 4 then Zeros(4 - spare) + tail[4 - spare..] else tail
  }

  /** Writing a record leaves the bytes behind the buffer alone, whatever they are, exactly if four bytes are spare. */
  lemma StaysInside(spare: nat)
    ensures (forall tail: seq<byte> :: |tail| >= 4 ==> Overrun(tail, spare) == tail) <==> spare >= 4
  {
    if spare < 4 {
      var tail: seq<byte> := [1, 1, 1, 1];
      assert Overrun(tail, spare)[0] == 0;
    }
  }

  /** What nval_get gives for a name. */
  function Got(m: map<seq<byte>, seq<byte>>, name: seq<byte>, bsize: nat): (int, seq<byte>) {
    if name !in m then (-ENODATA, [])
    else if bsize == 0 then (|m[name]|, [])
    else if |m[name]| <= bsize then (|m[name]|, m[name]) else (-ERANGE, [])
  }

  datatype Op =
    | SetName(name: seq<byte>, value: seq<byte>, create: bool, replace: bool)
    | DelName(name: seq<byte>)
    | GetName(name: seq<byte>, bsize: nat)

  predicate OpOk(op: Op) { 0 !in op.name && (op.SetName? ==> |op.value| < 0x1000_0000) }

  /** The map after an operation that answered r. */
  ghost function Applied(m: map<seq<byte>, seq<byte>>, op: Op, r: int): map<seq<byte>, seq<byte>> {
    match op
    case SetName(name, value, _, _) => if r == 0 then m[name := value] else m
    case DelName(name) => m - {name}
    case GetName(_, _) => m
  }

  ghost function AppliedAll(m: map<seq<byte>, seq<byte>>, ops: seq<Op>, done: seq<int>): map<seq<byte>, seq<byte>>
    requires |done| == |ops|
  {
    if ops == [] then m else Applied(AppliedAll(m, ops[..|ops| - 1], done[..|ops| - 1]), ops[|ops| - 1], done[|ops| - 1])
  }

  lemma AppliedNothing(m: map<seq<byte>, seq<byte>>)
    ensures AppliedAll(m, [], []) == m
  {
  }

  lemma AppliedMore(m: map<seq<byte>, seq<byte>>, ops: seq<Op>, done: seq<int>, i: nat, d: int)
    requires i < |ops| && |done| == i
    ensures AppliedAll(m, ops[..i + 1], done + [d]) == Applied(AppliedAll(m, ops[..i], done), ops[i], d)
  {
    assert ops[..i + 1][..i] == ops[..i] && (done + [d])[..i] == done;
  }

  class NameVals {
    const mem: array<byte>
    const xbSize: nat
    ghost var recs: seq<Record>

    ghost function Xb(): seq<byte>
      reads this, mem
      requires xbSize <= mem.Length
    {
      mem[..xbSize]
    }

    ghost predicate Sized()
      reads this
    {
      4 <= xbSize < 0x8000_0000 && xbSize + 4 <= mem.Length
    }

    /** The buffer holds the records, the last of which may fill it to the brim. */
    ghost predicate Filled()
      reads this, mem
    {
      Sized() && Stored(Xb(), recs)
    }

    ghost predicate Valid()
      reads this, mem
    {
      Sized() && Holds(Xb(), recs)
    }

    /** The records that can be seen. */
    ghost function Seen(): seq<Record>
      reads this, mem
      requires Filled()
    {
      Visible(recs, xbSize)
    }

    constructor (xbSize: nat, mem: array<byte>)
      requires 4 <= xbSize < 0x8000_0000 && xbSize + 4 <= mem.Length
      requires mem[..xbSize] == Zeros(xbSize)
      ensures Valid() && recs == [] && this.mem == mem && this.xbSize == xbSize
    {
      this.xbSize, this.mem := xbSize, mem;
      recs := [];
    }

    lemma SeenIsAll()
      requires Valid()
      ensures Filled() && Seen() == recs && RecsOk(recs) && |Layout(recs)| < xbSize <= mem.Length
    {
      hide Layout, RecsOk;
    }

    lemma XbSlice(i: nat, j: nat)
      requires i <= j <= xbSize <= mem.Length
      ensures Xb()[i..j] == mem[i..j]
    {
      assert forall k :: 0 <= k < j - i ==> Xb()[i..j][k] == mem[i + k] == mem[i..j][k];
    }

    method ReadSize(pos: nat) returns (size: u32)
      requires Sized() && pos + 4 <= xbSize
      ensures size == DecodeU32(Xb()[pos..pos + 4])
    {
      size := DecodeU32(mem[pos..pos + 4]);
      XbSlice(pos, pos + 4);
    }

    /** The size stored for record k, or zero after the last. */
    method SizeAfter(pos: nat, ghost k: nat) returns (size: u32)
      requires Filled() && k <= |recs| && pos == Start(recs, k)
      ensures size == if k < |recs| then Size(recs[k]) else 0
    {
      hide DecodeU32, EncodeU32, Stored, Layout, RecBytes, Start;
      if k < |recs| {
        StoredFits(Xb(), recs);
        EnteredIfVisible(recs, k, xbSize);
      }
      if pos < xbSize - 4 {
        size := ReadSize(pos);
        SizeStored(Xb(), recs, k);
      } else {
        size := 0;
      }
    }

    /** Whether the name at a position in the buffer is the given one; at most n bytes are looked at. */
    method Strncmp(at: nat, name: seq<byte>, n: nat, ghost stored: seq<byte>) returns (equal: bool)
      requires at + |stored| < mem.Length && mem[at..at + |stored|] == stored && mem[at + |stored|] == 0
      requires 0 !in stored && 0 !in name && |stored| < n
      ensures equal == (stored == name)
    {
      var i := 0;
      while i < n
        invariant i <= |stored| && i <= |name| && stored[..i] == name[..i]
      {
        var a, b := mem[at + i], if i < |name| then name[i] else 0;
        assert i < |stored| ==> a == stored[i];
        if a != b { return false; }
        if a == 0 { return true; }
        i := i + 1;
      }
      equal := true;
    }

    /** nval_find: where the record for a name begins and how long it is, or -ENODATA. A record that ends where the
        buffer does is not found. */
    method Find(name: seq<byte>) returns (pos: int, existSize: nat)
      requires Filled() && 0 !in name
      ensures var k := IndexOf(Seen(), name);
              if k < |Seen()| then pos == Start(recs, k) && existSize == Size(recs[k]) else pos == -ENODATA && existSize == 0
    {
      hide DecodeU32, EncodeU32, Stored, RecBytes, Layout, IndexOf, Start, Visible;
      StoredFits(Xb(), recs);
      StartsAtZero(recs);
      ghost var k := 0;
      pos := 0;
      var size := SizeAfter(0, 0);
      while size > 0 && size < xbSize && pos + size < xbSize
        invariant 0 <= pos && k <= |Seen()| && pos == Start(recs, k) && size == (if k < |recs| then Size(recs[k]) else 0)
        invariant forall j :: 0 <= j < k ==> recs[j].name != name
        decreases |recs| - k
      {
        EnteredIfVisible(recs, k, xbSize);
        RoomBefore(recs, k);
        NameAt(Xb(), recs, k);
        XbSlice(pos + 4, pos + 4 + |recs[k].name|);
        var equal := Strncmp(pos + 4, name, size, recs[k].name);
        if equal {
          FirstIs(Seen(), name, k);
          return pos, size;
        }
        pos := pos + size;
        k := k + 1;
        size := SizeAfter(pos, k);
      }
      if k < |recs| { EnteredIfVisible(recs, k, xbSize); }
      pos, existSize := -ENODATA, 0;
    }

    /** nval_used: the length of the records, without one that ends where the buffer does. */
    method Used() returns (pos: nat)
      requires Filled()
      ensures pos == |Layout(Seen())|
    {
      hide DecodeU32, EncodeU32, Stored, RecBytes, Layout, Start, Visible;
      StoredFits(Xb(), recs);
      StartsAtZero(recs);
      pos := 0;
      ghost var k := 0;
      var size := SizeAfter(0, 0);
      while size > 0 && size < xbSize && pos + size < xbSize
        invariant k <= |Seen()| && pos == Start(recs, k) && size == (if k < |recs| then Size(recs[k]) else 0)
        decreases |recs| - k
      {
        EnteredIfVisible(recs, k, xbSize);
        RoomBefore(recs, k);
        pos := pos + size;
        k := k + 1;
        size := SizeAfter(pos, k);
      }
      if k < |recs| { EnteredIfVisible(recs, k, xbSize); }
      StartOf(recs, k);
      assert recs[..k] == Seen();
    }

    /** Shifts what comes after a record over it, and fills up with zeros. */
    method ShiftDown(pos: nat, size: nat)
      requires Sized() && pos + size <= xbSize
      modifies mem
      ensures Xb() == Shifted(old(Xb()), pos, size) && mem[xbSize..] == old(mem[xbSize..])
    {
      ghost var b, shifted := mem[..], Shifted(Xb(), pos, size);
      assert forall j :: 0 <= j < xbSize ==> shifted[j] == if j < pos then b[j] else if j < xbSize - size then b[j + size] else 0;
      hide Shifted;
      var i := pos;
      while i + size < xbSize
        invariant pos <= i <= xbSize - size
        invariant forall j :: 0 <= j < i ==> mem[j] == shifted[j]
        invariant forall j :: i <= j < mem.Length ==> mem[j] == b[j]
      {
        mem[i] := mem[i + size];
        i := i + 1;
      }
      forall j | xbSize - size <= j < xbSize { mem[j] := 0; }
      assert b[xbSize..] == old(mem[xbSize..]);
    }

    /** nval_del. */
    method Del(name: seq<byte>) returns (r: int)
      requires Filled() && 0 !in name
      modifies this`recs, mem
      ensures Filled() && r == if name in old(MapOf(Seen())) then 0 else -ENODATA
      ensures r == 0 ==> Valid()
      ensures var k := IndexOf(old(Seen()), name); recs == if k < |old(Seen())| then Without(old(recs), k) else old(recs)
      ensures old(Valid()) ==> Valid() && MapOf(recs) == old(MapOf(recs)) - {name}
      ensures mem[xbSize..] == old(mem[xbSize..])
    {
      StoredFits(Xb(), recs);
      SeenOk(recs, xbSize);
      hide Stored, RecBytes, Layout, EncodeU32, DecodeU32, MapOf, Without, Start, IndexOf, RecsOk;
      MapFinds(Seen(), name);
      ghost var k := IndexOf(Seen(), name);
      var pos, _ := Find(name);
      if k < |Seen()| {
        EnteredIfVisible(recs, k, xbSize);
        MapWithout(recs, k);
      } else {
        NotInMap(Seen(), name);
      }
      if pos < 0 || pos >= xbSize { return -ENODATA; }
      DelAt(pos, k);
      r := 0;
    }

    method DelAt(pos: nat, ghost k: nat)
      requires Filled() && k < |recs| && pos == Start(recs, k) && pos + 4 <= xbSize
      modifies this`recs, mem
      ensures Valid() && recs == Without(old(recs), k)
      ensures mem[xbSize..] == old(mem[xbSize..])
    {
      hide Stored, Holds, RecBytes, Layout, EncodeU32, DecodeU32, Without, Shifted, Start;
      SizeStored(Xb(), recs, k);
      var size := ReadSize(pos);
      AfterDelete(Xb(), recs, k);
      ShiftDown(pos, size);
      recs := Without(recs, k);
    }

    /** What a record for a name may take up: what is free, and what the name's record takes up now. */
    ghost function Space(name: seq<byte>): int
      reads this
    {
      xbSize - |Layout(recs)| + if IndexOf(recs, name) < |recs| then Size(recs[IndexOf(recs, name)]) else 0
    }

    /** nval_set. The copy of the name clears four bytes beyond the record: those that are not spare lie behind the
        buffer. A record that leaves nothing spare is accepted, and not seen any more. */
    method Set(name: seq<byte>, value: seq<byte>, create: bool, replace: bool) returns (r: int)
      requires Valid() && 0 !in name && |value| < 0x1000_0000
      modifies this`recs, mem
      ensures Filled()
      ensures var exists_ := name in old(MapOf(recs));
              r == if create && exists_ then -EEXIST else if replace && !exists_ then -ENODATA
                   else if 4 + |name| + 1 + |value| > old(Space(name)) then -ENOSPC else 0
      ensures r != 0 ==> Valid() && recs == old(recs) && mem[..] == old(mem[..])
      ensures r == 0 ==> && MapOf(recs) == old(MapOf(recs))[name := value] && recs != [] && recs[|recs| - 1] == Rec(name, value)
                         && |Layout(recs)| == xbSize - (old(Space(name)) - (4 + |name| + 1 + |value|))
      ensures r == 0 ==> 4 + |name| + 1 + |value| <= old(Space(name))
      ensures r == 0 ==> (Valid() <==> 4 + |name| + 1 + |value| < old(Space(name)))
      ensures r == 0 ==> mem[xbSize..] == Overrun(old(mem[xbSize..]), old(Space(name)) - (4 + |name| + 1 + |value|))
    {
      SeenAll(recs, xbSize);
      HoldsFits(Xb(), recs);
      hide Stored, Holds, RecBytes, Layout, EncodeU32, DecodeU32, MapOf, Without, IndexOf, Visible, Overrun, RecsOk;
      MapFinds(recs, name);
      var namelen := if |name| > xbSize then xbSize else |name|;
      ghost var k := IndexOf(recs, name);
      var pos, sizeExist := Find(name);
      if create && pos >= 0 { return -EEXIST; }
      if replace && pos < 0 { return -ENODATA; }
      var start := Used();
      var space := xbSize - start + sizeExist;
      var reclen := 4 + namelen + 1 + |value|;
      SpaceBounded(Xb(), recs, k);
      if reclen > space { return -ENOSPC; }
      Replace(pos, start, Rec(name, value));
      r := 0;
    }

    /** Deletes the record for a name, if there is one, and appends the new one. */
    method Replace(pos: int, used: nat, r: Record)
      requires Valid() && used == |Layout(recs)| && (pos >= 0 <==> IndexOf(recs, r.name) < |recs|)
      requires Size(r) <= Space(r.name)
      modifies this`recs, mem
      ensures Filled() && MapOf(recs) == old(MapOf(recs))[r.name := r.value] && recs != [] && recs[|recs| - 1] == r
      ensures |Layout(recs)| == xbSize - (old(Space(r.name)) - Size(r))
      ensures mem[xbSize..] == Overrun(old(mem[xbSize..]), old(Space(r.name)) - Size(r))
    {
      hide Layout, MapOf, Overrun, Valid, Filled, IndexOf;
      var start := MakeRoom(pos, used, r.name);
      ghost var left := recs;
      Append(start, r);
      MapAppend(left, r);
    }

    /** Deletes the record for a name, if there is one. */
    method MakeRoom(pos: int, used: nat, name: seq<byte>) returns (start: nat)
      requires Valid() && 0 !in name && used == |Layout(recs)| && (pos >= 0 <==> IndexOf(recs, name) < |recs|)
      modifies this`recs, mem
      ensures Valid() && start == |Layout(recs)| && MapOf(recs) == old(MapOf(recs)) - {name}
      ensures start == xbSize - old(Space(name)) && mem[xbSize..] == old(mem[xbSize..])
    {
      hide Valid, Filled, Layout, MapOf, Without, IndexOf, RecsOk, Seen, Size;
      SeenIsAll();
      start := used;
      if pos >= 0 {
        LayoutShorter(recs, IndexOf(recs, name));
        var d := Del(name);
        SeenIsAll();
        start := Used();
      } else {
        NotInMap(recs, name);
      }
    }

    method Append(start: nat, r: Record)
      requires Valid() && start == |Layout(recs)| && start + Size(r) <= xbSize && r.name !in MapOf(recs)
      modifies this`recs, mem
      ensures Filled() && recs == old(recs) + [r] && |Layout(recs)| == start + Size(r)
      ensures mem[xbSize..] == Overrun(old(mem[xbSize..]), xbSize - |Layout(recs)|)
    {
      HoldsFits(Xb(), recs);
      hide Stored, Holds, RecBytes, Layout, EncodeU32, DecodeU32, MapOf, Put, Overrun, IndexOf, RecsOk;
      MapFinds(recs, r.name);
      AfterSet(mem[..], xbSize, recs, r);
      LayoutBoth(recs, [r]);
      LayoutOne(r);
      assert mem[..][..xbSize] == Xb() && mem[..][xbSize..] == mem[xbSize..];
      PutRecord(start, r);
      recs := recs + [r];
      assert mem[..][..xbSize] == Xb() && mem[..][xbSize..] == mem[xbSize..];
    }

    /** What is written for a record: its size, its name with zeros behind to the record's length, and its value. */
    method PutRecord(start: nat, r: Record)
      requires start + Size(r) + 4 <= mem.Length
      modifies mem
      ensures mem[..] == Put(old(mem[..]), start, RecBytes(r))
    {
      hide EncodeU32, RecBytes, Copied, Put, Zeros;
      var reclen := Size(r);
      ghost var b := mem[..];
      Copy(start, EncodeU32(reclen));
      Copy(start + 4, r.name + Zeros(reclen - |r.name|));
      Copy(start + 4 + |r.name| + 1, r.value);
      ThreeCopies(b, start, EncodeU32(reclen), r.name, r.value);
      RecordIs(r);
    }

    /** nval_get: the length of the value, and the value itself unless only the length was asked for. */
    method Get(name: seq<byte>, bsize: nat) returns (r: int, buf: seq<byte>)
      requires Filled() && 0 !in name
      ensures (r, buf) == Got(MapOf(Seen()), name, bsize)
    {
      StoredFits(Xb(), recs);
      SeenOk(recs, xbSize);
      hide Stored, RecBytes, Layout, EncodeU32, DecodeU32, MapOf, IndexOf, Start, RecsOk;
      buf := [];
      MapFinds(Seen(), name);
      ghost var k := IndexOf(Seen(), name);
      var pos, _ := Find(name);
      if k < |Seen()| { EnteredIfVisible(recs, k, xbSize); }
      if pos >= 0 && pos < xbSize {
        var at, size := ReadValue(pos, k);
        if bsize == 0 { return size, []; }
        if size <= bsize { return size, mem[at..at + size]; }
      }
      r := if pos >= 0 then -ERANGE else -ENODATA;
    }

    /** Where the value of record k is, past its name. */
    method ReadValue(start: nat, ghost k: nat) returns (pos: nat, size: nat)
      requires Filled() && k < |recs| && start == Start(recs, k) && start + 4 <= xbSize
      ensures pos + size <= xbSize && mem[pos..pos + size] == recs[k].value && size == |recs[k].value|
    {
      hide Stored, RecBytes, Layout, EncodeU32, DecodeU32, Start;
      SizeStored(Xb(), recs, k);
      var stored := ReadSize(start);
      pos, size := start + 4, stored - 4;
      NameAt(Xb(), recs, k);
      ValueAt(Xb(), recs, k);
      ghost var name := recs[k].name;
      XbSlice(start + 4, start + 4 + |name|);
      XbSlice(start + 5 + |name|, start + stored);
      assert forall j :: 0 <= j < |name| ==> name[j] == mem[start + 4 + j] && name[j] != 0;
      while mem[pos] != 0 && size > 0 && pos < xbSize
        invariant start + 4 <= pos <= start + 4 + |name| && size == stored - 4 - (pos - start - 4)
        decreases size
      {
        assert pos < start + 4 + |name|;
        pos := pos + 1;
        size := size - 1;
      }
      pos := pos + 1;
      size := size - 1;
    }

    /** A value just set is read back if and only if its record left a byte of the buffer to spare. */
    method SetThenGet(name: seq<byte>, value: seq<byte>, create: bool, replace: bool) returns (r: int, got: int, buf: seq<byte>)
      requires Valid() && 0 !in name && |value| < 0x1000_0000
      modifies this`recs, mem
      ensures r == 0 ==> ((got, buf) == (|value|, value) <==> 4 + |name| + 1 + |value| < old(Space(name)))
      ensures r == 0 && 4 + |name| + 1 + |value| == old(Space(name)) ==> got == -ENODATA
      ensures (create ==> name !in old(MapOf(recs))) && (replace ==> name in old(MapOf(recs))) && 4 + |name| + 1 + |value| <= old(Space(name)) ==> r == 0
      ensures r == 0 ==> && 4 + |name| + 1 + |value| <= old(Space(name))
                         && mem[xbSize..] == Overrun(old(mem[xbSize..]), old(Space(name)) - (4 + |name| + 1 + |value|))
    {
      hide Valid, Filled, Layout, MapOf, Stored, Holds, Overrun;
      r := Set(name, value, create, replace);
      got, buf := Get(name, |value|);
      if r == 0 {
        if Valid() { SeenIsAll(); } else { LastUnseen(); }
      }
    }

    /** When the records fill the buffer, the last of them is lost. */
    lemma LastUnseen()
      requires Filled() && !Valid() && recs != []
      ensures recs[|recs| - 1].name !in MapOf(Seen())
    {
      StoredFits(Xb(), recs);
      SeenOk(recs, xbSize);
      hide Layout, MapOf;
      MapFinds(Seen(), recs[|recs| - 1].name);
    }

    // ----- Runs -----

    /** Any run of sets, deletions and reads: reads give what the map then holds, the last value set under every name,
        up to a set that fills the buffer to the brim, with which the run ends. */
    method Run(ops: seq<Op>) returns (done: seq<int>, shown: seq<seq<byte>>)
      requires Valid() && forall k :: 0 <= k < |ops| ==> OpOk(ops[k])
      modifies this`recs, mem
      ensures |shown| == |done| <= |ops| && Filled()
      ensures MapOf(recs) == AppliedAll(old(MapOf(recs)), ops[..|done|], done)
      ensures forall k :: 0 <= k < |done| && ops[k].GetName? ==>
                (done[k], shown[k]) == Got(AppliedAll(old(MapOf(recs)), ops[..k], done[..k]), ops[k].name, ops[k].bsize)
      ensures Valid() ==> |done| == |ops|
      ensures !Valid() ==> done != [] && ops[|done| - 1].SetName? && done[|done| - 1] == 0
    {
      hide Valid, Filled, MapOf, Applied, AppliedAll, Overrun;
      done, shown := [], [];
      ghost var m := MapOf(recs);
      AppliedNothing(m);
      var i := 0;
      while i < |ops|
        invariant 0 <= i == |done| == |shown| <= |ops| && Valid()
        invariant MapOf(recs) == AppliedAll(m, ops[..i], done)
        invariant forall k :: 0 <= k < i && ops[k].GetName? ==>
                    (done[k], shown[k]) == Got(AppliedAll(m, ops[..k], done[..k]), ops[k].name, ops[k].bsize)
      {
        var d, s := Do(ops[i]);
        AppliedMore(m, ops, done, i, d);
        ghost var done0 := done;
        done, shown := done + [d], shown + [s];
        assert forall k :: 0 <= k <= i ==> done[..k] == done0[..k];
        assert done0[..i] == done0;
        i := i + 1;
        if ops[i - 1].SetName? && d == 0 {
          var got, _ := Get(ops[i - 1].name, 0);
          LastSeen();
          if got == -ENODATA { return; }
        }
      }
      assert ops[..i] == ops;
      SeenIsAll();
    }

    /** The last record is seen exactly if the records do not fill the buffer. */
    lemma LastSeen()
      requires Filled() && recs != []
      ensures recs[|recs| - 1].name in MapOf(Seen()) <==> Valid()
    {
      if Valid() {
        SeenIsAll();
        hide MapOf, Layout;
        MapFinds(recs, recs[|recs| - 1].name);
      } else {
        LastUnseen();
      }
    }

    /** One operation. */
    method Do(op: Op) returns (done: int, shown: seq<byte>)
      requires Valid() && OpOk(op)
      modifies this`recs, mem
      ensures Filled() && MapOf(recs) == Applied(old(MapOf(recs)), op, done)
      ensures op.GetName? ==> (done, shown) == Got(old(MapOf(recs)), op.name, op.bsize)
      ensures !(op.SetName? && done == 0) ==> Valid()
      ensures op.SetName? && done == 0 ==> recs != [] && recs[|recs| - 1].name == op.name
    {
      hide Valid, Filled, MapOf, Overrun, Layout, Without, IndexOf;
      SeenIsAll();
      shown := [];
      match op
      case SetName(name, value, create, replace) => done := Set(name, value, create, replace);
      case DelName(name) => done := Del(name);
      case GetName(name, bsize) => done, shown := Get(name, bsize);
    }

    method Copy(at: nat, s: seq<byte>)
      requires at + |s| <= mem.Length
      modifies mem
      ensures mem[..] == Copied(old(mem[..]), at, s)
    {
      forall i | 0 <= i < |s| { mem[at + i] := s[i]; }
    }
  }

  /** The smallest instance: a record of eight bytes is accepted into an empty buffer of eight bytes and not found
      again, and four bytes behind the buffer have been cleared. */
  method ExactFitLost() returns (r: int, got: int, buf: seq<byte>, behind: seq<byte>)
    ensures r == 0 && got == -ENODATA && behind == [0, 0, 0, 0]
  {
    var mem := new byte[12](i => if i < 8 then 0 else 7);
    assert mem[..8] == Zeros(8);
    var v := new NameVals(8, mem);
    hide Layout, MapOf;
    NothingLaidOut();
    r, got, buf := v.SetThenGet([1], [2, 3], false, false);
    behind := mem[8..];
  }

  lemma NothingLaidOut()
    ensures Layout([]) == [] && MapOf([]) == map[]
  {
  }

  /** A record and four zeros put into the buffer. */
  function Put(b: seq<byte>, start: nat, s: seq<byte>): seq<byte>
    requires start + |s| + 4 <= |b|
  {
    b[..start] + s + Zeros(4) + b[start + |s| + 4..]
  }

  function Copied(b: seq<byte>, at: nat, s: seq<byte>): (r: seq<byte>)
    requires at + |s| <= |b|
    ensures |r| == |b|
  {
    b[..at] + s + b[at + |s|..]
  }

  /** Size, padded name and value copied over one another make the record and four zeros. */
  lemma ThreeCopies(b: seq<byte>, start: nat, size: seq<byte>, name: seq<byte>, value: seq<byte>)
    requires |size| == 4 && start + 9 + |name| + |value| <= |b|
    ensures var reclen := 5 + |name| + |value|;
            Copied(Copied(Copied(b, start, size), start + 4, name + Zeros(reclen - |name|)), start + 5 + |name|, value)
            == Put(b, start, size + name + [0] + value)
  {
    var reclen := 5 + |name| + |value|;
    var c := Copied(Copied(b, start, size), start + 4, name + Zeros(reclen - |name|));
    assert c[..start + 5 + |name|] == b[..start] + size + name + [0];
    assert c[start + 5 + |name| + |value|..] == Zeros(4) + b[start + reclen + 4..];
  }

  lemma RecordIs(r: Record)
    ensures RecBytes(r) == EncodeU32(Size(r)) + r.name + [0] + r.value
  {
    hide EncodeU32;
  }

  lemma NameAt(b: seq<byte>, recs: seq<Record>, k: nat)
    requires Stored(b, recs) && k < |recs|
    ensures var at, r := Start(recs, k), recs[k];
            && at + Size(r) <= |b| && b[at + 4..at + 4 + |r.name|] == r.name && b[at + 4 + |r.name|] == 0 && 0 !in r.name
  {
    hide RecBytes, EncodeU32;
    RecordAt(b, recs, k);
    RecordParts(recs[k]);
    hide Layout, Stored;
    var at, n, size := Start(recs, k), |recs[k].name|, Size(recs[k]);
    var rb := b[at..at + size];
    assert forall i :: 0 <= i < size ==> rb[i] == b[at + i];
    assert b[at + 4..at + 4 + n] == rb[4..4 + n];
  }

  lemma StoredFits(b: seq<byte>, recs: seq<Record>)
    requires Stored(b, recs)
    ensures RecsOk(recs) && |Layout(recs)| <= |b|
  {
  }

  lemma HoldsFits(b: seq<byte>, recs: seq<Record>)
    requires Holds(b, recs)
    ensures RecsOk(recs) && |Layout(recs)| < |b| && Stored(b, recs)
  {
  }

  lemma StartsAtZero(recs: seq<Record>)
    ensures Start(recs, 0) == 0
  {
    assert recs[..0] == [];
  }

  lemma StartOf(recs: seq<Record>, k: nat)
    requires k <= |recs|
    ensures Start(recs, k) == |Layout(recs[..k])|
  {
  }

  lemma SeenOk(recs: seq<Record>, xbSize: nat)
    requires RecsOk(recs) && |Layout(recs)| <= xbSize && xbSize > 0
    ensures RecsOk(Visible(recs, xbSize))
  {
    hide Layout, Visible;
  }

  lemma SeenAll(recs: seq<Record>, xbSize: nat)
    requires |Layout(recs)| < xbSize
    ensures Visible(recs, xbSize) == recs
  {
  }

  lemma FirstIs(recs: seq<Record>, name: seq<byte>, k: nat)
    requires k < |recs| && recs[k].name == name && forall j :: 0 <= j < k ==> recs[j].name != name
    ensures IndexOf(recs, name) == k
  {
    hide IndexOf;
  }

  lemma NotInMap(recs: seq<Record>, name: seq<byte>)
    requires RecsOk(recs) && IndexOf(recs, name) == |recs|
    ensures MapOf(recs) - {name} == MapOf(recs)
  {
    MapFinds(recs, name);
  }

  lemma SizeStored(b: seq<byte>, recs: seq<Record>, k: nat)
    requires Stored(b, recs) && k <= |recs| && Start(recs, k) + 4 <= |b|
    ensures DecodeU32(b[Start(recs, k)..Start(recs, k) + 4]) == if k < |recs| then Size(recs[k]) else 0
    ensures k < |recs| ==> Start(recs, k) + Size(recs[k]) <= |b|
  {
    hide DecodeU32, EncodeU32, RecBytes;
    if k < |recs| {
      RecordAt(b, recs, k);
      RecordParts(recs[k]);
      Prefix4(b, Start(recs, k), RecBytes(recs[k]));
      U32RoundTrip(Size(recs[k]));
    } else {
      assert recs[..k] == recs;
      hide Layout;
      ZerosBehind(b, Layout(recs));
      ZeroSize();
    }
  }

  /** The first four bytes of what is at a place. */
  lemma Prefix4(b: seq<byte>, at: nat, s: seq<byte>)
    requires at + |s| <= |b| && |s| >= 4 && b[at..at + |s|] == s
    ensures b[at..at + 4] == s[..4]
  {
    forall i | 0 <= i < 4 ensures b[at..at + 4][i] == s[..4][i] {
      assert b[at + i] == b[at..at + |s|][i];
    }
  }

  lemma ZerosBehind(b: seq<byte>, s: seq<byte>)
    requires |s| + 4 <= |b| && b == s + Zeros(|b| - |s|)
    ensures b[|s|..|s| + 4] == Zeros(4)
  {
    forall i | 0 <= i < 4 ensures b[|s|..|s| + 4][i] == Zeros(4)[i] {
      assert b[|s| + i] == Zeros(|b| - |s|)[i];
    }
  }

  lemma ZeroSize()
    ensures DecodeU32(Zeros(4)) == 0
  {
  }

  function Shifted(b: seq<byte>, pos: nat, size: nat): (r: seq<byte>)
    requires pos + size <= |b|
    ensures |r| == |b|
  {
    b[..pos] + b[pos + size..] + Zeros(size)
  }

  /** The buffer without record k. */
  lemma AfterDelete(b: seq<byte>, recs: seq<Record>, k: nat)
    requires Stored(b, recs) && k < |recs|
    ensures var at, size := Start(recs, k), Size(recs[k]);
            at + size <= |b| && Holds(Shifted(b, at, size), Without(recs, k))
  {
    RecordAt(b, recs, k);
    RecsWithout(recs, k);
    LayoutAround(recs, k);
    LayoutWithout(recs, k);
    hide RecBytes, RecsOk, Layout, Without, Shifted;
    Spliced(b, Layout(recs[..k]), RecBytes(recs[k]), Layout(recs[k + 1..]), |b| - |Layout(recs)|);
  }

  lemma LayoutWithout(recs: seq<Record>, k: nat)
    requires k < |recs|
    ensures Layout(Without(recs, k)) == Layout(recs[..k]) + Layout(recs[k + 1..])
  {
    LayoutBoth(recs[..k], recs[k + 1..]);
  }

  lemma Spliced(b: seq<byte>, before: seq<byte>, out: seq<byte>, after: seq<byte>, zeros: nat)
    requires b == before + out + after + Zeros(zeros)
    ensures Shifted(b, |before|, |out|) == before + after + Zeros(zeros + |out|)
  {
    assert b[..|before|] == before;
    assert b[|before| + |out|..] == after + Zeros(zeros);
    assert Zeros(zeros) + Zeros(|out|) == Zeros(zeros + |out|);
  }

  lemma SpaceBounded(b: seq<byte>, recs: seq<Record>, k: nat)
    requires Stored(b, recs) && k <= |recs|
    ensures |b| - |Layout(recs)| + (if k < |recs| then Size(recs[k]) else 0) <= |b|
  {
    if k < |recs| {
      hide RecBytes;
      LayoutAround(recs, k);
    }
  }

  lemma LayoutShorter(recs: seq<Record>, k: nat)
    requires k < |recs|
    ensures |Layout(Without(recs, k))| == |Layout(recs)| - Size(recs[k])
  {
    hide RecBytes, Layout;
    LayoutAround(recs, k);
    LayoutWithout(recs, k);
  }

  /** The buffer with a record more, and the bytes behind it. */
  lemma AfterSet(mem: seq<byte>, xbSize: nat, recs: seq<Record>, r: Record)
    requires xbSize + 4 <= |mem| && Holds(mem[..xbSize], recs) && IndexOf(recs, r.name) == |recs| && |Layout(recs)| + Size(r) <= xbSize
    ensures var start := |Layout(recs)|;
            && start + Size(r) + 4 <= |mem|
            && Stored(Put(mem, start, RecBytes(r))[..xbSize], recs + [r])
            && Put(mem, start, RecBytes(r))[xbSize..] == Overrun(mem[xbSize..], xbSize - start - Size(r))
  {
    LayoutBoth(recs, [r]);
    LayoutOne(r);
    hide RecBytes, Layout;
    Extended(mem, xbSize, Layout(recs), RecBytes(r));
  }

  lemma Extended(mem: seq<byte>, xbSize: nat, before: seq<byte>, more: seq<byte>)
    requires |before| + |more| <= xbSize && xbSize + 4 <= |mem| && mem[..xbSize] == before + Zeros(xbSize - |before|)
    ensures Put(mem, |before|, more)[..xbSize] == before + more + Zeros(xbSize - |before| - |more|)
    ensures Put(mem, |before|, more)[xbSize..] == Overrun(mem[xbSize..], xbSize - |before| - |more|)
  {
    var after, n := Put(mem, |before|, more), |before| + |more|;
    PutAt(mem, |before|, more);
    hide Put;
    var want := before + more + Zeros(xbSize - n);
    forall j | 0 <= j < xbSize ensures after[..xbSize][j] == want[j] {
      assert mem[j] == (before + Zeros(xbSize - |before|))[j];
    }
    var tail := Overrun(mem[xbSize..], xbSize - n);
    forall j | 0 <= j < |tail| ensures after[xbSize..][j] == tail[j] {
      assert mem[xbSize..][j] == mem[xbSize + j];
    }
  }

  lemma PutAt(b: seq<byte>, start: nat, s: seq<byte>)
    requires start + |s| + 4 <= |b|
    ensures var r := Put(b, start, s);
            |r| == |b| && forall j :: 0 <= j < |b| ==>
              r[j] == if j < start then b[j] else if j < start + |s| then s[j - start] else if j < start + |s| + 4 then 0 else b[j]
  {
  }

  lemma ValueAt(b: seq<byte>, recs: seq<Record>, k: nat)
    requires Stored(b, recs) && k < |recs|
    ensures var at, r := Start(recs, k), recs[k];
            at + Size(r) <= |b| && b[at + 5 + |r.name|..at + Size(r)] == r.value
  {
    hide RecBytes, EncodeU32;
    RecordAt(b, recs, k);
    RecordParts(recs[k]);
    hide Layout, Stored;
    var at, n, size := Start(recs, k), |recs[k].name|, Size(recs[k]);
    var rb := b[at..at + size];
    assert forall i :: 0 <= i < size ==> rb[i] == b[at + i];
    assert b[at + 5 + n..at + size] == rb[5 + n..];
  }
}
