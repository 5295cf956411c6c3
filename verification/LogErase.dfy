/** Why a block may be erased: what makes it harmless, that it stays so, and what erasing it keeps. */
module LogErase {
  import opened Options
  import opened MountScan
  import opened LogCollection
  import opened LogState

  // ----- Admission -----

  /** What the code asks of a block that has a shrink header: no older page has been discarded. */
  ghost predicate NoneDiscarded<V>(s: State<V>, p: nat) {
    forall e :: e in s.log && e.page < p ==> Used(s, e)
  }

  predicate Marks(e: Entry, p: nat, q: nat) {
    e.Header? && e.isShrink && p <= e.page < q
  }

  ghost predicate Marked(log: seq<Entry>, p: nat, q: nat) {
    exists e :: e in log && Marks(e, p, q)
  }

  /** A page in use that a header in the block cuts off belongs to an unlinked file. */
  lemma UsedAndCut<V>(g: Geometry, s: State<V>, d: Entry, p: nat, q: nat)
    requires LogOk(g, s) && FilesOk(s) && UncutOk(g, s)
    requires d in s.log && d.Data? && Used(s, d) && d.page < p && CutWithin(g, s.log, d, p, q)
    ensures CutFrom(g, s.log, d, q) || UnlinkedWithin(s.log, d.obj, p, q)
  {
    hide ChunkBase, NotEnded;
    DataBase(g, s.log, d);
    var m :| m in s.log && p <= m.page < q && Cuts(g, m, d);
    assert (d.obj, d.chunk) in s.tnodes;
    var h :| LastOf(s.log, h, d.obj) && h.page == s.hdr[d.obj];
    assert OfHeader(m, d.obj);
    assert h.gone ==> Cuts(g, h, d);
    assert !h.gone ==> Linked(s.log, h);
  }

  /** A block admitted when no older page has been discarded is harmless. */
  lemma AdmittedIsHarmless<V>(g: Geometry, s: State<V>, p: nat, q: nat)
    requires LogOk(g, s) && FilesOk(s) && UncutOk(g, s) && NoneDiscarded(s, p)
    ensures Harmless(g, s.log, p, q)
  {
    hide UncutOk;
    forall d | d in s.log && d.Data? && d.page < p && CutWithin(g, s.log, d, p, q)
      ensures CutFrom(g, s.log, d, q) || UnlinkedWithin(s.log, d.obj, p, q)
    {
      UsedAndCut(g, s, d, p, q);
    }
    forall k, e | k in s.log && e in s.log && p <= k.page < q && Ends(k, e) ensures p <= e.page {
      if e.page < p { UsedNotEnded(s, k, e); }
    }
  }

  lemma UsedNotEnded<V>(s: State<V>, k: Entry, e: Entry)
    requires RisingPages(s.log, s.next) && FilesOk(s) && k in s.log && e in s.log && Used(s, e)
    ensures !Ends(k, e)
  {
    if e.Header? {
      assert e.obj in s.hdr;
      var h :| LastOf(s.log, h, e.obj) && h.page == s.hdr[e.obj];
      assert OfHeader(k, h.obj) ==> k.page <= e.page;
    }
  }

  /** A block without a shrink header is harmless at any time: what its unlinking headers cut off, others do. */
  lemma UnmarkedIsHarmless<V>(g: Geometry, s: State<V>, p: nat, q: nat)
    requires LogOk(g, s) && UnlinksOk(g, s) && !Marked(s.log, p, q)
    ensures Harmless(g, s.log, p, q)
  {
    hide Cuts, UnlinksOk;
    assert forall k, e :: k in s.log && p <= k.page < q && Ends(k, e) ==> Marks(k, p, q);
    forall d | d in s.log && d.Data? && d.page < p && CutWithin(g, s.log, d, p, q)
      ensures CutFrom(g, s.log, d, q) || EndedBefore(s.log, d, p) || UnlinkedWithin(s.log, d.obj, p, q)
    {
      var m :| m in s.log && p <= m.page < q && Cuts(g, m, d);
      UnmarkedCut(g, s, d, m, p, q);
    }
  }

  lemma {:induction false} UnmarkedCut<V>(g: Geometry, s: State<V>, d: Entry, m: Entry, p: nat, q: nat)
    requires LogOk(g, s) && UnlinksOk(g, s) && !Marked(s.log, p, q)
    requires d in s.log && d.Data? && d.page < p && m in s.log && p <= m.page < q && Cuts(g, m, d)
    ensures CutFrom(g, s.log, d, q) || EndedBefore(s.log, d, p) || UnlinkedWithin(s.log, d.obj, p, q)
    decreases q - m.page
  {
    DataBase(g, s.log, d);
    hide ChunkBase;
    assert !Marks(m, p, q);
    assert IsGone(m) && !m.isShrink;
    assert UnlinkOk(g, s.log, d, m);
    if Last(s.log, m) {
      assert LastOf(s.log, m, d.obj);
    } else if EndedBefore(s.log, d, m.page) {
      var k :| k in s.log && k.page < m.page && Ends(k, d);
      assert !Marks(k, p, q);
    } else {
      var n :| n in s.log && m.page + 1 <= n.page && Cuts(g, n, d);
      if n.page < q { UnmarkedCut(g, s, d, n, p, q); }
    }
  }

  // ----- What is left -----

  predicate Outside(e: Entry, p: nat, q: nat) {
    e.page < p || q <= e.page
  }

  /** The log without the entries of a block. */
  function Without(log: seq<Entry>, p: nat, q: nat): (r: seq<Entry>)
    ensures forall e :: e in r <==> e in log && Outside(e, p, q)
  {
    if log == [] then []
    else
      var rest, e := Without(log[..|log| - 1], p, q), log[|log| - 1];
      assert log == log[..|log| - 1] + [e];
      if Outside(e, p, q) then rest + [e] else rest
  }

  lemma {:induction false} WithoutRises(log: seq<Entry>, p: nat, q: nat, next: nat)
    requires RisingPages(log, next)
    ensures RisingPages(Without(log, p, q), next)
  {
    if log != [] {
      var e := log[|log| - 1];
      assert forall k :: k in log[..|log| - 1] ==> k in log;
      WithoutRises(log[..|log| - 1], p, q, e.page);
    }
  }

  /** The block is the stretch b of the log a + b + c. */
  ghost predicate Splits(log: seq<Entry>, p: nat, q: nat, a: seq<Entry>, b: seq<Entry>, c: seq<Entry>) {
    && log == a + b + c && Without(log, p, q) == a + c
    && (forall e :: e in a ==> e.page < p) && (forall e :: e in b ==> p <= e.page < q) && (forall e :: e in c ==> q <= e.page)
  }

  lemma {:induction false} SplitByPages(log: seq<Entry>, p: nat, q: nat, next: nat)
    returns (a: seq<Entry>, b: seq<Entry>, c: seq<Entry>)
    requires RisingPages(log, next) && p <= q
    ensures Splits(log, p, q, a, b, c)
  {
    if log == [] {
      a, b, c := [], [], [];
    } else {
      var e, front := log[|log| - 1], log[..|log| - 1];
      assert log == front + [e];
      assert forall k :: k in front ==> k in log && k.page < e.page;
      a, b, c := SplitByPages(front, p, q, e.page);
      a, b, c := SplitNext(front, e, p, q, a, b, c);
    }
  }

  lemma SplitNext(front: seq<Entry>, e: Entry, p: nat, q: nat, a: seq<Entry>, b: seq<Entry>, c: seq<Entry>)
    returns (a': seq<Entry>, b': seq<Entry>, c': seq<Entry>)
    requires p <= q && Splits(front, p, q, a, b, c) && forall k :: k in front ==> k.page < e.page
    ensures Splits(front + [e], p, q, a', b', c')
  {
    WithoutNext(front, e, p, q);
    hide Without;
    a', b', c' := a, b, c;
    assert forall k :: k in a || k in b || k in c ==> k in front;
    if e.page < p {
      Empty(b, p);
      Empty(c, q);
      a' := a + [e];
      assert front + [e] == a' + b + c && a' + c == a + c + [e];
    } else if e.page < q {
      Empty(c, q);
      b' := b + [e];
      assert front + [e] == a + b' + c;
    } else {
      c' := c + [e];
      assert front + [e] == a + b + c' && a + c' == a + c + [e];
    }
  }

  lemma WithoutNext(front: seq<Entry>, e: Entry, p: nat, q: nat)
    ensures Without(front + [e], p, q) == if Outside(e, p, q) then Without(front, p, q) + [e] else Without(front, p, q)
  {
    assert (front + [e])[..|front|] == front;
  }

  lemma Empty(b: seq<Entry>, p: nat)
    requires forall e :: e in b ==> p <= e.page
    requires forall e :: e in b ==> e.page < p
    ensures b == []
  {
    if b != [] { SomeIn(b); }
  }

  lemma IndexAfter(log: seq<Entry>, p: nat, q: nat, a: seq<Entry>, b: seq<Entry>, c: seq<Entry>, e: Entry) returns (j: nat)
    requires Splits(log, p, q, a, b, c) && p <= q && e in log && q <= e.page
    ensures |a + b| <= j < |log| && log[j] == e
  {
    hide Without;
    assert e !in a && e !in b;
    var i :| 0 <= i < |c| && c[i] == e;
    j := |a + b| + i;
  }

  lemma SplitLengths(log: seq<Entry>, p: nat, q: nat, a: seq<Entry>, b: seq<Entry>, c: seq<Entry>)
    requires Splits(log, p, q, a, b, c)
    ensures |a| <= |a + b| <= |log|
  {
  }

  lemma SomeIn(b: seq<Entry>)
    requires b != []
    ensures exists e :: e in b
  {
    assert b[0] in b;
  }

  // ----- Erasing -----

  /** Erasing a block in which nothing is in use. */
  ghost predicate Erases<V>(s: State<V>, s': State<V>, p: nat, q: nat) {
    && p <= q && s'.log == Without(s.log, p, q)
    && s'.next == s.next && s'.tnodes == s.tnodes && s'.hdr == s.hdr && s'.stored == s.stored && s'.deleted == s.deleted
    && s'.selected == s.selected && s'.ghosts == s.ghosts
    && (forall e :: e in s.log && !Outside(e, p, q) ==> !Used(s, e))
  }

  /** What a block in which nothing is in use cuts off or deletes stays cut off or deleted without it. */
  ghost predicate Spare(g: Geometry, log: seq<Entry>, p: nat, q: nat) {
    && (forall d :: d in log && d.Data? && d.page < p && CutWithin(g, log, d, p, q) ==>
          CutFrom(g, log, d, q) || EndedBefore(log, d, p))
    && (forall k, e :: k in log && e in log && p <= k.page < q && Ends(k, e) ==> p <= e.page)
  }

  lemma HarmlessIsSpare<V>(g: Geometry, s: State<V>, s': State<V>, p: nat, q: nat)
    requires LogOk(g, s) && FilesOk(s) && Erases(s, s', p, q) && Harmless(g, s.log, p, q)
    ensures Spare(g, s.log, p, q)
  {
    hide MemoryOk, NotEnded, Cuts;
    forall d | d in s.log && d.Data? && d.page < p && CutWithin(g, s.log, d, p, q)
      ensures CutFrom(g, s.log, d, q) || EndedBefore(s.log, d, p)
    {
      if k :| LastOf(s.log, k, d.obj) && p <= k.page < q && k.gone {
        if d.obj in s.hdr { LastUsed(s, k); }
        assert Finished(s, d.obj) && !IsGone(d);
        var x :| x in s.log && Ends(x, d);
        assert OfHeader(x, d.obj);
      }
    }
  }

  lemma CutsStay(g: Geometry, log: seq<Entry>, p: nat, q: nat, d: Entry, x: nat)
    requires Places(g, log) && p <= q && Spare(g, log, p, q)
    requires d in Without(log, p, q) && d.Data? && d.page <= x && CutFrom(g, log, d, x)
    ensures CutFrom(g, Without(log, p, q), d, x) || EndedBefore(Without(log, p, q), d, x)
  {
    DataBase(g, log, d);
    hide ChunkBase;
    var log' := Without(log, p, q);
    var m :| m in log && x <= m.page && Cuts(g, m, d);
    if Outside(m, p, q) {
      assert m in log';
    } else {
      assert CutWithin(g, log, d, p, q);
      if CutFrom(g, log, d, q) {
        var n :| n in log && q <= n.page && Cuts(g, n, d);
        assert n in log';
      } else {
        var k :| k in log && k.page < p && Ends(k, d);
        assert k in log' && Cuts(g, k, d);
      }
    }
  }

  /** In particular a page that is cut off for good stays so. */
  lemma StaysCut(g: Geometry, log: seq<Entry>, p: nat, q: nat, d: Entry)
    requires Places(g, log) && p <= q && Spare(g, log, p, q) && d in Without(log, p, q) && d.Data? && CutFrom(g, log, d, d.page)
    ensures CutFrom(g, Without(log, p, q), d, d.page)
  {
    CutsStay(g, log, p, q, d, d.page);
  }

  lemma EndsStay(g: Geometry, log: seq<Entry>, p: nat, q: nat, e: Entry, x: nat)
    requires Spare(g, log, p, q) && e in Without(log, p, q)
    ensures EndedBefore(log, e, x) ==> EndedBefore(Without(log, p, q), e, x)
    ensures Ended(log, e) ==> Ended(Without(log, p, q), e)
  {
    forall k | k in log && Ends(k, e) ensures k in Without(log, p, q) {
      assert p <= k.page < q ==> p <= e.page;
    }
  }

  lemma LastStays(log: seq<Entry>, p: nat, q: nat, h: Entry)
    requires Last(log, h) && Outside(h, p, q)
    ensures Last(Without(log, p, q), h)
  {
  }

  /** The last header of a file in the tree was its last one before. */
  lemma LinkedStays<V>(g: Geometry, s: State<V>, s': State<V>, p: nat, q: nat, h: Entry)
    requires LogOk(g, s) && FilesOk(s) && Erases(s, s', p, q) && Spare(g, s.log, p, q) && Linked(s'.log, h)
    ensures Linked(s.log, h) && InTree(s.log, h.obj)
  {
    hide MemoryOk, NotEnded, Spare;
    assert forall k :: k in s'.log && Ends(k, h) ==> OfHeader(k, h.obj);
    EndsStay(g, s.log, p, q, h, 0);
    var k :| LastOf(s.log, k, h.obj) && k.page == s.hdr[h.obj];
    assert Used(s, k);
    assert k in s'.log && OfHeader(k, h.obj);
    OnePage(s.log, s.next, k, h);
  }

  /** A file stays in the tree. */
  lemma TreeStays<V>(g: Geometry, s: State<V>, s': State<V>, p: nat, q: nat, o: nat)
    requires LogOk(g, s) && FilesOk(s) && Erases(s, s', p, q) && Spare(g, s.log, p, q)
    ensures InTree(s'.log, o) <==> InTree(s.log, o)
  {
    if InTree(s.log, o) {
      var h :| Linked(s.log, h) && h.obj == o;
      LinkedKnown(s, h);
      LastStays(s.log, p, q, h);
      assert Linked(s'.log, h);
    }
    if InTree(s'.log, o) {
      var h :| Linked(s'.log, h) && h.obj == o;
      LinkedStays(g, s, s', p, q, h);
    }
  }

  // ----- What erasing keeps -----

  lemma LogStays<V>(g: Geometry, s: State<V>, s': State<V>, p: nat, q: nat)
    requires LogOk(g, s) && Erases(s, s', p, q)
    ensures LogOk(g, s')
  {
    hide Fits;
    WithoutRises(s.log, p, q, s.next);
  }

  lemma FilesStay<V>(g: Geometry, s: State<V>, s': State<V>, p: nat, q: nat)
    requires LogOk(g, s) && FilesOk(s) && Erases(s, s', p, q) && Spare(g, s.log, p, q)
    ensures FilesOk(s')
  {
    hide Spare;
    forall o, c | (o, c) in s'.tnodes ensures Pointed(s'.log, o, c, s'.tnodes[(o, c)]) {
      var e :| e in s.log && IsData(e, o, c, s.tnodes[(o, c)]);
      assert Used(s, e);
      assert e in s'.log;
    }
    forall o | o in s'.hdr ensures exists h :: LastOf(s'.log, h, o) && h.page == s'.hdr[o] {
      var h :| LastOf(s.log, h, o) && h.page == s.hdr[o];
      assert Used(s, h);
      LastStays(s.log, p, q, h);
    }
    forall e | e in s'.log && Finished(s', e.obj) && !IsGone(e) ensures Ended(s'.log, e) {
      assert Finished(s, e.obj);
      EndsStay(g, s.log, p, q, e, 0);
    }
    forall d | d in s'.log && d.Data? && Used(s', d) ensures !Ended(s'.log, d) {
      assert Used(s, d) && !Ended(s.log, d);
    }
  }

  lemma UnlinksStay<V>(g: Geometry, s: State<V>, s': State<V>, p: nat, q: nat)
    requires LogOk(g, s) && UnlinksOk(g, s) && Erases(s, s', p, q) && Spare(g, s.log, p, q)
    ensures UnlinksOk(g, s')
  {
    StillIn(g, s, s', p, q);
    hide Spare, LogOk, Erases, UnlinkOk, Without;
    forall d, k | d in s'.log && k in s'.log && d.Data? && IsGone(k) && !k.isShrink && k.obj == d.obj && d.page < k.page
      ensures UnlinkOk(g, s'.log, d, k)
    {
      UnlinkStays(g, s, s', p, q, d, k);
    }
  }

  lemma UnlinkStays<V>(g: Geometry, s: State<V>, s': State<V>, p: nat, q: nat, d: Entry, k: Entry)
    requires LogOk(g, s) && Erases(s, s', p, q) && Spare(g, s.log, p, q) && d in s'.log && k in s'.log
    requires d.Data? && IsGone(k) && !k.isShrink && k.obj == d.obj && d.page < k.page && UnlinkOk(g, s.log, d, k)
    ensures UnlinkOk(g, s'.log, d, k)
  {
    StillIn(g, s, s', p, q);
    assert Outside(k, p, q) && RisingPages(s.log, s.next);
    hide Spare, LogOk, Erases, Last, CutFrom, EndedBefore, RisingPages, Places, Without;
    if Last(s.log, k) {
      LastStays(s.log, p, q, k);
    } else if EndedBefore(s.log, d, k.page) {
      EndsStay(g, s.log, p, q, d, k.page);
    } else {
      CutsStay(g, s.log, p, q, d, k.page + 1);
      NotEndedBy(s.log, s.next, s'.log, d, k);
    }
  }

  lemma NotEndedBy(log: seq<Entry>, next: nat, log': seq<Entry>, d: Entry, k: Entry)
    requires RisingPages(log, next) && (forall e :: e in log' ==> e in log) && k in log && k.Header? && !k.isShrink
    ensures EndedBefore(log', d, k.page + 1) ==> EndedBefore(log', d, k.page)
  {
    if n :| n in log' && n.page < k.page + 1 && Ends(n, d) {
      if n.page == k.page { OnePage(log, next, n, k); }
    }
  }

  lemma HarmlessStays<V>(g: Geometry, s: State<V>, s': State<V>, p: nat, q: nat, x: nat, y: nat)
    requires LogOk(g, s) && Erases(s, s', p, q) && Spare(g, s.log, p, q) && x <= y && Harmless(g, s.log, x, y)
    ensures Harmless(g, s'.log, x, y)
  {
    hide Spare, LogOk, Cuts, UnlinkedWithin;
    forall d | d in s'.log && d.Data? && d.page < x && CutWithin(g, s'.log, d, x, y)
      ensures CutFrom(g, s'.log, d, y) || EndedBefore(s'.log, d, x) || UnlinkedWithin(s'.log, d.obj, x, y)
    {
      assert CutWithin(g, s.log, d, x, y);
      if CutFrom(g, s.log, d, y) {
        CutStaysHarmless(g, s, s', p, q, x, y, d);
      } else if EndedBefore(s.log, d, x) {
        EndsStay(g, s.log, p, q, d, x);
      } else {
        UnlinkedStays(g, s, s', p, q, x, y, d);
      }
    }
    assert forall k, e :: k in s'.log && e in s'.log && x <= k.page < y && Ends(k, e) ==> x <= e.page;
  }

  lemma CutStaysHarmless<V>(g: Geometry, s: State<V>, s': State<V>, p: nat, q: nat, x: nat, y: nat, d: Entry)
    requires LogOk(g, s) && Erases(s, s', p, q) && Spare(g, s.log, p, q) && x <= y && Harmless(g, s.log, x, y)
    requires d in s'.log && d.Data? && d.page < x && CutFrom(g, s.log, d, y)
    ensures CutFrom(g, s'.log, d, y) || EndedBefore(s'.log, d, x)
  {
    CutsStay(g, s.log, p, q, d, y);
    hide Spare, LogOk, Cuts;
    if k :| k in s'.log && k.page < y && Ends(k, d) {
      assert k in s.log;
    }
  }

  lemma UnlinkedStays<V>(g: Geometry, s: State<V>, s': State<V>, p: nat, q: nat, x: nat, y: nat, d: Entry)
    requires LogOk(g, s) && Erases(s, s', p, q) && Spare(g, s.log, p, q) && x <= y && Harmless(g, s.log, x, y)
    requires d in s'.log && d.Data? && d.page < x && UnlinkedWithin(s.log, d.obj, x, y)
    ensures EndedBefore(s'.log, d, x) || UnlinkedWithin(s'.log, d.obj, x, y)
  {
    DataBase(g, s.log, d);
    hide ChunkBase, LogOk;
    var k :| LastOf(s.log, k, d.obj) && x <= k.page < y && k.gone;
    if Outside(k, p, q) {
      LastStays(s.log, p, q, k);
      assert LastOf(s'.log, k, d.obj);
    } else {
      assert Cuts(g, k, d);
      assert CutWithin(g, s.log, d, p, q);
      assert !CutFrom(g, s.log, d, q) by {
        forall m | m in s.log && q <= m.page ensures !Cuts(g, m, d) {
          assert OfHeader(m, d.obj) ==> m.page <= k.page;
        }
      }
      var n :| n in s.log && n.page < p && Ends(n, d);
      assert OfHeader(n, d.obj);
      assert x <= n.page < y ==> x <= d.page;
      assert n in s'.log;
    }
  }

  lemma SelectedStays<V>(g: Geometry, s: State<V>, s': State<V>, p: nat, q: nat)
    requires LogOk(g, s) && SelectedOk(g, s) && Erases(s, s', p, q) && Spare(g, s.log, p, q)
    ensures SelectedOk(g, s')
  {
    hide LogOk, Harmless, Spare;
    forall x, y | (x, y) in s'.selected ensures x <= y <= s'.next && Harmless(g, s'.log, x, y) {
      HarmlessStays(g, s, s', p, q, x, y);
    }
  }

  lemma ChunksStay<V>(g: Geometry, s: State<V>, s': State<V>, p: nat, q: nat)
    requires LogOk(g, s) && FilesOk(s) && StartsOk(g, s) && UncutOk(g, s) && Erases(s, s', p, q) && Spare(g, s.log, p, q)
    ensures StartsOk(g, s') && UncutOk(g, s')
  {
    StillIn(g, s, s', p, q);
    forall d, m | d in s'.log && m in s'.log && d.Data? && Used(s', d) && InTree(s'.log, d.obj) && d.page < m.page
      ensures !Cuts(g, m, d)
    {
      TreeStays(g, s, s', p, q, d.obj);
      assert Used(s, d);
    }
  }

  lemma StillIn<V>(g: Geometry, s: State<V>, s': State<V>, p: nat, q: nat)
    requires LogOk(g, s) && Erases(s, s', p, q)
    ensures (forall e :: e in s'.log ==> e in s.log) && s'.stored == s.stored && s'.log == Without(s.log, p, q)
    ensures p <= q && Places(g, s.log)
  {
  }

  // ----- Chunks in use -----

  /** A chunk stays in the map while nothing is written for it and no header of its file is. */
  lemma {:induction false} Stays(g: Geometry, log: seq<Entry>, j: nat, n: nat, o: nat, c: nat)
    requires j <= n <= |log| && (o, c) in Forward(g, log, j)
    requires forall k :: j <= k < n ==> !DataOf(log[k], o, c) && !OfHeader(log[k], o)
    ensures (o, c) in Forward(g, log, n) && Forward(g, log, n)[(o, c)] == Forward(g, log, j)[(o, c)]
  {
    hide ChunkBase;
    if j < n { Stays(g, log, j, n - 1, o, c); }
  }

  lemma Newest(log: seq<Entry>, i: nat, n: nat, o: nat, c: nat) returns (j: nat)
    requires i < n <= |log| && DataOf(log[i], o, c)
    ensures i <= j < n && DataOf(log[j], o, c) && forall k :: j < k < n ==> !DataOf(log[k], o, c)
    decreases n
  {
    if DataOf(log[n - 1], o, c) { j := n - 1; } else { j := Newest(log, i, n - 1, o, c); }
  }

  /** The newest page of a chunk that was written after the last header is the one that a mount finds. */
  lemma NewestMounted(g: Geometry, log: seq<Entry>, next: nat, h: Entry, o: nat, c: nat) returns (d: Entry)
    requires RisingPages(log, next) && Places(g, log) && LastOf(log, h, o) && Newer(log, o, c, h.page)
    ensures d in log && DataOf(d, o, c) && h.page < d.page && Get(Mounted(g, log), (o, c)) == Some(d.page)
  {
    hide ChunkBase;
    var e :| e in log && DataOf(e, o, c) && h.page < e.page;
    var i :| 0 <= i < |log| && log[i] == e;
    var j := Newest(log, i, |log|, o, c);
    d := log[j];
    assert d in log;
    DataBase(g, log, d);
    forall k | j < k < |log| ensures !OfHeader(log[k], o) {
      assert log[k] in log;
    }
    Stays(g, log, j + 1, |log|, o, c);
  }

  // ----- What a mount reads -----

  /** The block uncovers no older page of a file in the tree. */
  lemma SpareUncoversNothing<V>(g: Geometry, s: State<V>, p: nat, q: nat, a: seq<Entry>, b: seq<Entry>, c: seq<Entry>, o: nat, ch: nat)
    requires LogOk(g, s) && Spare(g, s.log, p, q) && Splits(s.log, p, q, a, b, c) && InTree(s.log, o)
    requires forall k :: |a| <= k < |a + b| && OfHeader(s.log[k], o) ==> HasHeader(s.log, |a + b|, o)
    ensures !Uncovers(g, s.log, |a|, |a + b|, o, ch)
  {
    hide Spare, Forward;
    if Uncovers(g, s.log, |a|, |a + b|, o, ch) {
      DeadBlock(g, s.log, |a|, |a|, |a + b|, o, ch);
      hide ChunkBase, Chosen, Shrink;
      var k :| |a| <= k < |a + b| && OfHeader(s.log[k], o) && Shrink(s.log, |a|, o) == CutSize(s.log[k]);
      var i := Source(g, s.log, |a|, o, ch);
      assert s.log[k] == b[k - |a|] && s.log[i] == a[i];
      SpareCut(g, s, p, q, a, b, c, i, k, ch);
    }
  }

  lemma SpareCut<V>(g: Geometry, s: State<V>, p: nat, q: nat, a: seq<Entry>, b: seq<Entry>, c: seq<Entry>, i: nat, k: nat, ch: nat)
    requires LogOk(g, s) && Spare(g, s.log, p, q) && Splits(s.log, p, q, a, b, c)
    requires i < |a| <= k < |a + b| && InTree(s.log, s.log[i].obj)
    requires DataOf(s.log[i], s.log[i].obj, ch) && OfHeader(s.log[k], s.log[i].obj) && CutSize(s.log[k]) <= ChunkBase(g, ch)
    requires forall j :: i < j < |a| && OfHeader(s.log[j], s.log[i].obj) ==> ChunkBase(g, ch) < Limit(s.log, j)
    ensures Shrink(s.log, |a + b|, s.log[i].obj) <= ChunkBase(g, ch)
  {
    hide ChunkBase, Without, Shrink, Limit, LogOk, InTree;
    var d, m := s.log[i], s.log[k];
    assert d == a[i] && m == b[k - |a|];
    assert d in a && m in b && d in s.log && m in s.log;
    assert Cuts(g, m, d);
    assert CutWithin(g, s.log, d, p, q);
    if n :| n in s.log && q <= n.page && Cuts(g, n, d) {
      CutLater(g, s, p, q, a, b, c, d, n);
    } else {
      var n :| n in s.log && n.page < p && Ends(n, d);
      EndedEarlier(g, s, p, q, a, b, c, i, n, ch);
    }
  }

  lemma CutLater<V>(g: Geometry, s: State<V>, p: nat, q: nat, a: seq<Entry>, b: seq<Entry>, c: seq<Entry>, d: Entry, n: Entry)
    requires LogOk(g, s) && Splits(s.log, p, q, a, b, c) && p <= q && d in s.log && InTree(s.log, d.obj)
    requires n in s.log && q <= n.page && Cuts(g, n, d)
    ensures Shrink(s.log, |a + b|, d.obj) <= ChunkBase(g, d.chunk)
  {
    DataBase(g, s.log, d);
    hide ChunkBase, Without, Shrink, Limit, LogOk, InTree, Splits;
    assert |a| <= |a + b| <= |s.log| by { SplitLengths(s.log, p, q, a, b, c); }
    var j := IndexAfter(s.log, p, q, a, b, c, n);
    LimitIsCut(g, s, j, d.chunk);
    ShrinkBelow(s.log, |a + b|, j, d.obj);
  }

  lemma EndedEarlier<V>(g: Geometry, s: State<V>, p: nat, q: nat, a: seq<Entry>, b: seq<Entry>, c: seq<Entry>, i: nat, n: Entry, ch: nat)
    requires LogOk(g, s) && Splits(s.log, p, q, a, b, c) && p <= q && i < |a| <= |s.log|
    requires DataOf(s.log[i], s.log[i].obj, ch) && InTree(s.log, s.log[i].obj)
    requires n in s.log && n.page < p && Ends(n, s.log[i])
    ensures exists j :: i < j < |a| && OfHeader(s.log[j], s.log[i].obj) && Limit(s.log, j) <= ChunkBase(g, ch)
  {
    DataBase(g, s.log, s.log[i]);
    hide ChunkBase, Without, Limit, InTree;
    assert n in a by { assert n !in b && n !in c; }
    var j :| 0 <= j < |a| && a[j] == n;
    assert s.log[j] == n;
    LimitIsCut(g, s, j, ch);
  }

  /** A header that cuts a file in the tree cuts it also when it is the last one. */
  lemma LimitIsCut<V>(g: Geometry, s: State<V>, j: nat, ch: nat)
    requires LogOk(g, s) && j < |s.log| && s.log[j].Header? && InTree(s.log, s.log[j].obj)
    requires CutSize(s.log[j]) <= ChunkBase(g, ch) < MAX_FILE_SIZE
    ensures Limit(s.log, j) <= ChunkBase(g, ch)
  {
    hide ChunkBase;
    var m := s.log[j];
    if !HasHeader(s.log, j + 1, m.obj) {
      IndexLast(s.log, s.next, j, m.obj);
      var h :| Linked(s.log, h) && h.obj == m.obj;
      OneLast(s.log, s.next, h, m);
    }
  }

  lemma ShrinkBelow(log: seq<Entry>, i: nat, j: nat, o: nat)
    requires i <= j < |log| && OfHeader(log[j], o)
    ensures Shrink(log, i, o) <= Limit(log, j)
    decreases j - i
  {
    hide Limit;
    if i < j { ShrinkBelow(log, i + 1, j, o); }
  }

  lemma MountStays<V>(g: Geometry, s: State<V>, s': State<V>, p: nat, q: nat, o: nat, ch: nat)
    requires LogOk(g, s) && FilesOk(s) && TnodesOk(g, s) && Erases(s, s', p, q) && Spare(g, s.log, p, q)
    requires InTree(s.log, o) && ((o, ch) in s.tnodes || (o, ch) !in s.ghosts)
    ensures Get(Mounted(g, s'.log), (o, ch)) == Get(Mounted(g, s.log), (o, ch))
  {
    var a, b, c := SplitByPages(s.log, p, q, s.next);
    NoneInUse(g, s, s', p, q, a, b, c, o, ch);
    hide FilesOk, TnodesOk, Erases, Spare, Mounted, LogOk, DeadFor, Uncovers, InTree;
    assert s'.log == a + c by { ErasedIs(s, s', p, q, a, b, c); }
    HeadersDead(g, s.log, |a|, |a + b|, o, ch);
    SpareUncoversNothing(g, s, p, q, a, b, c, o, ch);
    EraseChunkExact(g, a, b, c, o, ch);
  }

  lemma HeadersDead(g: Geometry, log: seq<Entry>, from: nat, end: nat, o: nat, c: nat)
    requires from <= end <= |log| && DeadFor(g, log, from, end, o, c)
    ensures forall k :: from <= k < end && OfHeader(log[k], o) ==> HasHeader(log, end, o)
  {
  }

  lemma ErasedIs<V>(s: State<V>, s': State<V>, p: nat, q: nat, a: seq<Entry>, b: seq<Entry>, c: seq<Entry>)
    requires Erases(s, s', p, q) && Splits(s.log, p, q, a, b, c)
    ensures s'.log == a + c && s.log == a + b + c && |a| <= |a + b| <= |s.log|
  {
  }

  lemma NoneInUse<V>(g: Geometry, s: State<V>, s': State<V>, p: nat, q: nat, a: seq<Entry>, b: seq<Entry>, c: seq<Entry>, o: nat, ch: nat)
    requires LogOk(g, s) && FilesOk(s) && TnodesOk(g, s) && Erases(s, s', p, q) && Splits(s.log, p, q, a, b, c)
    requires InTree(s.log, o) && ((o, ch) in s.tnodes || (o, ch) !in s.ghosts)
    ensures DeadFor(g, s.log, |a|, |a + b|, o, ch)
  {
    hide Mounted, Without, FilesOk, LogOk;
    forall k | |a| <= k < |a + b| ensures s.log[k] in b && s.log[k] in s.log && !Used(s, s.log[k]) {
      assert s.log[k] == b[k - |a|];
    }
    assert Agrees(g, s, o, ch);
    forall k | |a| <= k < |a + b| && OfHeader(s.log[k], o) ensures HasHeader(s.log, |a + b|, o) {
      LaterHeader(g, s, s', p, q, a, b, c, s.log[k]);
    }
  }

  /** A file in the tree that has a header in the block has a later one too. */
  lemma LaterHeader<V>(g: Geometry, s: State<V>, s': State<V>, p: nat, q: nat, a: seq<Entry>, b: seq<Entry>, c: seq<Entry>, k: Entry)
    requires LogOk(g, s) && FilesOk(s) && Erases(s, s', p, q) && Splits(s.log, p, q, a, b, c)
    requires k in b && k in s.log && k.Header? && InTree(s.log, k.obj)
    ensures HasHeader(s.log, |a + b|, k.obj)
  {
    var h :| Linked(s.log, h) && h.obj == k.obj;
    LinkedKnown(s, h);
    hide LogOk, FilesOk, Without;
    assert k.page <= h.page && Outside(h, p, q) && p <= k.page;
    var j := IndexAfter(s.log, p, q, a, b, c, h);
    HasHeaderAt(s.log, |a + b|, j, k.obj);
  }

  lemma TnodesStay<V>(g: Geometry, s: State<V>, s': State<V>, p: nat, q: nat)
    requires LogOk(g, s) && FilesOk(s) && TnodesOk(g, s) && Erases(s, s', p, q) && Spare(g, s.log, p, q)
    ensures TnodesOk(g, s')
  {
    hide LogOk, FilesOk, Spare, InTree, Mounted;
    forall o: nat, c: nat | InTree(s'.log, o) ensures Agrees(g, s', o, c) {
      TreeStays(g, s, s', p, q, o);
      assert Agrees(g, s, o, c);
      if (o, c) in s.tnodes || (o, c) !in s.ghosts { MountStays(g, s, s', p, q, o, c); }
    }
  }

  /** Erasing a harmless block in which nothing is in use keeps everything. */
  lemma EraseKeeps<V>(g: Geometry, s: State<V>, s': State<V>, p: nat, q: nat)
    requires Inv(g, s) && Erases(s, s', p, q) && Harmless(g, s.log, p, q)
    ensures Inv(g, s')
  {
    hide LogOk, FilesOk, TnodesOk, StartsOk, UncutOk, UnlinksOk, SelectedOk, Erases, Harmless, Spare;
    HarmlessIsSpare(g, s, s', p, q);
    LogStays(g, s, s', p, q);
    FilesStay(g, s, s', p, q);
    TnodesStay(g, s, s', p, q);
    ChunksStay(g, s, s', p, q);
    UnlinksStay(g, s, s', p, q);
    SelectedStays(g, s, s', p, q);
  }
}
