/** What writing a page keeps of what holds between operations. */
module LogAppend {
  import opened Options
  import opened Arith
  import opened MountScan
  import opened LogCollection
  import opened LogState

  ghost predicate Appends<V>(g: Geometry, s: State<V>, s': State<V>, e: Entry) {
    && s'.log == s.log + [e] && s'.next == s.next + 1 && e.page == s.next && Fits(g, e)
    && s'.selected == s.selected
    && (forall x :: x != e.obj ==> Sizes(s'.stored)(x) == Sizes(s.stored)(x) && (x in s'.deleted <==> x in s.deleted))
    && (forall x, c :: x != e.obj ==> Get(s'.tnodes, (x, c)) == Get(s.tnodes, (x, c)))
    && (forall x :: x != e.obj ==> Get(s'.hdr, x) == Get(s.hdr, x))
    && (forall x, c :: x != e.obj ==> ((x, c) in s'.ghosts <==> (x, c) in s.ghosts))
  }

  // ----- The log -----

  lemma LogAfter<V>(g: Geometry, s: State<V>, s': State<V>, e: Entry)
    requires LogOk(g, s) && Appends(g, s, s', e) && StoredOk(s'.stored)
    ensures LogOk(g, s')
    ensures forall k :: k in s'.log <==> k in s.log || k == e
    ensures forall k :: k in s.log ==> k.page < e.page
  {
    hide Fits, Get;
  }

  lemma LastAfter<V>(g: Geometry, s: State<V>, s': State<V>, e: Entry, h: Entry)
    requires LogOk(g, s) && Appends(g, s, s', e)
    ensures Last(s'.log, h) <==> if OfHeader(e, h.obj) then h == e else Last(s.log, h)
  {
    hide Fits, Get;
    assert e in s'.log;
    assert forall k :: k in s'.log <==> k in s.log || k == e;
  }

  lemma TreeAfter<V>(g: Geometry, s: State<V>, s': State<V>, e: Entry, o: nat)
    requires LogOk(g, s) && Appends(g, s, s', e)
    ensures InTree(s'.log, o) <==> if OfHeader(e, o) then !e.gone else InTree(s.log, o)
  {
    hide LogOk, Appends, Last;
    if InTree(s'.log, o) {
      var h :| Linked(s'.log, h) && h.obj == o;
      LastAfter(g, s, s', e, h);
      assert !OfHeader(e, o) ==> Linked(s.log, h);
    }
    if InTree(s.log, o) {
      var h :| Linked(s.log, h) && h.obj == o;
      LastAfter(g, s, s', e, h);
      assert !OfHeader(e, o) ==> Linked(s'.log, h);
    }
    if OfHeader(e, o) {
      LastAfter(g, s, s', e, e);
      assert !e.gone ==> Linked(s'.log, e);
    }
  }

  lemma CutsPersist(g: Geometry, log: seq<Entry>, e: Entry, d: Entry, p: nat)
    ensures CutFrom(g, log, d, p) ==> CutFrom(g, log + [e], d, p)
    ensures e.page >= p && Cuts(g, e, d) ==> CutFrom(g, log + [e], d, p)
    ensures Ended(log, d) ==> Ended(log + [e], d)
    ensures EndedBefore(log, d, p) ==> EndedBefore(log + [e], d, p)
  {
    hide Cuts, Ends;
    var log' := log + [e];
    assert e in log' && forall k :: k in log ==> k in log';
  }

  lemma EndedAfter(log: seq<Entry>, e: Entry, d: Entry)
    ensures Ended(log + [e], d) ==> Ended(log, d) || Ends(e, d)
  {
    hide Ends;
    assert forall k :: k in log + [e] <==> k in log || k == e;
  }

  // ----- Files -----

  /** Memory keeps only what it had, besides the page written. */
  ghost predicate OnlyAdds<V>(s: State<V>, s': State<V>, e: Entry) {
    && (forall c :: (e.obj, c) in s'.tnodes ==>
          || ((e.obj, c) in s.tnodes && s'.tnodes[(e.obj, c)] == s.tnodes[(e.obj, c)])
          || (e.Data? && e.chunk == c && s'.tnodes[(e.obj, c)] == e.page))
    && Get(s'.hdr, e.obj) == (if e.Header? then Some(e.page) else Get(s.hdr, e.obj))
    && e.obj in s'.hdr
    && ((exists c :: (e.obj, c) in s'.tnodes) ==> e.obj !in s'.deleted)
  }

  lemma MemoryAfter<V>(g: Geometry, s: State<V>, s': State<V>, e: Entry)
    requires MemoryOk(s) && Appends(g, s, s', e) && OnlyAdds(s, s', e)
    ensures MemoryOk(s')
  {
    forall o, c | (o, c) in s'.tnodes
      ensures o in s'.hdr && o !in s'.deleted && Pointed(s'.log, o, c, s'.tnodes[(o, c)])
    {
      assert Get(s'.hdr, o) == Get(s.hdr, o) || o == e.obj;
      assert o != e.obj ==> Get(s'.tnodes, (o, c)) == Get(s.tnodes, (o, c));
      if e.Data? && (o, c) == (e.obj, e.chunk) && s'.tnodes[(o, c)] == e.page {
        assert e in s'.log && IsData(e, o, c, e.page);
      } else {
        assert Pointed(s.log, o, c, s'.tnodes[(o, c)]);
        var k :| k in s.log && IsData(k, o, c, s'.tnodes[(o, c)]);
        assert k in s'.log;
      }
    }
  }

  lemma HeadersAfterAppend<V>(g: Geometry, s: State<V>, s': State<V>, e: Entry)
    requires LogOk(g, s) && HeadersOk(s) && Appends(g, s, s', e) && OnlyAdds(s, s', e)
    ensures HeadersOk(s')
  {
    hide LogOk, Fits, Last;
    forall o | o in s'.deleted ensures o in s'.hdr {
      assert o != e.obj ==> o in s.deleted && Get(s'.hdr, o) == Get(s.hdr, o);
    }
    forall o | o in s'.hdr ensures exists h :: LastOf(s'.log, h, o) && h.page == s'.hdr[o] {
      if OfHeader(e, o) {
        LastAfter(g, s, s', e, e);
        assert LastOf(s'.log, e, o);
      } else {
        assert Get(s'.hdr, o) == Get(s.hdr, o);
        var h :| LastOf(s.log, h, o) && h.page == s.hdr[o];
        LastAfter(g, s, s', e, h);
        assert LastOf(s'.log, h, o);
      }
    }
  }

  /** A file is finished with when the header that deletes it is written, and not before. */
  lemma FinishedAfter<V>(g: Geometry, s: State<V>, s': State<V>, e: Entry)
    requires LogOk(g, s) && FinishedOk(s) && Appends(g, s, s', e) && OnlyAdds(s, s', e)
    requires e.obj in s'.deleted ==> (e.obj in s.deleted && IsGone(e)) || (e.Header? && e.gone && e.isShrink)
    ensures FinishedOk(s')
  {
    LogAfterOnly(g, s, s', e);
    forall k | k in s'.log && Finished(s', k.obj) && !IsGone(k) ensures Ended(s'.log, k) {
      CutsPersist(g, s.log, e, k, 0);
      assert Get(s'.hdr, k.obj) == Get(s.hdr, k.obj) || k.obj == e.obj;
      if k.obj == e.obj && e.Header? && e.gone && e.isShrink {
        assert Ends(e, k);
      } else {
        assert Finished(s, k.obj) && k in s.log;
      }
    }
  }

  lemma LogAfterOnly<V>(g: Geometry, s: State<V>, s': State<V>, e: Entry)
    requires LogOk(g, s) && Appends(g, s, s', e)
    ensures e in s'.log && forall k :: k in s'.log <==> k in s.log || k == e
    ensures forall k :: k in s.log ==> k.page < e.page
  {
    hide Fits, Get;
  }

  lemma NotEndedAfter<V>(g: Geometry, s: State<V>, s': State<V>, e: Entry)
    requires LogOk(g, s) && NotEnded(s) && Appends(g, s, s', e) && OnlyAdds(s, s', e)
    requires e.Header? && e.gone && e.isShrink ==> forall c :: (e.obj, c) !in s'.tnodes
    ensures NotEnded(s')
  {
    LogAfterOnly(g, s, s', e);
    forall d | d in s'.log && d.Data? && Used(s', d) ensures !Ended(s'.log, d) {
      if d == e {
        assert forall k :: k in s'.log ==> !Ends(k, d);
      } else {
        assert Get(s'.tnodes, (d.obj, d.chunk)) == Get(s.tnodes, (d.obj, d.chunk));
        EndedAfter(s.log, e, d);
      }
    }
  }

  lemma FilesAfterAppend<V>(g: Geometry, s: State<V>, s': State<V>, e: Entry)
    requires LogOk(g, s) && FilesOk(s) && Appends(g, s, s', e) && OnlyAdds(s, s', e)
    requires e.obj in s'.deleted ==> (e.obj in s.deleted && IsGone(e)) || (e.Header? && e.gone && e.isShrink)
    requires e.Header? && e.gone && e.isShrink ==> forall c :: (e.obj, c) !in s'.tnodes
    ensures FilesOk(s')
  {
    hide LogOk, MemoryOk, HeadersOk, FinishedOk, NotEnded, Appends, OnlyAdds;
    MemoryAfter(g, s, s', e);
    HeadersAfterAppend(g, s, s', e);
    FinishedAfter(g, s, s', e);
    NotEndedAfter(g, s, s', e);
  }

  // ----- Unlinking headers and admitted blocks -----

  /** A file whose last header unlinks it gets no other header but from a new file with its number. */
  ghost predicate NoRelink<V>(s: State<V>, e: Entry) {
    e.Header? && !e.gone ==> InTree(s.log, e.obj) || e.obj !in s.hdr
  }

  /** An older page of an unlinked file stays cut off when another header follows the one that unlinks it. */
  lemma UnlinkedBefore<V>(g: Geometry, s: State<V>, s': State<V>, e: Entry, d: Entry, k: Entry)
    requires LogOk(g, s) && FinishedOk(s) && Appends(g, s, s', e) && NoRelink(s, e)
    requires d in s.log && d.Data? && Last(s.log, k) && k.gone && k.obj == d.obj && OfHeader(e, d.obj)
    ensures CutFrom(g, s'.log, d, e.page) || exists x :: x in s.log && x.page <= k.page && Ends(x, d)
  {
    DataBase(g, s.log, d);
    CutsPersist(g, s.log, e, d, e.page);
    hide ChunkBase, Appends;
    if e.gone {
      assert Cuts(g, e, d);
    } else {
      if InTree(s.log, e.obj) {
        var h :| Linked(s.log, h) && h.obj == e.obj;
        OneLast(s.log, s.next, h, k);
      }
      assert Finished(s, d.obj) && !IsGone(d);
      var x :| x in s.log && Ends(x, d);
      assert OfHeader(x, k.obj);
    }
  }

  lemma UnlinksAfter<V>(g: Geometry, s: State<V>, s': State<V>, e: Entry)
    requires LogOk(g, s) && FinishedOk(s) && UnlinksOk(g, s) && Appends(g, s, s', e) && NoRelink(s, e)
    ensures UnlinksOk(g, s')
  {
    LogAfterOnly(g, s, s', e);
    hide LogOk, FinishedOk, NoRelink, Last, CutFrom, EndedBefore;
    forall d, k | d in s'.log && k in s'.log && d.Data? && IsGone(k) && !k.isShrink && k.obj == d.obj && d.page < k.page
      ensures UnlinkOk(g, s'.log, d, k)
    {
      LastAfter(g, s, s', e, k);
      if k != e {
        UnlinkAfter(g, s, s', e, d, k);
      }
    }
  }

  lemma UnlinkAfter<V>(g: Geometry, s: State<V>, s': State<V>, e: Entry, d: Entry, k: Entry)
    requires LogOk(g, s) && FinishedOk(s) && Appends(g, s, s', e) && NoRelink(s, e)
    requires d in s.log && k in s.log && d.Data? && IsGone(k) && !k.isShrink && k.obj == d.obj && d.page < k.page
    requires UnlinkOk(g, s.log, d, k)
    ensures UnlinkOk(g, s'.log, d, k)
  {
    LogAfterOnly(g, s, s', e);
    CutsPersist(g, s.log, e, d, k.page + 1);
    CutsPersist(g, s.log, e, d, k.page);
    LastAfter(g, s, s', e, k);
    if Last(s.log, k) && OfHeader(e, d.obj) {
      UnlinkedBefore(g, s, s', e, d, k);
      Weaken(g, s'.log, d, k.page + 1, e.page);
      if x :| x in s.log && x.page <= k.page && Ends(x, d) {
        OnePageIf(s.log, s.next, x, k);
        assert EndedBefore(s.log, d, k.page);
      }
    }
  }

  lemma OnePageIf(log: seq<Entry>, next: nat, x: Entry, k: Entry)
    requires RisingPages(log, next) && x in log && k in log
    ensures x != k ==> x.page != k.page
  {
    if x.page == k.page { OnePage(log, next, x, k); }
  }

  lemma Weaken(g: Geometry, log: seq<Entry>, d: Entry, p: nat, q: nat)
    requires p <= q
    ensures CutFrom(g, log, d, q) ==> CutFrom(g, log, d, p)
  {
    hide Cuts;
  }

  lemma HarmlessAfter<V>(g: Geometry, s: State<V>, s': State<V>, e: Entry, p: nat, q: nat)
    requires LogOk(g, s) && FinishedOk(s) && Appends(g, s, s', e) && NoRelink(s, e)
    requires p <= q <= s.next && Harmless(g, s.log, p, q)
    ensures Harmless(g, s'.log, p, q)
  {
    LogAfterOnly(g, s, s', e);
    hide FinishedOk, NoRelink, Cuts, LogOk, Fits;
    forall d | d in s'.log && d.Data? && d.page < p && CutWithin(g, s'.log, d, p, q)
      ensures CutFrom(g, s'.log, d, q) || EndedBefore(s'.log, d, p) || UnlinkedWithin(s'.log, d.obj, p, q)
    {
      assert CutWithin(g, s.log, d, p, q);
      CutsPersist(g, s.log, e, d, q);
      CutsPersist(g, s.log, e, d, p);
      if k :| LastOf(s.log, k, d.obj) && p <= k.page < q && k.gone {
        UnlinkedWithinAfter(g, s, s', e, d, k, p, q);
      }
    }
    forall k, x | k in s'.log && x in s'.log && p <= k.page < q && Ends(k, x) ensures p <= x.page {
    }
  }

  lemma UnlinkedWithinAfter<V>(g: Geometry, s: State<V>, s': State<V>, e: Entry, d: Entry, k: Entry, p: nat, q: nat)
    requires LogOk(g, s) && FinishedOk(s) && Appends(g, s, s', e) && NoRelink(s, e)
    requires p <= q <= s.next && Harmless(g, s.log, p, q)
    requires d in s.log && d.Data? && d.page < p && LastOf(s.log, k, d.obj) && p <= k.page < q && k.gone
    ensures CutFrom(g, s'.log, d, q) || EndedBefore(s'.log, d, p) || UnlinkedWithin(s'.log, d.obj, p, q)
  {
    LastAfter(g, s, s', e, k);
    CutsPersist(g, s.log, e, d, p);
    if OfHeader(e, d.obj) {
      UnlinkedBefore(g, s, s', e, d, k);
      Weaken(g, s'.log, d, q, e.page);
      if x :| x in s.log && x.page <= k.page && Ends(x, d) {
        assert p <= x.page ==> p <= d.page;
        assert EndedBefore(s.log, d, p);
      }
    } else {
      assert LastOf(s'.log, k, d.obj);
    }
  }

  lemma SelectedAfter<V>(g: Geometry, s: State<V>, s': State<V>, e: Entry)
    requires LogOk(g, s) && FinishedOk(s) && SelectedOk(g, s) && Appends(g, s, s', e) && NoRelink(s, e)
    ensures SelectedOk(g, s')
  {
    hide LogOk, FinishedOk, NoRelink, Harmless;
    forall p, q | (p, q) in s'.selected ensures p <= q <= s'.next && Harmless(g, s'.log, p, q) {
      HarmlessAfter(g, s, s', e, p, q);
    }
  }

  /** No older page comes into use. */
  lemma OtherUsed<V>(g: Geometry, s: State<V>, s': State<V>, e: Entry, o: nat)
    requires LogOk(g, s) && Appends(g, s, s', e) && (o == e.obj ==> OnlyAdds(s, s', e))
    ensures forall d :: d in s.log && OfData(d, o) && Used(s', d) ==> Used(s, d)
  {
    LogAfterOnly(g, s, s', e);
    forall d | d in s.log && OfData(d, o) && Used(s', d) ensures Used(s, d) {
      assert o != e.obj ==> Get(s'.tnodes, (o, d.chunk)) == Get(s.tnodes, (o, d.chunk));
    }
  }

  lemma LinkedBefore<V>(g: Geometry, s: State<V>, s': State<V>, e: Entry, h: Entry)
    requires LogOk(g, s) && Appends(g, s, s', e) && Linked(s'.log, h)
    ensures if h.obj == e.obj && e.Header? then h == e else Linked(s.log, h)
    ensures InTree(s'.log, h.obj)
    ensures InTree(s.log, h.obj) || h == e
  {
    hide LogOk, Appends, Last;
    LastAfter(g, s, s', e, h);
  }

  lemma PlaceOf<V>(g: Geometry, s: State<V>, d: Entry)
    requires LogOk(g, s) && d in s.log
    ensures Fits(g, d)
  {
  }

  // ----- A data page -----

  /** A data page for a file that is not finished with, at any place in it. */
  ghost predicate DataAdds<V>(g: Geometry, s: State<V>, s': State<V>, e: Entry) {
    && e.Data? && e.obj in s.hdr && e.obj !in s.deleted && s'.hdr == s.hdr && s'.deleted == s.deleted
    && s'.tnodes == s.tnodes[(e.obj, e.chunk) := e.page] && s'.ghosts == s.ghosts - {(e.obj, e.chunk)}
    && Sizes(s.stored)(e.obj) <= Sizes(s'.stored)(e.obj) && StartOf(g, e.chunk) < Sizes(s'.stored)(e.obj)
  }

  lemma TnodesAfterData<V>(g: Geometry, s: State<V>, s': State<V>, e: Entry)
    requires LogOk(g, s) && TnodesOk(g, s) && Appends(g, s, s', e) && DataAdds(g, s, s', e)
    ensures TnodesOk(g, s')
  {
    BaseExact(g, e.chunk, e.nBytes);
    WriteData(g, s.log, e.obj, e.chunk, e.nBytes, e.page);
    hide LogOk, ChunkBase, Mounted, InTree;
    forall o, c | InTree(s'.log, o) ensures Agrees(g, s', o, c) {
      TreeAfter(g, s, s', e, o);
      assert Agrees(g, s, o, c);
    }
  }

  lemma StartsAfterData<V>(g: Geometry, s: State<V>, s': State<V>, e: Entry)
    requires StartsOk(g, s) && Appends(g, s, s', e) && DataAdds(g, s, s', e)
    ensures StartsOk(g, s')
  {
    hide StartOf, Fits;
  }

  lemma UncutAfterData<V>(g: Geometry, s: State<V>, s': State<V>, e: Entry)
    requires LogOk(g, s) && UncutOk(g, s) && Appends(g, s, s', e) && DataAdds(g, s, s', e)
    ensures UncutOk(g, s')
  {
    LogAfterOnly(g, s, s', e);
    hide LogOk, InTree, Fits, ChunkBase;
    forall d, m | d in s'.log && m in s'.log && d.Data? && Used(s', d) && InTree(s'.log, d.obj) && d.page < m.page
      ensures !Cuts(g, m, d)
    {
      TreeAfter(g, s, s', e, d.obj);
      if d != e { OtherUsed(g, s, s', e, d.obj); }
    }
  }

  // ----- A header -----

  /** A header writes down the stored size of a file, unless it takes it out of the tree. Ghosts beyond that size are
      gone, and chunks stale by then are ghosts from then on. A new file has neither chunks nor ghosts. */
  ghost predicate HeaderAdds<V>(g: Geometry, s: State<V>, s': State<V>, e: Entry) {
    var o, size, size' := e.obj, Sizes(s.stored)(e.obj), Sizes(s'.stored)(e.obj);
    && e.Header? && NoRelink(s, e) && OnlyAdds(s, s', e)
    && (e.gone ==> size' == size)
    && (!e.gone ==>
          && e.size == size'
          && (o in s.hdr ==>
                && size' == size && (forall c :: Get(s'.tnodes, (o, c)) == Get(s.tnodes, (o, c)))
                && forall c: nat :: (o, c) in s'.ghosts <==> Stale(g, s, o, c) || ((o, c) in s.ghosts && StartOf(g, c) < size))
          && (o !in s.hdr ==> size' == 0 && forall c :: (o, c) !in s'.tnodes && (o, c) !in s'.ghosts))
  }

  lemma StartsAfterHeader<V>(g: Geometry, s: State<V>, s': State<V>, e: Entry)
    requires StartsOk(g, s) && Appends(g, s, s', e) && HeaderAdds(g, s, s', e)
    ensures StartsOk(g, s')
  {
    hide StartOf, Fits, InTree, Stale;
    forall o, c | (o, c) in s'.tnodes ensures StartOf(g, c) < Sizes(s'.stored)(o) {
      assert o != e.obj ==> Get(s'.tnodes, (o, c)) == Get(s.tnodes, (o, c));
    }
  }

  lemma UncutAfterHeader<V>(g: Geometry, s: State<V>, s': State<V>, e: Entry)
    requires LogOk(g, s) && StartsOk(g, s) && UncutOk(g, s) && Appends(g, s, s', e) && HeaderAdds(g, s, s', e)
    ensures UncutOk(g, s')
  {
    LogAfterOnly(g, s, s', e);
    hide LogOk, InTree, Fits, ChunkBase, StartOf, Stale;
    forall d, m | d in s'.log && m in s'.log && d.Data? && Used(s', d) && InTree(s'.log, d.obj) && d.page < m.page
      ensures !Cuts(g, m, d)
    {
      TreeAfter(g, s, s', e, d.obj);
      OtherUsed(g, s, s', e, d.obj);
      if m == e && e.obj == d.obj {
        LogMeans(g, s);
        DataBase(g, s.log, d);
        assert (d.obj, d.chunk) in s'.tnodes;
        UncutByNew(g, s, s', e, d);
      }
    }
  }

  lemma UncutByNew<V>(g: Geometry, s: State<V>, s': State<V>, e: Entry, d: Entry)
    requires StartsOk(g, s) && Appends(g, s, s', e) && HeaderAdds(g, s, s', e) && !e.gone
    requires OfData(d, e.obj) && Used(s', d) && 0 <= ChunkBase(g, d.chunk) == StartOf(g, d.chunk) < MAX_FILE_SIZE
    ensures !Cuts(g, e, d)
  {
    hide ChunkBase, StartOf, InTree, Stale, Fits;
    assert (e.obj, d.chunk) in s'.tnodes;
    if e.obj in s.hdr {
      assert Get(s'.tnodes, (e.obj, d.chunk)) == Get(s.tnodes, (e.obj, d.chunk));
    }
  }

  // ----- What a header means to a mount -----

  lemma AppendHeaders(log: seq<Entry>, e: Entry, i: nat, o: nat)
    requires i <= |log|
    ensures HasHeader(log + [e], i, o) <==> HasHeader(log, i, o) || OfHeader(e, o)
  {
    var log' := log + [e];
    assert forall k :: 0 <= k < |log| ==> log'[k] == log[k];
    HasHeaderSplit(log', i, |log|, o);
    HasHeaderSplit(log, i, |log|, o);
    assert HasHeader(log', |log|, o) == OfHeader(e, o);
  }

  /** A header means nothing to other files. */
  lemma OtherMounted(g: Geometry, log: seq<Entry>, e: Entry, o: nat, c: nat)
    requires e.Header? && e.obj != o
    ensures Get(Mounted(g, log + [e]), (o, c)) == Get(Mounted(g, log), (o, c))
  {
    var log' := log + [e];
    assert log'[..|log|] == log[..|log|];
    forall i | 0 <= i < |log| && log'[i].Header? && log'[i].obj == o ensures HasHeader(log', i + 1, o) == HasHeader(log, i + 1, o) {
      AppendHeaders(log, e, i + 1, o);
    }
    PrefixForwardOf(g, log', log, |log|, o, c);
    hide ChunkBase;
  }

  lemma IsRewritten(log: seq<Entry>, next: nat, i: nat, c: nat)
    requires RisingPages(log, next) && i < |log|
    ensures Newer(log, log[i].obj, c, log[i].page) <==> Rewritten(log, i + 1, |log|, log[i].obj, c)
  {
    var o := log[i].obj;
    if Newer(log, o, c, log[i].page) {
      var e :| e in log && DataOf(e, o, c) && log[i].page < e.page;
      var j :| 0 <= j < |log| && log[j] == e;
      assert i < j;
    }
    if k :| i + 1 <= k < |log| && DataOf(log[k], o, c) { assert log[k] in log; }
  }

  /** What is there just before the last header is cut off by no header in between. */
  lemma SourceNotCut<V>(g: Geometry, s: State<V>, i: nat, j: nat, c: nat)
    requires LogOk(g, s) && j < i < |s.log| && Linked(s.log, s.log[i]) && DataOf(s.log[j], s.log[i].obj, c)
    requires forall k :: j < k < i && OfHeader(s.log[k], s.log[i].obj) ==> ChunkBase(g, c) < Limit(s.log, k)
    requires ChunkBase(g, c) < CutSize(s.log[i])
    ensures !CutFrom(g, s.log, s.log[j], s.log[j].page)
  {
    hide ChunkBase;
    var d, o := s.log[j], s.log[i].obj;
    forall m | m in s.log && d.page <= m.page ensures !Cuts(g, m, d) {
      var k :| 0 <= k < |s.log| && s.log[k] == m;
      if OfHeader(m, o) {
        assert k <= i && j < k;
        if k < i { HasHeaderAt(s.log, k + 1, i, o); }
      }
    }
  }

  /** A page that is not cut off for good is found again just before the last header, or a newer one of the chunk is. */
  lemma {:induction false} StillFound<V>(g: Geometry, s: State<V>, j: nat, n: nat, i: nat, o: nat, c: nat)
    requires LogOk(g, s) && j < n <= i < |s.log| && LastHeader(s.log, i, o) && DataOf(s.log[j], o, c)
    requires !CutFrom(g, s.log, s.log[j], s.log[j].page) && ChunkBase(g, c) < MAX_FILE_SIZE
    ensures (o, c) in Forward(g, s.log, n)
  {
    hide ChunkBase;
    if j + 1 < n {
      StillFound(g, s, j, n - 1, i, o, c);
      var m := s.log[n - 1];
      assert m in s.log && s.log[j].page <= m.page && !Cuts(g, m, s.log[j]);
      if OfHeader(m, o) { HasHeaderAt(s.log, n, i, o); }
    }
  }

  lemma StaleIsBack<V>(g: Geometry, s: State<V>, i: nat, c: nat)
    requires LogOk(g, s) && i < |s.log| && Linked(s.log, s.log[i]) && LastHeader(s.log, i, s.log[i].obj)
    requires Stale(g, s, s.log[i].obj, c)
    ensures Resurfaces(g, s.log, i, Sizes(s.stored)(s.log[i].obj), c)
  {
    var h, o := s.log[i], s.log[i].obj;
    LogMeans(g, s);
    var k, d :| Linked(s.log, k) && k.obj == o && StalePage(g, s, k, d, c);
    OneLast(s.log, s.next, h, k);
    IsRewritten(s.log, s.next, i, c);
    DataBase(g, s.log, d);
    var j :| 0 <= j < |s.log| && s.log[j] == d;
    hide ChunkBase, Forward, Rewritten, Places, LogOk, HasHeader, StoredOk;
    assert h in s.log && d.page <= h.page && !Cuts(g, h, d);
    assert j < i;
    StillFound(g, s, j, i, i, o, c);
  }

  lemma BackIsStale<V>(g: Geometry, s: State<V>, i: nat, c: nat)
    requires LogOk(g, s) && i < |s.log| && Linked(s.log, s.log[i]) && Resurfaces(g, s.log, i, Sizes(s.stored)(s.log[i].obj), c)
    ensures Stale(g, s, s.log[i].obj, c)
  {
    var h, o := s.log[i], s.log[i].obj;
    LogMeans(g, s);
    IsRewritten(s.log, s.next, i, c);
    hide ChunkBase, Forward, Rewritten, LogOk, Newer, CutFrom, StoredOk, Last;
    var j := Source(g, s.log, i, o, c);
    assert s.log[j] in s.log;
    SourceNotCut(g, s, i, j, c);
    assert StalePage(g, s, h, s.log[j], c);
  }

  /** The chunks that a header with the stored size brings back are just the stale ones, and it loses none. */
  lemma StaleResurfaces<V>(g: Geometry, s: State<V>, i: nat, c: nat)
    requires LogOk(g, s) && i < |s.log| && Linked(s.log, s.log[i]) && LastHeader(s.log, i, s.log[i].obj)
    ensures Resurfaces(g, s.log, i, Sizes(s.stored)(s.log[i].obj), c) <==> Stale(g, s, s.log[i].obj, c)
    ensures !Vanishes(g, s.log, i, Sizes(s.stored)(s.log[i].obj), c)
  {
    LogMeans(g, s);
    assert Fits(g, s.log[i]);
    hide ChunkBase, Forward, Rewritten, LogOk, Places, RisingPages, StoredOk, Stale, Last, HasHeader;
    if Stale(g, s, s.log[i].obj, c) { StaleIsBack(g, s, i, c); }
    if Resurfaces(g, s.log, i, Sizes(s.stored)(s.log[i].obj), c) { BackIsStale(g, s, i, c); }
  }

  /** A stale chunk is not there for a mount before that. */
  lemma StaleHidden<V>(g: Geometry, s: State<V>, o: nat, c: nat)
    requires LogOk(g, s) && Stale(g, s, o, c)
    ensures (o, c) !in Mounted(g, s.log)
  {
    LogMeans(g, s);
    hide ChunkBase, Mounted, CutFrom, LogOk, RisingPages;
    var h, d :| Linked(s.log, h) && h.obj == o && StalePage(g, s, h, d, c);
    if (o, c) in Mounted(g, s.log) { MountedSince(g, s.log, s.next, h, c); }
  }

  /** A header with the stored size of a file in the tree cuts what a mount reads of it to that size, but for stale chunks,
      which come back. */
  lemma OwnMounted<V>(g: Geometry, s: State<V>, e: Entry, c: nat)
    requires LogOk(g, s) && e.Header? && InTree(s.log, e.obj) && e.size == Sizes(s.stored)(e.obj)
    ensures var found := Get(Mounted(g, s.log + [e]), (e.obj, c));
            if Stale(g, s, e.obj, c) then found.Some?
            else found == if StartOf(g, c) < e.size then Get(Mounted(g, s.log), (e.obj, c)) else None
  {
    hide ChunkBase, Forward, Resurfaces, Vanishes, LogOk, StartOf, Stale;
    LogMeans(g, s);
    var h :| Linked(s.log, h) && h.obj == e.obj;
    var i := LastIndex(s.log, s.next, h);
    StaleResurfaces(g, s, i, c);
    WriteHeader(g, s.log, i, e, e.obj, c);
    if (e.obj, c) in Mounted(g, s.log) { MountedExact(g, s.log, |s.log|, e.obj, c); }
    if Resurfaces(g, s.log, i, e.size, c) { BackIsThere(g, s, i, e.size, c); }
  }

  lemma BackIsThere<V>(g: Geometry, s: State<V>, i: nat, size: int, c: nat)
    requires i < |s.log| && s.log[i].Header? && Resurfaces(g, s.log, i, size, c)
    ensures Get(Forward(g, s.log, i), (s.log[i].obj, c)).Some?
  {
  }

  /** A header with the stored size changes nothing that a mount reads, as long as the file has no ghosts, if and only if
      no chunk of the file is stale. */
  lemma HeaderExact<V>(g: Geometry, s: State<V>, e: Entry)
    requires LogOk(g, s) && TnodesOk(g, s) && StartsOk(g, s)
    requires e.Header? && InTree(s.log, e.obj) && e.size == Sizes(s.stored)(e.obj) && forall c :: (e.obj, c) !in s.ghosts
    ensures Mounted(g, s.log + [e]) == Mounted(g, s.log) <==> forall c: nat :: !Stale(g, s, e.obj, c)
  {
    var before, after := Mounted(g, s.log), Mounted(g, s.log + [e]);
    forall o, c ensures Get(after, (o, c)) == Get(before, (o, c)) <==> !(o == e.obj && Stale(g, s, o, c)) {
      if o != e.obj {
        OtherMounted(g, s.log, e, o, c);
      } else {
        HeaderExactAt(g, s, e, c);
      }
    }
    hide Mounted, Stale, InTree, LogOk, TnodesOk, StartsOk;
    if forall c: nat :: !Stale(g, s, e.obj, c) { SameLookups(after, before); }
  }

  lemma HeaderExactAt<V>(g: Geometry, s: State<V>, e: Entry, c: nat)
    requires LogOk(g, s) && TnodesOk(g, s) && StartsOk(g, s)
    requires e.Header? && InTree(s.log, e.obj) && e.size == Sizes(s.stored)(e.obj) && (e.obj, c) !in s.ghosts
    ensures Get(Mounted(g, s.log + [e]), (e.obj, c)) == Get(Mounted(g, s.log), (e.obj, c)) <==> !Stale(g, s, e.obj, c)
  {
    hide Mounted, Stale, InTree, LogOk, StartOf;
    OwnMounted(g, s, e, c);
    assert Agrees(g, s, e.obj, c);
    if Stale(g, s, e.obj, c) { StaleHidden(g, s, e.obj, c); }
  }

  /** The first header of a new file: nothing of an older file with its number is left. */
  lemma NewMounted<V>(g: Geometry, s: State<V>, e: Entry, c: nat)
    requires Places(g, s.log) && e.Header? && e.size == 0 && Fits(g, e)
    ensures Get(Mounted(g, s.log + [e]), (e.obj, c)) == None
  {
    hide ChunkBase;
    var log' := s.log + [e];
    assert e in log' && forall k :: k in log' ==> k in s.log || k == e;
    if (e.obj, c) in Forward(g, log', |s.log|) { MountedExact(g, log', |s.log|, e.obj, c); }
  }

  lemma TnodesAfterHeader<V>(g: Geometry, s: State<V>, s': State<V>, e: Entry)
    requires LogOk(g, s) && TnodesOk(g, s) && StartsOk(g, s) && Appends(g, s, s', e) && HeaderAdds(g, s, s', e)
    ensures TnodesOk(g, s')
  {
    forall o, c | InTree(s'.log, o) ensures Agrees(g, s', o, c) {
      TreeAfter(g, s, s', e, o);
      if o == e.obj {
        OwnAgrees(g, s, s', e, c);
      } else {
        OtherAgrees(g, s, s', e, o, c);
      }
    }
  }

  lemma OtherAgrees<V>(g: Geometry, s: State<V>, s': State<V>, e: Entry, o: nat, c: nat)
    requires TnodesOk(g, s) && Appends(g, s, s', e) && e.Header? && o != e.obj && InTree(s.log, o)
    ensures Agrees(g, s', o, c)
  {
    hide Mounted, InTree, Fits;
    OtherMounted(g, s.log, e, o, c);
    assert Agrees(g, s, o, c) && Get(s'.tnodes, (o, c)) == Get(s.tnodes, (o, c));
  }

  lemma OwnAgrees<V>(g: Geometry, s: State<V>, s': State<V>, e: Entry, c: nat)
    requires LogOk(g, s) && TnodesOk(g, s) && StartsOk(g, s) && Appends(g, s, s', e) && HeaderAdds(g, s, s', e) && !e.gone
    ensures Agrees(g, s', e.obj, c)
  {
    LogMeans(g, s);
    hide Mounted, InTree, LogOk, StartOf, Stale, Fits;
    if e.obj in s.hdr {
      OwnMounted(g, s, e, c);
      assert Agrees(g, s, e.obj, c) && Get(s'.tnodes, (e.obj, c)) == Get(s.tnodes, (e.obj, c));
      if Stale(g, s, e.obj, c) { StaleHidden(g, s, e.obj, c); }
    } else {
      NewMounted(g, s, e, c);
    }
  }

  // ----- Everything -----

  lemma DataIsNoHeader<V>(g: Geometry, s: State<V>, s': State<V>, e: Entry)
    requires DataAdds(g, s, s', e)
    ensures e.Data? && NoRelink(s, e) && OnlyAdds(s, s', e) && e.obj !in s'.deleted
  {
  }

  /** Writing a data page keeps everything, wherever in its file the chunk is. */
  lemma DataKeeps<V>(g: Geometry, s: State<V>, s': State<V>, e: Entry)
    requires Inv(g, s) && Appends(g, s, s', e) && DataAdds(g, s, s', e) && StoredOk(s'.stored)
    ensures Inv(g, s')
  {
    hide LogOk, TnodesOk, StartsOk, UncutOk, UnlinksOk, SelectedOk, Appends, DataAdds, StoredOk, OnlyAdds, NoRelink,
      MemoryOk, HeadersOk, FinishedOk, NotEnded;
    DataIsNoHeader(g, s, s', e);
    LogAfter(g, s, s', e);
    FilesAfterAppend(g, s, s', e);
    TnodesAfterData(g, s, s', e);
    StartsAfterData(g, s, s', e);
    UncutAfterData(g, s, s', e);
    UnlinksAfter(g, s, s', e);
    SelectedAfter(g, s, s', e);
  }

  lemma HeaderIsOne<V>(g: Geometry, s: State<V>, s': State<V>, e: Entry)
    requires HeaderAdds(g, s, s', e)
    ensures e.Header? && NoRelink(s, e) && OnlyAdds(s, s', e)
  {
  }

  /** Writing a header keeps everything. */
  lemma HeaderKeeps<V>(g: Geometry, s: State<V>, s': State<V>, e: Entry)
    requires Inv(g, s) && e.Header? && Appends(g, s, s', e) && HeaderAdds(g, s, s', e) && StoredOk(s'.stored)
    requires e.obj in s'.deleted ==> e.gone && (e.obj in s.deleted || e.isShrink)
    requires e.gone && e.isShrink ==> forall c :: (e.obj, c) !in s'.tnodes
    ensures Inv(g, s')
  {
    hide LogOk, TnodesOk, StartsOk, UncutOk, UnlinksOk, SelectedOk, Appends, HeaderAdds, StoredOk, OnlyAdds, NoRelink,
      MemoryOk, HeadersOk, FinishedOk, NotEnded;
    HeaderIsOne(g, s, s', e);
    LogAfter(g, s, s', e);
    FilesAfterAppend(g, s, s', e);
    TnodesAfterHeader(g, s, s', e);
    StartsAfterHeader(g, s, s', e);
    UncutAfterHeader(g, s, s', e);
    UnlinksAfter(g, s, s', e);
    SelectedAfter(g, s, s', e);
  }
}
