/** The rule for holes: when chunks reach the log without a gap, or behind a hole marker, no chunk is ever stale, and no
    header of a file in the tree brings anything back. */
module LogHoles {
  import opened Options
  import opened Arith
  import opened MountScan
  import opened LogCollection
  import opened LogState
  import opened LogAppend
  import opened LogErase
  import opened LogMount

  /** No chunk is left out between the stored size and the chunk being written. */
  predicate NoGap(g: Geometry, stored: int, c: nat) {
    c == 1 || (c > 1 && StartOf(g, c - 1) < stored)
  }

  /** The stored size does not grow over a page that only the last header hides. */
  ghost predicate Careful<V>(g: Geometry, s: State<V>, s': State<V>, e: Entry)
    requires e.Data?
  {
    var size, size' := Sizes(s.stored)(e.obj), Sizes(s'.stored)(e.obj);
    size' == size || Sealed(g, s, e.obj) || (NoGap(g, size, e.chunk) && size' <= Max(size, StartOf(g, e.chunk) + e.nBytes))
  }

  // ----- What keeps chunks from being stale -----

  /** Only the chunk being written starts between the stored size and the end of what is written. */
  lemma BeyondStored(g: Geometry, d: Entry, stored: int, e: Entry)
    requires d.Data? && e.Data? && Fits(g, d) && Fits(g, e) && NoGap(g, stored, e.chunk)
    requires stored <= ChunkBase(g, d.chunk) < Max(stored, StartOf(g, e.chunk) + e.nBytes)
    ensures d.chunk == e.chunk
  {
    BaseExact(g, d.chunk, d.nBytes);
    hide ChunkBase;
    var m := g.bytesPerChunk;
    if d.chunk > e.chunk {
      Multiples(e.chunk, d.chunk - 1, m);
      OneMore(e.chunk - 1, m);
    } else if d.chunk < e.chunk {
      Multiples(d.chunk - 1, e.chunk - 2, m);
    }
  }

  lemma NewerPersists(log: seq<Entry>, e: Entry, o: nat, c: nat, p: nat)
    ensures Newer(log, o, c, p) ==> Newer(log + [e], o, c, p)
    ensures DataOf(e, o, c) && p < e.page ==> Newer(log + [e], o, c, p)
  {
    assert e in log + [e] && forall k :: k in log ==> k in log + [e];
  }

  /** Something stale was stale before, unless the stored size has just grown over it. */
  lemma StaleBefore<V>(g: Geometry, s: State<V>, s': State<V>, e: Entry, h: Entry, d: Entry, c: nat)
    requires LogOk(g, s) && Appends(g, s, s', e) && Linked(s.log, h) && Linked(s'.log, h) && StalePage(g, s', h, d, c)
    ensures d in s.log && d.page < h.page < e.page && !CutFrom(g, s.log, d, d.page) && !DataOf(e, h.obj, c)
    ensures ChunkBase(g, c) < Sizes(s.stored)(h.obj) ==> Stale(g, s, h.obj, c)
  {
    LogAfterOnly(g, s, s', e);
    CutsPersist(g, s.log, e, d, d.page);
    NewerPersists(s.log, e, h.obj, c, h.page);
    hide LogOk, Newer, CutFrom, ChunkBase, Fits;
    if ChunkBase(g, c) < Sizes(s.stored)(h.obj) { assert StalePage(g, s, h, d, c); }
  }

  lemma NoStaleAfterData<V>(g: Geometry, s: State<V>, s': State<V>, e: Entry)
    requires LogOk(g, s) && NoStale(g, s) && Appends(g, s, s', e) && DataAdds(g, s, s', e)
    requires InTree(s.log, e.obj) ==> Careful(g, s, s', e)
    ensures NoStale(g, s')
  {
    hide LogOk, ChunkBase, NoGap, Sealed, Appends, DataAdds, StalePage;
    forall o: nat, c: nat | Stale(g, s', o, c) ensures (o, c) in s'.ghosts {
      var h, d :| Linked(s'.log, h) && h.obj == o && StalePage(g, s', h, d, c);
      NoStaleData(g, s, s', e, h, d, c);
    }
  }

  lemma NoStaleData<V>(g: Geometry, s: State<V>, s': State<V>, e: Entry, h: Entry, d: Entry, c: nat)
    requires LogOk(g, s) && NoStale(g, s) && Appends(g, s, s', e) && DataAdds(g, s, s', e)
    requires InTree(s.log, e.obj) ==> Careful(g, s, s', e)
    requires Linked(s'.log, h) && StalePage(g, s', h, d, c)
    ensures (h.obj, c) in s'.ghosts
  {
    hide LogOk, Last, ChunkBase, NoGap, StartOf, Stale, CutFrom, Newer;
    LinkedBefore(g, s, s', e, h);
    StaleBefore(g, s, s', e, h, d, c);
    if ChunkBase(g, c) >= Sizes(s.stored)(h.obj) {
      assert h.obj == e.obj && OfData(d, h.obj) && !Sealed(g, s, e.obj);
      PlaceOf(g, s, d);
      BeyondStored(g, d, Sizes(s.stored)(h.obj), e);
    }
  }

  lemma NoStaleAfterHeader<V>(g: Geometry, s: State<V>, s': State<V>, e: Entry)
    requires LogOk(g, s) && NoStale(g, s) && Appends(g, s, s', e) && HeaderAdds(g, s, s', e)
    ensures NoStale(g, s')
  {
    hide LogOk, ChunkBase, CutFrom, Newer, Fits;
    forall o: nat, c: nat | Stale(g, s', o, c) ensures (o, c) in s'.ghosts {
      var h, d :| Linked(s'.log, h) && h.obj == o && StalePage(g, s', h, d, c);
      LinkedBefore(g, s, s', e, h);
      if o != e.obj { StaleBefore(g, s, s', e, h, d, c); }
    }
  }

  /** Erasing a block takes away only pages that something newer stands for, or of which a ghost is left. */
  lemma NoStaleAfterErase<V>(g: Geometry, s: State<V>, s': State<V>, p: nat, q: nat)
    requires LogOk(g, s) && FilesOk(s) && TnodesOk(g, s) && NoStale(g, s) && Erases(s, s', p, q) && Spare(g, s.log, p, q)
    ensures NoStale(g, s')
  {
    StillIn(g, s, s', p, q);
    hide LogOk, FilesOk, TnodesOk, Spare, ChunkBase, Erases, StalePage;
    forall o: nat, c: nat | Stale(g, s', o, c) ensures (o, c) in s'.ghosts {
      var h, d :| Linked(s'.log, h) && h.obj == o && StalePage(g, s', h, d, c);
      LinkedStays(g, s, s', p, q, h);
      NoStaleErase(g, s, s', p, q, h, d, c);
    }
  }

  lemma NoStaleErase<V>(g: Geometry, s: State<V>, s': State<V>, p: nat, q: nat, h: Entry, d: Entry, c: nat)
    requires LogOk(g, s) && TnodesOk(g, s) && NoStale(g, s) && Erases(s, s', p, q) && Spare(g, s.log, p, q)
    requires Linked(s.log, h) && StalePage(g, s', h, d, c)
    ensures (h.obj, c) in s'.ghosts
  {
    StillIn(g, s, s', p, q);
    if CutFrom(g, s.log, d, d.page) { StaysCut(g, s.log, p, q, d); }
    if (h.obj, c) !in s.ghosts {
      if Newer(s.log, h.obj, c, h.page) { NewerStays(g, s, s', p, q, h, c); }
      StaleThen(g, s, s', h, d, c);
    }
  }

  lemma StaleThen<V>(g: Geometry, s: State<V>, s': State<V>, h: Entry, d: Entry, c: nat)
    requires Linked(s.log, h) && StalePage(g, s', h, d, c) && s'.stored == s.stored && d in s.log
    requires !Newer(s.log, h.obj, c, h.page) && !CutFrom(g, s.log, d, d.page)
    ensures Stale(g, s, h.obj, c)
  {
    hide ChunkBase, CutFrom, Newer;
    assert StalePage(g, s, h, d, c);
  }

  lemma NewerStays<V>(g: Geometry, s: State<V>, s': State<V>, p: nat, q: nat, h: Entry, c: nat)
    requires LogOk(g, s) && TnodesOk(g, s) && Erases(s, s', p, q) && (h.obj, c) !in s.ghosts
    requires Linked(s.log, h) && Newer(s.log, h.obj, c, h.page)
    ensures Newer(s'.log, h.obj, c, h.page)
  {
    hide ChunkBase, Mounted;
    var d := NewestMounted(g, s.log, s.next, h, h.obj, c);
    assert InTree(s.log, h.obj) && Agrees(g, s, h.obj, c);
    assert Used(s, d);
    assert d in s'.log;
  }

  /** A mount with no ghosts about finds a size that makes nothing stale. */
  lemma NoStaleAfterRestart<V>(g: Geometry, s: State<V>)
    requires Inv(g, s) && NoStale(g, s) && forall k :: k in s.ghosts ==> !InTree(s.log, k.0)
    ensures NoStale(g, Restarted(g, s))
  {
    var s' := Restarted(g, s);
    hide Inv, ChunkBase, CutFrom, Newer, Mounted, LeftDeleted, HasLast, SizeAt;
    forall o: nat, c: nat ensures !Stale(g, s', o, c) {
      if Stale(g, s', o, c) {
        var h, d :| Linked(s'.log, h) && h.obj == o && StalePage(g, s', h, d, c);
        assert InTree(s.log, o) && o in Objects(s.log);
        StillStale(g, s, h, d, c, Sizes(s'.stored)(o));
      }
    }
  }

  lemma StillStale<V>(g: Geometry, s: State<V>, h: Entry, d: Entry, c: nat, found: int)
    requires Inv(g, s) && Linked(s.log, h) && (forall k :: (h.obj, k) !in s.ghosts)
    requires found == SizeAt(g, s.log, 0, h.obj) && d in s.log && DataOf(d, h.obj, c) && d.page < h.page
    requires h.size <= ChunkBase(g, c) < found && !Newer(s.log, h.obj, c, h.page) && !CutFrom(g, s.log, d, d.page)
    ensures Stale(g, s, h.obj, c)
  {
    hide FilesOk, BlocksSafe, UncutOk, TnodesOk, StartsOk, CutFrom, Newer, SizeAt, ChunkBase;
    assert Fits(g, d);
    DataBase(g, s.log, d);
    FoundWithin(g, s, h, c);
    assert StalePage(g, s, h, d, c);
  }

  // ----- What a header does then -----

  /** Where no chunk is stale, a header that records the stored size or less, or any size of a sealed file, brings nothing
      back and loses nothing. */
  lemma NothingHidden<V>(g: Geometry, s: State<V>, i: nat, size: int, c: nat)
    requires LogOk(g, s) && i < |s.log| && Linked(s.log, s.log[i]) && LastHeader(s.log, i, s.log[i].obj)
    requires !Stale(g, s, s.log[i].obj, c) && (size <= Sizes(s.stored)(s.log[i].obj) || Sealed(g, s, s.log[i].obj))
    ensures !Resurfaces(g, s.log, i, size, c) && !Vanishes(g, s.log, i, size, c)
  {
    var h, o := s.log[i], s.log[i].obj;
    LogMeans(g, s);
    assert Fits(g, h);
    hide Forward, Rewritten, LogOk, Stale, RisingPages, StoredOk, HasHeader, ChunkBase, CutFrom;
    StaleResurfaces(g, s, i, c);
    if Resurfaces(g, s.log, i, size, c) {
      var j := Source(g, s.log, i, o, c);
      assert s.log[j] in s.log && OfData(s.log[j], o);
      SourceNotCut(g, s, i, j, c);
    }
  }

  /** So the stored size fits the last header of a file in the tree at any moment. */
  lemma StoredFits<V>(g: Geometry, s: State<V>, i: nat)
    requires Inv(g, s) && NoStale(g, s) && i < |s.log| && Linked(s.log, s.log[i]) && LastHeader(s.log, i, s.log[i].obj)
    requires forall c :: (s.log[i].obj, c) !in s.ghosts
    ensures SizeFits(g, s.log, i, Sizes(s.stored)(s.log[i].obj))
  {
    var o := s.log[i].obj;
    hide LogOk, FilesOk, TnodesOk, StartsOk, UncutOk, BlocksSafe, Resurfaces, Vanishes, Stale, Mounted, HasHeader, ChunkBase;
    forall c ensures !Resurfaces(g, s.log, i, Sizes(s.stored)(o), c) && !Vanishes(g, s.log, i, Sizes(s.stored)(o), c) {
      NothingHidden(g, s, i, Sizes(s.stored)(o), c);
    }
    forall c | (o, c) in Mounted(g, s.log) ensures ChunkBase(g, c) < Sizes(s.stored)(o) {
      CoveredByStored(g, s, o, c);
    }
  }

  lemma CoveredByStored<V>(g: Geometry, s: State<V>, o: nat, c: nat)
    requires LogOk(g, s) && TnodesOk(g, s) && StartsOk(g, s) && InTree(s.log, o) && (o, c) !in s.ghosts && (o, c) in Mounted(g, s.log)
    ensures ChunkBase(g, c) < Sizes(s.stored)(o)
  {
    LogMeans(g, s);
    hide LogOk, Forward, ChunkBase, StartOf, InTree, RisingPages;
    MountedExact(g, s.log, |s.log|, o, c);
    assert Agrees(g, s, o, c);
  }

  // ----- Sealed files -----

  /** After a marker every page beyond the stored size is cut off for good. */
  lemma SealedByMarker<V>(g: Geometry, s: State<V>, s': State<V>, e: Entry)
    requires LogOk(g, s) && Appends(g, s, s', e) && e.Header? && e.isShrink && !e.gone && e.size == Sizes(s'.stored)(e.obj)
    ensures Sealed(g, s', e.obj)
  {
    LogAfterOnly(g, s, s', e);
    hide ChunkBase, LogOk, Fits;
    forall d | d in s'.log && OfData(d, e.obj) && Sizes(s'.stored)(e.obj) <= ChunkBase(g, d.chunk) ensures CutFrom(g, s'.log, d, d.page) {
      assert Cuts(g, e, d);
    }
  }

  /** It stays so when anything is written and the stored size does not shrink. */
  lemma SealedAfter<V>(g: Geometry, s: State<V>, s': State<V>, e: Entry, o: nat)
    requires LogOk(g, s) && Sealed(g, s, o) && Appends(g, s, s', e) && Sizes(s.stored)(o) <= Sizes(s'.stored)(o)
    requires OfData(e, o) ==> StartOf(g, e.chunk) < Sizes(s'.stored)(o)
    ensures Sealed(g, s', o)
  {
    LogAfterOnly(g, s, s', e);
    if e.Data? { BaseExact(g, e.chunk, e.nBytes); }
    hide ChunkBase, LogOk, Cuts, StartOf, Fits;
    forall d | d in s'.log && OfData(d, o) && Sizes(s'.stored)(o) <= ChunkBase(g, d.chunk) ensures CutFrom(g, s'.log, d, d.page) {
      CutsPersist(g, s.log, e, d, d.page);
    }
  }

  lemma SealedAfterErase<V>(g: Geometry, s: State<V>, s': State<V>, p: nat, q: nat, o: nat)
    requires LogOk(g, s) && Sealed(g, s, o) && Erases(s, s', p, q) && Spare(g, s.log, p, q)
    ensures Sealed(g, s', o)
  {
    StillIn(g, s, s', p, q);
    hide ChunkBase, LogOk, CutFrom, Spare, Erases;
    forall d | d in s'.log && OfData(d, o) && Sizes(s'.stored)(o) <= ChunkBase(g, d.chunk) ensures CutFrom(g, s'.log, d, d.page) {
      StaysCut(g, s.log, p, q, d);
    }
  }
}
