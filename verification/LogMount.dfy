/** What a mount makes of the log: the state with which the running file system goes on. */
module LogMount {
  import opened Options
  import opened Arith
  import opened MountScan
  import opened LogCollection
  import opened LogState
  import opened LogErase

  function Objects(log: seq<Entry>): set<nat> {
    set e | e in log :: e.obj
  }

  ghost predicate HasLast(log: seq<Entry>, o: nat) {
    exists h :: LastOf(log, h, o)
  }

  ghost function LastPage(log: seq<Entry>, o: nat): nat
    requires HasLast(log, o)
  {
    var h :| LastOf(log, h, o);
    h.page
  }

  /** A file of which nothing but unlinking headers is left behind the header that deletes it. */
  ghost predicate LeftDeleted(log: seq<Entry>, o: nat) {
    HasLast(log, o) && forall e :: e in log && e.obj == o && !IsGone(e) ==> Ended(log, e)
  }

  /** Files in the unlinked or the deleted directory are still to be deleted; every chunk is where the scan found it. */
  ghost function Restarted<V>(g: Geometry, s: State<V>): State<V> {
    var deleted := set o | o in Objects(s.log) && LeftDeleted(s.log, o);
    var m := Mounted(g, s.log);
    State(
      s.log, s.next, s.contents,
      map k | k in m && k.0 !in deleted :: m[k],
      map o | o in Objects(s.log) && HasLast(s.log, o) :: LastPage(s.log, o),
      map o | o in Objects(s.log) :: SizeAt(g, s.log, 0, o),
      deleted, {}, {})
  }

  // ----- Files -----

  lemma LastPageIs<V>(g: Geometry, s: State<V>, o: nat)
    requires LogOk(g, s) && HasLast(s.log, o)
    ensures exists h :: LastOf(s.log, h, o) && h.page == LastPage(s.log, o)
    ensures o in Objects(s.log)
  {
  }

  /** A file known before has a last header, and so has one that is finished with. */
  lemma AllHaveLast<V>(g: Geometry, s: State<V>, e: Entry)
    requires LogOk(g, s) && HeadersOk(s) && FinishedOk(s) && e in s.log
    ensures HasLast(s.log, e.obj)
  {
    hide Places, Last;
    if e.Header? {
      LastExists(s.log, s.next, e);
    } else if Finished(s, e.obj) {
      var k :| k in s.log && Ends(k, e);
      LastExists(s.log, s.next, k);
    }
  }

  lemma RestartFiles<V>(g: Geometry, s: State<V>, s': State<V>)
    requires LogOk(g, s) && FilesOk(s) && s' == Restarted(g, s)
    ensures MemoryOk(s') && HeadersOk(s') && FinishedOk(s')
  {
    hide MemoryOk, NotEnded, Mounted, Last, RisingPages, Places;
    forall o | HasLast(s.log, o) ensures o in s'.hdr && exists h :: LastOf(s.log, h, o) && h.page == s'.hdr[o] {
      LastPageIs(g, s, o);
    }
    forall e | e in s.log ensures e.obj in s'.hdr { AllHaveLast(g, s, e); }
    assert MemoryOk(s') by { RestartMemory(g, s, s'); }
  }

  lemma RestartMemory<V>(g: Geometry, s: State<V>, s': State<V>)
    requires s'.log == s.log && (forall e :: e in s.log ==> e.obj in s'.hdr)
    requires forall k :: k in s'.tnodes ==> k in Mounted(g, s.log) && k.0 !in s'.deleted && s'.tnodes[k] == Mounted(g, s.log)[k]
    ensures MemoryOk(s')
  {
    hide ChunkBase;
    forall o, c | (o, c) in s'.tnodes ensures o in s'.hdr && o !in s'.deleted && Pointed(s'.log, o, c, s'.tnodes[(o, c)]) {
      ForwardFromEntry(g, s.log, |s.log|, o, c);
      var i :| 0 <= i < |s.log| && IsData(s.log[i], o, c, Mounted(g, s.log)[(o, c)]);
      assert s.log[i] in s.log;
    }
  }

  /** The scan reads nothing that was written before its file was deleted. */
  lemma MountedNotEnded<V>(g: Geometry, s: State<V>, d: Entry)
    requires LogOk(g, s) && d in s.log && d.Data? && Get(Mounted(g, s.log), (d.obj, d.chunk)) == Some(d.page)
    ensures !Ended(s.log, d)
  {
    hide ChunkBase, Forward;
    DataBase(g, s.log, d);
    var i := Source(g, s.log, |s.log|, d.obj, d.chunk);
    assert s.log[i] in s.log;
    OnePage(s.log, s.next, d, s.log[i]);
    forall k | k in s.log ensures !Ends(k, d) {
      var j :| 0 <= j < |s.log| && s.log[j] == k;
      assert Fits(g, k);
      if i < j && OfHeader(k, d.obj) { assert ChunkBase(g, d.chunk) < Limit(s.log, j); }
    }
  }

  lemma RestartNotEnded<V>(g: Geometry, s: State<V>, s': State<V>)
    requires LogOk(g, s) && s' == Restarted(g, s)
    ensures NotEnded(s')
  {
    hide LogOk, Ended, Mounted, Last, LeftDeleted, HasLast;
    forall d | d in s'.log && d.Data? && Used(s', d) ensures !Ended(s'.log, d) {
      MountedNotEnded(g, s, d);
    }
  }

  lemma TreeNotDeleted<V>(s: State<V>, o: nat)
    requires InTree(s.log, o)
    ensures !LeftDeleted(s.log, o)
  {
    var h :| Linked(s.log, h) && h.obj == o;
    assert forall k :: k in s.log && Ends(k, h) ==> OfHeader(k, o);
    assert !Ended(s.log, h);
  }

  // ----- Sizes -----

  predicate EndsBy(g: Geometry, d: Entry, size: int)
    requires d.Data?
  {
    StartOf(g, d.chunk) + d.nBytes <= size
  }

  lemma {:induction false} SizeBounded(g: Geometry, log: seq<Entry>, i: nat, o: nat)
    requires Places(g, log) && i <= |log|
    ensures 0 <= SizeAt(g, log, i, o) <= MAX_FILE_SIZE
    decreases |log| - i
  {
    if i < |log| {
      SizeBounded(g, log, i + 1, o);
      assert log[i] in log;
      assert Fits(g, log[i]);
      if log[i].Data? { BaseExact(g, log[i].chunk, log[i].nBytes); }
      hide ChunkBase;
    }
  }

  /** Behind the last header, the size found is the least that covers all that was written there. */
  lemma {:induction false} SizeCovers(g: Geometry, log: seq<Entry>, i: nat, o: nat, x: int)
    requires Places(g, log) && i <= |log| && !HasHeader(log, i, o)
    ensures forall k :: i <= k < |log| && OfData(log[k], o) ==> EndsBy(g, log[k], SizeAt(g, log, i, o))
    ensures 0 <= x && (forall k :: i <= k < |log| && OfData(log[k], o) ==> EndsBy(g, log[k], x)) ==> SizeAt(g, log, i, o) <= x
    decreases |log| - i
  {
    if i < |log| {
      SizeCovers(g, log, i + 1, o, x);
      assert log[i] in log;
      assert Fits(g, log[i]);
      if log[i].Data? { BaseExact(g, log[i].chunk, log[i].nBytes); }
      hide ChunkBase;
    }
  }

  /** The size that a scan finds is the least that covers the last header and all that was written since. */
  lemma ScannedSize(g: Geometry, log: seq<Entry>, next: nat, h: Entry, x: int)
    requires RisingPages(log, next) && Places(g, log) && Last(log, h)
    ensures h.size <= SizeAt(g, log, 0, h.obj)
    ensures forall d :: d in log && OfData(d, h.obj) && h.page < d.page ==> EndsBy(g, d, SizeAt(g, log, 0, h.obj))
    ensures h.size <= x && (forall d :: d in log && OfData(d, h.obj) && h.page < d.page ==> EndsBy(g, d, x)) ==>
              SizeAt(g, log, 0, h.obj) <= x
  {
    hide EndsBy, SizeAt;
    var found := SizeAt(g, log, 0, h.obj);
    assert Fits(g, h);
    var i := LastIndex(log, next, h);
    SizeFromLastHeader(g, log, 0, i, h.obj);
    SizeCovers(g, log, i + 1, h.obj, x);
    forall k | i + 1 <= k < |log| && OfData(log[k], h.obj) ensures log[k] in log && h.page < log[k].page {
    }
    forall d | d in log && OfData(d, h.obj) && h.page < d.page ensures EndsBy(g, d, found) {
      var k :| 0 <= k < |log| && log[k] == d;
      EndsLater(g, d, SizeAt(g, log, i + 1, h.obj), found);
    }
  }

  lemma EndsLater(g: Geometry, d: Entry, size: int, found: int)
    requires d.Data? && size <= found
    ensures EndsBy(g, d, size) ==> EndsBy(g, d, found)
  {
  }

  /** Where memory and a mount agree on a file, the size found reaches into no chunk beyond the stored size and the one in
      the last header. */
  lemma FoundWithin<V>(g: Geometry, s: State<V>, h: Entry, c: nat)
    requires LogOk(g, s) && TnodesOk(g, s) && StartsOk(g, s) && Linked(s.log, h) && (forall k :: (h.obj, k) !in s.ghosts)
    requires c > 0 && StartOf(g, c) < SizeAt(g, s.log, 0, h.obj)
    ensures StartOf(g, c) < Max(Sizes(s.stored)(h.obj), h.size)
  {
    LogMeans(g, s);
    ScannedSize(g, s.log, s.next, h, StartOf(g, c));
    hide Mounted, SizeAt, LogOk, RisingPages, StoredOk;
    if h.size <= StartOf(g, c) {
      var d :| d in s.log && OfData(d, h.obj) && h.page < d.page && !EndsBy(g, d, StartOf(g, c));
      assert Newer(s.log, h.obj, d.chunk, h.page) by { assert DataOf(d, h.obj, d.chunk); }
      var e := NewestMounted(g, s.log, s.next, h, h.obj, d.chunk);
      assert InTree(s.log, h.obj) && Agrees(g, s, h.obj, d.chunk);
      ReachesInto(g, d, c);
    }
  }

  lemma ReachesInto(g: Geometry, d: Entry, c: nat)
    requires d.Data? && Fits(g, d) && c > 0 && !EndsBy(g, d, StartOf(g, c))
    ensures StartOf(g, c) <= StartOf(g, d.chunk)
  {
    var m := g.bytesPerChunk;
    if d.chunk < c {
      OneMore(d.chunk - 1, m);
      Multiples(d.chunk, c - 1, m);
    } else {
      Multiples(c - 1, d.chunk - 1, m);
    }
  }

  // ----- Chunks -----

  lemma RestartTnodes<V>(g: Geometry, s: State<V>, s': State<V>)
    requires s' == Restarted(g, s)
    ensures TnodesOk(g, s')
  {
    hide Mounted, InTree, LeftDeleted, HasLast;
    forall o: nat, c: nat | InTree(s'.log, o) ensures Agrees(g, s', o, c) {
      TreeNotDeleted(s, o);
    }
  }

  lemma RestartStarts<V>(g: Geometry, s: State<V>, s': State<V>)
    requires LogOk(g, s) && FilesOk(s) && s' == Restarted(g, s)
    ensures StartsOk(g, s')
  {
    hide FilesOk, LogOk, Mounted, LeftDeleted, HasLast, StartOf, SizeAt;
    forall o, c | (o, c) in s'.tnodes ensures StartOf(g, c) < Sizes(s'.stored)(o) {
      FoundStarts(g, s, o, c);
    }
  }

  lemma FoundStarts<V>(g: Geometry, s: State<V>, o: nat, c: nat)
    requires LogOk(g, s) && FilesOk(s) && (o, c) in Mounted(g, s.log)
    ensures o in Objects(s.log) && StartOf(g, c) < SizeAt(g, s.log, 0, o)
  {
    LogMeans(g, s);
    hide MemoryOk, NotEnded, Forward, SizeAt, Last, LogOk, StartOf, ChunkBase, StoredOk, RisingPages;
    MountedExact(g, s.log, |s.log|, o, c);
    var i := Source(g, s.log, |s.log|, o, c);
    assert s.log[i] in s.log;
    AllHaveLast(g, s, s.log[i]);
    var h :| LastOf(s.log, h, o);
    MountedSince(g, s.log, s.next, h, c);
    ScannedSize(g, s.log, s.next, h, 0);
    if Newer(s.log, o, c, h.page) {
      var e :| e in s.log && DataOf(e, o, c) && h.page < e.page;
      assert OfData(e, o) && Fits(g, e) && EndsBy(g, e, SizeAt(g, s.log, 0, o));
    }
  }

  lemma RestartUncut<V>(g: Geometry, s: State<V>, s': State<V>)
    requires LogOk(g, s) && s' == Restarted(g, s)
    ensures UncutOk(g, s')
  {
    LogMeans(g, s);
    hide LogOk, Mounted, LeftDeleted, HasLast, SizeAt, RisingPages, Places, StoredOk;
    forall d, m | d in s'.log && m in s'.log && d.Data? && Used(s', d) && InTree(s'.log, d.obj) && d.page < m.page
      ensures !Cuts(g, m, d)
    {
      if OfHeader(m, d.obj) {
        var h :| Linked(s.log, h) && h.obj == d.obj;
        if Last(s.log, m) { OneLast(s.log, s.next, h, m); }
        MountedNotCut(g, s.log, s.next, d, m);
      }
    }
  }

  lemma RestartLog<V>(g: Geometry, s: State<V>, s': State<V>)
    requires LogOk(g, s) && UnlinksOk(g, s) && s' == Restarted(g, s)
    ensures LogOk(g, s') && BlocksSafe(g, s')
  {
    hide Mounted, LeftDeleted, HasLast, RisingPages, Places, UnlinkOk;
    LogMeans(g, s);
    forall o | o in s'.stored ensures 0 <= s'.stored[o] <= MAX_FILE_SIZE { SizeBounded(g, s.log, 0, o); }
  }

  /** The running file system can go on from what a mount finds. */
  lemma RestartKeeps<V>(g: Geometry, s: State<V>)
    requires Inv(g, s)
    ensures Inv(g, Restarted(g, s))
  {
    hide LogOk, MemoryOk, HeadersOk, FinishedOk, NotEnded, TnodesOk, StartsOk, UncutOk, UnlinksOk, SelectedOk, Restarted;
    var s' := Restarted(g, s);
    RestartLog(g, s, s');
    RestartFiles(g, s, s');
    RestartNotEnded(g, s, s');
    RestartTnodes(g, s, s');
    RestartStarts(g, s, s');
    RestartUncut(g, s, s');
  }

  // ----- Where the pages are -----

  /** The same log with every page somewhere else. */
  ghost predicate Placed(log: seq<Entry>, placed: seq<Entry>, place: nat -> nat) {
    |placed| == |log| && forall i :: 0 <= i < |log| ==> placed[i] == log[i].(page := place(log[i].page))
  }

  function At(place: nat -> nat, p: Option<nat>): Option<nat> {
    match p
    case None => None
    case Some(q) => Some(place(q))
  }

  lemma {:induction false} PlacedHeaders(log: seq<Entry>, placed: seq<Entry>, place: nat -> nat, i: nat, o: nat)
    requires Placed(log, placed, place) && i <= |log|
    ensures HasHeader(placed, i, o) == HasHeader(log, i, o)
    decreases |log| - i
  {
    if i < |log| { PlacedHeaders(log, placed, place, i + 1, o); }
  }

  /** A scan finds the same chunks there. */
  lemma {:induction false} PlacedForward(g: Geometry, log: seq<Entry>, placed: seq<Entry>, place: nat -> nat, n: nat, o: nat, c: nat)
    requires Placed(log, placed, place) && n <= |log|
    ensures Get(Forward(g, placed, n), (o, c)) == At(place, Get(Forward(g, log, n), (o, c)))
  {
    hide ChunkBase;
    if n > 0 {
      PlacedForward(g, log, placed, place, n - 1, o, c);
      PlacedHeaders(log, placed, place, n, log[n - 1].obj);
    }
  }

  lemma {:induction false} PlacedSize(g: Geometry, log: seq<Entry>, placed: seq<Entry>, place: nat -> nat, i: nat, o: nat)
    requires Placed(log, placed, place) && i <= |log|
    ensures SizeAt(g, placed, i, o) == SizeAt(g, log, i, o)
    decreases |log| - i
  {
    hide ChunkBase;
    if i < |log| {
      PlacedSize(g, log, placed, place, i + 1, o);
      PlacedHeaders(log, placed, place, i + 1, o);
    }
  }

  lemma {:induction false} NoSize(g: Geometry, log: seq<Entry>, i: nat, o: nat)
    requires i <= |log| && o !in Objects(log)
    ensures SizeAt(g, log, i, o) == 0
    decreases |log| - i
  {
    if i < |log| {
      NoSize(g, log, i + 1, o);
      assert log[i] in log;
    }
  }
}
