/** The state of the running file system beside its log of tags, and what holds of the two between operations. */
module LogState {
  import opened Options
  import opened Arith
  import opened MountScan
  import opened LogCollection

  /** The log, the next page to be written and what the pages hold; in memory, the page of every chunk and the header of
      every file that is not finished with, their stored sizes, the files in the deleted directory and the blocks admitted
      to collection, as ranges of pages. The ghosts are the chunks that memory does not have and that a mount may bring
      back all the same. */
  datatype State<V> = State(
    log: seq<Entry>, next: nat, contents: map<nat, V>,
    tnodes: map<(nat, nat), nat>, hdr: map<nat, nat>, stored: map<nat, int>, deleted: set<nat>,
    selected: set<(nat, nat)>, ghosts: set<(nat, nat)>)

  function Sizes(stored: map<nat, int>): nat -> int {
    (o: nat) => if o in stored then stored[o] else 0
  }

  /** Where a chunk starts in its file. */
  function StartOf(g: Geometry, c: nat): int {
    (c - 1) * g.bytesPerChunk
  }

  // ----- Entries -----

  predicate OfData(e: Entry, o: nat) { e.Data? && e.obj == o }
  predicate IsGone(e: Entry) { e.Header? && e.gone }

  predicate Fits(g: Geometry, e: Entry) {
    match e
    case Data(_, c, n, _) => c > 0 && 0 < n <= g.bytesPerChunk && StartOf(g, c) + n <= MAX_FILE_SIZE
    case Header(_, size, isShrink, gone, _) => 0 <= size <= MAX_FILE_SIZE && (isShrink && gone ==> size == 0)
  }

  /** The header m cuts off what the page d holds. */
  predicate Cuts(g: Geometry, m: Entry, d: Entry) {
    m.Header? && d.Data? && m.obj == d.obj && CutSize(m) <= ChunkBase(g, d.chunk)
  }

  ghost predicate CutFrom(g: Geometry, log: seq<Entry>, d: Entry, p: nat) {
    exists m :: m in log && p <= m.page && Cuts(g, m, d)
  }

  ghost predicate CutWithin(g: Geometry, log: seq<Entry>, d: Entry, p: nat, q: nat) {
    exists m :: m in log && p <= m.page < q && Cuts(g, m, d)
  }

  /** The header k deletes the file that the older entry e belongs to. */
  predicate Ends(k: Entry, e: Entry) {
    k.Header? && k.gone && k.isShrink && k.obj == e.obj && e.page < k.page
  }

  ghost predicate Ended(log: seq<Entry>, e: Entry) {
    exists k :: k in log && Ends(k, e)
  }

  ghost predicate EndedBefore(log: seq<Entry>, e: Entry, p: nat) {
    exists k :: k in log && k.page < p && Ends(k, e)
  }

  /** The last header of its file. */
  ghost predicate Last(log: seq<Entry>, h: Entry) {
    h in log && h.Header? && forall k :: k in log && OfHeader(k, h.obj) ==> k.page <= h.page
  }

  ghost predicate LastOf(log: seq<Entry>, h: Entry, o: nat) {
    Last(log, h) && h.obj == o
  }

  /** The last header of a file that has not been unlinked. */
  ghost predicate Linked(log: seq<Entry>, h: Entry) {
    Last(log, h) && !h.gone
  }

  ghost predicate InTree(log: seq<Entry>, o: nat) {
    exists h :: Linked(log, h) && h.obj == o
  }

  /** The last header of the file is in the block, and unlinks it. */
  ghost predicate UnlinkedWithin(log: seq<Entry>, o: nat, p: nat, q: nat) {
    exists k :: LastOf(log, k, o) && p <= k.page < q && k.gone
  }

  /** A page of the chunk that is newer than p. */
  ghost predicate Newer(log: seq<Entry>, o: nat, c: nat, p: nat) {
    exists e :: e in log && DataOf(e, o, c) && p < e.page
  }

  /** Whether the page of an entry is in use: as the page of a chunk, or as the header of a file. */
  predicate Used<V>(s: State<V>, e: Entry) {
    match e
    case Data(o, c, _, p) => Get(s.tnodes, (o, c)) == Some(p)
    case Header(o, _, _, _, p) => Get(s.hdr, o) == Some(p)
  }

  // ----- What holds between operations -----

  ghost predicate RisingPages(log: seq<Entry>, next: nat) {
    && (forall i, j :: 0 <= i < j < |log| ==> log[i].page < log[j].page)
    && forall e :: e in log ==> e.page < next
  }

  ghost predicate Places(g: Geometry, log: seq<Entry>) {
    forall e :: e in log ==> Fits(g, e)
  }

  ghost predicate StoredOk(stored: map<nat, int>) {
    forall o :: o in stored ==> 0 <= stored[o] <= MAX_FILE_SIZE
  }

  ghost predicate Pointed(log: seq<Entry>, o: nat, c: nat, p: nat) {
    exists e :: e in log && IsData(e, o, c, p)
  }

  /** Memory speaks of files that exist, and of pages that were written for them. */
  ghost predicate MemoryOk<V>(s: State<V>) {
    forall o, c :: (o, c) in s.tnodes ==> o in s.hdr && o !in s.deleted && Pointed(s.log, o, c, s.tnodes[(o, c)])
  }

  ghost predicate HeadersOk<V>(s: State<V>) {
    && (forall o :: o in s.deleted ==> o in s.hdr)
    && forall o :: o in s.hdr ==> exists h :: LastOf(s.log, h, o) && h.page == s.hdr[o]
  }

  predicate Finished<V>(s: State<V>, o: nat) {
    o !in s.hdr || o in s.deleted
  }

  /** Of a file that is finished with, nothing but unlinking headers is left behind the header that deletes it. */
  ghost predicate FinishedOk<V>(s: State<V>) {
    forall e :: e in s.log && Finished(s, e.obj) && !IsGone(e) ==> Ended(s.log, e)
  }

  /** No page in use is older than the deletion of another file with the same number. */
  ghost predicate NotEnded<V>(s: State<V>) {
    forall d :: d in s.log && d.Data? && Used(s, d) ==> !Ended(s.log, d)
  }

  /** What a mount would find of a chunk is what memory has, or memory has nothing and it is a ghost. */
  ghost predicate Agrees<V>(g: Geometry, s: State<V>, o: nat, c: nat) {
    var found := Get(Mounted(g, s.log), (o, c));
    if (o, c) in s.tnodes then found == Some(s.tnodes[(o, c)]) else found.Some? ==> (o, c) in s.ghosts
  }

  ghost predicate TnodesOk<V>(g: Geometry, s: State<V>) {
    forall o, c :: InTree(s.log, o) ==> Agrees(g, s, o, c)
  }

  /** Every chunk that memory has starts below the stored size. */
  ghost predicate StartsOk<V>(g: Geometry, s: State<V>) {
    forall o, c :: (o, c) in s.tnodes ==> StartOf(g, c) < Sizes(s.stored)(o)
  }

  /** No later header cuts off a page in use of a file in the tree. */
  ghost predicate UncutOk<V>(g: Geometry, s: State<V>) {
    forall d, m :: d in s.log && m in s.log && d.Data? && Used(s, d) && InTree(s.log, d.obj) && d.page < m.page ==> !Cuts(g, m, d)
  }

  /** The header that unlinks a file is not all that cuts off an older page of it, unless it is the last one. */
  ghost predicate UnlinkOk(g: Geometry, log: seq<Entry>, d: Entry, k: Entry) {
    Last(log, k) || CutFrom(g, log, d, k.page + 1) || EndedBefore(log, d, k.page)
  }

  ghost predicate UnlinksOk<V>(g: Geometry, s: State<V>) {
    forall d, k :: d in s.log && k in s.log && d.Data? && IsGone(k) && !k.isShrink && k.obj == d.obj && d.page < k.page ==>
                     UnlinkOk(g, s.log, d, k)
  }

  /** Erasing the block once nothing in it is in use brings no older page back: its headers are not all that cuts off an
      older page, and it deletes no file of which anything older is left. */
  ghost predicate Harmless(g: Geometry, log: seq<Entry>, p: nat, q: nat) {
    && (forall d :: d in log && d.Data? && d.page < p && CutWithin(g, log, d, p, q) ==>
          CutFrom(g, log, d, q) || EndedBefore(log, d, p) || UnlinkedWithin(log, d.obj, p, q))
    && (forall k, e :: k in log && e in log && p <= k.page < q && Ends(k, e) ==> p <= e.page)
  }

  /** An admission to collection stays good. */
  ghost predicate SelectedOk<V>(g: Geometry, s: State<V>) {
    forall p, q :: (p, q) in s.selected ==> p <= q <= s.next && Harmless(g, s.log, p, q)
  }

  ghost predicate LogOk<V>(g: Geometry, s: State<V>) {
    RisingPages(s.log, s.next) && Places(g, s.log) && StoredOk(s.stored) && g.bytesPerChunk > 0
  }

  ghost predicate FilesOk<V>(s: State<V>) {
    MemoryOk(s) && HeadersOk(s) && FinishedOk(s) && NotEnded(s)
  }

  ghost predicate ChunksOk<V>(g: Geometry, s: State<V>) {
    TnodesOk(g, s) && StartsOk(g, s) && UncutOk(g, s)
  }

  ghost predicate BlocksSafe<V>(g: Geometry, s: State<V>) {
    UnlinksOk(g, s) && SelectedOk(g, s)
  }

  ghost predicate Inv<V>(g: Geometry, s: State<V>) {
    LogOk(g, s) && FilesOk(s) && ChunksOk(g, s) && BlocksSafe(g, s)
  }

  // ----- Stale chunks -----

  /** A page of the chunk is hidden by nothing but the size in the last header of its file, which is less than the stored
      one. */
  ghost predicate StalePage<V>(g: Geometry, s: State<V>, h: Entry, d: Entry, c: nat)
    requires h.Header?
  {
    && d in s.log && DataOf(d, h.obj, c) && d.page < h.page && h.size <= ChunkBase(g, c) < Sizes(s.stored)(h.obj)
    && !Newer(s.log, h.obj, c, h.page) && !CutFrom(g, s.log, d, d.page)
  }

  ghost predicate Stale<V>(g: Geometry, s: State<V>, o: nat, c: nat) {
    exists h, d :: Linked(s.log, h) && h.obj == o && StalePage(g, s, h, d, c)
  }

  ghost function StaleChunks<V>(g: Geometry, s: State<V>, o: nat): (r: set<(nat, nat)>)
    ensures forall x: nat, c: nat :: (x, c) in r <==> x == o && Stale(g, s, o, c)
  {
    var r := set d | d in s.log && OfData(d, o) && Stale(g, s, o, d.chunk) :: (o, d.chunk);
    forall c: nat | Stale(g, s, o, c) ensures (o, c) in r {
      var h, d :| Linked(s.log, h) && h.obj == o && StalePage(g, s, h, d, c);
      assert d.chunk == c && OfData(d, o);
    }
    r
  }

  /** What the rule for holes achieves: no chunk is stale but those that are ghosts already. */
  ghost predicate NoStale<V>(g: Geometry, s: State<V>) {
    forall o: nat, c: nat :: Stale(g, s, o, c) ==> (o, c) in s.ghosts
  }

  /** Every page beyond the stored size is cut off for good. */
  ghost predicate Sealed<V>(g: Geometry, s: State<V>, o: nat) {
    forall d :: d in s.log && OfData(d, o) && Sizes(s.stored)(o) <= ChunkBase(g, d.chunk) ==> CutFrom(g, s.log, d, d.page)
  }

  // ----- Chunk numbers within range start where the product says -----

  lemma BaseExact(g: Geometry, c: nat, n: nat)
    requires c > 0 && n > 0 && StartOf(g, c) + n <= MAX_FILE_SIZE
    ensures ChunkBase(g, c) == StartOf(g, c) >= 0
  {
  }

  lemma DataBase(g: Geometry, log: seq<Entry>, d: Entry)
    requires Places(g, log) && d in log && d.Data?
    ensures 0 <= ChunkBase(g, d.chunk) == StartOf(g, d.chunk) < MAX_FILE_SIZE
  {
    assert Fits(g, d);
    BaseExact(g, d.chunk, d.nBytes);
  }

  /** What a chunk was replayed from: no header since has cut it off. */
  lemma {:induction false} Source(g: Geometry, log: seq<Entry>, n: nat, o: nat, c: nat) returns (i: nat)
    requires n <= |log| && (o, c) in Forward(g, log, n)
    ensures i < n && IsData(log[i], o, c, Forward(g, log, n)[(o, c)])
    ensures forall j :: i < j < n && OfHeader(log[j], o) ==> ChunkBase(g, c) < Limit(log, j)
  {
    hide ChunkBase, Limit;
    if IsData(log[n - 1], o, c, Forward(g, log, n)[(o, c)]) {
      i := n - 1;
    } else {
      i := Source(g, log, n - 1, o, c);
    }
  }

  lemma MountedExact(g: Geometry, log: seq<Entry>, n: nat, o: nat, c: nat)
    requires Places(g, log) && n <= |log| && (o, c) in Forward(g, log, n)
    ensures c > 0 && 0 <= ChunkBase(g, c) == StartOf(g, c) < MAX_FILE_SIZE
  {
    hide ChunkBase, Forward;
    var i := Source(g, log, n, o, c);
    assert log[i] in log;
    assert Fits(g, log[i]);
    DataBase(g, log, log[i]);
  }

  // ----- Last headers -----

  lemma LastIndex(log: seq<Entry>, next: nat, h: Entry) returns (i: nat)
    requires RisingPages(log, next) && Last(log, h)
    ensures LastHeader(log, i, h.obj) && log[i] == h
  {
    i :| i < |log| && log[i] == h;
    HasHeaderSplit(log, i + 1, |log|, h.obj);
    assert forall k :: i < k < |log| ==> log[k] in log;
  }

  lemma IndexLast(log: seq<Entry>, next: nat, i: nat, o: nat)
    requires RisingPages(log, next) && LastHeader(log, i, o)
    ensures LastOf(log, log[i], o)
  {
    forall k | k in log && OfHeader(k, o) ensures k.page <= log[i].page {
      var j :| 0 <= j < |log| && log[j] == k;
      if j > i { HasHeaderAt(log, i + 1, j, o); }
    }
  }

  lemma LastAt(log: seq<Entry>, i: nat, o: nat) returns (h: nat)
    requires i <= |log| && HasHeader(log, i, o)
    ensures i <= h && LastHeader(log, h, o)
    decreases |log| - i
  {
    if HasHeader(log, i + 1, o) { h := LastAt(log, i + 1, o); } else { h := i; }
  }

  lemma LastExists(log: seq<Entry>, next: nat, k: Entry)
    requires RisingPages(log, next) && k in log && k.Header?
    ensures exists h :: LastOf(log, h, k.obj)
  {
    var j :| 0 <= j < |log| && log[j] == k;
    HasHeaderAt(log, 0, j, k.obj);
    var i := LastAt(log, 0, k.obj);
    IndexLast(log, next, i, k.obj);
  }

  lemma OneLast(log: seq<Entry>, next: nat, h: Entry, k: Entry)
    requires RisingPages(log, next) && Last(log, h) && Last(log, k) && h.obj == k.obj
    ensures h == k
  {
    assert h.page <= k.page && k.page <= h.page;
    OnePage(log, next, h, k);
  }

  lemma OnePage(log: seq<Entry>, next: nat, e: Entry, f: Entry)
    requires RisingPages(log, next) && e in log && f in log && e.page == f.page
    ensures e == f
  {
    var i :| 0 <= i < |log| && log[i] == e;
    var j :| 0 <= j < |log| && log[j] == f;
  }

  /** A file in the tree has its last header in use and is not finished with. */
  lemma LinkedKnown<V>(s: State<V>, h: Entry)
    requires RisingPages(s.log, s.next) && HeadersOk(s) && FinishedOk(s) && Linked(s.log, h)
    ensures h.obj in s.hdr && h.obj !in s.deleted && Used(s, h)
  {
    assert forall k :: k in s.log && OfHeader(k, h.obj) ==> !Ends(k, h);
    assert !Ended(s.log, h);
    var k :| LastOf(s.log, k, h.obj) && k.page == s.hdr[h.obj];
    OneLast(s.log, s.next, h, k);
  }

  /** The last header of a file, when it is not finished with, is in use. */
  lemma LastUsed<V>(s: State<V>, h: Entry)
    requires RisingPages(s.log, s.next) && HeadersOk(s) && Last(s.log, h) && h.obj in s.hdr
    ensures Used(s, h)
  {
    var k :| LastOf(s.log, k, h.obj) && k.page == s.hdr[h.obj];
    OneLast(s.log, s.next, h, k);
  }

  /** The page a mount would read for a chunk is cut off by no header since. */
  lemma MountedNotCut(g: Geometry, log: seq<Entry>, next: nat, d: Entry, m: Entry)
    requires RisingPages(log, next) && Places(g, log) && d in log && d.Data? && m in log && d.page < m.page
    requires Get(Mounted(g, log), (d.obj, d.chunk)) == Some(d.page)
    requires Last(log, m) ==> !m.gone
    ensures !Cuts(g, m, d)
  {
    hide ChunkBase, Forward;
    if Cuts(g, m, d) {
      DataBase(g, log, d);
      var i := Source(g, log, |log|, d.obj, d.chunk);
      assert log[i] in log;
      OnePage(log, next, d, log[i]);
      var j :| 0 <= j < |log| && log[j] == m;
      assert OfHeader(log[j], d.obj) && ChunkBase(g, d.chunk) < Limit(log, j);
      if !HasHeader(log, j + 1, m.obj) { IndexLast(log, next, j, m.obj); }
    }
  }

  /** What a mount finds of a chunk is newer than the last header, or starts below the size in it. */
  lemma MountedSince(g: Geometry, log: seq<Entry>, next: nat, h: Entry, c: nat)
    requires RisingPages(log, next) && Last(log, h) && (h.obj, c) in Mounted(g, log)
    ensures Newer(log, h.obj, c, h.page) || ChunkBase(g, c) < h.size
  {
    hide ChunkBase, Forward;
    var i := LastIndex(log, next, h);
    var j := Source(g, log, |log|, h.obj, c);
    assert log[j] in log;
    assert j > i ==> DataOf(log[j], h.obj, c) && h.page < log[j].page;
  }

  lemma LogMeans<V>(g: Geometry, s: State<V>)
    requires LogOk(g, s)
    ensures RisingPages(s.log, s.next) && Places(g, s.log) && StoredOk(s.stored)
  {
  }
}
