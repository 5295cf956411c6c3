/** Runs of the running file system on its log: writing chunks in any order, writing headers, cutting, unlinking and
    deleting files, copying pages and erasing blocks for collection, one page or one block at a time, with a power cut and
    a mount at any moment. Whenever a mount comes, it reads back all that was written, and nothing else but ghosts: chunks
    being cut whose header is not written yet, and chunks that a header has brought back from under the size in the one
    before. */
module LogRun {
  import opened Options
  import opened Arith
  import opened MountScan
  import opened LogCollection
  import opened LogState
  import opened LogAppend
  import opened LogErase
  import opened LogMount
  import opened LogHoles

  datatype Op<V> =
    | MakeFile(o: nat)
    | WriteChunk(o: nat, c: nat, n: nat, v: V)
    | Record(o: nat, marker: bool)  // a header with the stored size; as a marker it starts a hole
    | Prune(o: nat, size: int)      // the chunks beyond a size are taken out of memory
    | Resize(o: nat, size: int)     // and that becomes the stored size
    | Unlink(o: nat)
    | Delete(o: nat)                // the header that moves a file to the deleted directory
    | Drop(o: nat)                  // and the last that memory knows of it
    | Copy(e: Entry)                // one page of a block being collected
    | Select(p: nat, q: nat)        // a block, given by its pages from p up to q, is admitted to collection
    | Erase(p: nat, q: nat)
    | Restart                       // power is cut and the log is scanned

  // ----- Operations -----

  /** A file that can be opened, or is still open although it has been unlinked. */
  predicate Known<V>(s: State<V>, o: nat) {
    o in s.hdr && o !in s.deleted
  }

  ghost predicate Allowed<V>(g: Geometry, s: State<V>, op: Op<V>) {
    match op
    case MakeFile(o) => o !in s.hdr
    case WriteChunk(o, c, n, _) => Known(s, o) && Fits(g, Data(o, c, n, s.next))
    case Record(o, _) => InTree(s.log, o)
    case Prune(o, _) => Known(s, o)
    case Resize(o, size) => Known(s, o) && 0 <= size <= MAX_FILE_SIZE && forall c :: (o, c) in s.tnodes ==> StartOf(g, c) < size
    case Unlink(o) => Known(s, o)
    case Delete(o) => Known(s, o)
    case Drop(o) => o in s.deleted
    case Copy(e) => e in s.log && Used(s, e)
    case Select(p, q) => p <= q <= s.next && (Marked(s.log, p, q) ==> NoneDiscarded(s, p))
    case Erase(p, q) =>
      && p <= q <= s.next && (forall e :: e in s.log && !Outside(e, p, q) ==> !Used(s, e))
      && (Marked(s.log, p, q) ==> (p, q) in s.selected)
    case Restart => true
  }

  ghost function After<V>(g: Geometry, s: State<V>, op: Op<V>): State<V> {
    match op
    case MakeFile(o) => Headered(s, Header(o, 0, false, false, s.next)).(stored := s.stored[o := 0], ghosts := Laid(s.ghosts, o))
    case WriteChunk(o, c, n, v) =>
      s.(log := s.log + [Data(o, c, n, s.next)], next := s.next + 1, contents := s.contents[s.next := v],
      tnodes := s.tnodes[(o, c) := s.next], stored := s.stored[o := Max(Sizes(s.stored)(o), StartOf(g, c) + n)],
      ghosts := s.ghosts - {(o, c)})
    case Record(o, marker) =>
      Headered(s, Header(o, Sizes(s.stored)(o), marker, false, s.next)).(ghosts := Raised(g, s, o))
    case Prune(o, size) => s.(tnodes := CutTo(g, s.tnodes, o, size), ghosts := s.ghosts + Beyond(g, s.tnodes, o, size))
    case Resize(o, size) => s.(stored := s.stored[o := size])
    case Unlink(o) => Headered(s, Header(o, 0, false, true, s.next))
    case Delete(o) =>
      Headered(s, Header(o, 0, true, true, s.next)).(tnodes := Forgotten(s.tnodes, o), deleted := s.deleted + {o})
    case Drop(o) => s.(hdr := s.hdr - {o}, deleted := s.deleted - {o})
    case Copy(e) => Copied(g, s, e)
    case Select(p, q) => s.(selected := s.selected + {(p, q)})
    case Erase(p, q) =>
      s.(log := Without(s.log, p, q), contents := map x | x in s.contents && !(p <= x < q) :: s.contents[x])
    case Restart => Restarted(g, s)
  }

  /** A header written, which is the file's own from then on. */
  function Headered<V>(s: State<V>, e: Entry): State<V> {
    s.(log := s.log + [e], next := s.next + 1, hdr := s.hdr[e.obj := s.next])
  }

  /** The copy of a page in use. */
  ghost function Copied<V>(g: Geometry, s: State<V>, e: Entry): State<V> {
    var copy := CopyOf(e, Sizes(s.stored), s.next);
    match e
    case Data(o, c, _, p) =>
      s.(log := s.log + [copy], next := s.next + 1, tnodes := s.tnodes[(o, c) := s.next], ghosts := s.ghosts - {(o, c)},
      contents := if p in s.contents then s.contents[s.next := s.contents[p]] else s.contents - {s.next})
    case Header(o, _, _, gone, _) => Headered(s, copy).(ghosts := if gone then s.ghosts else Raised(g, s, o))
  }

  function CutTo(g: Geometry, tnodes: map<(nat, nat), nat>, o: nat, size: int): (r: map<(nat, nat), nat>)
    ensures forall x, c :: Get(r, (x, c)) == if x == o && StartOf(g, c) >= size then None else Get(tnodes, (x, c))
  {
    map k | k in tnodes && (k.0 == o ==> StartOf(g, k.1) < size) :: tnodes[k]
  }

  function Forgotten(tnodes: map<(nat, nat), nat>, o: nat): (r: map<(nat, nat), nat>)
    ensures forall x, c :: Get(r, (x, c)) == if x == o then None else Get(tnodes, (x, c))
  {
    map k | k in tnodes && k.0 != o :: tnodes[k]
  }

  /** The chunks pruned are ghosts until a header says so. */
  function Beyond(g: Geometry, tnodes: map<(nat, nat), nat>, o: nat, size: int): (r: set<(nat, nat)>)
    ensures forall x, c :: (x, c) in r <==> (x, c) in tnodes && x == o && StartOf(g, c) >= size
  {
    set k | k in tnodes && k.0 == o && StartOf(g, k.1) >= size
  }

  /** A header with the stored size lays the ghosts beyond it, and raises the stale chunks. */
  ghost function Raised<V>(g: Geometry, s: State<V>, o: nat): (r: set<(nat, nat)>)
    ensures forall x: nat, c: nat ::
              (x, c) in r <==> (x == o && Stale(g, s, o, c)) || ((x, c) in s.ghosts && (x == o ==> StartOf(g, c) < Sizes(s.stored)(o)))
  {
    (set k | k in s.ghosts && (k.0 == o ==> StartOf(g, k.1) < Sizes(s.stored)(o))) + StaleChunks(g, s, o)
  }

  function Laid(ghosts: set<(nat, nat)>, o: nat): (r: set<(nat, nat)>)
    ensures forall x, c :: (x, c) in r <==> (x, c) in ghosts && x != o
  {
    set k | k in ghosts && k.0 != o
  }

  // ----- What the files hold -----

  /** The files in the tree, those unlinked while still open, and their chunks. After a mount, ghosts may be read where
      there is no chunk. */
  datatype Files<V> = Files(linked: set<nat>, held: set<nat>, chunks: map<(nat, nat), V>, ghosts: set<(nat, nat)>)

  function FilesAfter<V>(g: Geometry, s: State<V>, f: Files<V>, op: Op<V>): Files<V> {
    match op
    case MakeFile(o) => f.(linked := f.linked + {o}, ghosts := Laid(f.ghosts, o))
    case WriteChunk(o, c, _, v) =>
      if o in f.linked || o in f.held then f.(chunks := f.chunks[(o, c) := v], ghosts := f.ghosts - {(o, c)}) else f
    case Prune(o, size) =>
      f.(chunks := map k | k in f.chunks && (k.0 == o ==> StartOf(g, k.1) < size) :: f.chunks[k],
      ghosts := set k | k in f.ghosts && (k.0 == o ==> StartOf(g, k.1) < size))
    case Unlink(o) => if o in f.linked then f.(linked := f.linked - {o}, held := f.held + {o}) else f
    case Delete(o) => Files(f.linked - {o}, f.held - {o}, map k | k in f.chunks && k.0 != o :: f.chunks[k], Laid(f.ghosts, o))
    case Restart => Files(f.linked, {}, map k | k in f.chunks && k.0 in f.linked :: f.chunks[k], f.ghosts + s.ghosts)
    case _ => f
  }

  function InMemory<V>(s: State<V>, o: nat, c: nat): Option<V> {
    match Get(s.tnodes, (o, c))
    case None => None
    case Some(p) => Get(s.contents, p)
  }

  /** What a mount would let a file in the tree read; other files it does away with. */
  ghost function AfterMount<V>(g: Geometry, s: State<V>, o: nat, c: nat): Option<V> {
    if InTree(s.log, o) then Read(g, s.log, s.contents, o, c) else None
  }

  /** What is read is the chunk, if there is one, and otherwise nothing, unless it is a ghost. */
  ghost predicate Right<V>(f: Files<V>, o: nat, c: nat, r: Option<V>) {
    if (o, c) in f.chunks then r == Some(f.chunks[(o, c)]) else r == None || (o, c) in f.ghosts
  }

  ghost predicate FilesKnown<V>(s: State<V>, f: Files<V>) {
    && (forall o :: InTree(s.log, o) <==> o in f.linked)
    && (forall o :: o in f.held ==> Known(s, o))
    && (forall o, c :: (o, c) in f.chunks ==> o in f.linked || o in f.held)
  }

  ghost predicate Shows<V>(s: State<V>, f: Files<V>) {
    && FilesKnown(s, f)
    && forall o, c :: o in f.linked || o in f.held ==> Right(f, o, c, InMemory(s, o, c))
  }

  // ----- What the steps share -----

  lemma LogIsOk<V>(g: Geometry, s: State<V>)
    requires Inv(g, s)
    ensures LogOk(g, s) && StoredOk(s.stored)
  {
  }

  lemma TreeKnown<V>(g: Geometry, s: State<V>, o: nat)
    requires Inv(g, s) && InTree(s.log, o)
    ensures Known(s, o) && 0 <= Sizes(s.stored)(o) <= MAX_FILE_SIZE
  {
    hide ChunksOk, BlocksSafe, MemoryOk, NotEnded;
    var h :| Linked(s.log, h) && h.obj == o;
    LinkedKnown(s, h);
  }

  lemma StoredKept(stored: map<nat, int>, o: nat, size: int)
    requires StoredOk(stored) && 0 <= size <= MAX_FILE_SIZE
    ensures StoredOk(stored[o := size]) && Sizes(stored[o := size])(o) == size
    ensures forall x :: x != o ==> Sizes(stored[o := size])(x) == Sizes(stored)(x)
    ensures forall x :: 0 <= Sizes(stored)(x) <= MAX_FILE_SIZE
  {
  }

  lemma PageBelow<V>(g: Geometry, s: State<V>, o: nat, c: nat)
    requires Inv(g, s) && (o, c) in s.tnodes
    ensures s.tnodes[(o, c)] < s.next && o in s.hdr && o !in s.deleted && StartOf(g, c) < Sizes(s.stored)(o)
    ensures exists d :: d in s.log && IsData(d, o, c, s.tnodes[(o, c)]) && Used(s, d)
  {
    hide TnodesOk, UncutOk, BlocksSafe, HeadersOk, FinishedOk, NotEnded, Places, StartOf;
    var d :| d in s.log && IsData(d, o, c, s.tnodes[(o, c)]);
  }

  /** A file's header in use is its last one. */
  lemma UsedIsLast<V>(g: Geometry, s: State<V>, e: Entry)
    requires Inv(g, s) && e in s.log && e.Header? && Used(s, e)
    ensures LastOf(s.log, e, e.obj) && e.obj in s.hdr
    ensures InTree(s.log, e.obj) <==> !e.gone
  {
    hide ChunksOk, BlocksSafe, MemoryOk, FinishedOk, NotEnded, Places;
    var h :| LastOf(s.log, h, e.obj) && h.page == s.hdr[e.obj];
    OnePage(s.log, s.next, e, h);
    if !e.gone { assert Linked(s.log, e); }
    if k :| Linked(s.log, k) && k.obj == e.obj { OneLast(s.log, s.next, e, k); }
  }

  lemma DeletedForgotten<V>(g: Geometry, s: State<V>, o: nat)
    requires Inv(g, s)
    ensures o in s.deleted || o !in s.hdr ==> forall c :: (o, c) !in s.tnodes
  {
    hide LogOk, ChunksOk, BlocksSafe, HeadersOk, FinishedOk, NotEnded;
  }

  // ----- What the files hold after a step -----

  lemma KnownAfterHeader<V>(g: Geometry, s: State<V>, s': State<V>, e: Entry, f: Files<V>, f': Files<V>)
    requires LogOk(g, s) && FilesKnown(s, f) && Appends(g, s, s', e) && e.Header?
    requires e.obj in f'.linked <==> !e.gone
    requires forall o :: o != e.obj ==> (o in f'.linked <==> o in f.linked)
    requires forall o :: o in f'.held ==> Known(s', o)
    requires forall o, c :: (o, c) in f'.chunks ==> o in f'.linked || o in f'.held
    ensures FilesKnown(s', f')
  {
    hide LogOk, InTree, Appends;
    forall o ensures InTree(s'.log, o) <==> o in f'.linked {
      TreeAfter(g, s, s', e, o);
    }
  }

  lemma KnownAfterData<V>(g: Geometry, s: State<V>, s': State<V>, e: Entry, f: Files<V>, f': Files<V>)
    requires LogOk(g, s) && FilesKnown(s, f) && Appends(g, s, s', e) && e.Data?
    requires f'.linked == f.linked && f'.held == f.held && s'.hdr == s.hdr && s'.deleted == s.deleted
    requires forall o, c :: (o, c) in f'.chunks ==> o in f'.linked || o in f'.held
    ensures FilesKnown(s', f')
  {
    hide LogOk, InTree, Appends;
    forall o ensures InTree(s'.log, o) <==> o in f'.linked {
      TreeAfter(g, s, s', e, o);
    }
  }

  /** The files in the tree and those unlinked while open are the known ones. */
  lemma FilesAreKnown<V>(g: Geometry, s: State<V>, f: Files<V>)
    requires Inv(g, s) && FilesKnown(s, f)
    ensures forall o :: o in f.linked || o in f.held ==> Known(s, o)
    ensures LogOk(g, s)
  {
    LogIsOk(g, s);
    hide Inv, InTree, Known, LogOk;
    forall o | o in f.linked ensures Known(s, o) { TreeKnown(g, s, o); }
  }

  lemma OthersKnown<V>(g: Geometry, s: State<V>, s': State<V>, e: Entry, o: nat)
    requires Appends(g, s, s', e) && o != e.obj
    ensures Known(s', o) == Known(s, o)
  {
    hide Fits;
    assert Get(s'.hdr, o) == Get(s.hdr, o);
  }

  /** No file reads anything else when memory keeps its pages and the pages what they hold. */
  lemma ShowsStill<V>(s: State<V>, s': State<V>, f: Files<V>, f': Files<V>)
    requires Shows(s, f) && FilesKnown(s', f') && s'.contents == s.contents
    requires forall o: nat, c: nat :: o in f'.linked || o in f'.held ==>
               if o in f.linked || o in f.held then
                 && Get(s'.tnodes, (o, c)) == Get(s.tnodes, (o, c)) && Get(f'.chunks, (o, c)) == Get(f.chunks, (o, c))
                 && ((o, c) in f.ghosts ==> (o, c) in f'.ghosts)
               else (o, c) !in s'.tnodes && (o, c) !in f'.chunks
    ensures Shows(s', f')
  {
    hide FilesKnown;
    forall o: nat, c: nat | o in f'.linked || o in f'.held ensures Right(f', o, c, InMemory(s', o, c)) {
      if o in f.linked || o in f.held {
        assert Right(f, o, c, InMemory(s, o, c)) && Get(f'.chunks, (o, c)) == Get(f.chunks, (o, c));
      }
    }
  }

  /** A header that leaves its file where it is. */
  lemma SameShows<V>(g: Geometry, s: State<V>, s': State<V>, e: Entry, f: Files<V>)
    requires Inv(g, s) && Shows(s, f) && e.Header? && (e.gone <==> !InTree(s.log, e.obj)) && Appends(g, s, s', e)
    requires s'.tnodes == s.tnodes && s'.contents == s.contents && s'.deleted == s.deleted && e.obj in s'.hdr
    ensures Shows(s', f)
  {
    hide Inv, InTree, Appends;
    FilesAreKnown(g, s, f);
    forall o | o in f.held ensures Known(s', o) {
      if o != e.obj { OthersKnown(g, s, s', e, o); }
    }
    KnownAfterHeader(g, s, s', e, f, f);
    ShowsStill(s, s', f, f);
  }

  // ----- Files in the tree -----

  lemma MakeFileStep<V>(g: Geometry, s: State<V>, f: Files<V>, o: nat)
    requires Inv(g, s) && Shows(s, f) && Allowed(g, s, MakeFile(o))
    ensures var s' := After(g, s, MakeFile(o)); Inv(g, s') && Shows(s', FilesAfter(g, s, f, MakeFile(o)))
  {
    var s', e := After(g, s, MakeFile(o)), Header(o, 0, false, false, s.next);
    hide Inv, After, Shows, Appends, HeaderAdds;
    NewFileAdds(g, s, s', e);
    NewFileShows(g, s, s', e, f);
    HeaderKeeps(g, s, s', e);
  }

  lemma NewFileAdds<V>(g: Geometry, s: State<V>, s': State<V>, e: Entry)
    requires Inv(g, s) && e == Header(e.obj, 0, false, false, s.next) && e.obj !in s.hdr
    requires s' == After(g, s, MakeFile(e.obj))
    ensures Appends(g, s, s', e) && HeaderAdds(g, s, s', e) && e.obj !in s'.deleted && StoredOk(s'.stored)
    ensures forall c :: (e.obj, c) !in s.tnodes
  {
    hide ChunksOk, BlocksSafe, NotEnded, FinishedOk, InTree, RisingPages, Places, Stale, Laid;
    assert forall c :: (e.obj, c) !in s.tnodes;
    StoredKept(s.stored, e.obj, 0);
  }

  lemma NewFileShows<V>(g: Geometry, s: State<V>, s': State<V>, e: Entry, f: Files<V>)
    requires Inv(g, s) && Shows(s, f) && e == Header(e.obj, 0, false, false, s.next) && e.obj !in s.hdr
    requires s' == After(g, s, MakeFile(e.obj)) && Appends(g, s, s', e) && forall c :: (e.obj, c) !in s.tnodes
    ensures Shows(s', FilesAfter(g, s, f, MakeFile(e.obj)))
  {
    hide Inv, InTree, Appends, Laid;
    var f' := FilesAfter(g, s, f, MakeFile(e.obj));
    FilesAreKnown(g, s, f);
    KnownAfterHeader(g, s, s', e, f, f');
    ShowsStill(s, s', f, f');
  }

  /** A chunk may be written wherever it is in its file, whatever has been written of it before. */
  lemma WriteStep<V>(g: Geometry, s: State<V>, f: Files<V>, op: Op<V>)
    requires Inv(g, s) && Shows(s, f) && op.WriteChunk? && Allowed(g, s, op)
    ensures var s' := After(g, s, op); Inv(g, s') && Shows(s', FilesAfter(g, s, f, op))
  {
    var s', e := After(g, s, op), Data(op.o, op.c, op.n, s.next);
    hide Inv, After, Shows, Appends, DataAdds;
    WriteAdds(g, s, s', e, op);
    WriteShows(g, s, s', e, op, f);
    DataKeeps(g, s, s', e);
  }

  lemma WriteAdds<V>(g: Geometry, s: State<V>, s': State<V>, e: Entry, op: Op<V>)
    requires Inv(g, s) && op.WriteChunk? && Allowed(g, s, op) && e == Data(op.o, op.c, op.n, s.next) && s' == After(g, s, op)
    ensures Appends(g, s, s', e) && DataAdds(g, s, s', e) && StoredOk(s'.stored)
  {
    hide FilesOk, ChunksOk, BlocksSafe, RisingPages, Places;
    var size := Sizes(s.stored)(op.o);
    StoredKept(s.stored, op.o, 0);
    BaseExact(g, op.c, op.n);
    hide ChunkBase, StartOf;
    StoredKept(s.stored, op.o, Max(size, StartOf(g, op.c) + op.n));
  }

  lemma WriteShows<V>(g: Geometry, s: State<V>, s': State<V>, e: Entry, op: Op<V>, f: Files<V>)
    requires Inv(g, s) && Shows(s, f) && op.WriteChunk? && e == Data(op.o, op.c, op.n, s.next)
    requires s' == After(g, s, op) && Appends(g, s, s', e)
    ensures Shows(s', FilesAfter(g, s, f, op))
  {
    hide Inv, InTree, Appends;
    var f' := FilesAfter(g, s, f, op);
    FilesAreKnown(g, s, f);
    KnownAfterData(g, s, s', e, f, f');
    hide FilesKnown, LogOk, InMemory, After;
    forall o: nat, c: nat | o in f'.linked || o in f'.held ensures Right(f', o, c, InMemory(s', o, c)) {
      assert Right(f, o, c, InMemory(s, o, c));
      WrittenReads(g, s, op, o, c);
    }
  }

  lemma WrittenReads<V>(g: Geometry, s: State<V>, op: Op<V>, o: nat, c: nat)
    requires Inv(g, s) && op.WriteChunk?
    ensures InMemory(After(g, s, op), o, c) == if (o, c) == (op.o, op.c) then Some(op.v) else InMemory(s, o, c)
  {
    hide Inv, StartOf;
    if (o, c) in s.tnodes { PageBelow(g, s, o, c); }
  }

  /** What a header with the stored size of a file in the tree changes. */
  ghost predicate TreeHeader<V>(g: Geometry, s: State<V>, s': State<V>, e: Entry) {
    && e.Header? && !e.gone && e.page == s.next && e.size == Sizes(s.stored)(e.obj)
    && s'.log == s.log + [e] && s'.next == s.next + 1 && s'.hdr == s.hdr[e.obj := s.next] && s'.contents == s.contents
    && s'.deleted == s.deleted && s'.selected == s.selected && s'.tnodes == s.tnodes && s'.stored == s.stored
    && s'.ghosts == Raised(g, s, e.obj)
  }

  lemma TreeHeaderAdds<V>(g: Geometry, s: State<V>, s': State<V>, e: Entry)
    requires TreeHeader(g, s, s', e) && InTree(s.log, e.obj) && Known(s, e.obj) && 0 <= e.size <= MAX_FILE_SIZE
    ensures Appends(g, s, s', e) && HeaderAdds(g, s, s', e) && e.obj !in s'.deleted && e.obj in s'.hdr
  {
    hide InTree, StartOf, Raised, Stale;
  }

  /** It keeps everything; chunk by chunk, it cuts what a mount reads of the file to the stored size and does nothing else,
      but for the stale chunks, which come back. */
  lemma HeaderStep<V>(g: Geometry, s: State<V>, s': State<V>, e: Entry)
    requires Inv(g, s) && TreeHeader(g, s, s', e) && InTree(s.log, e.obj)
    ensures Inv(g, s') && Appends(g, s, s', e) && HeaderAdds(g, s, s', e) && e.Header? && !e.gone && e.obj in s'.hdr
    ensures forall o: nat, c: nat :: !(o == e.obj && Stale(g, s, o, c)) ==>
              Get(Mounted(g, s'.log), (o, c)) ==
              if o == e.obj && StartOf(g, c) >= e.size then None else Get(Mounted(g, s.log), (o, c))
  {
    hide Inv, InTree, HeaderAdds, Appends, Stale, Mounted, StartOf, LogOk, StoredOk;
    LogIsOk(g, s);
    assert e.Header? && !e.gone && e.size == Sizes(s.stored)(e.obj) && s'.log == s.log + [e] && s'.stored == s.stored;
    hide TreeHeader;
    TreeKnown(g, s, e.obj);
    TreeHeaderAdds(g, s, s', e);
    HeaderKeeps(g, s, s', e);
    forall o: nat, c: nat | !(o == e.obj && Stale(g, s, o, c))
      ensures Get(Mounted(g, s'.log), (o, c)) ==
              if o == e.obj && StartOf(g, c) >= e.size then None else Get(Mounted(g, s.log), (o, c))
    {
      if o == e.obj { OwnMounted(g, s, e, c); } else { OtherMounted(g, s.log, e, o, c); }
    }
  }

  lemma RecordStep<V>(g: Geometry, s: State<V>, f: Files<V>, o: nat, marker: bool)
    requires Inv(g, s) && Shows(s, f) && Allowed(g, s, Record(o, marker))
    ensures var s' := After(g, s, Record(o, marker)); Inv(g, s') && Shows(s', f)
    ensures forall c: nat :: (o, c) in After(g, s, Record(o, marker)).ghosts ==> StartOf(g, c) < Sizes(s.stored)(o)
  {
    RecordLays(g, s, o);
    var s', e := After(g, s, Record(o, marker)), Header(o, Sizes(s.stored)(o), marker, false, s.next);
    hide Inv, After, InTree, Shows, TreeHeader, Appends, Sizes, HeaderAdds, Mounted;
    RecordIs(g, s, s', o, marker, e);
    HeaderStep(g, s, s', e);
    SameShows(g, s, s', e, f);
  }

  /** Of the ghosts of a file only those are left that start below the size in its header. */
  lemma RecordLays<V>(g: Geometry, s: State<V>, o: nat)
    requires Inv(g, s)
    ensures forall c: nat :: (o, c) in Raised(g, s, o) ==> StartOf(g, c) < Sizes(s.stored)(o)
  {
    hide FilesOk, ChunksOk, BlocksSafe, StartOf, ChunkBase, Newer, CutFrom, RisingPages, Raised;
    forall c: nat | Stale(g, s, o, c) ensures StartOf(g, c) < Sizes(s.stored)(o) {
      var h, d :| Linked(s.log, h) && h.obj == o && StalePage(g, s, h, d, c);
      DataBase(g, s.log, d);
    }
  }

  lemma RecordIs<V>(g: Geometry, s: State<V>, s': State<V>, o: nat, marker: bool, e: Entry)
    requires s' == After(g, s, Record(o, marker)) && e == Header(o, Sizes(s.stored)(o), marker, false, s.next)
    ensures TreeHeader(g, s, s', e) && s'.tnodes == s.tnodes && s'.contents == s.contents && s'.deleted == s.deleted
  {
    hide Raised;
  }

  // ----- Cutting a file -----

  /** What happens in memory alone: chunks are taken out, and sizes change. */
  ghost predicate OnlyMemory<V>(g: Geometry, s: State<V>, s': State<V>) {
    && s'.log == s.log && s'.next == s.next && s'.contents == s.contents && s'.hdr == s.hdr && s'.deleted == s.deleted
    && s'.selected == s.selected && s.ghosts <= s'.ghosts
    && (forall o, c :: (o, c) in s'.tnodes ==> (o, c) in s.tnodes && s'.tnodes[(o, c)] == s.tnodes[(o, c)])
    && (forall o, c :: (o, c) in s.tnodes && (o, c) !in s'.tnodes ==> (o, c) in s'.ghosts)
    && (forall o, c :: (o, c) in s'.tnodes ==> StartOf(g, c) < Sizes(s'.stored)(o))
  }

  lemma MemoryKeeps<V>(g: Geometry, s: State<V>, s': State<V>)
    requires Inv(g, s) && OnlyMemory(g, s, s') && StoredOk(s'.stored)
    ensures Inv(g, s')
  {
    assert FilesOk(s') && UncutOk(g, s') by {
      hide TnodesOk, UnlinksOk, SelectedOk, Cuts, Ended, InTree;
      assert forall d: Entry :: d.Data? && Used(s', d) ==> Used(s, d);
    }
    assert TnodesOk(g, s') by {
      hide LogOk, FilesOk, UncutOk, UnlinksOk, SelectedOk, Mounted, InTree;
      forall o: nat, c: nat | InTree(s'.log, o) ensures Agrees(g, s', o, c) { assert Agrees(g, s, o, c); }
    }
    hide FilesOk, TnodesOk, UncutOk, Harmless, UnlinkOk, RisingPages, Places;
  }

  /** Pruning: the file is shorter for those who read it; of what it loses only ghosts are left, until the next header. */
  lemma PruneStep<V>(g: Geometry, s: State<V>, f: Files<V>, o: nat, size: int)
    requires Inv(g, s) && Shows(s, f) && Allowed(g, s, Prune(o, size))
    ensures var s' := After(g, s, Prune(o, size)); Inv(g, s') && Shows(s', FilesAfter(g, s, f, Prune(o, size)))
  {
    var s' := After(g, s, Prune(o, size));
    hide Inv, Shows;
    PruneIs(g, s, s', o, size);
    PruneShows(g, s, s', f, o, size);
    LogIsOk(g, s);
    hide OnlyMemory, StoredOk, LogOk, CutTo, Beyond;
    MemoryKeeps(g, s, s');
  }

  lemma PruneIs<V>(g: Geometry, s: State<V>, s': State<V>, o: nat, size: int)
    requires Inv(g, s) && s' == After(g, s, Prune(o, size))
    ensures OnlyMemory(g, s, s') && s'.stored == s.stored
  {
    hide LogOk, FilesOk, TnodesOk, UncutOk, BlocksSafe, StartOf, CutTo, Beyond;
    forall x, c ensures Get(s'.tnodes, (x, c)) == if x == o && StartOf(g, c) >= size then None else Get(s.tnodes, (x, c)) {}
    forall x, c | (x, c) in s'.tnodes ensures (x, c) in s.tnodes && s'.tnodes[(x, c)] == s.tnodes[(x, c)] {
      assert Get(s'.tnodes, (x, c)) == Get(s.tnodes, (x, c));
    }
    forall x, c | (x, c) in s.tnodes && (x, c) !in s'.tnodes ensures (x, c) in s'.ghosts {
      assert Get(s'.tnodes, (x, c)) != Get(s.tnodes, (x, c));
    }
  }

  lemma PruneShows<V>(g: Geometry, s: State<V>, s': State<V>, f: Files<V>, o: nat, size: int)
    requires Shows(s, f) && s' == After(g, s, Prune(o, size))
    ensures Shows(s', FilesAfter(g, s, f, Prune(o, size)))
  {
    hide StartOf, InTree, CutTo, Beyond;
    var f' := FilesAfter(g, s, f, Prune(o, size));
    assert FilesKnown(s', f');
    hide FilesKnown;
    forall x: nat, c: nat | x in f'.linked || x in f'.held ensures Right(f', x, c, InMemory(s', x, c)) {
      assert Right(f, x, c, InMemory(s, x, c));
      assert Get(s'.tnodes, (x, c)) == if x == o && StartOf(g, c) >= size then None else Get(s.tnodes, (x, c));
    }
  }

  lemma ResizeStep<V>(g: Geometry, s: State<V>, f: Files<V>, o: nat, size: int)
    requires Inv(g, s) && Shows(s, f) && Allowed(g, s, Resize(o, size))
    ensures var s' := After(g, s, Resize(o, size)); Inv(g, s') && Shows(s', f)
  {
    var s' := After(g, s, Resize(o, size));
    hide Inv, InTree;
    ResizeIs(g, s, s', o, size);
    assert forall x, c :: InMemory(s', x, c) == InMemory(s, x, c);
    hide OnlyMemory, StoredOk;
    MemoryKeeps(g, s, s');
  }

  lemma ResizeIs<V>(g: Geometry, s: State<V>, s': State<V>, o: nat, size: int)
    requires Inv(g, s) && s' == After(g, s, Resize(o, size)) && Allowed(g, s, Resize(o, size))
    ensures OnlyMemory(g, s, s') && StoredOk(s'.stored)
  {
    hide FilesOk, TnodesOk, UncutOk, BlocksSafe, StartOf, RisingPages, Places;
    StoredKept(s.stored, o, size);
  }

  // ----- Files out of the tree -----

  /** What a header of a file that is not in the tree, or no longer is, changes. */
  ghost predicate GoneHeader<V>(g: Geometry, s: State<V>, s': State<V>, e: Entry) {
    && e.Header? && e.gone && e.page == s.next && Fits(g, e) && e.obj in s.hdr
    && s'.log == s.log + [e] && s'.next == s.next + 1 && s'.hdr == s.hdr[e.obj := s.next] && s'.contents == s.contents
    && s'.stored == s.stored && s'.selected == s.selected && s'.ghosts == s.ghosts
    && (if e.isShrink then s'.deleted == s.deleted + {e.obj} else s'.deleted == s.deleted)
    && s'.tnodes == if e.isShrink then Forgotten(s.tnodes, e.obj) else s.tnodes
  }

  lemma GoneHeaderAdds<V>(g: Geometry, s: State<V>, s': State<V>, e: Entry)
    requires GoneHeader(g, s, s', e) && (e.obj in s.deleted ==> forall c :: (e.obj, c) !in s.tnodes)
    ensures Appends(g, s, s', e) && HeaderAdds(g, s, s', e)
    ensures e.obj in s'.deleted ==> e.gone && (e.obj in s.deleted || e.isShrink)
    ensures e.gone && e.isShrink ==> forall c :: (e.obj, c) !in s'.tnodes
  {
    hide Forgotten, Fits, Stale, InTree;
    forall x, c ensures Get(s'.tnodes, (x, c)) == if e.isShrink && x == e.obj then None else Get(s.tnodes, (x, c)) {}
    forall c | (e.obj, c) in s'.tnodes ensures (e.obj, c) in s.tnodes && s'.tnodes[(e.obj, c)] == s.tnodes[(e.obj, c)] {
      assert Get(s'.tnodes, (e.obj, c)) == Get(s.tnodes, (e.obj, c));
    }
  }

  lemma GoneHeaderKeeps<V>(g: Geometry, s: State<V>, s': State<V>, e: Entry)
    requires Inv(g, s) && GoneHeader(g, s, s', e)
    ensures Inv(g, s') && Appends(g, s, s', e) && HeaderAdds(g, s, s', e)
  {
    assert StoredOk(s'.stored) && e.Header? by { LogIsOk(g, s); }
    hide Inv, GoneHeader, Appends, HeaderAdds, StoredOk;
    DeletedForgotten(g, s, e.obj);
    GoneHeaderAdds(g, s, s', e);
    HeaderKeeps(g, s, s', e);
  }

  lemma UnlinkStep<V>(g: Geometry, s: State<V>, f: Files<V>, o: nat)
    requires Inv(g, s) && Shows(s, f) && Allowed(g, s, Unlink(o))
    ensures var s' := After(g, s, Unlink(o)); Inv(g, s') && Shows(s', FilesAfter(g, s, f, Unlink(o)))
  {
    hide Inv, GoneHeader, Appends, Shows, HeaderAdds;
    var s', e := After(g, s, Unlink(o)), Header(o, 0, false, true, s.next);
    UnlinkIs(g, s, s', o, e);
    GoneHeaderKeeps(g, s, s', e);
    UnlinkShows(g, s, s', f, o, e);
  }

  lemma UnlinkIs<V>(g: Geometry, s: State<V>, s': State<V>, o: nat, e: Entry)
    requires s' == After(g, s, Unlink(o)) && Known(s, o) && e == Header(o, 0, false, true, s.next)
    ensures GoneHeader(g, s, s', e) && forall x :: Known(s', x) <==> Known(s, x)
  {
    hide Forgotten;
  }

  lemma UnlinkShows<V>(g: Geometry, s: State<V>, s': State<V>, f: Files<V>, o: nat, e: Entry)
    requires Inv(g, s) && Shows(s, f) && Known(s, o) && e == Header(o, 0, false, true, s.next)
    requires GoneHeader(g, s, s', e) && Appends(g, s, s', e) && forall x :: Known(s', x) <==> Known(s, x)
    ensures Shows(s', FilesAfter(g, s, f, Unlink(o)))
  {
    hide Inv, Appends, InTree, Known, Fits;
    var f' := FilesAfter(g, s, f, Unlink(o));
    FilesAreKnown(g, s, f);
    KnownAfterHeader(g, s, s', e, f, f');
    ShowsStill(s, s', f, f');
  }

  lemma DeleteStep<V>(g: Geometry, s: State<V>, f: Files<V>, o: nat)
    requires Inv(g, s) && Shows(s, f) && Allowed(g, s, Delete(o))
    ensures var s' := After(g, s, Delete(o)); Inv(g, s') && Shows(s', FilesAfter(g, s, f, Delete(o)))
  {
    hide Inv, GoneHeader, Appends, Shows, HeaderAdds;
    var s', e := After(g, s, Delete(o)), Header(o, 0, true, true, s.next);
    DeleteIs(g, s, s', o, e);
    GoneHeaderKeeps(g, s, s', e);
    DeleteShows(g, s, s', f, o, e);
  }

  lemma DeleteIs<V>(g: Geometry, s: State<V>, s': State<V>, o: nat, e: Entry)
    requires s' == After(g, s, Delete(o)) && Known(s, o) && e == Header(o, 0, true, true, s.next)
    ensures GoneHeader(g, s, s', e) && forall x :: Known(s', x) <==> Known(s, x) && x != o
  {
  }

  lemma DeleteShows<V>(g: Geometry, s: State<V>, s': State<V>, f: Files<V>, o: nat, e: Entry)
    requires Inv(g, s) && Shows(s, f) && e == Header(o, 0, true, true, s.next)
    requires GoneHeader(g, s, s', e) && Appends(g, s, s', e) && forall x :: Known(s', x) <==> Known(s, x) && x != o
    ensures Shows(s', FilesAfter(g, s, f, Delete(o)))
  {
    hide Inv, Appends, InTree, Known, Fits, Forgotten, Laid;
    var f' := FilesAfter(g, s, f, Delete(o));
    FilesAreKnown(g, s, f);
    KnownAfterHeader(g, s, s', e, f, f');
    hide FilesKnown, InMemory;
    forall x: nat, c: nat | x in f'.linked || x in f'.held ensures Right(f', x, c, InMemory(s', x, c)) {
      assert Right(f, x, c, InMemory(s, x, c));
      assert InMemory(s', x, c) == InMemory(s, x, c) by { ForgottenReads(s, s', o, x, c); }
    }
  }

  lemma ForgottenReads<V>(s: State<V>, s': State<V>, o: nat, x: nat, c: nat)
    requires s'.tnodes == Forgotten(s.tnodes, o) && s'.contents == s.contents && x != o
    ensures InMemory(s', x, c) == InMemory(s, x, c)
  {
    hide Forgotten;
    assert Get(s'.tnodes, (x, c)) == Get(s.tnodes, (x, c));
  }

  lemma DropStep<V>(g: Geometry, s: State<V>, f: Files<V>, o: nat)
    requires Inv(g, s) && Shows(s, f) && Allowed(g, s, Drop(o))
    ensures var s' := After(g, s, Drop(o)); Inv(g, s') && Shows(s', f) && !Known(s', o) && Allowed(g, s', MakeFile(o))
  {
    var s' := After(g, s, Drop(o));
    DropKeepsFiles(g, s, s', o);
    DropKeepsChunks(g, s, s', o);
    DropShows(g, s, s', o, f);
    hide FilesOk, ChunksOk, UnlinkOk, Harmless, InTree, Shows;
  }

  lemma DropKeepsFiles<V>(g: Geometry, s: State<V>, s': State<V>, o: nat)
    requires Inv(g, s) && o in s.deleted && s' == After(g, s, Drop(o))
    ensures FilesOk(s')
  {
    hide LogOk, ChunksOk, BlocksSafe, Ended, Last;
    assert forall d: Entry :: d.Data? ==> Used(s', d) == Used(s, d);
  }

  lemma DropKeepsChunks<V>(g: Geometry, s: State<V>, s': State<V>, o: nat)
    requires Inv(g, s) && o in s.deleted && s' == After(g, s, Drop(o))
    ensures ChunksOk(g, s')
  {
    hide LogOk, FilesOk, BlocksSafe, Mounted, InTree, Cuts, StartOf;
    assert forall d: Entry :: d.Data? ==> Used(s', d) == Used(s, d);
    forall x: nat, c: nat | InTree(s'.log, x) ensures Agrees(g, s', x, c) { assert Agrees(g, s, x, c); }
  }

  lemma DropShows<V>(g: Geometry, s: State<V>, s': State<V>, o: nat, f: Files<V>)
    requires Shows(s, f) && o in s.deleted && s' == After(g, s, Drop(o))
    ensures Shows(s', f)
  {
    hide InTree;
    assert forall x, c :: InMemory(s', x, c) == InMemory(s, x, c);
  }

  // ----- Collection -----

  lemma CopyEntryStep<V>(g: Geometry, s: State<V>, f: Files<V>, e: Entry)
    requires Inv(g, s) && Shows(s, f) && Allowed(g, s, Copy(e))
    ensures var s' := After(g, s, Copy(e)); Inv(g, s') && Shows(s', f)
  {
    if e.Data? {
      CopyData(g, s, f, e);
    } else if e.gone {
      CopyGone(g, s, f, e);
    } else {
      CopyLinked(g, s, f, e);
    }
  }

  lemma CopyData<V>(g: Geometry, s: State<V>, f: Files<V>, e: Entry)
    requires Inv(g, s) && Shows(s, f) && Allowed(g, s, Copy(e)) && e.Data?
    ensures var s' := After(g, s, Copy(e)); Inv(g, s') && Shows(s', f)
  {
    hide Inv, Shows, Appends, DataAdds, StoredOk, After, InTree;
    var s', copy := After(g, s, Copy(e)), CopyOf(e, Sizes(s.stored), s.next);
    CopyDataAdds(g, s, s', e, copy);
    CopyDataShows(g, s, s', f, e, copy);
    DataKeeps(g, s, s', copy);
  }

  lemma CopyDataAdds<V>(g: Geometry, s: State<V>, s': State<V>, e: Entry, copy: Entry)
    requires Inv(g, s) && e in s.log && e.Data? && Used(s, e)
    requires s' == After(g, s, Copy(e)) && copy == CopyOf(e, Sizes(s.stored), s.next)
    ensures Appends(g, s, s', copy) && DataAdds(g, s, s', copy) && StoredOk(s'.stored) && s'.stored == s.stored
  {
    hide FilesOk, ChunksOk, BlocksSafe, RisingPages, Raised;
    assert Fits(g, e) && StoredOk(s.stored);
    PageBelow(g, s, e.obj, e.chunk);
  }

  lemma CopyDataShows<V>(g: Geometry, s: State<V>, s': State<V>, f: Files<V>, e: Entry, copy: Entry)
    requires Inv(g, s) && Shows(s, f) && e in s.log && e.Data? && Used(s, e)
    requires s' == After(g, s, Copy(e)) && copy == CopyOf(e, Sizes(s.stored), s.next) && Appends(g, s, s', copy)
    ensures Shows(s', f)
  {
    hide Inv, InTree, Appends, InMemory;
    FilesAreKnown(g, s, f);
    KnownAfterData(g, s, s', copy, f, f);
    hide FilesKnown, LogOk, After;
    forall o: nat, c: nat | o in f.linked || o in f.held ensures Right(f, o, c, InMemory(s', o, c)) {
      assert Right(f, o, c, InMemory(s, o, c));
      CopyReads(g, s, e, o, c);
    }
  }

  lemma CopyReads<V>(g: Geometry, s: State<V>, e: Entry, o: nat, c: nat)
    requires Inv(g, s) && e in s.log && e.Data? && Used(s, e)
    ensures InMemory(After(g, s, Copy(e)), o, c) == InMemory(s, o, c)
  {
    hide Inv;
    if (o, c) in s.tnodes { PageBelow(g, s, o, c); }
  }

  lemma CopyGone<V>(g: Geometry, s: State<V>, f: Files<V>, e: Entry)
    requires Inv(g, s) && Shows(s, f) && Allowed(g, s, Copy(e)) && e.Header? && e.gone
    ensures var s' := After(g, s, Copy(e)); Inv(g, s') && Shows(s', f)
  {
    hide Inv, Shows, Appends, GoneHeader, After, InTree, HeaderAdds;
    var s', copy := After(g, s, Copy(e)), CopyOf(e, Sizes(s.stored), s.next);
    CopyGoneIs(g, s, s', e, copy);
    GoneHeaderKeeps(g, s, s', copy);
    SameShows(g, s, s', copy, f);
  }

  lemma CopyGoneIs<V>(g: Geometry, s: State<V>, s': State<V>, e: Entry, copy: Entry)
    requires Inv(g, s) && e in s.log && e.Header? && e.gone && Used(s, e)
    requires s' == After(g, s, Copy(e)) && copy == CopyOf(e, Sizes(s.stored), s.next)
    ensures GoneHeader(g, s, s', copy) && !InTree(s.log, copy.obj) && copy.gone && copy.Header? && copy.obj == e.obj
    ensures s'.tnodes == s.tnodes && s'.contents == s.contents && s'.deleted == s.deleted && e.obj in s'.hdr
  {
    UsedIsLast(g, s, e);
    LogIsOk(g, s);
    hide Inv, LogOk, InTree, Last, Forgotten, Raised;
    StoredKept(s.stored, e.obj, 0);
  }

  lemma CopyLinked<V>(g: Geometry, s: State<V>, f: Files<V>, e: Entry)
    requires Inv(g, s) && Shows(s, f) && Allowed(g, s, Copy(e)) && e.Header? && !e.gone
    ensures var s' := After(g, s, Copy(e)); Inv(g, s') && Shows(s', f)
  {
    hide Inv, Shows, Appends, TreeHeader, After, InTree, Last, Used, HeaderAdds, Mounted;
    UsedIsLast(g, s, e);
    var s', copy := After(g, s, Copy(e)), CopyOf(e, Sizes(s.stored), s.next);
    CopyLinkedIs(g, s, s', e, copy);
    HeaderStep(g, s, s', copy);
    SameShows(g, s, s', copy, f);
  }

  lemma CopyLinkedIs<V>(g: Geometry, s: State<V>, s': State<V>, e: Entry, copy: Entry)
    requires e.Header? && !e.gone && s' == After(g, s, Copy(e)) && copy == CopyOf(e, Sizes(s.stored), s.next)
    ensures TreeHeader(g, s, s', copy) && copy.obj == e.obj && copy.Header?
    ensures s'.tnodes == s.tnodes && s'.contents == s.contents && s'.deleted == s.deleted && e.obj in s'.hdr
  {
    hide Raised;
  }

  lemma SelectStep<V>(g: Geometry, s: State<V>, f: Files<V>, p: nat, q: nat)
    requires Inv(g, s) && Shows(s, f) && Allowed(g, s, Select(p, q))
    ensures var s' := After(g, s, Select(p, q)); Inv(g, s') && Shows(s', f) && Harmless(g, s.log, p, q)
  {
    var s' := After(g, s, Select(p, q));
    AllowedIsHarmless(g, s, p, q);
    SelectKeeps(g, s, s', p, q);
    hide Inv, InTree;
    assert forall o, c :: InMemory(s', o, c) == InMemory(s, o, c);
  }

  lemma AllowedIsHarmless<V>(g: Geometry, s: State<V>, p: nat, q: nat)
    requires Inv(g, s) && Allowed(g, s, Select(p, q))
    ensures Harmless(g, s.log, p, q)
  {
    hide LogOk, FilesOk, TnodesOk, StartsOk, UncutOk, UnlinksOk, SelectedOk, Harmless, Marked, NoneDiscarded;
    if Marked(s.log, p, q) {
      AdmittedIsHarmless(g, s, p, q);
    } else {
      UnmarkedIsHarmless(g, s, p, q);
    }
  }

  lemma SelectKeeps<V>(g: Geometry, s: State<V>, s': State<V>, p: nat, q: nat)
    requires Inv(g, s) && p <= q <= s.next && Harmless(g, s.log, p, q) && s' == s.(selected := s.selected + {(p, q)})
    ensures Inv(g, s')
  {
    hide RisingPages, Places, StoredOk, Mounted, Harmless, InTree, Ended, UnlinkOk, StartOf, Cuts;
    assert forall e :: Used(s', e) == Used(s, e);
    forall o: nat, c: nat | InTree(s'.log, o) ensures Agrees(g, s', o, c) { assert Agrees(g, s, o, c); }
  }

  lemma EraseStep<V>(g: Geometry, s: State<V>, f: Files<V>, p: nat, q: nat)
    requires Inv(g, s) && Shows(s, f) && Allowed(g, s, Erase(p, q))
    ensures var s' := After(g, s, Erase(p, q)); Inv(g, s') && Shows(s', f)
    ensures forall e :: e in After(g, s, Erase(p, q)).log ==> Outside(e, p, q)
  {
    var s' := After(g, s, Erase(p, q));
    hide Inv, Harmless, InTree, Shows, Marked;
    EraseIsHarmless(g, s, p, q);
    assert Erases(s, s', p, q);
    EraseKeeps(g, s, s', p, q);
    EraseShows(g, s, s', f, p, q);
  }

  /** A block with nothing in use and no shrink header needs no admission. */
  lemma UnmarkedMayGo<V>(g: Geometry, s: State<V>, p: nat, q: nat)
    requires p <= q <= s.next && !Marked(s.log, p, q) && forall e :: e in s.log && !Outside(e, p, q) ==> !Used(s, e)
    ensures Allowed(g, s, Erase(p, q))
  {
  }

  lemma EraseIsHarmless<V>(g: Geometry, s: State<V>, p: nat, q: nat)
    requires Inv(g, s) && Allowed(g, s, Erase(p, q))
    ensures Harmless(g, s.log, p, q)
  {
    hide LogOk, FilesOk, ChunksOk, UnlinksOk, Harmless, Marked;
    if !Marked(s.log, p, q) { UnmarkedIsHarmless(g, s, p, q); }
  }

  /** A block that may be erased is spare, and erasing it is what `LogErase` speaks of. */
  lemma EraseIsSpare<V>(g: Geometry, s: State<V>, p: nat, q: nat)
    requires Inv(g, s) && Allowed(g, s, Erase(p, q))
    ensures Erases(s, After(g, s, Erase(p, q)), p, q) && Spare(g, s.log, p, q) && LogOk(g, s) && FilesOk(s) && TnodesOk(g, s)
  {
    hide LogOk, FilesOk, TnodesOk, StartsOk, UncutOk, BlocksSafe, Harmless, Marked;
    EraseIsHarmless(g, s, p, q);
    HarmlessIsSpare(g, s, After(g, s, Erase(p, q)), p, q);
  }

  lemma EraseShows<V>(g: Geometry, s: State<V>, s': State<V>, f: Files<V>, p: nat, q: nat)
    requires Inv(g, s) && Shows(s, f) && Allowed(g, s, Erase(p, q)) && s' == After(g, s, Erase(p, q))
    ensures Shows(s', f)
  {
    hide Inv, Spare, InTree, LogOk, FilesOk, TnodesOk, InMemory, Marked, Erases, Allowed;
    EraseIsSpare(g, s, p, q);
    EraseKnows(g, s, f, p, q);
    forall o: nat, c: nat | o in f.linked || o in f.held ensures Right(f, o, c, InMemory(s', o, c)) {
      assert Right(f, o, c, InMemory(s, o, c));
      EraseReads(g, s, p, q, o, c);
    }
  }

  lemma EraseKnows<V>(g: Geometry, s: State<V>, f: Files<V>, p: nat, q: nat)
    requires Inv(g, s) && FilesKnown(s, f) && Allowed(g, s, Erase(p, q))
    ensures FilesKnown(After(g, s, Erase(p, q)), f)
  {
    var s' := After(g, s, Erase(p, q));
    assert s'.hdr == s.hdr && s'.deleted == s.deleted;
    hide Inv, Spare, InTree, LogOk, FilesOk, TnodesOk, Marked, Erases, Allowed, After;
    EraseIsSpare(g, s, p, q);
    forall o ensures InTree(s'.log, o) <==> o in f.linked { TreeStays(g, s, s', p, q, o); }
  }

  lemma EraseReads<V>(g: Geometry, s: State<V>, p: nat, q: nat, o: nat, c: nat)
    requires Inv(g, s) && Allowed(g, s, Erase(p, q))
    ensures InMemory(After(g, s, Erase(p, q)), o, c) == InMemory(s, o, c)
  {
    hide Inv, Marked;
    if (o, c) in s.tnodes { PageBelow(g, s, o, c); }
  }

  // ----- Power cut and mount -----

  lemma RestartStep<V>(g: Geometry, s: State<V>, f: Files<V>)
    requires Inv(g, s) && Shows(s, f)
    ensures var s' := After(g, s, Restart); Inv(g, s') && Shows(s', FilesAfter(g, s, f, Restart))
  {
    hide Inv, Shows, Restarted;
    RestartKeeps(g, s);
    RestartShows(g, s, Restarted(g, s), f);
  }

  lemma RestartShows<V>(g: Geometry, s: State<V>, s': State<V>, f: Files<V>)
    requires Inv(g, s) && Shows(s, f) && s' == Restarted(g, s)
    ensures Shows(s', FilesAfter(g, s, f, Restart))
  {
    hide FilesOk, LogOk, StartsOk, UncutOk, BlocksSafe, Mounted, LeftDeleted, HasLast, InTree;
    var f' := FilesAfter(g, s, f, Restart);
    forall o: nat, c: nat | o in f'.linked || o in f'.held ensures Right(f', o, c, InMemory(s', o, c)) {
      assert Right(f, o, c, InMemory(s, o, c));
      assert InTree(s.log, o) && Agrees(g, s, o, c);
      TreeNotDeleted(s, o);
    }
  }

  // ----- Runs -----

  lemma Step<V>(g: Geometry, s: State<V>, f: Files<V>, op: Op<V>)
    requires Inv(g, s) && Shows(s, f) && Allowed(g, s, op)
    ensures Inv(g, After(g, s, op)) && Shows(After(g, s, op), FilesAfter(g, s, f, op))
  {
    hide Inv, Shows, After, Allowed;
    match op
    case MakeFile(o) => MakeFileStep(g, s, f, o);
    case WriteChunk(_, _, _, _) => WriteStep(g, s, f, op);
    case Record(o, marker) => RecordStep(g, s, f, o, marker);
    case Prune(o, size) => PruneStep(g, s, f, o, size);
    case Resize(o, size) => ResizeStep(g, s, f, o, size);
    case Unlink(o) => UnlinkStep(g, s, f, o);
    case Delete(o) => DeleteStep(g, s, f, o);
    case Drop(o) => DropStep(g, s, f, o);
    case Copy(e) => CopyEntryStep(g, s, f, e);
    case Select(p, q) => SelectStep(g, s, f, p, q);
    case Erase(p, q) => EraseStep(g, s, f, p, q);
    case Restart => RestartStep(g, s, f);
  }

  /** The operations, one after the other, lead from s to s'. */
  ghost predicate Runs<V>(g: Geometry, s: State<V>, ops: seq<Op<V>>, s': State<V>)
    decreases |ops|
  {
    if ops == [] then s' == s else Allowed(g, s, ops[0]) && Runs(g, After(g, s, ops[0]), ops[1..], s')
  }

  ghost function FilesAfterAll<V>(g: Geometry, s: State<V>, f: Files<V>, ops: seq<Op<V>>): Files<V>
    decreases |ops|
  {
    if ops == [] then f else FilesAfterAll(g, After(g, s, ops[0]), FilesAfter(g, s, f, ops[0]), ops[1..])
  }

  lemma {:induction false} RunKeeps<V>(g: Geometry, s: State<V>, f: Files<V>, ops: seq<Op<V>>, s': State<V>)
    requires Inv(g, s) && Shows(s, f) && Runs(g, s, ops, s')
    ensures Inv(g, s') && Shows(s', FilesAfterAll(g, s, f, ops))
    decreases |ops|
  {
    hide Inv, Shows, After, Allowed, FilesAfter;
    if ops != [] {
      Step(g, s, f, ops[0]);
      RunKeeps(g, After(g, s, ops[0]), FilesAfter(g, s, f, ops[0]), ops[1..], s');
    }
  }

  /** An empty flash. */
  function Blank<V>(): State<V> {
    State([], 0, map[], map[], map[], map[], {}, {}, {})
  }

  function NoFiles<V>(): Files<V> {
    Files({}, {}, map[], {})
  }

  lemma BlankIsOk<V>(g: Geometry)
    requires g.bytesPerChunk > 0
    ensures Inv<V>(g, Blank()) && Shows<V>(Blank(), NoFiles()) && NoStale<V>(g, Blank())
  {
  }

  /** Every run, from an empty flash on and with mounts at any moment in it, leaves a log of which a mount makes exactly
      the files in the tree and reads back every chunk that was written to them and not cut since. Where there is none it
      reads nothing, or a ghost. So does memory, also for a file that was unlinked while it is open. Every prefix of a run
      is one. */
  lemma MountReadsBack<V>(g: Geometry, ops: seq<Op<V>>, s: State<V>)
    requires g.bytesPerChunk > 0 && Runs(g, Blank(), ops, s)
    ensures var f := FilesAfterAll(g, Blank(), NoFiles(), ops);
            && Inv(g, s) && Shows(s, f)
            && (forall o :: InTree(s.log, o) <==> o in f.linked)
            && (forall o: nat, c: nat :: o in f.linked && (o, c) in f.chunks ==> AfterMount(g, s, o, c) == Some(f.chunks[(o, c)]))
            && (forall o: nat, c: nat :: o in f.linked && (o, c) !in f.chunks && (o, c) !in f.ghosts && (o, c) !in s.ghosts ==>
                  AfterMount(g, s, o, c) == None)
  {
    hide Inv, Shows, Runs, InTree, FilesAfterAll;
    var f := FilesAfterAll(g, Blank<V>(), NoFiles<V>(), ops);
    BlankIsOk<V>(g);
    RunKeeps(g, Blank(), NoFiles(), ops, s);
    ShowsTree(s, f);
    hide AfterMount;
    forall o: nat, c: nat | o in f.linked
      ensures (o, c) in f.chunks ==> AfterMount(g, s, o, c) == Some(f.chunks[(o, c)])
      ensures (o, c) !in f.chunks && (o, c) !in f.ghosts && (o, c) !in s.ghosts ==> AfterMount(g, s, o, c) == None
    {
      MountShows(g, s, f, o, c);
    }
  }

  lemma ShowsTree<V>(s: State<V>, f: Files<V>)
    requires Shows(s, f)
    ensures forall o :: InTree(s.log, o) <==> o in f.linked
  {
  }

  lemma MountShows<V>(g: Geometry, s: State<V>, f: Files<V>, o: nat, c: nat)
    requires Inv(g, s) && Shows(s, f) && o in f.linked
    ensures (o, c) in f.chunks ==> AfterMount(g, s, o, c) == Some(f.chunks[(o, c)])
    ensures (o, c) !in f.chunks && (o, c) !in f.ghosts && (o, c) !in s.ghosts ==> AfterMount(g, s, o, c) == None
  {
    hide FilesOk, LogOk, StartsOk, UncutOk, BlocksSafe, Mounted, InTree;
    assert InTree(s.log, o) && Right(f, o, c, InMemory(s, o, c)) && Agrees(g, s, o, c);
  }

  // ----- The rule for holes -----

  /** What the code does: a hole that is not filled is started by a marker. A cut is not left half done. */
  ghost predicate ByTheRule<V>(g: Geometry, s: State<V>, op: Op<V>) {
    match op
    case WriteChunk(o, c, _, _) => InTree(s.log, o) ==> NoGap(g, Sizes(s.stored)(o), c) || Sealed(g, s, o)
    case Resize(o, size) => InTree(s.log, o) ==> size <= Sizes(s.stored)(o) || Sealed(g, s, o)
    case Restart => forall k :: k in s.ghosts ==> !InTree(s.log, k.0)
    case _ => true
  }

  predicate Appending<V>(op: Op<V>) {
    op.MakeFile? || op.WriteChunk? || op.Record? || op.Unlink? || op.Delete? || op.Copy?
  }

  /** An operation that writes a page. */
  ghost predicate Wrote<V>(g: Geometry, s: State<V>, op: Op<V>, s': State<V>, e: Entry) {
    && Appends(g, s, s', e) && (if e.Data? then DataAdds(g, s, s', e) else HeaderAdds(g, s, s', e))
    && (e.Data? ==> s'.stored == s.stored || (op.WriteChunk? && e.obj == op.o && e.chunk == op.c
                                              && Sizes(s'.stored)(op.o) == Max(Sizes(s.stored)(op.o), StartOf(g, e.chunk) + e.nBytes)))
    && (op == Record(e.obj, true) ==> e.Header? && e.isShrink && !e.gone && e.size == Sizes(s'.stored)(e.obj))
  }

  lemma AppendingWrote<V>(g: Geometry, s: State<V>, op: Op<V>) returns (e: Entry)
    requires Inv(g, s) && Appending(op) && Allowed(g, s, op)
    ensures Wrote(g, s, op, After(g, s, op), e)
    ensures op.Unlink? || op.Delete? || op.MakeFile? || op.Record? || op.WriteChunk? ==> e.obj == op.o
    ensures e.Header? ==> (e.gone ==> !InTree(s.log, e.obj) || op.Unlink? || op.Delete?) && (op.WriteChunk? ==> false)
  {
    hide Inv, Appends, DataAdds, HeaderAdds, InTree, GoneHeader, TreeHeader, Mounted, Raised, Stale, StoredOk, LogOk;
    var s' := After(g, s, op);
    match op
    case MakeFile(o) => e := Header(o, 0, false, false, s.next); NewFileAdds(g, s, s', e);
    case WriteChunk(o, c, n, _) => e := Data(o, c, n, s.next); WriteAdds(g, s, s', e, op); WrittenSize(g, s, op);
    case Record(o, marker) =>
      e := Header(o, Sizes(s.stored)(o), marker, false, s.next);
      RecordIs(g, s, s', o, marker, e);
      HeaderStep(g, s, s', e);
    case Unlink(o) => e := Header(o, 0, false, true, s.next); UnlinkIs(g, s, s', o, e); GoneHeaderKeeps(g, s, s', e);
    case Delete(o) => e := Header(o, 0, true, true, s.next); DeleteIs(g, s, s', o, e); GoneHeaderKeeps(g, s, s', e);
    case Copy(d) =>
      e := CopyOf(d, Sizes(s.stored), s.next);
      CopyWrote(g, s, s', d, e);
  }

  lemma WrittenSize<V>(g: Geometry, s: State<V>, op: Op<V>)
    requires op.WriteChunk?
    ensures Sizes(After(g, s, op).stored)(op.o) == Max(Sizes(s.stored)(op.o), StartOf(g, op.c) + op.n)
  {
    hide StartOf;
  }

  lemma CopyWrote<V>(g: Geometry, s: State<V>, s': State<V>, d: Entry, e: Entry)
    requires Inv(g, s) && d in s.log && Used(s, d) && s' == After(g, s, Copy(d)) && e == CopyOf(d, Sizes(s.stored), s.next)
    ensures Appends(g, s, s', e) && if e.Data? then DataAdds(g, s, s', e) else HeaderAdds(g, s, s', e)
    ensures e.Data? ==> s'.stored == s.stored
    ensures e.Header? && e.gone ==> !InTree(s.log, e.obj)
  {
    hide Inv, Appends, DataAdds, HeaderAdds, InTree, GoneHeader, TreeHeader, Mounted, StoredOk, After, Last;
    if d.Data? {
      CopyDataAdds(g, s, s', d, e);
    } else if d.gone {
      CopyGoneIs(g, s, s', d, e);
      GoneHeaderKeeps(g, s, s', e);
    } else {
      UsedIsLast(g, s, d);
      CopyLinkedIs(g, s, s', d, e);
      HeaderStep(g, s, s', e);
    }
  }

  /** By the rule for holes no chunk gets stale. */
  lemma RuleStep<V>(g: Geometry, s: State<V>, op: Op<V>)
    requires Inv(g, s) && Allowed(g, s, op) && ByTheRule(g, s, op) && NoStale(g, s)
    ensures NoStale(g, After(g, s, op))
  {
    if Appending(op) {
      RuleAppends(g, s, op);
    } else if op.Erase? {
      RuleErases(g, s, op.p, op.q);
    } else if op.Restart? {
      hide Inv, Restarted, NoStale, InTree;
      NoStaleAfterRestart(g, s);
    } else {
      RuleInMemory(g, s, op);
    }
  }

  lemma RuleAppends<V>(g: Geometry, s: State<V>, op: Op<V>)
    requires Inv(g, s) && Appending(op) && Allowed(g, s, op) && ByTheRule(g, s, op) && NoStale(g, s)
    ensures NoStale(g, After(g, s, op))
  {
    hide Inv, After, Appends, DataAdds, HeaderAdds, NoStale, InTree, LogOk, Sealed, NoGap;
    LogIsOk(g, s);
    var e := AppendingWrote(g, s, op);
    if e.Data? { NoStaleAfterData(g, s, After(g, s, op), e); } else { NoStaleAfterHeader(g, s, After(g, s, op), e); }
  }

  lemma RuleErases<V>(g: Geometry, s: State<V>, p: nat, q: nat)
    requires Inv(g, s) && Allowed(g, s, Erase(p, q)) && NoStale(g, s)
    ensures NoStale(g, After(g, s, Erase(p, q)))
  {
    hide Inv, After, Allowed, NoStale, Erases, Spare, LogOk, FilesOk, TnodesOk;
    EraseIsSpare(g, s, p, q);
    NoStaleAfterErase(g, s, After(g, s, Erase(p, q)), p, q);
  }

  lemma RuleInMemory<V>(g: Geometry, s: State<V>, op: Op<V>)
    requires Inv(g, s) && Allowed(g, s, op) && ByTheRule(g, s, op) && NoStale(g, s)
    requires op.Prune? || op.Resize? || op.Drop? || op.Select?
    ensures NoStale(g, After(g, s, op))
  {
    hide Inv, CutFrom, Newer, ChunkBase, StartOf, CutTo, Beyond;
    var s' := After(g, s, op);
    forall o: nat, c: nat | Stale(g, s', o, c) ensures (o, c) in s'.ghosts {
      var h, d :| Linked(s'.log, h) && h.obj == o && StalePage(g, s', h, d, c);
      assert InTree(s.log, o) && OfData(d, o);
      if ChunkBase(g, c) < Sizes(s.stored)(o) { assert StalePage(g, s, h, d, c) && Stale(g, s, o, c); }
    }
  }

  /** And no ghosts come up but by pruning. */
  lemma NoNewGhosts<V>(g: Geometry, s: State<V>, op: Op<V>)
    requires Inv(g, s) && Allowed(g, s, op) && NoStale(g, s) && !op.Prune?
    ensures After(g, s, op).ghosts <= s.ghosts
  {
    hide Inv, Stale, InTree;
  }

  ghost predicate AllByTheRule<V>(g: Geometry, s: State<V>, ops: seq<Op<V>>)
    decreases |ops|
  {
    ops == [] || (ByTheRule(g, s, ops[0]) && AllByTheRule(g, After(g, s, ops[0]), ops[1..]))
  }

  /** No file in the tree has been mounted with ghosts. */
  ghost predicate Unhaunted<V>(f: Files<V>) {
    forall o, c :: (o, c) in f.ghosts ==> o !in f.linked
  }

  lemma {:induction false} RuleKeeps<V>(g: Geometry, s: State<V>, f: Files<V>, ops: seq<Op<V>>, s': State<V>)
    requires Inv(g, s) && Shows(s, f) && Runs(g, s, ops, s') && AllByTheRule(g, s, ops) && NoStale(g, s) && Unhaunted(f)
    ensures NoStale(g, s') && Unhaunted(FilesAfterAll(g, s, f, ops))
    decreases |ops|
  {
    hide Inv, Shows, After, Allowed, FilesAfter, NoStale, ByTheRule, Unhaunted;
    if ops != [] {
      Step(g, s, f, ops[0]);
      RuleStep(g, s, ops[0]);
      StillUnhaunted(g, s, f, ops[0]);
      RuleKeeps(g, After(g, s, ops[0]), FilesAfter(g, s, f, ops[0]), ops[1..], s');
    }
  }

  lemma StillUnhaunted<V>(g: Geometry, s: State<V>, f: Files<V>, op: Op<V>)
    requires Shows(s, f) && ByTheRule(g, s, op) && Unhaunted(f)
    ensures Unhaunted(FilesAfter(g, s, f, op))
  {
    hide InTree, NoGap, Sealed, InMemory, StartOf, Laid;
  }

  /** By the rule for holes, and with no cut half done at a mount, a mount reads a file in the tree exactly as it is, as
      long as no chunks of it have been pruned whose header is not written yet. */
  lemma MountReadsAll<V>(g: Geometry, ops: seq<Op<V>>, s: State<V>, o: nat, c: nat)
    requires g.bytesPerChunk > 0 && Runs(g, Blank(), ops, s) && AllByTheRule(g, Blank(), ops) && (o, c) !in s.ghosts
    ensures var f := FilesAfterAll(g, Blank(), NoFiles(), ops);
            NoStale(g, s) && (o in f.linked ==> AfterMount(g, s, o, c) == Get(f.chunks, (o, c)))
  {
    hide Inv, Shows, Runs, InTree, FilesAfterAll, AllByTheRule, NoStale, AfterMount;
    var f := FilesAfterAll(g, Blank<V>(), NoFiles<V>(), ops);
    BlankIsOk<V>(g);
    RunKeeps(g, Blank(), NoFiles(), ops, s);
    RuleKeeps(g, Blank(), NoFiles(), ops, s);
    if o in f.linked { MountShows(g, s, f, o, c); }
  }

  /** A cut in its three steps: a mount reads the file cut as memory does, and nothing else has changed. */
  lemma CutInRun<V>(g: Geometry, s: State<V>, f: Files<V>, o: nat, size: int, s': State<V>, c: nat)
    requires Inv(g, s) && Shows(s, f) && InTree(s.log, o) && Runs(g, s, [Prune(o, size), Resize(o, size), Record(o, false)], s')
    ensures var f' := FilesAfter(g, s, f, Prune(o, size));
            && Inv(g, s') && Shows(s', f')
            && (StartOf(g, c) < size && (o, c) in f.chunks ==> AfterMount(g, s', o, c) == Some(f.chunks[(o, c)]))
            && (StartOf(g, c) >= size ==> AfterMount(g, s', o, c) == None)
  {
    hide Inv, Shows, InTree, Runs, StartOf, AfterMount, After, FilesAfter, Allowed;
    var s1, s2 := ThreeSteps(g, s, Prune(o, size), Resize(o, size), Record(o, false), s');
    var f' := FilesAfter(g, s, f, Prune(o, size));
    PruneStep(g, s, f, o, size);
    ResizeStep(g, s1, f', o, size);
    RecordStep(g, s2, f', o, false);
    ResizedTo(g, s1, o, size);
    CutShown(g, s, f, o, size, s', c);
  }

  lemma ResizedTo<V>(g: Geometry, s: State<V>, o: nat, size: int)
    ensures Sizes(After(g, s, Resize(o, size)).stored)(o) == size
  {
  }

  lemma ThreeSteps<V>(g: Geometry, s: State<V>, a: Op<V>, b: Op<V>, c: Op<V>, s': State<V>) returns (s1: State<V>, s2: State<V>)
    requires Runs(g, s, [a, b, c], s')
    ensures Allowed(g, s, a) && s1 == After(g, s, a) && Allowed(g, s1, b) && s2 == After(g, s1, b)
    ensures Allowed(g, s2, c) && s' == After(g, s2, c)
  {
    hide Allowed, After, Runs;
    s1 := After(g, s, a);
    s2 := After(g, s1, b);
    assert [a, b, c][1..] == [b, c] && [b, c][1..] == [c] && [c][1..] == [];
    FirstStep(g, s, [a, b, c], s');
    FirstStep(g, s1, [b, c], s');
    FirstStep(g, s2, [c], s');
    NoStep(g, After(g, s2, c), s');
  }

  lemma FirstStep<V>(g: Geometry, s: State<V>, ops: seq<Op<V>>, s': State<V>)
    requires ops != [] && Runs(g, s, ops, s')
    ensures Allowed(g, s, ops[0]) && Runs(g, After(g, s, ops[0]), ops[1..], s')
  {
  }

  lemma NoStep<V>(g: Geometry, s: State<V>, s': State<V>)
    requires Runs(g, s, [], s')
    ensures s' == s
  {
  }

  lemma CutShown<V>(g: Geometry, s: State<V>, f: Files<V>, o: nat, size: int, s': State<V>, c: nat)
    requires Inv(g, s') && Shows(s', FilesAfter(g, s, f, Prune(o, size))) && Shows(s, f) && InTree(s.log, o)
    requires forall k: nat :: (o, k) in s'.ghosts ==> StartOf(g, k) < size
    ensures StartOf(g, c) < size && (o, c) in f.chunks ==> AfterMount(g, s', o, c) == Some(f.chunks[(o, c)])
    ensures StartOf(g, c) >= size ==> AfterMount(g, s', o, c) == None
  {
    var f' := FilesAfter(g, s, f, Prune(o, size));
    ShowsTree(s, f);
    hide Inv, Shows, InTree, StartOf, AfterMount;
    MountShows(g, s', f', o, c);
  }

  // ----- Markers -----

  predicate EndsMarker<V>(op: Op<V>, o: nat) {
    op == Resize(o, if op.Resize? then op.size else 0) || op == Unlink(o) || op == Delete(o) || op.Restart?
  }

  lemma SealedStep<V>(g: Geometry, s: State<V>, op: Op<V>, o: nat)
    requires Inv(g, s) && Allowed(g, s, op) && InTree(s.log, o) && Sealed(g, s, o) && !EndsMarker(op, o)
    ensures InTree(After(g, s, op).log, o) && Sealed(g, After(g, s, op), o)
  {
    if Appending(op) {
      SealedAppends(g, s, op, o);
    } else if op.Erase? {
      hide Inv, After, Sealed, Erases, Spare, LogOk, FilesOk, TnodesOk, InTree, Allowed;
      EraseIsSpare(g, s, op.p, op.q);
      TreeStays(g, s, After(g, s, op), op.p, op.q, o);
      SealedAfterErase(g, s, After(g, s, op), op.p, op.q, o);
    } else {
      hide Inv, InTree, CutFrom, ChunkBase, CutTo, Beyond;
    }
  }

  lemma SealedAppends<V>(g: Geometry, s: State<V>, op: Op<V>, o: nat)
    requires Inv(g, s) && Appending(op) && Allowed(g, s, op) && InTree(s.log, o) && Sealed(g, s, o) && !EndsMarker(op, o)
    ensures InTree(After(g, s, op).log, o) && Sealed(g, After(g, s, op), o)
  {
    hide Inv, After, Appends, Sealed, InTree, LogOk, StartOf, Stale;
    LogIsOk(g, s);
    TreeKnown(g, s, o);
    var s' := After(g, s, op);
    var e := AppendingWrote(g, s, op);
    TreeAfter(g, s, s', e, o);
    assert Sizes(s.stored)(o) <= Sizes(s'.stored)(o) by { SizeKept(g, s, op, s', e, o); }
    SealedAfter(g, s, s', e, o);
  }

  lemma SizeKept<V>(g: Geometry, s: State<V>, op: Op<V>, s': State<V>, e: Entry, o: nat)
    requires Wrote(g, s, op, s', e) && o in s.hdr
    ensures Sizes(s.stored)(o) <= Sizes(s'.stored)(o)
  {
    hide StartOf, Stale, InTree, Fits;
  }

  lemma {:induction false} StaysSealed<V>(g: Geometry, s: State<V>, f: Files<V>, ops: seq<Op<V>>, s': State<V>, o: nat)
    requires Inv(g, s) && Shows(s, f) && InTree(s.log, o) && Sealed(g, s, o) && Runs(g, s, ops, s')
    requires forall op :: op in ops ==> !EndsMarker(op, o)
    ensures InTree(s'.log, o) && Sealed(g, s', o) && Inv(g, s')
    decreases |ops|
  {
    hide Inv, Shows, After, Allowed, InTree, Sealed;
    if ops != [] {
      assert ops[0] in ops;
      Step(g, s, f, ops[0]);
      SealedStep(g, s, ops[0], o);
      StaysSealed(g, After(g, s, ops[0]), FilesAfter(g, s, f, ops[0]), ops[1..], s', o);
    }
  }

  /** A marker covers what comes after it, whatever headers and copies of headers follow: writing any chunk of the file is
      by the rule until the file is cut, unlinked, deleted or mounted again. */
  lemma MarkerCovers<V>(g: Geometry, s: State<V>, f: Files<V>, ops: seq<Op<V>>, s': State<V>, o: nat, c: nat, n: nat, v: V)
    requires Inv(g, s) && Shows(s, f) && Allowed(g, s, Record(o, true)) && Runs(g, After(g, s, Record(o, true)), ops, s')
    requires (forall op :: op in ops ==> !EndsMarker(op, o)) && Fits(g, Data(o, c, n, s'.next))
    ensures Allowed(g, s', WriteChunk(o, c, n, v)) && ByTheRule(g, s', WriteChunk(o, c, n, v))
  {
    hide Inv, Shows, InTree, Runs, After, Sealed, FilesAfter;
    var s1 := After(g, s, Record(o, true));
    MarkerSeals(g, s, o);
    Step(g, s, f, Record(o, true));
    StaysSealed(g, s1, FilesAfter(g, s, f, Record(o, true)), ops, s', o);
    TreeKnown(g, s', o);
  }

  lemma MarkerSeals<V>(g: Geometry, s: State<V>, o: nat)
    requires Inv(g, s) && Allowed(g, s, Record(o, true))
    ensures Sealed(g, After(g, s, Record(o, true)), o) && InTree(After(g, s, Record(o, true)).log, o)
  {
    hide Inv, InTree, Appends, HeaderAdds, DataAdds, After, Sealed, LogOk;
    LogIsOk(g, s);
    var s1 := After(g, s, Record(o, true));
    var e := AppendingWrote(g, s, Record(o, true));
    SealedByMarker(g, s, s1, e);
    TreeAfter(g, s, s1, e, o);
  }

  // ----- A collection in rounds -----

  lemma {:induction false} StaysSelected<V>(g: Geometry, s: State<V>, ops: seq<Op<V>>, s': State<V>, p: nat, q: nat)
    requires (p, q) in s.selected && Runs(g, s, ops, s') && forall op :: op in ops ==> !op.Restart?
    ensures (p, q) in s'.selected
    decreases |ops|
  {
    hide InTree, Allowed, CutTo, Forgotten, Without, Raised, Beyond, Laid;
    if ops != [] {
      assert ops[0] in ops;
      StaysSelected(g, After(g, s, ops[0]), ops[1..], s', p, q);
    }
  }

  /** Collecting what is left of a block: every page in use is copied, then the block is erased. */
  lemma {:induction false} CollectRest<V>(g: Geometry, s: State<V>, f: Files<V>, es: seq<Entry>, p: nat, q: nat)
    returns (ops: seq<Op<V>>, s': State<V>)
    requires Inv(g, s) && Shows(s, f) && p <= q <= s.next && (p, q) in s.selected
    requires forall e :: e in s.log && !Outside(e, p, q) && Used(s, e) ==> e in es
    ensures Runs(g, s, ops, s') && Inv(g, s') && Shows(s', f) && forall e :: e in s'.log ==> Outside(e, p, q)
    ensures forall op :: op in ops ==> op.Copy? || op == Erase(p, q)
    ensures NoStale(g, s) ==> NoStale(g, s') && s'.ghosts <= s.ghosts
    decreases |es|
  {
    hide Inv, Shows, InTree, NoStale;
    if es == [] {
      s' := After(g, s, Erase(p, q));
      ops := [Erase(p, q)];
      EraseStep(g, s, f, p, q);
      assert Runs(g, s', ops[1..], s');
      if NoStale(g, s) { RuleStep(g, s, Erase(p, q)); }
    } else if es[0] in s.log && Used(s, es[0]) {
      var s1 := After(g, s, Copy(es[0]));
      CopyEntryStep(g, s, f, es[0]);
      CopyTakesOut(g, s, es, p, q);
      if NoStale(g, s) {
        RuleStep(g, s, Copy(es[0]));
        NoNewGhosts(g, s, Copy(es[0]));
      }
      var rest: seq<Op<V>>;
      rest, s' := CollectRest(g, s1, f, es[1..], p, q);
      ops := [Copy(es[0])] + rest;
      assert ops[1..] == rest;
    } else {
      ops, s' := CollectRest(g, s, f, es[1..], p, q);
    }
  }

  /** Of the pages of the block, just the one copied falls out of use. */
  lemma CopyTakesOut<V>(g: Geometry, s: State<V>, es: seq<Entry>, p: nat, q: nat)
    requires Inv(g, s) && p <= q <= s.next && es != [] && es[0] in s.log && Used(s, es[0])
    requires forall e :: e in s.log && !Outside(e, p, q) && Used(s, e) ==> e in es
    ensures var s1 := After(g, s, Copy(es[0]));
            && q <= s1.next && s1.selected == s.selected
            && forall e :: e in s1.log && !Outside(e, p, q) && Used(s1, e) ==> e in es[1..]
  {
    hide FilesOk, ChunksOk, BlocksSafe, Places, InTree, Raised;
    var s1 := After(g, s, Copy(es[0]));
    forall e | e in s1.log && !Outside(e, p, q) && Used(s1, e) ensures e in es[1..] {
      assert e in s.log && Used(s, e) && e != es[0];
    }
  }

  /** A collection in rounds: once a block has been admitted, and whatever has been done since, it can be collected to the
      end, one page after the other, and all files read on what they read. By the rule for holes it raises no ghosts. */
  lemma CollectionInRun<V>(g: Geometry, s: State<V>, f: Files<V>, p: nat, q: nat, between: seq<Op<V>>, s1: State<V>)
    returns (ops: seq<Op<V>>, s': State<V>)
    requires Inv(g, s) && Shows(s, f) && Allowed(g, s, Select(p, q))
    requires Runs(g, After(g, s, Select(p, q)), between, s1) && forall op :: op in between ==> !op.Restart?
    ensures Runs(g, s1, ops, s') && (forall op :: op in ops ==> op.Copy? || op == Erase(p, q))
    ensures Inv(g, s') && Shows(s', FilesAfterAll(g, After(g, s, Select(p, q)), f, between))
    ensures forall e :: e in s'.log ==> Outside(e, p, q)
    ensures NoStale(g, s1) ==> NoStale(g, s') && s'.ghosts <= s1.ghosts
  {
    hide Inv, Shows, InTree, Runs, Harmless, Marked, NoneDiscarded, NoStale;
    var s0 := After(g, s, Select(p, q));
    SelectStep(g, s, f, p, q);
    RunKeeps(g, s0, f, between, s1);
    StaysSelected(g, s0, between, s1, p, q);
    assert q <= s1.next by { SelectedBelow(g, s1, p, q); }
    ops, s' := CollectRest(g, s1, FilesAfterAll(g, s0, f, between), s1.log, p, q);
  }

  lemma SelectedBelow<V>(g: Geometry, s: State<V>, p: nat, q: nat)
    requires Inv(g, s) && (p, q) in s.selected
    ensures p <= q <= s.next
  {
    hide LogOk, FilesOk, ChunksOk, UnlinksOk, Harmless;
  }

  // ----- The scan -----

  /** What is read of a chunk when the pages lie where place says. */
  function ReadAt<V>(files: map<nat, FileVar>, flash: map<nat, V>, o: nat, c: nat): Option<V> {
    match Get(FileOf(files, o).chunks, c)
    case None => None
    case Some(p) => Get(flash, p)
  }

  /** The scan of the blocks that hold such a log, wherever on the device they are, finds what the files in the tree held,
      and the sizes and pages with which a run goes on. */
  method Remount<V>(m: Mount, g: Geometry, blocks: seq<Block>, ghost place: nat -> nat, ghost flash: map<nat, V>,
                    ghost s: State<V>, ghost f: Files<V>)
    requires Inv(g, s) && Shows(s, f)
    requires BlocksOk(g, blocks) && Placed(s.log, Log(g, blocks, |blocks|), place)
    requires forall e :: e in s.log ==> Get(flash, place(e.page)) == Get(s.contents, e.page)
    requires m.files == map[] && m.live == {}
    modifies m
    ensures forall o: nat, c: nat :: o in f.linked && (o, c) in f.chunks ==> ReadAt(m.files, flash, o, c) == Some(f.chunks[(o, c)])
    ensures forall o: nat, c: nat :: o in f.linked && (o, c) !in f.chunks && (o, c) !in f.ghosts && (o, c) !in s.ghosts ==>
              ReadAt(m.files, flash, o, c) == None
    ensures forall o :: Sizes(Restarted(g, s).stored)(o) == FileOf(m.files, o).storedSize
    ensures forall o, c :: o !in Restarted(g, s).deleted ==>
              Get(FileOf(m.files, o).chunks, c) == At(place, Get(Restarted(g, s).tnodes, (o, c)))
  {
    hide Inv, Shows, BlocksOk, Log, Mounted, Forward, SizeAt, LeftDeleted, HasLast, Placed, ReadAt;
    m.ScanBackwards(g, blocks);
    ghost var log := Log(g, blocks, |blocks|);
    assert |log| == |s.log| by { PlacedLength(s.log, log, place); }
    forall o: nat, c: nat ensures Get(FileOf(m.files, o).chunks, c) == At(place, Get(Mounted(g, s.log), (o, c))) {
      PlacedForward(g, s.log, log, place, |log|, o, c);
      MountedIs(g, s.log);
    }
    forall o: nat, c: nat | o in f.linked
      ensures (o, c) in f.chunks ==> ReadAt(m.files, flash, o, c) == Some(f.chunks[(o, c)])
      ensures (o, c) !in f.chunks && (o, c) !in f.ghosts && (o, c) !in s.ghosts ==> ReadAt(m.files, flash, o, c) == None
    {
      ReadsThere(g, s, f, m.files, flash, place, o, c);
      MountShows(g, s, f, o, c);
    }
    forall o ensures Sizes(Restarted(g, s).stored)(o) == FileOf(m.files, o).storedSize {
      assert FileMatches(g, FileOf(m.files, o), log, 0, o);
      PlacedSize(g, s.log, log, place, 0, o);
      if o !in Objects(s.log) { NoSize(g, s.log, 0, o); }
    }
  }

  lemma PlacedLength(log: seq<Entry>, placed: seq<Entry>, place: nat -> nat)
    requires Placed(log, placed, place)
    ensures |placed| == |log|
  {
  }

  lemma MountedIs(g: Geometry, log: seq<Entry>)
    ensures Mounted(g, log) == Forward(g, log, |log|)
  {
  }

  lemma ReadsThere<V>(g: Geometry, s: State<V>, f: Files<V>, files: map<nat, FileVar>, flash: map<nat, V>, place: nat -> nat, o: nat, c: nat)
    requires Shows(s, f) && o in f.linked && Get(FileOf(files, o).chunks, c) == At(place, Get(Mounted(g, s.log), (o, c)))
    requires forall e :: e in s.log ==> Get(flash, place(e.page)) == Get(s.contents, e.page)
    ensures ReadAt(files, flash, o, c) == AfterMount(g, s, o, c)
  {
    ShowsTree(s, f);
    hide Shows, InTree, ChunkBase;
    if (o, c) in Mounted(g, s.log) {
      ForwardFromEntry(g, s.log, |s.log|, o, c);
      var i :| 0 <= i < |s.log| && IsData(s.log[i], o, c, Mounted(g, s.log)[(o, c)]);
      assert s.log[i] in s.log;
    }
  }

  // ----- Out of order -----

  /** Chunks need not reach the flash in order. The slots of the cache are flushed as they lie, slots are given up as they
      are needed, and whole chunks may be written past the cache: here chunk 2 reaches it before chunk 1 after the file was
      cut to nothing. A header written then, and be it the copy that collection makes of the last one, records a size that
      covers chunk 1, which is a ghost until it is written: a mount would bring back what it held before the cut. */
  lemma OvertakingResurfaces(g: Geometry)
    requires g.bytesPerChunk == 2048
    ensures var log := [Data(300, 1, 10, 77), Header(300, 0, false, false, 78), Data(300, 2, 2048, 79)];
            var copy := CopyOf(log[1], o => 4096, 80);
            && !NoGap(g, 0, 2)
            && Get(Mounted(g, log), (300, 1)) == None
            && Get(Mounted(g, log + [copy]), (300, 1)) == Some(77)
            && Get(Mounted(g, log + [copy, Data(300, 1, 20, 81)]), (300, 1)) == Some(81)
  {
    var log := [Data(300, 1, 10, 77), Header(300, 0, false, false, 78), Data(300, 2, 2048, 79)];
    var copy := Header(300, 4096, false, false, 80);
    assert LastHeader(log, 1, 300);
    assert Forward(g, log, 0) == map[];
    assert Forward(g, log, 1) == map[(300, 1) := 77];
    assert ChunkBase(g, 1) == 0;
    assert Get(Forward(g, log, 2), (300, 1)) == None;
    WriteHeader(g, log, 1, copy, 300, 1);
    WriteData(g, log + [copy], 300, 1, 20, 81);
    assert log + [copy] + [Data(300, 1, 20, 81)] == log + [copy, Data(300, 1, 20, 81)];
  }
}
