/** Why garbage collection may rewrite the log: what each operation of a running file system does to the
    result that a later mount would read back from the log. */
module LogCollection {
  import opened Options
  import opened MountScan

  /** The chunk map that a mount would build from this log. */
  ghost function Mounted(g: Geometry, log: seq<Entry>): map<(nat, nat), nat> {
    Forward(g, log, |log|)
  }

  // ----- Only the suffix of a log decides what was chosen from it -----

  ghost predicate SameSuffix(l1: seq<Entry>, i1: nat, l2: seq<Entry>, i2: nat) {
    i1 <= |l1| && i2 <= |l2| && l1[i1..] == l2[i2..]
  }

  lemma SuffixHasHeader(l1: seq<Entry>, i1: nat, l2: seq<Entry>, i2: nat, obj: nat)
    requires SameSuffix(l1, i1, l2, i2)
    ensures HasHeader(l1, i1, obj) == HasHeader(l2, i2, obj)
    decreases |l1| - i1
  {
    if i1 < |l1| {
      assert l1[i1..][0] == l2[i2..][0] && l1[i1..][1..] == l2[i2..][1..];
      assert l1[i1 + 1..] == l2[i2 + 1..];
      SuffixHasHeader(l1, i1 + 1, l2, i2 + 1, obj);
    }
  }

  lemma {:induction false} SuffixChosen(g: Geometry, l1: seq<Entry>, i1: nat, l2: seq<Entry>, i2: nat, obj: nat, chunk: nat)
    requires SameSuffix(l1, i1, l2, i2)
    ensures Shrink(l1, i1, obj) == Shrink(l2, i2, obj)
    ensures Chosen(g, l1, i1, obj, chunk) == Chosen(g, l2, i2, obj, chunk)
    decreases |l1| - i1
  {
    if i1 < |l1| {
      assert l1[i1..][0] == l2[i2..][0] && l1[i1..][1..] == l2[i2..][1..];
      assert l1[i1 + 1..] == l2[i2 + 1..];
      SuffixHasHeader(l1, i1 + 1, l2, i2 + 1, l1[i1].obj);
      SuffixChosen(g, l1, i1 + 1, l2, i2 + 1, obj, chunk);
    }
  }

  /** Two logs with a common prefix replay it alike when every header in it is followed by another header of
      its file in both or in neither. */
  lemma {:induction false} PrefixForward(g: Geometry, l1: seq<Entry>, l2: seq<Entry>, n: nat)
    requires n <= |l1| && n <= |l2| && l1[..n] == l2[..n]
    requires forall i :: 0 <= i < n && l1[i].Header? ==> HasHeader(l1, i + 1, l1[i].obj) == HasHeader(l2, i + 1, l1[i].obj)
    ensures Forward(g, l1, n) == Forward(g, l2, n)
  {
    if n > 0 {
      assert l1[n - 1] == l1[..n][n - 1] == l2[n - 1];
      assert l1[..n - 1] == l1[..n][..n - 1] == l2[..n - 1];
      PrefixForward(g, l1, l2, n - 1);
    }
  }

  /** Every page in the map belongs to a data entry of the log for that chunk. */
  lemma {:induction false} ForwardFromEntry(g: Geometry, log: seq<Entry>, n: nat, obj: nat, chunk: nat)
    requires n <= |log| && (obj, chunk) in Forward(g, log, n)
    ensures exists i :: 0 <= i < n && IsData(log[i], obj, chunk, Forward(g, log, n)[(obj, chunk)])
  {
    if !IsData(log[n - 1], obj, chunk, Forward(g, log, n)[(obj, chunk)]) {
      ForwardFromEntry(g, log, n - 1, obj, chunk);
    }
  }

  predicate IsData(e: Entry, obj: nat, chunk: nat, page: nat) {
    e.Data? && e.obj == obj && e.chunk == chunk && e.page == page
  }

  lemma HasHeaderAt(log: seq<Entry>, i: nat, j: nat, obj: nat)
    requires i <= j < |log| && log[j].Header? && log[j].obj == obj
    ensures HasHeader(log, i, obj)
    decreases j - i
  {
    if i < j { HasHeaderAt(log, i + 1, j, obj); }
  }

  /** Splitting a header search at a later point. */
  lemma HasHeaderSplit(log: seq<Entry>, i: nat, j: nat, obj: nat)
    requires i <= j <= |log|
    ensures HasHeader(log, i, obj) <==> HasHeader(log, j, obj) || exists k :: i <= k < j && log[k].Header? && log[k].obj == obj
    decreases j - i
  {
    if i < j { HasHeaderSplit(log, i + 1, j, obj); }
  }

  // ----- Writing a data page -----

  /** Writing a chunk redirects that chunk and nothing else. */
  lemma WriteData(g: Geometry, log: seq<Entry>, obj: nat, chunk: nat, n: nat, page: nat)
    requires ChunkBase(g, chunk) < MAX_FILE_SIZE
    ensures Mounted(g, log + [Data(obj, chunk, n, page)]) == Mounted(g, log)[(obj, chunk) := page]
  {
    var log' := log + [Data(obj, chunk, n, page)];
    assert log'[..|log|] == log[..|log|];
    forall i | 0 <= i < |log| && log[i].Header? ensures HasHeader(log, i + 1, log[i].obj) == HasHeader(log', i + 1, log[i].obj) {
      HasHeaderSplit(log, i + 1, |log|, log[i].obj);
      HasHeaderSplit(log', i + 1, |log|, log[i].obj);
    }
    PrefixForward(g, log', log, |log|);
  }

  // ----- Writing a header -----

  /** The header at h is the last one of its file. */
  ghost predicate LastHeader(log: seq<Entry>, h: nat, obj: nat) {
    h < |log| && log[h].Header? && log[h].obj == obj && !HasHeader(log, h + 1, obj)
  }

  predicate DataOf(e: Entry, obj: nat, chunk: nat) {
    e.Data? && e.obj == obj && e.chunk == chunk
  }

  ghost predicate Rewritten(log: seq<Entry>, i: nat, n: nat, obj: nat, chunk: nat)
    requires i <= n <= |log|
  {
    exists k :: i <= k < n && DataOf(log[k], obj, chunk)
  }

  /** What the header at h still cuts off once a newer header of its file exists. */
  function CutSize(h: Entry): int
    requires h.Header?
  {
    if h.gone then 0 else if h.isShrink then h.size else MAX_FILE_SIZE
  }

  /** Chunks hidden by nothing but the file's last header, which a larger file size would bring back. */
  ghost predicate Resurfaces(g: Geometry, log: seq<Entry>, h: nat, newSize: int, chunk: nat)
    requires h < |log| && log[h].Header?
  {
    && log[h].size <= ChunkBase(g, chunk) < newSize
    && ChunkBase(g, chunk) < CutSize(log[h])
    && (log[h].obj, chunk) in Forward(g, log, h)
    && !Rewritten(log, h + 1, |log|, log[h].obj, chunk)
  }

  /** Chunks of a file already out of the tree, which count up to the recorded size only while that header is
      the last one. */
  ghost predicate Vanishes(g: Geometry, log: seq<Entry>, h: nat, newSize: int, chunk: nat)
    requires h < |log| && log[h].Header?
  {
    && CutSize(log[h]) <= ChunkBase(g, chunk) < log[h].size
    && ChunkBase(g, chunk) < newSize
    && (log[h].obj, chunk) in Forward(g, log, h)
    && !Rewritten(log, h + 1, |log|, log[h].obj, chunk)
  }

  /** A log and its extension by one more header of a file whose last header so far is at h. */
  ghost predicate Extended(log: seq<Entry>, log': seq<Entry>, h: nat, obj: nat) {
    && LastHeader(log, h, obj)
    && |log'| == |log| + 1 && log'[..|log|] == log && log'[|log|].Header? && log'[|log|].obj == obj
  }

  lemma HeadersAfter(log: seq<Entry>, log': seq<Entry>, h: nat, obj: nat, i: nat)
    requires Extended(log, log', h, obj) && i <= |log|
    ensures forall o :: HasHeader(log', i, o) == (HasHeader(log, i, o) || o == obj)
    ensures i <= h ==> HasHeader(log, i, obj)
  {
    forall o ensures HasHeader(log', i, o) == (HasHeader(log, i, o) || o == obj) {
      HasHeaderSplit(log, i, |log|, o);
      HasHeaderSplit(log', i, |log|, o);
      assert forall k :: i <= k < |log| ==> log'[k] == log[k];
    }
    if i <= h { HasHeaderAt(log, i, h, obj); }
  }

  lemma BeforeHeader(g: Geometry, log: seq<Entry>, log': seq<Entry>, h: nat, obj: nat)
    requires Extended(log, log', h, obj)
    ensures Forward(g, log', h) == Forward(g, log, h)
  {
    assert log'[..h] == log'[..|log|][..h] == log[..h];
    forall i | 0 <= i < h && log'[i].Header? ensures HasHeader(log', i + 1, log'[i].obj) == HasHeader(log, i + 1, log'[i].obj) {
      HeadersAfter(log, log', h, obj, i + 1);
    }
    PrefixForward(g, log', log, h);
  }

  /** What one entry does to the page of a chunk. */
  ghost function Stepped(g: Geometry, log: seq<Entry>, n: nat, o: nat, c: nat, was: Option<nat>): Option<nat>
    requires 0 < n <= |log|
  {
    match log[n - 1]
    case Data(x, k, _, p) => if x == o && k == c && ChunkBase(g, c) < MAX_FILE_SIZE then Some(p) else was
    case Header(x, _, _, _, _) => if x == o && ChunkBase(g, c) >= Limit(log, n - 1) then None else was
  }

  lemma ForwardStep(g: Geometry, log: seq<Entry>, n: nat, o: nat, c: nat)
    requires 0 < n <= |log|
    ensures Get(Forward(g, log, n), (o, c)) == Stepped(g, log, n, o, c, Get(Forward(g, log, n - 1), (o, c)))
  {
    hide ChunkBase, Limit;
  }

  lemma OtherStep(g: Geometry, log: seq<Entry>, log': seq<Entry>, h: nat, obj: nat, n: nat, o: nat, c: nat, was: Option<nat>)
    requires Extended(log, log', h, obj) && 0 < n <= |log| && o != obj && log'[n - 1] == log[n - 1]
    ensures Stepped(g, log', n, o, c, was) == Stepped(g, log, n, o, c, was)
  {
    HeadersAfter(log, log', h, obj, n);
    hide ChunkBase, Extended;
  }

  /** Replaying past h: another file reads alike in both logs. */
  lemma {:induction false} OtherFileSinceHeader(g: Geometry, log: seq<Entry>, log': seq<Entry>, h: nat, obj: nat, n: nat, o: nat, c: nat)
    requires Extended(log, log', h, obj) && h < n <= |log| && o != obj
    ensures Get(Forward(g, log', n), (o, c)) == Get(Forward(g, log, n), (o, c))
  {
    assert log'[n - 1] == log'[..|log|][n - 1] == log[n - 1];
    OtherStep(g, log, log', h, obj, n, o, c, Get(Forward(g, log, n - 1), (o, c)));
    ForwardStep(g, log, n, o, c);
    ForwardStep(g, log', n, o, c);
    hide Forward, Stepped;
    if n == h + 1 {
      BeforeHeader(g, log, log', h, obj);
    } else {
      OtherFileSinceHeader(g, log, log', h, obj, n - 1, o, c);
    }
  }

  /** One entry past the last header: it writes the chunk in both logs, or leaves it as it was in both. */
  lemma SinceStep(g: Geometry, log: seq<Entry>, log': seq<Entry>, h: nat, obj: nat, n: nat, c: nat)
    requires Extended(log, log', h, obj) && h + 1 < n <= |log|
    ensures DataOf(log[n - 1], obj, c) ==> Get(Forward(g, log', n), (obj, c)) == Get(Forward(g, log, n), (obj, c))
    ensures !DataOf(log[n - 1], obj, c) ==>
              && Get(Forward(g, log', n), (obj, c)) == Get(Forward(g, log', n - 1), (obj, c))
              && Get(Forward(g, log, n), (obj, c)) == Get(Forward(g, log, n - 1), (obj, c))
  {
    assert |log'| > |log|;
    OwnStep(g, log, log', h, obj, n, c, Get(Forward(g, log, n - 1), (obj, c)));
    OwnStep(g, log, log', h, obj, n, c, Get(Forward(g, log', n - 1), (obj, c)));
    hide Forward, ChunkBase, Extended, HasHeader, Stepped;
    ForwardStep(g, log, n, obj, c);
    ForwardStep(g, log', n, obj, c);
  }

  /** Replaying past h: a chunk of the file that was rewritten since then reads alike in both logs; any other
      is what was there before h, cut by the full size in the one log and by CutSize in the other. */
  lemma {:induction false} SinceHeader(g: Geometry, log: seq<Entry>, log': seq<Entry>, h: nat, obj: nat, n: nat, c: nat)
    requires Extended(log, log', h, obj) && h < n <= |log|
    ensures Rewritten(log, h + 1, n, obj, c) ==> Get(Forward(g, log', n), (obj, c)) == Get(Forward(g, log, n), (obj, c))
    ensures !Rewritten(log, h + 1, n, obj, c) ==>
              && Get(Forward(g, log', n), (obj, c)) == (if ChunkBase(g, c) < CutSize(log[h]) then Get(Forward(g, log, h), (obj, c)) else None)
              && Get(Forward(g, log, n), (obj, c)) == (if ChunkBase(g, c) < log[h].size then Get(Forward(g, log, h), (obj, c)) else None)
  {
    if n == h + 1 {
      NotYetRewritten(log, h + 1, obj, c);
      AtHeader(g, log, log', h, obj, c);
      hide Forward, ChunkBase, Extended, HasHeader, Rewritten, CutSize;
    } else {
      SinceHeader(g, log, log', h, obj, n - 1, c);
      SinceStep(g, log, log', h, obj, n, c);
      RewrittenNext(log, h + 1, n, obj, c);
      hide Forward, ChunkBase, Extended, HasHeader, Rewritten, CutSize, DataOf, Get;
    }
  }

  /** Past its last header, only writing a chunk of the file changes what it reads, and in both logs alike. */
  lemma OwnStep(g: Geometry, log: seq<Entry>, log': seq<Entry>, h: nat, obj: nat, n: nat, c: nat, was: Option<nat>)
    requires Extended(log, log', h, obj) && h + 1 < n <= |log|
    ensures !DataOf(log[n - 1], obj, c) ==> Stepped(g, log, n, obj, c, was) == Stepped(g, log', n, obj, c, was) == was
    ensures DataOf(log[n - 1], obj, c) ==>
              Get(Forward(g, log', n), (obj, c)) == Get(Forward(g, log, n), (obj, c))
  {
    hide ChunkBase;
    var e := log[n - 1];
    assert log'[n - 1] == log'[..|log|][n - 1] == e;
    HasHeaderSplit(log, h + 1, n, obj);
    assert !(e.Header? && e.obj == obj);
    if DataOf(e, obj, c) {
      ForwardBounded(g, log, n);
      ForwardBounded(g, log', n);
    }
  }

  lemma NotYetRewritten(log: seq<Entry>, i: nat, obj: nat, c: nat)
    requires i <= |log|
    ensures !Rewritten(log, i, i, obj, c)
  {
  }

  lemma RewrittenNext(log: seq<Entry>, i: nat, n: nat, obj: nat, c: nat)
    requires i < n <= |log|
    ensures Rewritten(log, i, n, obj, c) <==> Rewritten(log, i, n - 1, obj, c) || DataOf(log[n - 1], obj, c)
  {
  }

  lemma AtHeader(g: Geometry, log: seq<Entry>, log': seq<Entry>, h: nat, obj: nat, c: nat)
    requires Extended(log, log', h, obj)
    ensures var was := Get(Forward(g, log, h), (obj, c));
            && Get(Forward(g, log', h + 1), (obj, c)) == (if ChunkBase(g, c) < CutSize(log[h]) then was else None)
            && Get(Forward(g, log, h + 1), (obj, c)) == (if ChunkBase(g, c) < log[h].size then was else None)
  {
    assert log'[h] == log'[..|log|][h] == log[h];
    BeforeHeader(g, log, log', h, obj);
    HeadersAfter(log, log', h, obj, h + 1);
    assert Limit(log', h) == CutSize(log[h]) && Limit(log, h) == log[h].size by { hide ChunkBase, Forward; }
    ForwardBounded(g, log, h);
    ForwardStep(g, log, h + 1, obj, c);
    ForwardStep(g, log', h + 1, obj, c);
    hide Forward, ChunkBase, HasHeader, Limit, Extended, CutSize;
  }

  /** Writing a header over an older one: the file is cut to the new size, other files keep everything, and
      stale chunks come back exactly where Resurfaces says so. */
  lemma WriteHeader(g: Geometry, log: seq<Entry>, h: nat, e: Entry, o: nat, c: nat)
    requires e.Header? && LastHeader(log, h, e.obj)
    ensures Get(Mounted(g, log + [e]), (o, c)) ==
            if o == e.obj && Resurfaces(g, log, h, e.size, c) then Get(Forward(g, log, h), (o, c))
            else if o == e.obj && Vanishes(g, log, h, e.size, c) then None
            else Get(Prune(g, Mounted(g, log), e.obj, e.size), (o, c))
  {
    hide ChunkBase;
    var log' := log + [e];
    assert Limit(log', |log|) == e.size;
    assert Mounted(g, log') == Prune(g, Forward(g, log', |log|), e.obj, e.size);
    if o != e.obj {
      OtherFileSinceHeader(g, log, log', h, e.obj, |log|, o, c);
    } else {
      WriteOwnHeader(g, log, log', h, e, c);
    }
  }

  lemma WriteOwnHeader(g: Geometry, log: seq<Entry>, log': seq<Entry>, h: nat, e: Entry, c: nat)
    requires e.Header? && Extended(log, log', h, e.obj)
    ensures var was := Get(Forward(g, log', |log|), (e.obj, c));
            if ChunkBase(g, c) >= e.size then true
            else if Resurfaces(g, log, h, e.size, c) then was == Get(Forward(g, log, h), (e.obj, c))
            else if Vanishes(g, log, h, e.size, c) then was == None
            else was == Get(Mounted(g, log), (e.obj, c))
  {
    hide ChunkBase;
    SinceHeader(g, log, log', h, e.obj, |log|, c);
    ForwardBounded(g, log, h);
  }

  /** A header write means to a later mount what it means to the running file system if and only if no stale
      chunk resurfaces and none vanishes: that is what writing out holes, or marking them with a shrink
      header, is for. */
  lemma HeaderKeepsReads(g: Geometry, log: seq<Entry>, h: nat, e: Entry)
    requires e.Header? && LastHeader(log, h, e.obj)
    ensures Mounted(g, log + [e]) == Prune(g, Mounted(g, log), e.obj, e.size)
            <==> forall c :: !Resurfaces(g, log, h, e.size, c) && !Vanishes(g, log, h, e.size, c)
  {
    hide ChunkBase;
    var after, want := Mounted(g, log + [e]), Prune(g, Mounted(g, log), e.obj, e.size);
    if c :| Resurfaces(g, log, h, e.size, c) || Vanishes(g, log, h, e.size, c) {
      WriteHeader(g, log, h, e, e.obj, c);
      SinceHeader(g, log, log + [e], h, e.obj, |log|, c);
      assert Get(after, (e.obj, c)) != Get(want, (e.obj, c));
    } else {
      forall o, c ensures Get(after, (o, c)) == Get(want, (o, c)) {
        WriteHeader(g, log, h, e, o, c);
      }
      SameLookups(after, want);
    }
  }

  lemma SameLookups(a: map<(nat, nat), nat>, b: map<(nat, nat), nat>)
    requires forall o, c :: Get(a, (o, c)) == Get(b, (o, c))
    ensures a == b
  {
    forall k: (nat, nat) ensures Get(a, k) == Get(b, k) {
      assert k == (k.0, k.1);
    }
    assert forall k :: k in a ==> Get(a, k) == Get(b, k);
    assert forall k :: k in b ==> Get(a, k) == Get(b, k);
  }

  /** The case the hole rule exists for: chunk 2 was cut off by an ordinary header of size zero and comes back
      when a larger size is recorded with nothing written in between. */
  lemma UnmarkedHoleResurfaces(g: Geometry)
    requires g.bytesPerChunk == 2048
    ensures var log := [Data(300, 2, 10, 77), Header(300, 0, false, false, 78)];
            && Get(Mounted(g, log), (300, 2)) == None
            && Get(Mounted(g, log + [Header(300, 4096, false, false, 79)]), (300, 2)) == Some(77)
  {
    var log := [Data(300, 2, 10, 77), Header(300, 0, false, false, 78)];
    assert LastHeader(log, 1, 300);
    assert Forward(g, log, 0) == map[];
    assert Forward(g, log, 1) == map[(300, 2) := 77];
    assert ChunkBase(g, 2) == 2048;
    WriteHeader(g, log, 1, Header(300, 4096, false, false, 79), 300, 2);
  }

  // ----- Erasing a collected block -----

  /** No page of these entries is in use: their data pages are not in the map and none is a last header. */
  ghost predicate NothingInUse(g: Geometry, log: seq<Entry>, from: nat, end: nat)
    requires from <= end <= |log|
  {
    forall i :: from <= i < end ==>
      match log[i]
      case Data(o, c, _, p) => Get(Mounted(g, log), (o, c)) != Some(p)
      case Header(o, _, _, _, _) => HasHeader(log, end, o)
  }

  /** Every data page of the first n entries is in use: no block among them holds discarded data. */
  ghost predicate NothingDiscarded(g: Geometry, log: seq<Entry>, n: nat)
    requires n <= |log|
  {
    forall i :: 0 <= i < n && log[i].Data? ==> Get(Mounted(g, log), (log[i].obj, log[i].chunk)) == Some(log[i].page)
  }

  /** A header among the entries from..end still cuts its file to less than everything newer does. Only a shrink
      header, or one that put its file out of the tree, can. */
  ghost predicate HasShrinkHeader(log: seq<Entry>, from: nat, end: nat)
    requires from <= end <= |log|
  {
    exists i :: from <= i < end && log[i].Header? && CutSize(log[i]) < Shrink(log, end, log[i].obj)
  }

  predicate OfHeader(e: Entry, o: nat) { e.Header? && e.obj == o }

  /** Of a file, nothing in use is in the block: its headers there have a successor further on, and no page there is the
      one of the chunk. */
  ghost predicate DeadFor(g: Geometry, log: seq<Entry>, from: nat, end: nat, o: nat, c: nat)
    requires from <= end <= |log|
  {
    && (forall k :: from <= k < end && OfHeader(log[k], o) ==> HasHeader(log, end, o))
    && (forall k :: from <= k < end && DataOf(log[k], o, c) ==> Get(Mounted(g, log), (o, c)) != Some(log[k].page))
  }

  /** What a block without a last header of the file adds to what the scan knows of it when it arrives at its end. */
  lemma {:induction false} DeadBlock(g: Geometry, log: seq<Entry>, from: nat, i: nat, end: nat, o: nat, c: nat)
    requires from <= i <= end <= |log|
    requires forall k :: from <= k < end && OfHeader(log[k], o) ==> HasHeader(log, end, o)
    ensures Chosen(g, log, i, o, c) == Chosen(g, log, end, o, c) ||
            exists k :: i <= k < end && DataOf(log[k], o, c) && Chosen(g, log, i, o, c) == Some(log[k].page)
    ensures Chosen(g, log, end, o, c).Some? ==> Chosen(g, log, i, o, c) == Chosen(g, log, end, o, c)
    ensures Shrink(log, i, o) <= Shrink(log, end, o)
    ensures Shrink(log, i, o) < Shrink(log, end, o) ==>
              exists k :: i <= k < end && OfHeader(log[k], o) && Shrink(log, i, o) == CutSize(log[k])
    decreases end - i
  {
    if i < end {
      DeadBlock(g, log, from, i + 1, end, o, c);
      ShrinkBounded(log, end, o);
      HasHeaderSplit(log, i + 1, end, log[i].obj);
    }
  }

  /** The block is all that keeps an older page of the chunk from being read: nothing newer decides the chunk, the block
      cuts it off, and nothing after the block does. */
  ghost predicate Uncovers(g: Geometry, log: seq<Entry>, from: nat, end: nat, o: nat, c: nat)
    requires from <= end <= |log|
  {
    && Chosen(g, log, end, o, c).None? && (o, c) in Forward(g, log, from)
    && Shrink(log, from, o) <= ChunkBase(g, c) < Shrink(log, end, o)
  }

  /** Before the block, a file whose headers in it have a successor reads as it does without the block. */
  lemma PrefixWithout(g: Geometry, a: seq<Entry>, b: seq<Entry>, c: seq<Entry>, o: nat, ch: nat)
    requires var log := a + b + c; forall k :: |a| <= k < |a + b| && OfHeader(log[k], o) ==> HasHeader(log, |a + b|, o)
    ensures Get(Forward(g, a + c, |a|), (o, ch)) == Get(Forward(g, a + b + c, |a|), (o, ch))
  {
    var log, rest := a + b + c, a + c;
    assert log[|a + b|..] == c == rest[|a|..];
    SuffixHasHeader(log, |a + b|, rest, |a|, o);
    forall i | 0 <= i < |a| && log[i].Header? && log[i].obj == o ensures HasHeader(log, i + 1, o) == HasHeader(rest, i + 1, o) {
      HasHeaderSplit(log, i + 1, |a + b|, o);
      HasHeaderSplit(rest, i + 1, |a|, o);
      assert forall k :: 0 <= k < |a| ==> log[k] == rest[k] == a[k];
    }
    assert log[..|a|] == a == rest[..|a|];
    PrefixForwardOf(g, log, rest, |a|, o, ch);
  }

  /** Erasing a block keeps what a mount reads for a chunk that has nothing in use there if and only if the block was not
      all that kept an older page of the chunk from being read. */
  lemma EraseChunkExact(g: Geometry, a: seq<Entry>, b: seq<Entry>, c: seq<Entry>, o: nat, ch: nat)
    requires DeadFor(g, a + b + c, |a|, |a + b|, o, ch)
    ensures Get(Mounted(g, a + c), (o, ch)) == Get(Mounted(g, a + b + c), (o, ch))
            <==> !Uncovers(g, a + b + c, |a|, |a + b|, o, ch)
  {
    var log, rest := a + b + c, a + c;
    assert log[|a + b|..] == c == rest[|a|..];
    SuffixChosen(g, log, |a + b|, rest, |a|, o, ch);
    BackwardIsForward(g, log, o, ch);
    BackwardIsForward(g, rest, o, ch);
    SplitAt(g, log, |a|, o, ch);
    SplitAt(g, rest, |a|, o, ch);
    DeadBlock(g, log, |a|, |a|, |a + b|, o, ch);
    PrefixWithout(g, a, b, c, o, ch);
    hide ChunkBase, Forward, Chosen, Shrink, HasHeader;
  }

  lemma DeadForAll(g: Geometry, log: seq<Entry>, from: nat, end: nat, o: nat, c: nat)
    requires from <= end <= |log| && NothingInUse(g, log, from, end)
    ensures DeadFor(g, log, from, end, o, c)
  {
    hide Mounted, HasHeader;
  }

  /** Erasing a block that holds nothing in use keeps the mounted map if and only if it was not all that kept an older
      page of some chunk from being read. */
  lemma EraseExact(g: Geometry, a: seq<Entry>, b: seq<Entry>, c: seq<Entry>)
    requires NothingInUse(g, a + b + c, |a|, |a + b|)
    ensures Mounted(g, a + c) == Mounted(g, a + b + c)
            <==> forall o, ch :: !Uncovers(g, a + b + c, |a|, |a + b|, o, ch)
  {
    hide NothingInUse, DeadFor, Uncovers, Mounted;
    var log, rest := a + b + c, a + c;
    forall o, ch
      ensures Get(Mounted(g, rest), (o, ch)) == Get(Mounted(g, log), (o, ch)) <==> !Uncovers(g, log, |a|, |a + b|, o, ch)
    {
      DeadForAll(g, log, |a|, |a + b|, o, ch);
      EraseChunkExact(g, a, b, c, o, ch);
    }
    if forall o, ch :: !Uncovers(g, log, |a|, |a + b|, o, ch) { SameLookups(Mounted(g, rest), Mounted(g, log)); }
  }

  /** That is so when the block has no shrink header or no older page holds discarded data, the rule by which blocks are
      admitted to collection. */
  lemma EraseKeepsReads(g: Geometry, a: seq<Entry>, b: seq<Entry>, c: seq<Entry>)
    requires NothingInUse(g, a + b + c, |a|, |a + b|)
    requires HasShrinkHeader(a + b + c, |a|, |a + b|) ==> NothingDiscarded(g, a + b + c, |a|)
    ensures Mounted(g, a + c) == Mounted(g, a + b + c)
  {
    hide Mounted, NothingInUse, NothingDiscarded, HasShrinkHeader;
    var log := a + b + c;
    forall o, ch ensures !Uncovers(g, log, |a|, |a + b|, o, ch) { NeverUncovers(g, log, |a|, |a + b|, o, ch); }
    EraseExact(g, a, b, c);
  }

  lemma NeverUncovers(g: Geometry, log: seq<Entry>, from: nat, end: nat, o: nat, c: nat)
    requires from <= end <= |log| && NothingInUse(g, log, from, end)
    requires HasShrinkHeader(log, from, end) ==> NothingDiscarded(g, log, from)
    ensures !Uncovers(g, log, from, end, o, c)
  {
    if Uncovers(g, log, from, end, o, c) {
      DeadBlock(g, log, from, from, end, o, c);
      ForwardFromEntry(g, log, from, o, c);
      BackwardIsForward(g, log, o, c);
      SplitAt(g, log, from, o, c);
      hide Forward, ChunkBase, Chosen, Shrink, HasHeader;
    }
  }

  // ----- Collecting a block: copy what is in use end the end of the log, then erase -----

  /** What a chunk reads, given the contents of the pages. */
  ghost function Read<V>(g: Geometry, log: seq<Entry>, contents: map<nat, V>, obj: nat, chunk: nat): Option<V>
  {
    match Get(Mounted(g, log), (obj, chunk))
    case None => None
    case Some(p) => Get(contents, p)
  }

  /** Copying a file's header with its shrink mark cleared and its stored size brought up to date keeps the
      map when the stored size covers every chunk in use and nothing resurfaces below it. */
  lemma CopyHeader(g: Geometry, log: seq<Entry>, h: nat, e: Entry)
    requires e.Header? && LastHeader(log, h, e.obj)
    requires forall c :: (e.obj, c) in Mounted(g, log) ==> ChunkBase(g, c) < e.size
    requires forall c :: !Resurfaces(g, log, h, e.size, c) && !Vanishes(g, log, h, e.size, c)
    ensures Mounted(g, log + [e]) == Mounted(g, log)
    ensures HasHeader(log + [e], h + 1, e.obj)
  {
    HeaderKeepsReads(g, log, h, e);
    HasHeaderAt(log + [e], h + 1, |log|, e.obj);
  }

  /** Per-file form of PrefixForward: only the headers of the file itself matter. */
  lemma {:induction false} PrefixForwardOf(g: Geometry, l1: seq<Entry>, l2: seq<Entry>, n: nat, o: nat, c: nat)
    requires n <= |l1| && n <= |l2| && l1[..n] == l2[..n]
    requires forall i :: 0 <= i < n && l1[i].Header? && l1[i].obj == o ==> HasHeader(l1, i + 1, o) == HasHeader(l2, i + 1, o)
    ensures Get(Forward(g, l1, n), (o, c)) == Get(Forward(g, l2, n), (o, c))
  {
    hide ChunkBase;
    if n > 0 {
      assert l1[n - 1] == l1[..n][n - 1] == l2[n - 1];
      assert l1[..n - 1] == l1[..n][..n - 1] == l2[..n - 1];
      PrefixForwardOf(g, l1, l2, n - 1, o, c);
    }
  }

  /** Appending an entry that is not a header of the file leaves its last header last, and brings no new chunk
      of it back to the surface. */
  lemma StillLast(g: Geometry, log: seq<Entry>, e: Entry, h: nat, obj: nat, s: int, c: nat)
    requires LastHeader(log, h, obj) && !(e.Header? && e.obj == obj)
    ensures LastHeader(log + [e], h, obj)
    ensures Resurfaces(g, log + [e], h, s, c) ==> Resurfaces(g, log, h, s, c)
    ensures Vanishes(g, log + [e], h, s, c) ==> Vanishes(g, log, h, s, c)
  {
    hide ChunkBase;
    var log' := log + [e];
    HasHeaderSplit(log', h + 1, |log|, obj);
    HasHeaderSplit(log, h + 1, |log|, obj);
    assert forall i :: 0 <= i < |log| ==> log'[i] == log[i];
    assert log'[..h] == log[..h];
    forall i | 0 <= i < h && log'[i].Header? && log'[i].obj == obj ensures HasHeader(log', i + 1, obj) == HasHeader(log, i + 1, obj) {
      HasHeaderAt(log', i + 1, h, obj);
      HasHeaderAt(log, i + 1, h, obj);
    }
    PrefixForwardOf(g, log', log, h, obj, c);
    if Rewritten(log, h + 1, |log|, obj, c) {
      var k :| h + 1 <= k < |log| && DataOf(log[k], obj, c);
      assert DataOf(log'[k], obj, c);
    }
  }

  /** The stored sizes recorded in copied headers cover what their files hold and bring nothing back. */
  ghost predicate SizesFit(g: Geometry, log: seq<Entry>, from: nat, end: nat, stored: nat -> int)
    requires from <= end <= |log|
  {
    forall h :: from <= h < end && log[h].Header? && LastHeader(log, h, log[h].obj) ==> SizeFits(g, log, h, stored(log[h].obj))
  }

  ghost predicate SizeFits(g: Geometry, log: seq<Entry>, h: nat, s: int)
    requires h < |log| && log[h].Header?
  {
    && (forall c :: (log[h].obj, c) in Mounted(g, log) ==> ChunkBase(g, c) < s)
    && (forall c :: !Resurfaces(g, log, h, s, c) && !Vanishes(g, log, h, s, c))
  }

  lemma SizesStillFit(g: Geometry, log: seq<Entry>, e: Entry, from: nat, end: nat, stored: nat -> int)
    requires from <= end <= |log| && SizesFit(g, log, from, end, stored)
    requires Mounted(g, log + [e]).Keys <= Mounted(g, log).Keys
    ensures SizesFit(g, log + [e], from, end, stored)
  {
    hide Mounted, Resurfaces, Vanishes, Forward;
    var log' := log + [e];
    forall h | from <= h < end && log'[h].Header? && LastHeader(log', h, log'[h].obj)
      ensures SizeFits(g, log', h, stored(log'[h].obj))
    {
      var o := log[h].obj;
      assert log'[h] == log[h];
      HasHeaderSplit(log', h + 1, |log|, o);
      HasHeaderSplit(log, h + 1, |log|, o);
      assert forall i :: 0 <= i < |log| ==> log'[i] == log[i];
      assert log'[|log|] == e;
      assert LastHeader(log, h, o);
      forall c ensures !Resurfaces(g, log', h, stored(o), c) && !Vanishes(g, log', h, stored(o), c) {
        StillLast(g, log, e, h, o, stored(o), c);
      }
    }
  }

  /** Whether the entry at i must be copied when its block is collected. */
  ghost predicate InUse(g: Geometry, log: seq<Entry>, i: nat)
    requires i < |log|
  {
    match log[i]
    case Data(o, c, _, p) => Get(Mounted(g, log), (o, c)) == Some(p)
    case Header(o, _, _, _, _) => !HasHeader(log, i + 1, o)
  }

  /** The copy that collection writes to a new page: data as it is, a header without its shrink mark and
      with the file's stored size. */
  function CopyOf(e: Entry, stored: nat -> int, page: nat): Entry {
    match e
    case Data(o, c, n, _) => Data(o, c, n, page)
    case Header(o, _, _, gone, _) => Header(o, stored(o), false, gone, page)
  }

  /** The log after the entries from i up to end have been visited in order, each one in use being copied to the end. */
  ghost function Copies(g: Geometry, log: seq<Entry>, i: nat, end: nat, stored: nat -> int, next: nat): seq<Entry>
    requires i <= end <= |log|
    decreases end - i
  {
    if i == end then log
    else if InUse(g, log, i) then Copies(g, log + [CopyOf(log[i], stored, next)], i + 1, end, stored, next + 1)
    else Copies(g, log, i + 1, end, stored, next)
  }

  ghost predicate PagesBelow(log: seq<Entry>, next: nat) {
    forall i :: 0 <= i < |log| ==> log[i].page < next
  }

  lemma MountedPagesBelow(g: Geometry, log: seq<Entry>, next: nat)
    requires PagesBelow(log, next)
    ensures forall k :: k in Mounted(g, log) ==> Mounted(g, log)[k] < next
  {
    hide ChunkBase;
    forall k | k in Mounted(g, log) ensures Mounted(g, log)[k] < next {
      assert k == (k.0, k.1);
      ForwardFromEntry(g, log, |log|, k.0, k.1);
    }
  }

  /** What one copy does to the mounted map: only the copied chunk, if any, changes, and only its page. */
  lemma OneCopy(g: Geometry, log: seq<Entry>, i: nat, stored: nat -> int, next: nat)
    requires i < |log| && InUse(g, log, i)
    requires log[i].Header? ==> SizeFits(g, log, i, stored(log[i].obj))
    ensures var m, m' := Mounted(g, log), Mounted(g, log + [CopyOf(log[i], stored, next)]);
            m' == if log[i].Data? then m[(log[i].obj, log[i].chunk) := next] else m
  {
    hide ChunkBase, Forward, Resurfaces, Vanishes;
    var e := CopyOf(log[i], stored, next);
    match log[i]
    case Data(o, c, n, p) =>
      MountedBounded(g, log, o, c);
      WriteData(g, log, o, c, n, next);
    case Header(o, _, _, _, _) =>
      CopyHeader(g, log, i, e);
  }

  lemma MountedBounded(g: Geometry, log: seq<Entry>, o: nat, c: nat)
    requires (o, c) in Mounted(g, log)
    ensures ChunkBase(g, c) < MAX_FILE_SIZE
  {
    ForwardBounded(g, log, |log|);
  }

  /** The pages of the older blocks that were in use still are. */
  lemma CopyKeepsUse(g: Geometry, log: seq<Entry>, i: nat, stored: nat -> int, next: nat, k: nat)
    requires i < |log| && InUse(g, log, i) && DistinctPages(log) && PagesBelow(log, next)
    requires log[i].Header? ==> SizeFits(g, log, i, stored(log[i].obj))
    requires k < |log| && log[k].Data?
    ensures var log' := log + [CopyOf(log[i], stored, next)];
            InUse(g, log', k) == (InUse(g, log, k) && k != i)
  {
    hide ChunkBase, Forward, SizeFits, Mounted;
    OneCopy(g, log, i, stored, next);
    var log' := log + [CopyOf(log[i], stored, next)];
    assert log'[k] == log[k];
    if k < i { assert log[k].page != log[i].page; } else if i < k { assert log[i].page != log[k].page; }
  }

  /** The contents of the pages after the same visit. */
  ghost function CopiedContents<V>(g: Geometry, log: seq<Entry>, i: nat, end: nat, stored: nat -> int, next: nat, contents: map<nat, V>): map<nat, V>
    requires i <= end <= |log|
    decreases end - i
  {
    if i == end then contents
    else if InUse(g, log, i) then
      var contents' := if log[i].page in contents then contents[next := contents[log[i].page]] else contents;
      CopiedContents(g, log + [CopyOf(log[i], stored, next)], i + 1, end, stored, next + 1, contents')
    else CopiedContents(g, log, i + 1, end, stored, next, contents)
  }

  /** Of the entries between from and i, data pages are unused and headers have a successor further on. */
  ghost predicate Visited(g: Geometry, log: seq<Entry>, from: nat, i: nat)
    requires from <= i <= |log|
  {
    forall k :: from <= k < i ==> if log[k].Data? then !InUse(g, log, k) else HasHeader(log, i, log[k].obj)
  }

  lemma VisitCopied(g: Geometry, log: seq<Entry>, from: nat, i: nat, stored: nat -> int, next: nat)
    requires from <= i < |log| && Visited(g, log, from, i) && InUse(g, log, i)
    requires DistinctPages(log) && PagesBelow(log, next)
    requires log[i].Header? ==> SizeFits(g, log, i, stored(log[i].obj))
    ensures Visited(g, log + [CopyOf(log[i], stored, next)], from, i + 1)
  {
    hide InUse, SizeFits;
    var log' := log + [CopyOf(log[i], stored, next)];
    forall k | from <= k < i + 1
      ensures if log'[k].Data? then !InUse(g, log', k) else HasHeader(log', i + 1, log'[k].obj)
    {
      assert log'[k] == log[k];
      var o := log[k].obj;
      if log[k].Data? {
        CopyKeepsUse(g, log, i, stored, next, k);
      } else {
        assert k < i ==> HasHeader(log, i, o);
        HasHeaderSplit(log, i, |log|, o);
        if log[i].Header? && log[i].obj == o {
          HasHeaderAt(log', i + 1, |log|, o);
        } else {
          var j :| i <= j < |log| && log[j].Header? && log[j].obj == o;
          assert log'[j] == log[j];
          HasHeaderAt(log', i + 1, j, o);
        }
      }
    }
  }

  lemma VisitSkipped(g: Geometry, log: seq<Entry>, from: nat, i: nat)
    requires from <= i < |log| && Visited(g, log, from, i) && !InUse(g, log, i)
    ensures Visited(g, log, from, i + 1)
  {
    forall k | from <= k < i + 1
      ensures if log[k].Data? then !InUse(g, log, k) else HasHeader(log, i + 1, log[k].obj)
    {
      if k < i && log[k].Header? { assert HasHeader(log, i, log[k].obj); }
    }
  }

  /** A copied header can only lower what the rest of the log cuts its file to. */
  lemma {:induction false} ShrinkAfterCopy(log: seq<Entry>, e: Entry, i: nat, o: nat)
    requires i <= |log| && (e.Header? ==> !HasHeader(log, i, e.obj))
    ensures Shrink(log + [e], i, o) <= Shrink(log, i, o)
    decreases |log| - i
  {
    var log' := log + [e];
    if i < |log| {
      ShrinkAfterCopy(log, e, i + 1, o);
      assert log'[i] == log[i];
      if log[i].Header? && log[i].obj == o {
        HasHeaderSplit(log', i + 1, |log|, o);
        HasHeaderSplit(log, i + 1, |log|, o);
        assert forall k :: i < k < |log| ==> log'[k] == log[k];
      }
    } else {
      ShrinkBounded(log', i, o);
    }
  }

  /** Copying everything in use out of a block: nothing in use is left in it, older blocks keep their pages and
      every chunk of every file reads what it read before. */
  lemma {:induction false} CopyAll<V>(g: Geometry, log: seq<Entry>, from: nat, i: nat, end: nat, stored: nat -> int, next: nat, contents: map<nat, V>)
    requires from <= i <= end <= |log| && Visited(g, log, from, i)
    requires DistinctPages(log) && PagesBelow(log, next) && SizesFit(g, log, i, end, stored)
    requires forall p :: p in contents ==> p < next
    ensures var log' := Copies(g, log, i, end, stored, next);
            var contents' := CopiedContents(g, log, i, end, stored, next, contents);
            && log <= log' && Visited(g, log', from, end)
            && (forall k :: 0 <= k < from && log[k].Data? ==> InUse(g, log', k) == InUse(g, log, k))
            && (forall o :: Shrink(log', end, o) <= Shrink(log, end, o))
            && (forall o, c :: Read(g, log', contents', o, c) == Read(g, log, contents, o, c))
    decreases end - i
  {
    hide InUse, SizeFits, ChunkBase, Mounted, Read, Visited, CopyOf, Shrink, HasHeader;
    if i < end {
      if InUse(g, log, i) {
        var log1 := log + [CopyOf(log[i], stored, next)];
        var contents1 := if log[i].page in contents then contents[next := contents[log[i].page]] else contents;
        CopyStep(g, log, from, i, end, stored, next);
        ReadStep(g, log, i, stored, next, contents);
        CopyAll(g, log1, from, i + 1, end, stored, next + 1, contents1);
        forall o ensures Shrink(log1, end, o) <= Shrink(log, end, o) {
          HeadersFurther(g, log, i, end, stored, next);
          ShrinkAfterCopy(log, CopyOf(log[i], stored, next), end, o);
        }
        forall k | 0 <= k < from && log[k].Data? ensures InUse(g, Copies(g, log, i, end, stored, next), k) == InUse(g, log, k) {
          assert log1[k] == log[k];
          CopyKeepsUse(g, log, i, stored, next, k);
        }
      } else {
        VisitSkipped(g, log, from, i);
        CopyAll(g, log, from, i + 1, end, stored, next, contents);
      }
    }
  }

  lemma HeadersFurther(g: Geometry, log: seq<Entry>, i: nat, end: nat, stored: nat -> int, next: nat)
    requires i < end <= |log| && InUse(g, log, i)
    ensures var e := CopyOf(log[i], stored, next); e.Header? ==> !HasHeader(log, end, e.obj)
  {
    HasHeaderSplit(log, i + 1, end, log[i].obj);
  }

  lemma CopyStep(g: Geometry, log: seq<Entry>, from: nat, i: nat, end: nat, stored: nat -> int, next: nat)
    requires from <= i < end <= |log| && Visited(g, log, from, i) && InUse(g, log, i)
    requires DistinctPages(log) && PagesBelow(log, next) && SizesFit(g, log, i, end, stored)
    ensures var log' := log + [CopyOf(log[i], stored, next)];
            Visited(g, log', from, i + 1) && DistinctPages(log') && PagesBelow(log', next + 1) && SizesFit(g, log', i + 1, end, stored)
    ensures log[i].Header? ==> SizeFits(g, log, i, stored(log[i].obj))
  {
    hide SizeFits, Mounted, Visited;
    assert log[i].Header? ==> LastHeader(log, i, log[i].obj);
    VisitCopied(g, log, from, i, stored, next);
    OneCopy(g, log, i, stored, next);
    assert SizesFit(g, log, i + 1, end, stored);
    if log[i].Data? { MappedAlready(g, log, i); }
    SizesStillFit(g, log, CopyOf(log[i], stored, next), i + 1, end, stored);
  }

  lemma MappedAlready(g: Geometry, log: seq<Entry>, i: nat)
    requires i < |log| && log[i].Data? && InUse(g, log, i)
    ensures (log[i].obj, log[i].chunk) in Mounted(g, log)
  {
  }

  lemma ReadStep<V>(g: Geometry, log: seq<Entry>, i: nat, stored: nat -> int, next: nat, contents: map<nat, V>)
    requires i < |log| && InUse(g, log, i) && PagesBelow(log, next)
    requires log[i].Header? ==> SizeFits(g, log, i, stored(log[i].obj))
    requires forall p :: p in contents ==> p < next
    ensures var log' := log + [CopyOf(log[i], stored, next)];
            var contents' := if log[i].page in contents then contents[next := contents[log[i].page]] else contents;
            forall o, c :: Read(g, log', contents', o, c) == Read(g, log, contents, o, c)
  {
    hide SizeFits, Forward;
    OneCopy(g, log, i, stored, next);
    MountedPagesBelow(g, log, next);
  }

  // ----- The whole collection of one block -----

  /** Collecting the block b of the log a + b + c by copying what is in use and erasing it changes nothing that a
      mount would read, if the block has no shrink header or no older page holds discarded data. */
  lemma CollectionKeepsReads<V>(g: Geometry, a: seq<Entry>, b: seq<Entry>, c: seq<Entry>, stored: nat -> int, next: nat, contents: map<nat, V>)
    requires var log := a + b + c;
             && DistinctPages(log) && PagesBelow(log, next) && SizesFit(g, log, |a|, |a + b|, stored)
             && (HasShrinkHeader(log, |a|, |a + b|) ==> NothingDiscarded(g, log, |a|))
    requires forall p :: p in contents ==> p < next
    ensures var log := a + b + c;
            var copied := Copies(g, log, |a|, |a + b|, stored, next);
            var contents' := CopiedContents(g, log, |a|, |a + b|, stored, next, contents);
            && log <= copied
            && forall o, ch :: Read(g, a + c + copied[|log|..], contents', o, ch) == Read(g, log, contents, o, ch)
  {
    hide ChunkBase, Forward, SizeFits, Mounted;
    var log := a + b + c;
    var copied := Copies(g, log, |a|, |a + b|, stored, next);
    CopyAll(g, log, |a|, |a|, |a + b|, stored, next, contents);
    var rest := c + copied[|log|..];
    assert copied == log + copied[|log|..] == a + b + rest;
    assert a + c + copied[|log|..] == a + rest;
    assert NothingInUse(g, copied, |a|, |a + b|);
    if HasShrinkHeader(copied, |a|, |a + b|) {
      assert forall i :: 0 <= i < |log| ==> copied[i] == log[i];
      var i :| |a| <= i < |a + b| && copied[i].Header? && CutSize(copied[i]) < Shrink(copied, |a + b|, copied[i].obj);
      assert CutSize(log[i]) < Shrink(log, |a + b|, log[i].obj);
      assert NothingDiscarded(g, copied, |a|);
    }
    EraseKeepsReads(g, a, b, rest);
  }
}
