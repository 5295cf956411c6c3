/** Block summaries (yaffs_summary.c): the tags of a block's chunks, gathered while the block is filled and written to
    its last pages, behind a header in each. */
module Summary {
  import opened ObjectIds
  import opened Arith
  import opened Bytes

  const SUMMARY_VERSION: nat := 1
  const TAG_BYTES: nat := 12
  const HEADER_BYTES: nat := 16

  // ----- Geometry -----

  /** How many chunks of a block yaffs_summary_init sets aside, and how many it leaves. */
  function ChunksUsed(chunksPerBlock: nat, dataBytes: nat): nat
    requires dataBytes > HEADER_BYTES
  {
    (chunksPerBlock * TAG_BYTES + dataBytes - 1) / (dataBytes - HEADER_BYTES)
  }

  function ChunksPerSummary(chunksPerBlock: nat, dataBytes: nat): int
    requires dataBytes > HEADER_BYTES
  {
    chunksPerBlock - ChunksUsed(chunksPerBlock, dataBytes)
  }

  /** The summary in pieces that fit a chunk beside the header. */
  function Chop(buf: seq<byte>, perChunk: nat): (r: seq<seq<byte>>)
    requires perChunk > 0
    ensures |r| > 0
  {
    if |buf| <= perChunk then [buf] else [buf[..perChunk]] + Chop(buf[perChunk..], perChunk)
  }

  /** The pieces still to come. */
  function Left(rest: seq<byte>, perChunk: nat): seq<seq<byte>>
    requires perChunk > 0
  {
    if rest == [] then [] else Chop(rest, perChunk)
  }

  lemma ChopFirst(done: seq<seq<byte>>, rest: seq<byte>, perChunk: nat)
    requires perChunk > 0 && rest != []
    ensures var n := if |rest| > perChunk then perChunk else |rest|;
            done + Left(rest, perChunk) == (done + [rest[..n]]) + Left(rest[n..], perChunk)
  {
    if |rest| <= perChunk { assert rest[..|rest|] == rest; }
  }

  /** Where piece k begins. */
  function From(k: nat, perChunk: nat): nat { k * perChunk }

  lemma FromNext(k: nat, perChunk: nat)
    ensures From(k + 1, perChunk) == From(k, perChunk) + perChunk && From(0, perChunk) == 0
  {
  }

  lemma FromGrows(i: nat, j: nat, perChunk: nat)
    requires i <= j
    ensures From(i, perChunk) <= From(j, perChunk)
  {
    Multiples(i, j, perChunk);
  }

  /** What part of buf piece k is: the bytes from its beginning on, as many as fit. */
  lemma {:induction false} ChopPiece(buf: seq<byte>, perChunk: nat, k: nat)
    requires perChunk > 0 && buf != []
    ensures k < |Chop(buf, perChunk)| <==> From(k, perChunk) < |buf|
    ensures From(k, perChunk) < |buf| ==>
              Chop(buf, perChunk)[k] == buf[From(k, perChunk)..From(k, perChunk) + Min(perChunk, |buf| - From(k, perChunk))]
    decreases k
  {
    hide From;
    FromNext(k, perChunk);
    FromNext(0, perChunk);
    if |buf| <= perChunk {
      if k > 0 { FromGrows(1, k, perChunk); } else { assert buf == buf[0..|buf|]; }
    } else if k > 0 {
      var rest := buf[perChunk..];
      ChopPiece(rest, perChunk, k - 1);
      FromNext(k - 1, perChunk);
      if From(k, perChunk) < |buf| {
        PartOfRest(buf, perChunk, From(k, perChunk), Min(perChunk, |buf| - From(k, perChunk)));
      }
    }
  }

  lemma PartOfRest(buf: seq<byte>, d: nat, at: nat, n: nat)
    requires d <= at && at + n <= |buf|
    ensures buf[d..][at - d..at - d + n] == buf[at..at + n]
  {
  }

  /** The chunks set aside are enough for the tags of all chunks, and at most as many more as the formula rounds up. */
  lemma UsedSuffices(chunksPerBlock: nat, dataBytes: nat)
    requires dataBytes > HEADER_BYTES
    ensures var q, per := ChunksUsed(chunksPerBlock, dataBytes), dataBytes - HEADER_BYTES;
            && chunksPerBlock * 12 <= q * per
            && q * per < chunksPerBlock * 12 + per + 16 <= (q + 1) * per
  {
    DivBounds(chunksPerBlock * TAG_BYTES + dataBytes - 1, dataBytes - HEADER_BYTES);
  }

  lemma {:induction false} ChopLength(buf: seq<byte>, perChunk: nat)
    requires perChunk > 0 && |buf| > 0
    ensures (|Chop(buf, perChunk)| - 1) * perChunk < |buf|
  {
    if |buf| > perChunk {
      ChopLength(buf[perChunk..], perChunk);
      var n := |Chop(buf[perChunk..], perChunk)|;
      assert n * perChunk == (n - 1) * perChunk + perChunk;
    }
  }

  /** Whatever the geometry, if any chunks are left for data, the summary of them fits between them and the end of the
      block. */
  lemma SummaryFits(buf: seq<byte>, chunksPerBlock: nat, dataBytes: nat)
    requires dataBytes > HEADER_BYTES && ChunksPerSummary(chunksPerBlock, dataBytes) > 0
    requires |buf| == TAG_BYTES * ChunksPerSummary(chunksPerBlock, dataBytes)
    ensures ChunksPerSummary(chunksPerBlock, dataBytes) + |Chop(buf, dataBytes - HEADER_BYTES)| <= chunksPerBlock
  {
    var n, per, q := |Chop(buf, dataBytes - HEADER_BYTES)|, dataBytes - HEADER_BYTES, ChunksUsed(chunksPerBlock, dataBytes);
    ChopLength(buf, per);
    DivBounds(chunksPerBlock * TAG_BYTES + dataBytes - 1, per);
    OneMore(q, per);
    if n > q {
      Multiples(q + 1, n, per);
      OneLess(n, per);
    }
  }

  lemma OneLess(n: nat, m: nat)
    requires n > 0
    ensures (n - 1) * m == n * m - m
  {
  }

  // ----- Tags and header -----

  datatype Tags = Tags(objId: u32, chunkId: u32, nBytes: u32)

  function TagBytes(t: Tags): (r: seq<byte>)
    ensures |r| == TAG_BYTES
  {
    EncodeU32(t.objId) + EncodeU32(t.chunkId) + EncodeU32(t.nBytes)
  }

  function TagsOf(b: seq<byte>): Tags
    requires |b| == TAG_BYTES
  {
    Tags(DecodeU32(b[..4]), DecodeU32(b[4..8]), DecodeU32(b[8..]))
  }

  /** Tags are three words, in this order. */
  lemma TagsBack(t: Tags)
    ensures TagsOf(TagBytes(t)) == t
    ensures var b := TagBytes(t); DecodeU32(b[..4]) == t.objId && DecodeU32(b[4..8]) == t.chunkId && DecodeU32(b[8..]) == t.nBytes
  {
    hide EncodeU32, DecodeU32;
    var b := TagBytes(t);
    assert b[..4] == EncodeU32(t.objId) && b[4..8] == EncodeU32(t.chunkId) && b[8..] == EncodeU32(t.nBytes);
    U32RoundTrip(t.objId);
    U32RoundTrip(t.chunkId);
    U32RoundTrip(t.nBytes);
  }

  /** The tags gathered for chunk i. */
  function TagsAt(buf: seq<byte>, i: nat): Tags
    requires TAG_BYTES * i + TAG_BYTES <= |buf|
  {
    TagsOf(buf[TAG_BYTES * i..TAG_BYTES * i + TAG_BYTES])
  }

  /** yaffs_summary_sum. */
  function SumOf(s: seq<byte>): u32 {
    if s == [] then 0 else (SumOf(s[..|s| - 1]) + s[|s| - 1]) % 0x1_0000_0000
  }

  /** The sum in the header is that of all bytes of the tags. */
  lemma {:induction false} SumIsTotal(s: seq<byte>)
    ensures SumOf(s) == TotalOf(s) % 0x1_0000_0000
  {
    if s != [] {
      SumIsTotal(s[..|s| - 1]);
      Remainders(TotalOf(s[..|s| - 1]), s[|s| - 1]);
    }
  }

  datatype Header = Header(version: nat, block: nat, seqNumber: nat, sum: u32)

  /** A page of the block as far as summaries are concerned; its data as a header and the bytes after it. */
  datatype Page = Page(hdr: Header, body: seq<byte>, objId: nat, chunkId: nat, nBytes: nat)

  /** A page that holds piece k of a summary; what else is in the chunk does not matter. */
  predicate HoldsPiece(p: Page, h: Header, piece: seq<byte>, k: nat) {
    p.hdr == h && piece <= p.body && p.objId == OBJECTID_SUMMARY && p.chunkId == k + 1 && p.nBytes == |piece| + HEADER_BYTES
  }

  ghost predicate HoldsSummary(pages: map<nat, Page>, first: nat, h: Header, pieces: seq<seq<byte>>) {
    forall k :: 0 <= k < |pieces| ==> HeldAt(pages, first + k, h, pieces[k], k)
  }

  predicate HeldAt(pages: map<nat, Page>, at: nat, h: Header, piece: seq<byte>, k: nat) {
    at in pages && HoldsPiece(pages[at], h, piece, k)
  }

  /** Page j of a summary as a reader wants it: with the next number and length, and the next bytes of buf. */
  ghost predicate PageReads(pages: map<nat, Page>, first: nat, buf: seq<byte>, perChunk: nat, j: nat) {
    var at := From(j, perChunk);
    at < |buf| ==>
      && first + j in pages
      && var p, piece := pages[first + j], buf[at..at + Min(perChunk, |buf| - at)];
         p.objId == OBJECTID_SUMMARY && p.chunkId == j + 1 && p.nBytes == |piece| + HEADER_BYTES && piece <= p.body
  }

  /** The header of the last page of a summary, the only one looked at, goes with these tags. */
  ghost predicate LastHeaderFits(pages: map<nat, Page>, first: nat, buf: seq<byte>, perChunk: nat, seqNumber: nat, j: nat) {
    From(j, perChunk) < |buf| <= From(j + 1, perChunk) && first + j in pages ==>
      var h := pages[first + j].hdr; h.version == SUMMARY_VERSION && h.seqNumber == seqNumber && h.sum == SumOf(buf)
  }

  /** A summary that was written is one that can be read. */
  lemma WrittenReads(pages: map<nat, Page>, first: nat, h: Header, buf: seq<byte>, perChunk: nat, j: nat)
    requires perChunk > 0 && buf != [] && HoldsSummary(pages, first, h, Chop(buf, perChunk)) && h.version == SUMMARY_VERSION && h.sum == SumOf(buf)
    ensures PageReads(pages, first, buf, perChunk, j) && LastHeaderFits(pages, first, buf, perChunk, h.seqNumber, j)
  {
    hide Chop, SumOf, From;
    ChopPiece(buf, perChunk, j);
    if From(j, perChunk) < |buf| { assert HeldAt(pages, first + j, h, Chop(buf, perChunk)[j], j); }
  }

  ghost predicate ReadsAs(pages: map<nat, Page>, first: nat, buf: seq<byte>, perChunk: nat, seqNumber: nat) {
    forall j: nat :: PageReads(pages, first, buf, perChunk, j) && LastHeaderFits(pages, first, buf, perChunk, seqNumber, j)
  }

  lemma WrittenReadsAs(pages: map<nat, Page>, first: nat, h: Header, buf: seq<byte>, perChunk: nat)
    requires perChunk > 0 && buf != [] && HoldsSummary(pages, first, h, Chop(buf, perChunk)) && h.version == SUMMARY_VERSION && h.sum == SumOf(buf)
    ensures ReadsAs(pages, first, buf, perChunk, h.seqNumber)
  {
    hide PageReads, LastHeaderFits, HoldsSummary, SumOf;
    forall j: nat ensures PageReads(pages, first, buf, perChunk, j) && LastHeaderFits(pages, first, buf, perChunk, h.seqNumber, j) {
      WrittenReads(pages, first, h, buf, perChunk, j);
    }
  }

  lemma OneMorePiece(pages: map<nat, Page>, first: nat, h: Header, done: seq<seq<byte>>, piece: seq<byte>, filler: seq<byte>)
    requires HoldsSummary(pages, first, h, done)
    ensures HoldsSummary(pages[first + |done| := Page(h, piece + filler, OBJECTID_SUMMARY, |done| + 1, |piece| + HEADER_BYTES)], first, h, done + [piece])
  {
    var p, more := Page(h, piece + filler, OBJECTID_SUMMARY, |done| + 1, |piece| + HEADER_BYTES), done + [piece];
    var pages' := pages[first + |done| := p];
    assert HoldsPiece(p, h, piece, |done|);
    forall k | 0 <= k < |more| ensures HeldAt(pages', first + k, h, more[k], k) {
      if k < |done| { assert HeldAt(pages, first + k, h, done[k], k) && more[k] == done[k]; }
    }
  }

  // ----- A block and its summary -----

  class BlockSummary {
    const chunksPerBlock: nat
    const dataBytes: nat
    const chunksPerSummary: nat
    const block: nat
    const seqNumber: nat

    var sumTags: seq<byte>
    var pages: map<nat, Page>
    var hasSummary: bool

    ghost predicate Valid()
      reads this
    {
      && dataBytes > HEADER_BYTES && chunksPerSummary > 0 && chunksPerSummary == ChunksPerSummary(chunksPerBlock, dataBytes)
      && |sumTags| == TAG_BYTES * chunksPerSummary
    }

    function Pieces(): seq<seq<byte>>
      requires dataBytes > HEADER_BYTES
      reads this
    {
      Chop(sumTags, dataBytes - HEADER_BYTES)
    }

    ghost predicate Written(buf: seq<byte>)
      requires dataBytes > HEADER_BYTES
      reads this
    {
      HoldsSummary(pages, chunksPerSummary, Header(SUMMARY_VERSION, block, seqNumber, SumOf(buf)), Chop(buf, dataBytes - HEADER_BYTES))
    }

    /** The part of yaffs_summary_add that gathers a chunk's tags; the answer is whether the summary is due. */
    method Gather(chunkInBlock: nat, t: Tags) returns (due: bool)
      requires Valid()
      modifies this`sumTags
      ensures Valid() && (due <==> chunkInBlock == chunksPerSummary - 1)
      ensures forall i :: 0 <= i < chunksPerSummary ==> TagsAt(sumTags, i) == if i == chunkInBlock then t else TagsAt(old(sumTags), i)
    {
      hide TagsOf, TagBytes, ChunksPerSummary;
      due := false;
      if chunkInBlock < chunksPerSummary {
        var at := TAG_BYTES * chunkInBlock;
        sumTags := sumTags[..at] + TagBytes(t) + sumTags[at + TAG_BYTES..];
        forall i | 0 <= i < chunksPerSummary ensures TagsAt(sumTags, i) == if i == chunkInBlock then t else TagsAt(old(sumTags), i) {
          TagsBack(t);
          OtherTags(old(sumTags), sumTags, at, TagBytes(t), i);
        }
        due := chunkInBlock == chunksPerSummary - 1;
      }
    }

    /** The summary pages can be read as buf. */
    ghost predicate Readable(buf: seq<byte>)
      requires dataBytes > HEADER_BYTES
      reads this
    {
      ReadsAs(pages, chunksPerSummary, buf, dataBytes - HEADER_BYTES, seqNumber)
    }

    lemma WrittenIsReadable(buf: seq<byte>)
      requires dataBytes > HEADER_BYTES && buf != [] && Written(buf)
      ensures Readable(buf)
    {
      hide HoldsSummary, ReadsAs;
      WrittenReadsAs(pages, chunksPerSummary, Header(SUMMARY_VERSION, block, seqNumber, SumOf(buf)), buf, dataBytes - HEADER_BYTES);
    }

    /** yaffs_summary_write: piece by piece to the pages after the last data chunk, until one fails; works says which do
        not. None of the pages written is one whose tags would be gathered, so the writing does not set itself off again;
        nor does it leave the block. */
    method Write(filler: seq<byte>, works: nat -> bool) returns (ok: bool)
      requires Valid()
      modifies this`pages, this`hasSummary
      ensures ok <==> forall k :: 0 <= k < |Pieces()| ==> works(k)
      ensures ok ==> Written(sumTags)
      ensures hasSummary <==> old(hasSummary) || ok
      ensures forall k :: 0 <= k < |Pieces()| && (forall j :: 0 <= j <= k ==> works(j)) ==>
                HeldAt(pages, chunksPerSummary + k, Header(SUMMARY_VERSION, block, seqNumber, SumOf(sumTags)), Pieces()[k], k)
      ensures forall p :: p in pages && p !in old(pages) ==> chunksPerSummary <= p < chunksPerBlock
      ensures forall p :: p in old(pages) && (p < chunksPerSummary || p >= chunksPerBlock) ==> p in pages && pages[p] == old(pages)[p]
    {
      hide ChunksPerSummary, Chop, SumOf, HoldsPiece;
      var perChunk := dataBytes - HEADER_BYTES;
      SummaryFits(sumTags, chunksPerBlock, dataBytes);
      var h := Header(SUMMARY_VERSION, block, seqNumber, SumOf(sumTags));
      var rest, page, chunkId := sumTags, chunksPerSummary, 1;
      ghost var pieces, done := Pieces(), [];
      ok := true;
      while ok && |rest| > 0
        invariant |done| == page - chunksPerSummary == chunkId - 1 && hasSummary == old(hasSummary)
        invariant done + Left(rest, perChunk) == pieces
        invariant HoldsSummary(pages, chunksPerSummary, h, done) && (forall k :: 0 <= k < |done| ==> works(k))
        invariant !ok ==> |done| < |pieces| && !works(|done|)
        invariant forall p :: p in pages && p !in old(pages) ==> chunksPerSummary <= p < chunksPerBlock
        invariant forall p :: p in old(pages) && (p < chunksPerSummary || p >= chunksPerBlock) ==> p in pages && pages[p] == old(pages)[p]
        decreases |rest|, ok
      {
        var thisTx := if |rest| > perChunk then perChunk else |rest|;
        ChopFirst(done, rest, perChunk);
        ok := works(chunkId - 1);
        if ok {
          OneMorePiece(pages, chunksPerSummary, h, done, rest[..thisTx], filler);
          pages := pages[page := Page(h, rest[..thisTx] + filler, OBJECTID_SUMMARY, chunkId, thisTx + HEADER_BYTES)];
          done := done + [rest[..thisTx]];
          rest := rest[thisTx..];
          page := page + 1;
          chunkId := chunkId + 1;
        }
      }
      assert done + [] == done;
      assert done <= pieces;
      if ok { hasSummary := true; }
    }

    /** yaffs_summary_read while scanning, page by page until something is wrong; only the last header is looked at. What
        is read is what the pages can be read as, and if they can be read as nothing the answer is no. */
    method Read(ghost buf: seq<byte>) returns (ok: bool)
      requires Valid()
      modifies this`sumTags, this`hasSummary
      ensures Valid() && (hasSummary <==> old(hasSummary) || ok)
      ensures ok ==> Readable(sumTags)
      ensures |buf| == |sumTags| && old(Readable(buf)) ==> ok && sumTags == buf
    {
      hide ChunksPerSummary, SumOf, ReadsAs, ReadSoFar;
      var perChunk := dataBytes - HEADER_BYTES;
      ghost var good, total := |buf| == |sumTags| && Readable(buf), |sumTags|;
      var nBytes, page, chunkId := TAG_BYTES * chunksPerSummary, chunksPerSummary, 1;
      var got: seq<byte>, hdr := [], Header(0, 0, 0, 0);
      ok := true;
      NothingRead(pages, chunksPerSummary, perChunk, total, hdr);
      while ok && nBytes > 0
        invariant sumTags == old(sumTags) && hasSummary == old(hasSummary)
        invariant nBytes >= 0 && |got| + nBytes == total && page - chunksPerSummary == chunkId - 1 >= 0
        invariant ok ==> ReadSoFar(pages, chunksPerSummary, got, perChunk, total, chunkId - 1, hdr)
        invariant good ==> ok && got == buf[..|got|]
        decreases nBytes, ok
      {
        var thisTx := if nBytes > perChunk then perChunk else nBytes;
        if good { NextPageReads(pages, chunksPerSummary, buf, got, perChunk, chunkId - 1, seqNumber, hdr); }
        ok := page in pages && pages[page].chunkId == chunkId && pages[page].objId == OBJECTID_SUMMARY
              && pages[page].nBytes == thisTx + HEADER_BYTES && |pages[page].body| >= thisTx;
        if ok {
          ReadOneMore(pages, chunksPerSummary, got, perChunk, total, chunkId - 1, thisTx, hdr);
          hdr := pages[page].hdr;
          got := got + pages[page].body[..thisTx];
          nBytes := nBytes - thisTx;
          page := page + 1;
          chunkId := chunkId + 1;
        }
      }
      sumTags := got + sumTags[|got|..];
      if ok {
        assert sumTags == got && (good ==> got == buf);
        AllRead(pages, chunksPerSummary, got, perChunk, chunkId - 1, seqNumber, hdr);
      }
      ok := ok && hdr.version == SUMMARY_VERSION && hdr.seqNumber == seqNumber && hdr.sum == SumOf(sumTags);
      if ok { hasSummary := true; }
    }
  }

  /** Page j of a summary of total bytes, of which got have been read. */
  ghost predicate PartReads(pages: map<nat, Page>, first: nat, got: seq<byte>, perChunk: nat, total: nat, j: nat) {
    var at := From(j, perChunk);
    && at < total && at + Min(perChunk, total - at) <= |got| && first + j in pages
    && var p, piece := pages[first + j], got[at..at + Min(perChunk, total - at)];
       p.objId == OBJECTID_SUMMARY && p.chunkId == j + 1 && p.nBytes == |piece| + HEADER_BYTES && piece <= p.body
  }

  /** The first k pages have been read, and hdr is the header of the last of them. */
  ghost predicate ReadSoFar(pages: map<nat, Page>, first: nat, got: seq<byte>, perChunk: nat, total: nat, k: nat, hdr: Header) {
    && |got| == Min(From(k, perChunk), total)
    && (k > 0 ==> From(k - 1, perChunk) < |got| && first + k - 1 in pages && hdr == pages[first + k - 1].hdr)
    && forall j :: 0 <= j < k ==> PartReads(pages, first, got, perChunk, total, j)
  }

  lemma NothingRead(pages: map<nat, Page>, first: nat, perChunk: nat, total: nat, hdr: Header)
    ensures ReadSoFar(pages, first, [], perChunk, total, 0, hdr)
  {
    FromNext(0, perChunk);
  }

  lemma NextPageReads(pages: map<nat, Page>, first: nat, buf: seq<byte>, got: seq<byte>, perChunk: nat, k: nat, seqNumber: nat, hdr: Header)
    requires ReadsAs(pages, first, buf, perChunk, seqNumber) && ReadSoFar(pages, first, got, perChunk, |buf|, k, hdr)
    requires |got| < |buf| && got == buf[..|got|]
    ensures first + k in pages
    ensures var p, n := pages[first + k], Min(perChunk, |buf| - |got|);
            && p.objId == OBJECTID_SUMMARY && p.chunkId == k + 1 && p.nBytes == n + HEADER_BYTES && |p.body| >= n
            && got + p.body[..n] == buf[..|got| + n]
  {
    hide LastHeaderFits, PartReads, From;
    assert PageReads(pages, first, buf, perChunk, k);
  }

  lemma ReadOneMore(pages: map<nat, Page>, first: nat, got: seq<byte>, perChunk: nat, total: nat, k: nat, n: nat, hdr: Header)
    requires ReadSoFar(pages, first, got, perChunk, total, k, hdr) && |got| < total && n == Min(perChunk, total - |got|) && n > 0
    requires first + k in pages
    requires var p := pages[first + k]; p.objId == OBJECTID_SUMMARY && p.chunkId == k + 1 && p.nBytes == n + HEADER_BYTES && |p.body| >= n
    ensures ReadSoFar(pages, first, got + pages[first + k].body[..n], perChunk, total, k + 1, pages[first + k].hdr)
  {
    hide From;
    FromNext(k, perChunk);
    var now := got + pages[first + k].body[..n];
    assert now[|got|..|got| + n] == pages[first + k].body[..n];
    assert PartReads(pages, first, now, perChunk, total, k);
    forall j | 0 <= j < k ensures PartReads(pages, first, now, perChunk, total, j) {
      assert PartReads(pages, first, got, perChunk, total, j);
      var at := From(j, perChunk);
      assert now[at..at + Min(perChunk, total - at)] == got[at..at + Min(perChunk, total - at)];
    }
  }

  /** With everything read, the header that was read last decides. */
  lemma AllRead(pages: map<nat, Page>, first: nat, got: seq<byte>, perChunk: nat, k: nat, seqNumber: nat, hdr: Header)
    requires ReadSoFar(pages, first, got, perChunk, |got|, k, hdr) && got != []
    ensures ReadsAs(pages, first, got, perChunk, seqNumber) <==>
            hdr.version == SUMMARY_VERSION && hdr.seqNumber == seqNumber && hdr.sum == SumOf(got)
  {
    hide SumOf, From, PartReads, PageReads;
    FromNext(0, perChunk);
    forall j: nat ensures PageReads(pages, first, got, perChunk, j) {
      if j < k { PartIsPage(pages, first, got, perChunk, j); } else { PastTheEnd(pages, first, got, perChunk, k, j); }
    }
    FromNext(k - 1, perChunk);
    forall j: nat | j != k - 1 ensures LastHeaderFits(pages, first, got, perChunk, seqNumber, j) {
      if j < k { FromGrows(j + 1, k - 1, perChunk); } else { FromGrows(k, j, perChunk); }
    }
    assert LastHeaderFits(pages, first, got, perChunk, seqNumber, k - 1) <==>
           hdr.version == SUMMARY_VERSION && hdr.seqNumber == seqNumber && hdr.sum == SumOf(got);
  }

  lemma PartIsPage(pages: map<nat, Page>, first: nat, got: seq<byte>, perChunk: nat, j: nat)
    requires PartReads(pages, first, got, perChunk, |got|, j)
    ensures PageReads(pages, first, got, perChunk, j)
  {
    hide From;
  }

  lemma PastTheEnd(pages: map<nat, Page>, first: nat, got: seq<byte>, perChunk: nat, k: nat, j: nat)
    requires k <= j && |got| <= From(k, perChunk)
    ensures PageReads(pages, first, got, perChunk, j)
  {
    hide From;
    FromGrows(k, j, perChunk);
  }

  lemma OtherTags(was: seq<byte>, now: seq<byte>, at: nat, piece: seq<byte>, i: nat)
    requires at + |piece| <= |was| && |piece| == TAG_BYTES && at % TAG_BYTES == 0 && now == was[..at] + piece + was[at + |piece|..]
    requires TAG_BYTES * i + TAG_BYTES <= |was|
    ensures TagsAt(now, i) == if TAG_BYTES * i == at then TagsOf(piece) else TagsAt(was, i)
  {
    hide TagsOf;
    var k := TAG_BYTES * i;
    if k == at {
      assert now[k..k + TAG_BYTES] == piece;
    } else {
      assert k + TAG_BYTES <= at || k >= at + TAG_BYTES;
      assert now[k..k + TAG_BYTES] == was[k..k + TAG_BYTES];
    }
  }
}