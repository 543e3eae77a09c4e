/** What `nvmio_write` and `nvmio_read` compute (src/nvmio.c:205-415): the chunk
    arithmetic, the image of each page written, and exactly when the code as
    written keeps the bytes around the write. */
module WriteModel {
  import opened Layout
  import opened LogModel
  import opened PageLists
  import opened Region

  const U64_SPAN := 0x1_0000_0000_0000_0000

  /** `page_nums`, in unsigned arithmetic. */
  function PageCount(cnt: nat, offset: nat): nat {
    (cnt + offset - 1) % U64_SPAN / PAGE_SIZE + 1
  }

  /** Iterations of the write loop. */
  function ChunkCount(pageNums: nat): nat {
    (pageNums + MAX_PAGES - 1) / MAX_PAGES
  }

  /** Pages of the global list the refills of a write can take: one for the data and
      one for the log per iteration. */
  function WriteCost(cnt: nat, off: nat): nat {
    if cnt == 0 then 0 else 2 * FILL_MAX * ChunkCount(PageCount(cnt, off % PAGE_SIZE))
  }

  lemma ChunkCountNext(pageNums: nat, alloc: nat)
    requires 0 < alloc <= pageNums && alloc == if pageNums > MAX_PAGES then MAX_PAGES else pageNums
    ensures ChunkCount(pageNums) == ChunkCount(pageNums - alloc) + 1
  {
  }

  /** One iteration of the write loop: pages taken, bytes written, and how the bytes
      split over the first page, the middle pages and the last page. */
  datatype Chunk = Chunk(alloc: nat, wrSize: nat, first: nat, mid: int, last: nat)

  function ChunkOf(pageNums: nat, total: nat, offset: nat): Chunk
    requires 0 < pageNums && offset < PAGE_SIZE
  {
    var alloc := if pageNums > MAX_PAGES then MAX_PAGES else pageNums;
    var room := PAGE_SIZE * alloc - offset;
    var wr := if total < room then total else room;
    if total <= PAGE_SIZE - offset then
      Chunk(alloc, wr, total, alloc - 1, 0)
    else
      var first := if offset != 0 then PAGE_SIZE - offset else 0;
      var last := (wr + offset) % PAGE_SIZE;
      Chunk(alloc, wr, first,
            alloc - (if offset != 0 then 1 else 0) - (if last != 0 then 1 else 0), last)
  }

  /** Pages a write of `total` bytes from `offset` inside a page still touches. */
  function PagesLeft(total: nat, offset: nat): nat {
    if total == 0 then 0 else (total + offset - 1) / PAGE_SIZE + 1
  }

  /** Every iteration writes exactly its pages, and pages and bytes run out
      together. */
  lemma ChunkExact(total: nat, offset: nat)
    requires 0 < total && offset < PAGE_SIZE
    ensures var c := ChunkOf(PagesLeft(total, offset), total, offset);
      && 0 < c.alloc <= MAX_PAGES && 0 < c.wrSize <= total && 0 <= c.mid
      && c.first + c.mid * PAGE_SIZE + c.last == c.wrSize
      && (if c.first != 0 then 1 else 0) + c.mid + (if c.last != 0 then 1 else 0) == c.alloc
      && (offset != 0 ==> c.first != 0) && c.last < PAGE_SIZE
      && (c.alloc > 1 && c.first != 0 ==> c.first == PAGE_SIZE - offset)
      && (c.alloc == 1 <==> total <= PAGE_SIZE - offset)
      && PagesLeft(total - c.wrSize, 0) == PagesLeft(total, offset) - c.alloc
      && (total == c.wrSize <==> PagesLeft(total, offset) == c.alloc)
      && (total > c.wrSize ==> c.alloc == MAX_PAGES && offset + c.wrSize == MAX_PAGES * PAGE_SIZE && c.last == 0)
      && (total == c.wrSize ==> (c.alloc - 1) * PAGE_SIZE < offset + c.wrSize <= c.alloc * PAGE_SIZE)
  {
  }

  /** The byte offset of file page `fp`. */
  function FileOff(fp: nat): nat {
    fp * PAGE_SIZE
  }

  lemma FileOffAdd(fp: nat, n: nat)
    ensures FileOff(fp + n) == FileOff(fp) + n * PAGE_SIZE
  {
  }

  // -------------------------------------------------------------- page images

  /** The part of file page `fp` the write `[off, off + cnt)` covers. */
  function Lo(off: nat, fp: nat): nat {
    if fp * PAGE_SIZE < off then off - fp * PAGE_SIZE else 0
  }

  function Hi(off: nat, cnt: nat, fp: nat): int {
    if (fp + 1) * PAGE_SIZE <= off + cnt then PAGE_SIZE else off + cnt - fp * PAGE_SIZE
  }

  predicate Touched(off: nat, cnt: nat, fp: nat)
    requires 0 < cnt
  {
    off / PAGE_SIZE <= fp <= (off + cnt - 1) / PAGE_SIZE
  }

  lemma TouchedBounds(off: nat, cnt: nat, fp: nat)
    requires 0 < cnt
    ensures Touched(off, cnt, fp) <==> 0 <= Lo(off, fp) < Hi(off, cnt, fp) <= PAGE_SIZE
    ensures Touched(off, cnt, fp) ==> off <= fp * PAGE_SIZE + Lo(off, fp) && fp * PAGE_SIZE + Hi(off, cnt, fp) <= off + cnt
  {
  }

  function Zeros(): Page {
    seq(PAGE_SIZE, _ => 0)
  }

  /** Does the write merge the old bytes behind its end?  As written it does not
      when its last chunk is a single page. */
  predicate MergesTail(b: Build, off: nat, cnt: nat) {
    b == Repaired || PageCount(cnt, off % PAGE_SIZE) % MAX_PAGES != 1
  }

  /** What is left beside the written bytes: the old page if it is merged, else
      zeros in the repaired build and the stale bytes of the fresh page as written. */
  function Beside(b: Build, merge: bool, prior: Option<Page>, stale: Page): Page {
    if merge && prior.Some? then prior.value else if b == Repaired then Zeros() else stale
  }

  /** File page `fp` after the write, on a fresh page that held `stale`. */
  function Image(b: Build, off: nat, buf: seq<bv8>, fp: nat, prior: Option<Page>, stale: Page): (r: Page)
    requires buf != [] && Touched(off, |buf|, fp)
  {
    TouchedBounds(off, |buf|, fp);
    var lo, hi := Lo(off, fp), Hi(off, |buf|, fp);
    var at := fp * PAGE_SIZE - off;
    Beside(b, true, prior, stale)[..lo] + buf[at + lo..at + hi] + Beside(b, MergesTail(b, off, |buf|), prior, stale)[hi..]
  }

  /** File page `fp` when only the written bytes have been copied in. */
  function Copied(off: nat, buf: seq<bv8>, fp: nat, stale: Page): (r: Page)
    requires buf != [] && Touched(off, |buf|, fp)
  {
    TouchedBounds(off, |buf|, fp);
    var lo, hi := Lo(off, fp), Hi(off, |buf|, fp);
    var at := fp * PAGE_SIZE - off;
    stale[..lo] + buf[at + lo..at + hi] + stale[hi..]
  }

  /** `memcpy` of `data` to `page + at`. */
  function Patch(page: Page, at: nat, data: seq<bv8>): (r: Page)
    requires at + |data| <= PAGE_SIZE
  {
    page[..at] + data + page[at + |data|..]
  }

  /** Filling in the bytes before `lo`, and those from `hi` on. */
  function FillHead(b: Build, page: Page, lo: nat, prior: Option<Page>): (r: Page)
    requires lo <= PAGE_SIZE
  {
    Beside(b, true, prior, page)[..lo] + page[lo..]
  }

  function FillTail(b: Build, merge: bool, page: Page, hi: nat, prior: Option<Page>): (r: Page)
    requires hi <= PAGE_SIZE
  {
    page[..hi] + Beside(b, merge, prior, page)[hi..]
  }

  lemma CutJoin(a: seq<bv8>, b: seq<bv8>, c: seq<bv8>)
    ensures (a + b + c)[..|a|] == a && (a + b + c)[|a|..] == b + c
    ensures (a + b + c)[..|a| + |b|] == a + b && (a + b + c)[|a| + |b|..] == c
  {
  }

  /** The order of the stores does not matter: copying, then filling in the head,
      then the tail gives the image. */
  lemma ImageIsFilled(b: Build, off: nat, buf: seq<bv8>, fp: nat, prior: Option<Page>, stale: Page)
    requires buf != [] && Touched(off, |buf|, fp)
    ensures Lo(off, fp) <= PAGE_SIZE && 0 <= Hi(off, |buf|, fp) <= PAGE_SIZE
    ensures Image(b, off, buf, fp, prior, stale) ==
            FillTail(b, MergesTail(b, off, |buf|), FillHead(b, Copied(off, buf, fp, stale), Lo(off, fp), prior), Hi(off, |buf|, fp), prior)
  {
    hide Lo, Hi, MergesTail, Touched, Beside;
    TouchedBounds(off, |buf|, fp);
    var lo, hi, merge := Lo(off, fp), Hi(off, |buf|, fp), MergesTail(b, off, |buf|);
    var at := fp * PAGE_SIZE - off;
    var mid := buf[at + lo..at + hi];
    var c := Copied(off, buf, fp, stale);
    CutJoin(stale[..lo], mid, stale[hi..]);
    BesideHead(b, prior, stale, c, lo);
    var left := Beside(b, true, prior, stale)[..lo];
    var h := FillHead(b, c, lo, prior);
    Regroup(left, mid, stale[hi..]);
    assert h == left + mid + stale[hi..];
    CutJoin(left, mid, stale[hi..]);
    BesideTail(b, merge, prior, stale, h, hi);
  }

  lemma Regroup(a: seq<bv8>, b: seq<bv8>, c: seq<bv8>)
    ensures a + (b + c) == a + b + c
  {
  }

  lemma BesideHead(b: Build, prior: Option<Page>, x: Page, y: Page, lo: nat)
    requires lo <= PAGE_SIZE && x[..lo] == y[..lo]
    ensures Beside(b, true, prior, x)[..lo] == Beside(b, true, prior, y)[..lo]
  {
    hide Zeros;
  }

  lemma BesideTail(b: Build, merge: bool, prior: Option<Page>, x: Page, y: Page, hi: nat)
    requires hi <= PAGE_SIZE && x[hi..] == y[hi..]
    ensures Beside(b, merge, prior, x)[hi..] == Beside(b, merge, prior, y)[hi..]
  {
    hide Zeros;
  }

  lemma SplitJoin(page: Page, k: nat)
    requires k <= PAGE_SIZE
    ensures page[..k] + page[k..] == page
  {
  }

  lemma FillNothing(b: Build, merge: bool, page: Page, prior: Option<Page>)
    ensures FillHead(b, page, 0, prior) == page
    ensures FillTail(b, merge, page, PAGE_SIZE, prior) == page
  {
  }

  /** As written, a tail that is not merged stays as it is. */
  lemma FillTailStale(wild: int, page: Page, hi: nat, prior: Option<Page>)
    requires hi <= PAGE_SIZE
    ensures FillTail(AsWritten(wild), false, page, hi, prior) == page
  {
  }

  /** Chunk `ck` of a write of `cnt` bytes at `off`: it starts at byte `offset` of file
      page `start`, after `ub` bytes and `gone` pages of the write. */
  ghost predicate ChunkPlace(ck: Chunk, off: nat, cnt: nat, start: nat, offset: nat, ub: nat, gone: nat) {
    && ub < cnt && offset < PAGE_SIZE && off + cnt < U64_SPAN
    && ck == ChunkOf(PagesLeft(cnt - ub, offset), cnt - ub, offset)
    && FileOff(start) + offset == off + ub && (ub > 0 ==> offset == 0)
    && gone + PagesLeft(cnt - ub, offset) == PageCount(cnt, off % PAGE_SIZE) && gone % MAX_PAGES == 0
  }

  /** What an entry of a write of `cnt` bytes at `off` to a file of `size` bytes records:
      touched pages, where they begin, that plus the number of bytes written to them, and the
      file size once they are. */
  predicate Recorded(off: nat, cnt: nat, size: nat, e: Ent) {
    var first := FirstPage(e.rec);
    var from := if off > FileOff(first) then off else FileOff(first);
    var to := if off + cnt < FileOff(first + |e.pages|) then off + cnt else FileOff(first + |e.pages|);
    && 0 < cnt && from < to && Touched(off, cnt, first) && Touched(off, cnt, first + |e.pages| - 1)
    && e.pages != [] && e.rec.data == e.pages[0] && e.rec.numPages == |e.pages|
    && e.rec.startOff == FileOff(first) && e.rec.endOff == FileOff(first) + (to - from)
    && e.rec.fileSize == if to > size then to else size
  }

  lemma ChunkRecorded(ck: Chunk, off: nat, cnt: nat, start: nat, offset: nat, ub: nat, gone: nat, size: nat, fileSize: nat, e: Ent)
    requires ChunkPlace(ck, off, cnt, start, offset, ub, gone) && |e.pages| == ck.alloc
    requires fileSize == if off + ub + ck.wrSize > size then off + ub + ck.wrSize else size
    requires ck.alloc > 0 ==> e.rec == Entry(e.pages[0], fileSize, FileOff(start), FileOff(start) + ck.wrSize, |e.pages|, 0, 0)
    ensures Recorded(off, cnt, size, e)
  {
    ChunkExact(cnt - ub, offset);
    FileOffAdd(start, ck.alloc);
    assert FirstPage(e.rec) == start;
  }

  /** Two bytes written at 4095 to an empty file, then page 0 overwritten: the live run that
      is left, page 1, records the range from 4096 to 2. */
  lemma EmptyRangeExample(size: nat)
    ensures var e := Ent(Entry(7, 4097, 0, 2, 2, 1, 1), [7, 8], {0});
      && Recorded(4095, 2, 0, e)
      && Piece(e, size, 1, 2).rec.startOff == 4096 && Piece(e, size, 1, 2).rec.endOff == 2
  {
  }

  /** The loop variables of the write loop: `ub` bytes and `gone` pages are done, the next
      byte is byte `offset` of file page `start`, `pageNums` pages are left. */
  ghost predicate LoopAt(off: nat, cnt: nat, start: nat, offset: nat, ub: nat, gone: nat, pageNums: nat) {
    && 0 < cnt && ub <= cnt && offset < PAGE_SIZE && off + cnt < U64_SPAN
    && pageNums == PagesLeft(cnt - ub, offset)
    && gone + pageNums == PageCount(cnt, off % PAGE_SIZE)
    && start == off / PAGE_SIZE + gone
    && (ub < cnt ==> FileOff(start) + offset == off + ub && (ub > 0 ==> offset == 0) && gone % MAX_PAGES == 0)
  }

  lemma LoopStart(off: nat, cnt: nat)
    requires 0 < cnt && off + cnt < U64_SPAN
    ensures LoopAt(off, cnt, off / PAGE_SIZE, off % PAGE_SIZE, 0, 0, PageCount(cnt, off % PAGE_SIZE))
  {
  }

  /** While pages are left, bytes are left, and the next chunk is in its place. */
  lemma LoopPlace(off: nat, cnt: nat, start: nat, offset: nat, ub: nat, gone: nat, pageNums: nat)
    requires LoopAt(off, cnt, start, offset, ub, gone, pageNums) && pageNums > 0
    ensures ub < cnt && offset < PAGE_SIZE && start == off / PAGE_SIZE + gone
    ensures var ck := ChunkOf(pageNums, cnt - ub, offset);
      && ChunkPlace(ck, off, cnt, start, offset, ub, gone)
      && 0 < ck.alloc <= MAX_PAGES && ck.alloc <= pageNums && 0 < ck.wrSize <= cnt - ub
      && ChunkCount(pageNums) == ChunkCount(pageNums - ck.alloc) + 1
  {
    ChunkExact(cnt - ub, offset);
    ChunkCountNext(pageNums, ChunkOf(pageNums, cnt - ub, offset).alloc);
  }

  lemma LoopNext(off: nat, cnt: nat, start: nat, offset: nat, ub: nat, gone: nat, pageNums: nat, ck: Chunk)
    requires LoopAt(off, cnt, start, offset, ub, gone, pageNums) && pageNums > 0 && ub < cnt && offset < PAGE_SIZE
    requires ck == ChunkOf(pageNums, cnt - ub, offset) && ck.alloc <= pageNums && ck.wrSize <= cnt - ub
    ensures LoopAt(off, cnt, start + ck.alloc, 0, ub + ck.wrSize, gone + ck.alloc, pageNums - ck.alloc)
  {
    ChunkExact(cnt - ub, offset);
    if ub + ck.wrSize < cnt {
      assert offset + ck.wrSize == MAX_PAGES * PAGE_SIZE;
      FileOffAdd(start, ck.alloc);
    }
  }

  /** Pages and bytes run out together, and then exactly the touched pages are done. */
  lemma LoopEnd(off: nat, cnt: nat, start: nat, offset: nat, ub: nat, gone: nat)
    requires LoopAt(off, cnt, start, offset, ub, gone, 0)
    ensures ub == cnt && gone == PageCount(cnt, off % PAGE_SIZE)
    ensures forall fp: nat :: Touched(off, cnt, fp) <==> off / PAGE_SIZE <= fp < off / PAGE_SIZE + gone
  {
  }

  lemma PlaceFacts(ck: Chunk, off: nat, cnt: nat, start: nat, offset: nat, ub: nat, gone: nat)
    requires ChunkPlace(ck, off, cnt, start, offset, ub, gone)
    ensures ub < cnt && offset < PAGE_SIZE && FileOff(start) + offset == off + ub
    ensures 0 < ck.alloc && offset + ck.first <= PAGE_SIZE && ck.last < PAGE_SIZE && (ck.first == 0 ==> offset == 0)
    ensures ck.last == 0 && ck.alloc == 1 ==> ck.first != 0
    ensures ck.last != 0 ==> ck.alloc > 1
  {
    ChunkExact(cnt - ub, offset);
  }

  /** Where the written part of the chunk's `i`-th page begins. */
  lemma ChunkLo(ck: Chunk, off: nat, cnt: nat, start: nat, offset: nat, ub: nat, gone: nat, i: nat)
    requires ChunkPlace(ck, off, cnt, start, offset, ub, gone)
    ensures Lo(off, start + i) == if i == 0 then offset else 0
  {
  }

  /** Where it ends. */
  lemma ChunkHi(ck: Chunk, off: nat, cnt: nat, start: nat, offset: nat, ub: nat, gone: nat, i: nat)
    requires ChunkPlace(ck, off, cnt, start, offset, ub, gone) && i < ck.alloc
    ensures Hi(off, cnt, start + i) ==
              if i < ck.alloc - 1 then PAGE_SIZE
              else if ck.last != 0 then ck.last
              else if ck.alloc == 1 then offset + ck.first
              else PAGE_SIZE
  {
    ChunkExact(cnt - ub, offset);
  }

  /** As written, the tail of the last page is merged exactly if that page has a copy
      of its own. */
  lemma ChunkMerges(b: Build, ck: Chunk, off: nat, cnt: nat, start: nat, offset: nat, ub: nat, gone: nat)
    requires ChunkPlace(ck, off, cnt, start, offset, ub, gone)
    ensures ck.last != 0 ==> MergesTail(b, off, cnt)
    ensures ck.alloc == 1 && b != Repaired ==> !MergesTail(b, off, cnt)
  {
    ChunkExact(cnt - ub, offset);
    var n := PageCount(cnt, off % PAGE_SIZE);
    if ck.last != 0 || ck.alloc == 1 {
      assert n == gone + ck.alloc;
      assert n % MAX_PAGES == ck.alloc % MAX_PAGES;
    }
  }

  lemma RangeAt(off: nat, cnt: nat, fp: nat, x: nat)
    requires 0 < cnt && Touched(off, cnt, fp) && x < PAGE_SIZE
    ensures 0 <= Lo(off, fp) < Hi(off, cnt, fp) <= PAGE_SIZE
    ensures off <= FileOff(fp) + Lo(off, fp) && FileOff(fp) + Hi(off, cnt, fp) <= off + cnt
    ensures x < Lo(off, fp) <==> FileOff(fp) + x < off
    ensures x < Hi(off, cnt, fp) <==> FileOff(fp) + x < off + cnt
  {
    TouchedBounds(off, cnt, fp);
  }

  lemma ConcatAt(a: seq<bv8>, b: seq<bv8>, c: seq<bv8>, x: nat)
    requires x < |a| + |b| + |c|
    ensures (a + b + c)[x] == if x < |a| then a[x] else if x < |a| + |b| then b[x - |a|] else c[x - |a| - |b|]
  {
  }

  lemma ImageAt(b: Build, off: nat, buf: seq<bv8>, fp: nat, prior: Option<Page>, stale: Page, x: nat)
    requires buf != [] && Touched(off, |buf|, fp) && x < PAGE_SIZE
    ensures var a := FileOff(fp) + x;
      Image(b, off, buf, fp, prior, stale)[x] ==
        if a < off then Beside(b, true, prior, stale)[x]
        else if a < off + |buf| then buf[a - off]
        else Beside(b, MergesTail(b, off, |buf|), prior, stale)[x]
  {
    hide Lo, Hi, Touched, MergesTail, Beside, FileOff, Image;
    RangeAt(off, |buf|, fp, x);
    var lo, hi, at := Lo(off, fp), Hi(off, |buf|, fp), FileOff(fp) - off;
    var left, right := Beside(b, true, prior, stale), Beside(b, MergesTail(b, off, |buf|), prior, stale);
    ImageParts(b, off, buf, fp, prior, stale);
    ConcatAt(left[..lo], buf[at + lo..at + hi], right[hi..], x);
  }

  lemma ImageParts(b: Build, off: nat, buf: seq<bv8>, fp: nat, prior: Option<Page>, stale: Page)
    requires buf != [] && Touched(off, |buf|, fp)
    requires var lo, hi, at := Lo(off, fp), Hi(off, |buf|, fp), FileOff(fp) - off;
      0 <= lo <= hi <= PAGE_SIZE && 0 <= at + lo && at + hi <= |buf|
    ensures var lo, hi, at := Lo(off, fp), Hi(off, |buf|, fp), FileOff(fp) - off;
      Image(b, off, buf, fp, prior, stale) ==
      Beside(b, true, prior, stale)[..lo] + buf[at + lo..at + hi] + Beside(b, MergesTail(b, off, |buf|), prior, stale)[hi..]
  {
    hide Lo, Hi, Touched, MergesTail, Beside;
  }

  // ------------------------------------------------------------- file contents

  /** The bytes of the page the index gives for `fp`. */
  function PageOf(bytes: seq<Page>, index: map<nat, int>, fp: nat): Option<Page> {
    if fp in index && 0 <= index[fp] < |bytes| then Some(bytes[index[fp]]) else None
  }

  /** Byte `a` of the file; a hole reads zero. */
  function ByteAt(bytes: seq<Page>, index: map<nat, int>, a: nat): bv8 {
    match PageOf(bytes, index, a / PAGE_SIZE)
    case Some(page) => page[a % PAGE_SIZE]
    case None => 0
  }

  /** The effect of a write on page bytes and index: every touched file page is on a
      new page that holds its image, and nothing else changed. */
  ghost predicate Wrote(b: Build, off: nat, buf: seq<bv8>, bytes: seq<Page>, index: map<nat, int>,
                        bytes': seq<Page>, index': map<nat, int>)
    requires buf != []
  {
    && |bytes'| == |bytes|
    && (forall fp: nat | Touched(off, |buf|, fp) ::
          && fp in index' && 0 <= index'[fp] < |bytes|
          && bytes'[index'[fp]] == Image(b, off, buf, fp, PageOf(bytes, index, fp), bytes[index'[fp]]))
    && (forall fp: nat | !Touched(off, |buf|, fp) :: PageOf(bytes', index', fp) == PageOf(bytes, index, fp))
  }

  /** The file a write asks for: the old one with the buffer spliced in. */
  function Intended(off: nat, buf: seq<bv8>, bytes: seq<Page>, index: map<nat, int>, a: nat): bv8 {
    if off <= a < off + |buf| then buf[a - off] else ByteAt(bytes, index, a)
  }

  lemma InRange(off: nat, cnt: nat, a: nat)
    requires 0 < cnt && off <= a < off + cnt
    ensures Touched(off, cnt, a / PAGE_SIZE)
  {
  }

  lemma PlaceOf(a: nat)
    ensures FileOff(a / PAGE_SIZE) + a % PAGE_SIZE == a && a % PAGE_SIZE < PAGE_SIZE
  {
  }

  /** In both builds: the buffer in range, and beside it on a touched page what the
      page was completed with. */
  lemma WroteByte(b: Build, off: nat, buf: seq<bv8>, bytes: seq<Page>, index: map<nat, int>,
                  bytes': seq<Page>, index': map<nat, int>, a: nat)
    requires buf != [] && Wrote(b, off, buf, bytes, index, bytes', index')
    ensures var fp, x := a / PAGE_SIZE, a % PAGE_SIZE;
      && (off <= a < off + |buf| ==> ByteAt(bytes', index', a) == buf[a - off])
      && (!Touched(off, |buf|, fp) ==> ByteAt(bytes', index', a) == ByteAt(bytes, index, a))
      && (!(off <= a < off + |buf|) && Touched(off, |buf|, fp) ==>
            && fp in index' && 0 <= index'[fp] < |bytes|
            && ByteAt(bytes', index', a) == Beside(b, a < off || MergesTail(b, off, |buf|), PageOf(bytes, index, fp), bytes[index'[fp]])[x])
  {
    hide Touched, Image, Beside, MergesTail, FileOff;
    var fp, x := a / PAGE_SIZE, a % PAGE_SIZE;
    PlaceOf(a);
    if off <= a < off + |buf| {
      InRange(off, |buf|, a);
    }
    if Touched(off, |buf|, fp) {
      ImageAt(b, off, buf, fp, PageOf(bytes, index, fp), bytes[index'[fp]], x);
    }
  }

  /** With the repairs, a write of any positive length at any offset splices the
      buffer into the file and changes no other byte. */
  lemma RepairedSplices(off: nat, buf: seq<bv8>, bytes: seq<Page>, index: map<nat, int>,
                        bytes': seq<Page>, index': map<nat, int>, a: nat)
    requires buf != [] && Wrote(Repaired, off, buf, bytes, index, bytes', index')
    ensures ByteAt(bytes', index', a) == Intended(off, buf, bytes, index, a)
  {
    hide Touched, Wrote;
    WroteByte(Repaired, off, buf, bytes, index, bytes', index', a);
  }

  /** The bytes of the touched pages that the code as written neither writes nor carries
      over from the old page. */
  predicate LeftStale(off: nat, cnt: nat, mapped: set<nat>, a: nat)
    requires 0 < cnt
  {
    && Touched(off, cnt, a / PAGE_SIZE)
    && !(off <= a < off + cnt)
    && (a / PAGE_SIZE !in mapped || (a >= off + cnt && PageCount(cnt, off % PAGE_SIZE) % MAX_PAGES == 1))
  }

  /** Those of them that belong to the file after the write; the others lie behind its
      end, where a later write can take them in. */
  predicate Dropped(off: nat, cnt: nat, size: nat, mapped: set<nat>, a: nat)
    requires 0 < cnt
  {
    (a < size || a < off + cnt) && LeftStale(off, cnt, mapped, a)
  }

  /** The byte that is in place of one left stale: whatever the fresh page held. */
  function Stale(bytes: seq<Page>, index': map<nat, int>, a: nat): bv8 {
    ByteAt(bytes, index', a)
  }

  /** As written, byte `a` is the intended one exactly when it is not left stale or the
      stale byte happens to be right. */
  lemma AsWrittenByte(wild: int, off: nat, buf: seq<bv8>, bytes: seq<Page>, index: map<nat, int>,
                      bytes': seq<Page>, index': map<nat, int>, a: nat)
    requires buf != [] && Wrote(AsWritten(wild), off, buf, bytes, index, bytes', index')
    requires forall fp | fp in index :: 0 <= index[fp] < |bytes|
    ensures ByteAt(bytes', index', a) == Intended(off, buf, bytes, index, a) <==>
            (LeftStale(off, |buf|, index.Keys, a) ==> Stale(bytes, index', a) == ByteAt(bytes, index, a))
    ensures LeftStale(off, |buf|, index.Keys, a) ==> ByteAt(bytes', index', a) == Stale(bytes, index', a)
  {
    hide Touched, Wrote, PageCount;
    WroteByte(AsWritten(wild), off, buf, bytes, index, bytes', index', a);
  }

  /** Does the write, as written, carry over the bytes behind its end in its last page? */
  predicate KeepsTail(off: nat, cnt: nat, mapped: set<nat>) {
    (off + cnt) / PAGE_SIZE in mapped && PageCount(cnt, off % PAGE_SIZE) % MAX_PAGES != 1
  }

  /** A caller's test for a clean write: the head of the first page is written or mapped;
      the tail of the last page is written, or mapped in a write whose last chunk has
      more than one page. */
  predicate CleanWrite(off: nat, cnt: nat, mapped: set<nat>) {
    && (off % PAGE_SIZE == 0 || off / PAGE_SIZE in mapped)
    && ((off + cnt) % PAGE_SIZE == 0 || KeepsTail(off, cnt, mapped))
  }

  /** The weaker test for a write that drops no byte of the file it makes: the tail may
      also lie behind the end of the file. */
  predicate SafeWrite(off: nat, cnt: nat, size: nat, mapped: set<nat>) {
    && (off % PAGE_SIZE == 0 || off / PAGE_SIZE in mapped)
    && ((off + cnt) % PAGE_SIZE == 0 || size <= off + cnt || KeepsTail(off, cnt, mapped))
  }

  /** And the test for a write that leaves nothing stale behind the end of the file: its
      last page is written to the end, inside the old file, or carried over. */
  predicate SafeTail(off: nat, cnt: nat, size: nat, mapped: set<nat>) {
    var end := off + cnt;
    end % PAGE_SIZE == 0 || FileOff(end / PAGE_SIZE + 1) <= size || KeepsTail(off, cnt, mapped)
  }

  /** The two tests together make a clean write. */
  lemma CleanIsSafe(off: nat, cnt: nat, size: nat, mapped: set<nat>)
    ensures CleanWrite(off, cnt, mapped) <==> SafeWrite(off, cnt, size, mapped) && SafeTail(off, cnt, size, mapped)
  {
  }

  /** The last page of a write holds the byte behind its end, unless it ends there. */
  lemma EndPage(off: nat, cnt: nat, a: nat)
    requires 0 < cnt && Touched(off, cnt, a / PAGE_SIZE)
    ensures a < off ==> off % PAGE_SIZE != 0 && a / PAGE_SIZE == off / PAGE_SIZE
    ensures a >= off + cnt ==> (off + cnt) % PAGE_SIZE != 0 && a / PAGE_SIZE == (off + cnt) / PAGE_SIZE
  {
  }

  /** The first byte before and the first byte behind a write. */
  lemma BesideWrite(off: nat, cnt: nat)
    requires 0 < cnt
    ensures off % PAGE_SIZE != 0 ==> off > 0 && (off - 1) / PAGE_SIZE == off / PAGE_SIZE && Touched(off, cnt, off / PAGE_SIZE)
    ensures (off + cnt) % PAGE_SIZE != 0 ==> Touched(off, cnt, (off + cnt) / PAGE_SIZE)
  {
  }

  /** A stale byte of a write that is not clean. */
  function StaleAt(off: nat, cnt: nat, mapped: set<nat>): nat
    requires 0 < cnt
  {
    if off % PAGE_SIZE != 0 && off / PAGE_SIZE !in mapped then (if off > 0 then off - 1 else 0)
    else off + cnt
  }

  /** Exactly the writes that are not clean leave a byte stale. */
  lemma CleanWriteExact(off: nat, cnt: nat, mapped: set<nat>)
    requires 0 < cnt
    ensures CleanWrite(off, cnt, mapped) <==> forall a: nat :: !LeftStale(off, cnt, mapped, a)
    ensures !CleanWrite(off, cnt, mapped) ==> LeftStale(off, cnt, mapped, StaleAt(off, cnt, mapped))
  {
    hide Touched, PageCount;
    BesideWrite(off, cnt);
    forall a: nat | LeftStale(off, cnt, mapped, a)
      ensures !CleanWrite(off, cnt, mapped)
    {
      EndPage(off, cnt, a);
    }
    if !CleanWrite(off, cnt, mapped) {
      assert LeftStale(off, cnt, mapped, StaleAt(off, cnt, mapped));
    }
  }

  /** Exactly the writes that fail the weaker test drop a byte of the file. */
  lemma SafeWriteExact(off: nat, cnt: nat, size: nat, mapped: set<nat>)
    requires 0 < cnt
    ensures SafeWrite(off, cnt, size, mapped) <==> forall a: nat :: !Dropped(off, cnt, size, mapped, a)
  {
    hide Touched, PageCount;
    BesideWrite(off, cnt);
    forall a: nat | Dropped(off, cnt, size, mapped, a)
      ensures !SafeWrite(off, cnt, size, mapped)
    {
      EndPage(off, cnt, a);
    }
    if !SafeWrite(off, cnt, size, mapped) {
      assert Dropped(off, cnt, size, mapped, StaleAt(off, cnt, mapped));
    }
  }

  /** A one-byte overwrite at the start of a mapped page drops the rest of it. */
  lemma OneByteOverwriteDropsTheRest(a: nat)
    requires 1 <= a < PAGE_SIZE
    ensures Dropped(0, 1, PAGE_SIZE, {0}, a)
  {
  }

  // -------------------------------------------------------------- writes of no bytes

  /** A write of no bytes asks for pages wherever it is: for one inside a page, for 2^52
      at a page boundary, where the count underflows; that is more than there are. */
  lemma ZeroLengthPages(offset: nat)
    requires offset < PAGE_SIZE
    ensures PageCount(0, offset) == if offset == 0 then 0x10_0000_0000_0000 else 1
    ensures NUM_PAGES < 0x10_0000_0000_0000
  {
  }

  /** Inside a page it copies nothing and merges nothing; at a page boundary it copies
      63 whole pages that the buffer does not have. */
  lemma ZeroLengthChunk(offset: nat)
    requires offset < PAGE_SIZE
    ensures ChunkOf(PageCount(0, offset), 0, offset) == if offset == 0 then Chunk(MAX_PAGES, 0, 0, 63, 0) else Chunk(1, 0, 0, 0, 0)
  {
    ZeroLengthPages(offset);
  }

  /** Page `q` for file page `fp` changes that page of the file and no other. */
  lemma InstalledByte(bytes: seq<Page>, index: map<nat, int>, fp: nat, q: int, a: nat)
    requires 0 <= q < |bytes|
    ensures ByteAt(bytes, index[fp := q], a) == if a / PAGE_SIZE == fp then bytes[q][a % PAGE_SIZE] else ByteAt(bytes, index, a)
  {
  }

  /** Pages a write touches. */
  function TouchedPages(off: nat, cnt: nat): (r: set<nat>)
    requires 0 < cnt
    ensures forall fp :: fp in r <==> Touched(off, cnt, fp)
  {
    set fp: nat | fp <= (off + cnt - 1) / PAGE_SIZE && Touched(off, cnt, fp)
  }

  /** A write makes one entry per 64 pages it touches, and needs two refills for each. */
  lemma EntriesOfWrite(off: nat, cnt: nat)
    requires 0 < cnt && off + cnt < U64_SPAN
    ensures ChunkCount(PageCount(cnt, off % PAGE_SIZE)) == (|TouchedPages(off, cnt)| + 63) / 64
    ensures WriteCost(cnt, off) == 1024 * ((|TouchedPages(off, cnt)| + 63) / 64)
  {
    var first, last := off / PAGE_SIZE, (off + cnt - 1) / PAGE_SIZE;
    assert TouchedPages(off, cnt) == Range(first, last + 1);
    assert PageCount(cnt, off % PAGE_SIZE) == last + 1 - first;
  }
}
