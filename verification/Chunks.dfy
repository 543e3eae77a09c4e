/** The pages of one chunk of a write: what the copies and the completion of the first
    and last page leave in them. */
module Chunks {
  import opened Chains
  import opened PageLists
  import opened Layout
  import opened LogModel
  import opened Region
  import opened WriteModel

  /** The bytes of chunk page `i` once head and tail are filled in. */
  function SideFilled(b: Build, f: Fill, ck: Chunk, offset: nat, index: map<nat, int>, i: nat): Page
    requires FillOk(f) && i < |f.c| && offset + ck.first <= PAGE_SIZE && ck.last < PAGE_SIZE
  {
    FillPage(f, i);
    var page := Copied(f.off, f.buf, f.start + i, f.bytes0[f.c[i]]);
    var prior := PageOf(f.bytes0, index, f.start + i);
    var headed := if i == 0 && ck.first != 0 then FillHead(b, page, offset, prior) else page;
    if i < |f.c| - 1 then headed
    else if ck.last != 0 then FillTail(b, true, headed, ck.last, prior)
    else if ck.alloc == 1 && b == Repaired then FillTail(b, true, headed, offset + ck.first, prior)
    else headed
  }

  /** After the head of the first page and the tail of the last are filled in, every
      page of the chunk is the image of its file page. */
  lemma SidesGiveImages(b: Build, f: Fill, ck: Chunk, offset: nat, ub: nat, gone: nat, index: map<nat, int>, i: nat)
    requires FillOk(f) && |f.c| == ck.alloc && i < |f.c| && offset + ck.first <= PAGE_SIZE && ck.last < PAGE_SIZE
    requires ChunkPlace(ck, f.off, |f.buf|, f.start, offset, ub, gone)
    ensures 0 <= f.c[i] < |f.bytes0| && f.buf != [] && Touched(f.off, |f.buf|, f.start + i)
    ensures SideFilled(b, f, ck, offset, index, i) ==
            Image(b, f.off, f.buf, f.start + i, PageOf(f.bytes0, index, f.start + i), f.bytes0[f.c[i]])
  {
    hide ChunkPlace, MergesTail, Copied, Image, PageOf, FillHead, FillTail, Lo, Hi, Touched, FillOk;
    FillPage(f, i);
    PlaceFacts(ck, f.off, |f.buf|, f.start, offset, ub, gone);
    var fp := f.start + i;
    var page, prior := Copied(f.off, f.buf, fp, f.bytes0[f.c[i]]), PageOf(f.bytes0, index, fp);
    ChunkLo(ck, f.off, |f.buf|, f.start, offset, ub, gone, i);
    ChunkHi(ck, f.off, |f.buf|, f.start, offset, ub, gone, i);
    ChunkMerges(b, ck, f.off, |f.buf|, f.start, offset, ub, gone);
    ImageIsFilled(b, f.off, f.buf, fp, prior, f.bytes0[f.c[i]]);
    var merge := MergesTail(b, f.off, |f.buf|);
    FillNothing(b, merge, page, prior);
    var headed := FillHead(b, page, Lo(f.off, fp), prior);
    FillNothing(b, merge, headed, prior);
    RepairedMerges(b, f.off, |f.buf|);
    if b.AsWritten? {
      FillTailStale(b.wild, headed, Hi(f.off, |f.buf|, fp), prior);
    }
  }

  /** The chunk is complete: `bytes` holds the image of each of its file pages. */
  ghost predicate Imaged(b: Build, f: Fill, index: map<nat, int>, bytes: seq<Page>)
    requires FillOk(f)
  {
    && |bytes| == |f.bytes0|
    && (forall i | 0 <= i < |f.c| :: bytes[f.c[i]] ==
          Image(b, f.off, f.buf, f.start + i, PageOf(f.bytes0, index, f.start + i), f.bytes0[f.c[i]]))
    && (forall p | 0 <= p < |bytes| && p !in f.c :: bytes[p] == f.bytes0[p])
  }

  /** The two stores of `FillSides`: `b1` after the copies, `b2` after the head, `b3` after
      the tail. */
  ghost predicate SidesDone(b: Build, f: Fill, ck: Chunk, offset: nat, index: map<nat, int>, b1: seq<Page>, b2: seq<Page>, b3: seq<Page>)
    requires FillOk(f) && |b1| == |f.bytes0| && |f.c| == ck.alloc
    requires offset + ck.first <= PAGE_SIZE && ck.last < PAGE_SIZE && (ck.last != 0 ==> ck.alloc > 1)
  {
    var first, last, n := f.c[0], f.c[|f.c| - 1], f.start + ck.alloc - 1;
    && 0 <= first < |b1| && 0 <= last < |b1|
    && b2 == (if ck.first != 0 then b1[first := FillHead(b, b1[first], offset, PageOf(f.bytes0, index, f.start))] else b1)
    && b3 == if ck.last != 0 then b2[last := FillTail(b, true, b2[last], ck.last, PageOf(f.bytes0, index, n))]
             else if ck.alloc == 1 && b == Repaired
                  then b2[last := FillTail(b, true, b2[last], offset + ck.first, PageOf(f.bytes0, index, f.start))]
             else b2
  }

  lemma SidesElsewhere(b: Build, f: Fill, ck: Chunk, offset: nat, index: map<nat, int>, b1: seq<Page>, b2: seq<Page>, b3: seq<Page>)
    requires FillOk(f) && |b1| == |f.bytes0| && |f.c| == ck.alloc
    requires offset + ck.first <= PAGE_SIZE && ck.last < PAGE_SIZE && (ck.last != 0 ==> ck.alloc > 1)
    requires SidesDone(b, f, ck, offset, index, b1, b2, b3)
    ensures |b3| == |b1| && forall p | 0 <= p < |b1| && p !in f.c :: b3[p] == b1[p]
  {
    hide PageOf, FillHead, FillTail, Linked, NoDup, Touched;
  }

  /** They give `SideFilled`. */
  lemma SidesStored(b: Build, f: Fill, ck: Chunk, offset: nat, index: map<nat, int>, b1: seq<Page>, b2: seq<Page>, b3: seq<Page>, i: nat)
    requires FillOk(f) && |b1| == |f.bytes0| && |f.c| == ck.alloc && i < |f.c|
    requires offset + ck.first <= PAGE_SIZE && ck.last < PAGE_SIZE && (ck.last != 0 ==> ck.alloc > 1)
    requires 0 <= f.c[i] < |b1| && b1[f.c[i]] == Copied(f.off, f.buf, f.start + i, f.bytes0[f.c[i]])
    requires SidesDone(b, f, ck, offset, index, b1, b2, b3)
    ensures |b3| == |b1| && b3[f.c[i]] == SideFilled(b, f, ck, offset, index, i)
  {
    hide Copied, PageOf, FillHead, FillTail, Touched, Linked;
    assert f.c[i] != f.c[0] || i == 0;
    assert f.c[i] != f.c[|f.c| - 1] || i == |f.c| - 1;
  }

  lemma SidesComplete(b: Build, f: Fill, ck: Chunk, offset: nat, ub: nat, gone: nat, index: map<nat, int>,
                      b1: seq<Page>, b2: seq<Page>, b3: seq<Page>)
    requires FillOk(f) && |b1| == |f.bytes0| && |f.c| == ck.alloc
    requires offset + ck.first <= PAGE_SIZE && ck.last < PAGE_SIZE && (ck.last != 0 ==> ck.alloc > 1)
    requires ChunkPlace(ck, f.off, |f.buf|, f.start, offset, ub, gone)
    requires forall i | 0 <= i < |f.c| :: b1[f.c[i]] == Copied(f.off, f.buf, f.start + i, f.bytes0[f.c[i]])
    requires forall p | 0 <= p < |b1| && p !in f.c :: b1[p] == f.bytes0[p]
    requires SidesDone(b, f, ck, offset, index, b1, b2, b3)
    ensures Imaged(b, f, index, b3)
  {
    hide ChunkPlace, Copied, Image, PageOf, SideFilled, Touched, MergesTail, Linked, NoDup, SidesDone;
    FillPages(f);
    SidesElsewhere(b, f, ck, offset, index, b1, b2, b3);
    forall i | 0 <= i < |f.c|
      ensures b3[f.c[i]] == Image(b, f.off, f.buf, f.start + i, PageOf(f.bytes0, index, f.start + i), f.bytes0[f.c[i]])
    {
      SidesStored(b, f, ck, offset, index, b1, b2, b3, i);
      SidesGiveImages(b, f, ck, offset, ub, gone, index, i);
    }
  }

  lemma RepairedMerges(b: Build, off: nat, cnt: nat)
    ensures b == Repaired ==> MergesTail(b, off, cnt)
  {
  }

  /** One chunk being filled: the memory it starts from, its chain, its first file
      page, the write it belongs to, and its log entry. */
  datatype Fill = Fill(next: seq<int>, bytes0: seq<Page>, back0: seq<Pos>, c: seq<int>,
                       start: nat, off: nat, buf: seq<bv8>, pos: Pos)

  ghost predicate FillOk(f: Fill) {
    && |f.next| == |f.bytes0| == |f.back0|
    && f.c != [] && Linked(f.next, f.c) && NoDup(f.c) && f.buf != []
    && (forall fp | f.start <= fp < f.start + |f.c| :: Touched(f.off, |f.buf|, fp))
  }

  lemma FillPage(f: Fill, k: nat)
    requires FillOk(f) && k < |f.c|
    ensures 0 <= f.c[k] < |f.bytes0| && |f.bytes0| == |f.next| && f.buf != [] && Touched(f.off, |f.buf|, f.start + k)
  {
  }

  lemma FillPages(f: Fill)
    requires FillOk(f)
    ensures |f.bytes0| == |f.next| && forall i | 0 <= i < |f.c| :: 0 <= f.c[i] < |f.bytes0| && f.c[i] in f.c
  {
  }

  /** The first `done` pages of the chunk hold their user bytes; nothing else has
      changed. */
  ghost predicate Filled(f: Fill, bytes: seq<Page>, back: seq<Pos>, done: nat)
    requires FillOk(f)
  {
    && |bytes| == |f.bytes0| && |back| == |f.back0| && done <= |f.c|
    && (forall k | 0 <= k < done :: bytes[f.c[k]] == Copied(f.off, f.buf, f.start + k, f.bytes0[f.c[k]]) && back[f.c[k]] == f.pos)
    && (forall p | 0 <= p < |bytes| && p !in f.c[..done] :: bytes[p] == f.bytes0[p] && back[p] == f.back0[p])
  }

  lemma FillStart(f: Fill, ck: Chunk, offset: nat, ub: nat, gone: nat)
    requires |f.next| == |f.bytes0| == |f.back0| && f.c != [] && Linked(f.next, f.c) && |f.c| == ck.alloc
    requires ChunkPlace(ck, f.off, |f.buf|, f.start, offset, ub, gone)
    ensures FillOk(f) && Filled(f, f.bytes0, f.back0, 0)
  {
    LinkedNoDup(f.next, f.c);
    ChunkTouches(f.off, |f.buf|, f.start, offset, ub, gone, ck);
  }

  lemma FilledAll(f: Fill, bytes: seq<Page>, back: seq<Pos>)
    requires FillOk(f) && Filled(f, bytes, back, |f.c|)
    ensures |bytes| == |f.bytes0| && |back| == |f.back0|
    ensures forall i | 0 <= i < |f.c| :: bytes[f.c[i]] == Copied(f.off, f.buf, f.start + i, f.bytes0[f.c[i]]) && back[f.c[i]] == f.pos
    ensures forall p | 0 <= p < |bytes| && p !in f.c :: bytes[p] == f.bytes0[p] && back[p] == f.back0[p]
  {
    assert f.c[..|f.c|] == f.c;
  }

  /** Pages that are not in the chunk still hold what they held. */
  lemma SamePageOf(f: Fill, bytes: seq<Page>, index: map<nat, int>, fp: nat)
    requires |bytes| == |f.bytes0| && forall p | 0 <= p < |bytes| && p !in f.c :: bytes[p] == f.bytes0[p]
    requires forall fp | fp in index :: index[fp] !in f.c
    ensures PageOf(bytes, index, fp) == PageOf(f.bytes0, index, fp)
  {
  }

  lemma FilledStep(f: Fill, bytes: seq<Page>, back: seq<Pos>, done: nat)
    requires FillOk(f) && done < |f.c| && Filled(f, bytes, back, done)
    ensures |bytes| == |f.bytes0| && |back| == |f.back0| && bytes[f.c[done]] == f.bytes0[f.c[done]]
    ensures Filled(f, bytes[f.c[done] := Copied(f.off, f.buf, f.start + done, f.bytes0[f.c[done]])], back[f.c[done] := f.pos], done + 1)
  {
    hide Copied, Touched, Linked, NoDup;
    FillPages(f);
    NotYet(f.c, done);
  }

  lemma NotYet(c: seq<int>, k: nat)
    requires NoDup(c) && k < |c|
    ensures c[k] !in c[..k] && c[..k + 1] == c[..k] + [c[k]]
    ensures forall i | 0 <= i < k :: c[i] != c[k] && c[i] in c[..k]
    ensures forall p | p in c[..k + 1] :: p in c[..k] || p == c[k]
  {
  }

  /** `if (next_offset != OFFSET_NULL) page = next` moves along the chain and stays
      on its last page. */
  lemma StepAlong(next: seq<int>, c: seq<int>, k: nat)
    requires Linked(next, c) && k < |c|
    ensures 0 <= c[k] < |next|
    ensures k + 1 < |c| ==> next[c[k]] == c[k + 1] != NIL
    ensures k + 1 == |c| ==> next[c[k]] == NIL
  {
  }

  lemma FileOffZero()
    ensures FileOff(0) == 0
  {
  }

  lemma FileOffMono(i: nat, j: nat)
    requires i <= j
    ensures FileOff(i) <= FileOff(j)
  {
  }

  /** What the copies need from `ChunkExact`, without products. */
  lemma ChunkShape(off: nat, cnt: nat, start: nat, offset: nat, ub: nat, gone: nat, ck: Chunk)
    requires ChunkPlace(ck, off, cnt, start, offset, ub, gone)
    ensures 0 <= ck.mid && ck.last < PAGE_SIZE && (offset != 0 ==> ck.first != 0)
    ensures (if ck.first != 0 then 1 else 0) + ck.mid + (if ck.last != 0 then 1 else 0) == ck.alloc
    ensures var u := ub + (if ck.first != 0 then PAGE_SIZE - offset else 0);
      && (ck.mid > 0 || ck.last != 0 ==> u + FileOff(ck.mid) + ck.last <= cnt)
      && (ck.last != 0 ==> u + FileOff(ck.mid) + ck.last == cnt)
  {
    ChunkExact(cnt - ub, offset);
  }

  lemma ChunkTouches(off: nat, cnt: nat, start: nat, offset: nat, ub: nat, gone: nat, ck: Chunk)
    requires ChunkPlace(ck, off, cnt, start, offset, ub, gone)
    ensures 0 < cnt
    ensures forall fp | start <= fp < start + ck.alloc :: Touched(off, cnt, fp)
  {
    ChunkExact(cnt - ub, offset);
  }

  lemma CopiedFirst(off: nat, buf: seq<bv8>, start: nat, offset: nat, ub: nat, gone: nat, ck: Chunk, stale: Page)
    requires ChunkPlace(ck, off, |buf|, start, offset, ub, gone) && ck.first != 0
    ensures buf != []
    ensures Touched(off, |buf|, start) && offset + ck.first <= PAGE_SIZE && ub + ck.first <= |buf|
    ensures Patch(stale, offset, buf[ub..ub + ck.first]) == Copied(off, buf, start, stale)
  {
    ChunkExact(|buf| - ub, offset);
  }

  lemma CopiedMid(off: nat, buf: seq<bv8>, fp: nat, u: nat, stale: Page)
    requires buf != [] && off + u == FileOff(fp) && u + PAGE_SIZE <= |buf|
    ensures Touched(off, |buf|, fp)
    ensures Patch(stale, 0, buf[u..u + PAGE_SIZE]) == Copied(off, buf, fp, stale)
  {
  }

  lemma CopiedLast(off: nat, buf: seq<bv8>, fp: nat, u: nat, last: nat, stale: Page)
    requires buf != [] && off + u == FileOff(fp) && u + last == |buf| && 0 < last < PAGE_SIZE
    ensures Touched(off, |buf|, fp)
    ensures Patch(stale, 0, buf[u..u + last]) == Copied(off, buf, fp, stale)
  {
  }
}
