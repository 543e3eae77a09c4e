/** The file layer: log append, write, read and garbage collection of one inode
    (src/nvmio.c, src/gc.c). */
module Inodes {
  import opened Chains
  import opened PageLists
  import opened Layout
  import opened Bitmap
  import opened LogModel
  import opened Region
  import opened WriteModel
  import opened Chunks
  import opened LogStore
  import opened LogMeaning
  import opened WriteSteps
  import opened GcSteps
  import opened GcTask
  import opened EmptyWrites
  import opened FileSpec

  class Inode {
    ghost const ino: nat
    var logHead: int
    var logTail: Pos
    var iSize: nat
    var fileOff: nat
    var index: map<nat, int> // bplus_tree
    ghost var log: seq<LogPage>

    constructor (ghost ino: nat)
      ensures this.ino == ino
    {
      this.ino := ino;
    }

    // ------------------------------------------------------------------ append

    /** `get_log_entry`: hand out the slot at tail `t`, on a fresh page if the last
        one is full. */
    method GetLogEntry(nvm: Nvm, t: Pos) returns (ok: bool, t': Pos, pos: Pos)
      requires nvm.Valid() && LogOk(nvm.M(), ino, log, 0) && t == EndPos(log)
      modifies nvm`next, nvm`hdr, nvm`head, nvm`count, nvm`own, nvm`free, this`log
      ensures !ok ==> nvm.Short(1)
      ensures nvm.Room() + FILL_MAX >= old(nvm.Room()) && (old(nvm.Room()) >= FILL_MAX ==> ok)
      ensures nvm.Valid() && |nvm.next| == old(|nvm.next|)
      ensures LogOk(nvm.M(), ino, log, if ok then 1 else 0)
      ensures ok ==> pos == EndPos(log) && pos.slot < SLOTS && t' == Pos(pos.page, pos.slot + 1)
      ensures log == old(log) || (ok && log == old(log) + [LogPage(pos.page, [])])
      ensures log != old(log) ==> 0 <= pos.page < |nvm.own| && old(nvm.own[pos.page]).Free?
      ensures log != old(log) ==> nvm.own[pos.page] == Held(Use(ino, LogRole))
      ensures forall p | 0 <= p < |nvm.own| && old(nvm.own[p]).Held? :: nvm.own[p] == old(nvm.own[p])
      ensures forall p | 0 <= p < |nvm.own| && old(nvm.own[p]).Held? && nvm.own[p] != Held(Use(ino, LogRole)) ::
                nvm.next[p] == old(nvm.next[p]) && nvm.hdr[p] == old(nvm.hdr[p])
      ensures forall p | 0 <= p < |nvm.own| && old(nvm.own[p]).Free? :: nvm.own[p].Free? || (log != old(log) && p == pos.page)
    {
      hide Inv, PageOk, Linked, IsLastEntry, EntryOff, LogOk, MemOk;
      ghost var m := nvm.M();
      MemSizes(m);
      TailHeld(m, ino, log, 0);
      LastRoom(m, ino, log, 0);
      LastEntryIffFull(t.page, t.slot);
      TailAboveFreeSpace(t.page, t.slot);
      if IsLastEntry(EntryOff(t.page, t.slot)) {
        var first;
        ok, first := NewLogPage(nvm, t.page);
        pos, t' := Pos(first, 0), Pos(first, 1);
      } else {
        pos, t' := t, Pos(t.page, t.slot + 1);
        var node := nvm.hdr[t.page];
        nvm.hdr := nvm.hdr[t.page := node.(objCnt := node.objCnt + 1)];
        SizesHdr(m, nvm.M());
        OpenSlot(m, nvm.M(), ino, log);
        ok := true;
      }
    }

    /** The part of `get_log_entry` for a full last page (src/nvmio.c:111-126): chain a
        fresh page, whose first slot is handed out. */
    method NewLogPage(nvm: Nvm, last: int) returns (ok: bool, first: int)
      requires nvm.Valid() && LogOk(nvm.M(), ino, log, 0) && log != [] && last == Last(log).id && |Last(log).ents| == SLOTS
      modifies nvm`next, nvm`hdr, nvm`head, nvm`count, nvm`own, nvm`free, this`log
      ensures !ok ==> nvm.Short(1) && log == old(log)
      ensures nvm.Room() + FILL_MAX >= old(nvm.Room()) && (old(nvm.Room()) >= FILL_MAX ==> ok)
      ensures nvm.Valid() && |nvm.next| == old(|nvm.next|)
      ensures LogOk(nvm.M(), ino, log, if ok then 1 else 0)
      ensures ok ==> log == old(log) + [LogPage(first, [])]
      ensures ok ==> 0 <= first < |nvm.own| && old(nvm.own[first]).Free? && nvm.own[first] == Held(Use(ino, LogRole))
      ensures forall p | 0 <= p < |nvm.own| && old(nvm.own[p]).Held? :: nvm.own[p] == old(nvm.own[p])
      ensures forall p | 0 <= p < |nvm.own| && old(nvm.own[p]).Held? && p != last :: nvm.next[p] == old(nvm.next[p]) && nvm.hdr[p] == old(nvm.hdr[p])
      ensures forall p | 0 <= p < |nvm.own| && old(nvm.own[p]).Free? :: nvm.own[p].Free? || (ok && p == first)
    {
      hide Inv, PageOk, Linked, LogOk, MemOk;
      ghost var m := nvm.M();
      MemSizes(m);
      TailHeld(m, ino, log, 0);
      ghost var c;
      ok, first, c := nvm.AllocPages(1, ino);
      ghost var m1 := nvm.M();
      MemSizes(m1);
      LogFrame(m, m1, ino, log, 0);
      if ok {
        OnePage(m1.next, c);
        assert nvm.own[first].Held?;
        nvm.next := nvm.next[last := first];
        nvm.hdr := nvm.hdr[first := Counters(1, 0, 0, 0)];
        nvm.own := nvm.own[first := Held(Use(ino, LogRole))];
        HolderChanges(Pool(m1.next, nvm.head, nvm.count), m1.own, nvm.free, NonePushed(), nvm.next, nvm.own);
        SizesHdr(m1, nvm.M());
        OpenPage(m1, nvm.M(), ino, log, first);
        log := log + [LogPage(first, [])];
      }
    }

    /** `init_log_entry`: fill in the slot at `pos` for the chain `c`. */
    method InitLogEntry(nvm: Nvm, pos: Pos, first: int, size: nat, n: nat, start: nat, end: nat, ghost c: seq<int>)
      requires nvm.Valid() && LogOk(nvm.M(), ino, log, 1) && pos == EndPos(log) && pos.slot < SLOTS
      requires |c| == n && 0 < n <= MAX_PAGES && Linked(nvm.next, c) && first == c[0]
      requires forall i | 0 <= i < n :: nvm.own[c[i]] == Held(Use(ino, Loose))
      requires start % PAGE_SIZE == 0
      modifies nvm`hdr, nvm`slot, nvm`own, this`log
      ensures nvm.Valid() && LogOk(nvm.M(), ino, log, 0)
      ensures log == Append(old(log), Ent(Entry(first, size, start, end, n, 0, 0), c, {}))
      ensures EndPos(log) == Pos(pos.page, pos.slot + 1)
      ensures forall p | 0 <= p < |nvm.own| :: nvm.own[p] == if p in c then Held(Use(ino, DataRole(pos))) else old(nvm.own[p])
      ensures forall p | 0 <= p < |nvm.own| && p != pos.page :: nvm.hdr[p] == old(nvm.hdr[p]) && nvm.slot[p] == old(nvm.slot[p])
    {
      hide Inv, PageOk, Linked;
      ghost var m := nvm.M();
      LogIds(m, ino, log, 1);
      var node := nvm.hdr[pos.page];
      nvm.hdr := nvm.hdr[pos.page := node.(pagesCnt := node.pagesCnt + n)];
      var entry := Entry(first, size, start, end, n, 0, 0);
      nvm.slot := nvm.slot[pos.page := nvm.slot[pos.page][pos.slot := entry]];
      nvm.own := Grant(nvm.own, c, Held(Use(ino, DataRole(pos))));
      ghost var e := Ent(entry, c, {});
      HolderChanges(Pool(m.next, nvm.head, nvm.count), m.own, nvm.free, NonePushed(), nvm.next, nvm.own);
      FillSlot(m, nvm.M(), ino, log, e);
      log := Append(log, e);
    }

    // ------------------------------------------------------------ copying bytes

    /** One copy of the write loop: `data` goes to `page + at`, the page's header names
        the log entry, and the walk moves on along the chain. */
    method CopyPage(nvm: Nvm, page: int, at: nat, data: seq<bv8>, pos: Pos, ghost f: Fill, ghost done: nat) returns (page': int)
      requires nvm.Valid() && FillOk(f) && f.next == nvm.next && f.pos == pos && Filled(f, nvm.bytes, nvm.back, done)
      requires done < |f.c| && page == f.c[done] && at + |data| <= PAGE_SIZE
      requires Patch(f.bytes0[page], at, data) == Copied(f.off, f.buf, f.start + done, f.bytes0[page])
      modifies nvm`bytes, nvm`back
      ensures nvm.Valid() && page' == f.c[if done + 1 < |f.c| then done + 1 else |f.c| - 1]
      ensures Filled(f, nvm.bytes, nvm.back, done + 1)
    {
      hide Inv, Copied, Patch, Touched;
      FilledStep(f, nvm.bytes, nvm.back, done);
      StepAlong(nvm.next, f.c, done);
      nvm.back := nvm.back[page := pos];
      nvm.bytes := nvm.bytes[page := Patch(nvm.bytes[page], at, data)];
      page' := page;
      if nvm.next[page] != NIL {
        page' := nvm.next[page];
      }
    }

    /** The middle loop: `mid` whole pages. */
    method CopyMiddle(nvm: Nvm, first: int, mid: nat, buf: seq<bv8>, ub: nat, pos: Pos, ghost f: Fill, ghost done: nat)
      returns (page: int, u: nat)
      requires nvm.Valid() && FillOk(f) && f.next == nvm.next && f.pos == pos && f.buf == buf && done + mid <= |f.c|
      requires f.c != [] && first == f.c[if done < |f.c| then done else |f.c| - 1]
      requires done < |f.c| ==> f.off + ub == FileOff(f.start + done)
      requires mid > 0 ==> ub + FileOff(mid) <= |buf|
      requires Filled(f, nvm.bytes, nvm.back, done)
      modifies nvm`bytes, nvm`back
      ensures nvm.Valid() && u == ub + FileOff(mid)
      ensures page == f.c[if done + mid < |f.c| then done + mid else |f.c| - 1]
      ensures done + mid < |f.c| ==> f.off + u == FileOff(f.start + done + mid)
      ensures Filled(f, nvm.bytes, nvm.back, done + mid)
    {
      hide Inv, FillOk, Copied, Patch, Touched, Filled, FileOff;
      page, u := first, ub;
      FileOffZero();
      var i := 0;
      while i < mid
        invariant 0 <= i <= mid && u == ub + FileOff(i)
        invariant nvm.Valid() && nvm.next == old(nvm.next)
        invariant page == f.c[if done + i < |f.c| then done + i else |f.c| - 1]
        invariant done + i < |f.c| ==> f.off + u == FileOff(f.start + done + i)
        invariant Filled(f, nvm.bytes, nvm.back, done + i)
      {
        ghost var k := done + i;
        FileOffAdd(f.start + k, 1);
        FileOffAdd(i, 1);
        FileOffMono(i + 1, mid);
        FillPage(f, k);
        CopiedMid(f.off, buf, f.start + k, u, f.bytes0[page]);
        page := CopyPage(nvm, page, 0, buf[u..u + PAGE_SIZE], pos, f, k);
        u := u + PAGE_SIZE;
        i := i + 1;
      }
    }

    /** The first copy: up to the end of the chunk's first page. */
    method CopyFirst(nvm: Nvm, first: int, ck: Chunk, offset: nat, buf: seq<bv8>, ub: nat, pos: Pos, ghost f: Fill, ghost gone: nat)
      returns (page: int, u: nat)
      requires nvm.Valid() && FillOk(f) && f.next == nvm.next && f.pos == pos && f.buf == buf && f.c != [] && first == f.c[0]
      requires ChunkPlace(ck, f.off, |buf|, f.start, offset, ub, gone)
      requires Filled(f, nvm.bytes, nvm.back, 0)
      modifies nvm`bytes, nvm`back
      ensures nvm.Valid() && u == ub + if ck.first != 0 then PAGE_SIZE - offset else 0
      ensures var done := if ck.first != 0 then 1 else 0;
        && done <= |f.c| && Filled(f, nvm.bytes, nvm.back, done)
        && page == f.c[if done < |f.c| then done else |f.c| - 1]
        && (done < |f.c| ==> f.off + u == FileOff(f.start + done))
    {
      hide ChunkPlace, FileOff, Copied, Patch, Touched, Inv, MemOk, FillOk, Filled, Linked;
      PlaceFacts(ck, f.off, |buf|, f.start, offset, ub, gone);
      page, u := first, ub;
      FillPage(f, 0);
      if ck.first != 0 {
        CopiedFirst(f.off, buf, f.start, offset, ub, gone, ck, f.bytes0[page]);
        FileOffAdd(f.start, 1);
        page := CopyPage(nvm, page, offset, buf[u..u + ck.first], pos, f, 0);
        u := u + PAGE_SIZE - offset;
      }
    }

    /** The three copies of one chunk of the write loop (src/nvmio.c:283-311): the
        user bytes from `ub` on go into the chain `f.c`. */
    method CopyData(nvm: Nvm, first: int, ck: Chunk, start: nat, offset: nat, buf: seq<bv8>, ub: nat, pos: Pos,
                    ghost f: Fill, ghost gone: nat)
      returns (lastPage: int)
      requires nvm.Valid() && f.c != [] && Linked(nvm.next, f.c) && first == f.c[0] && |f.c| == ck.alloc
      requires f.next == nvm.next && f.bytes0 == nvm.bytes && f.back0 == nvm.back
      requires f.pos == pos && f.buf == buf && f.start == start
      requires ChunkPlace(ck, f.off, |buf|, start, offset, ub, gone)
      modifies nvm`bytes, nvm`back
      ensures nvm.Valid() && lastPage == f.c[|f.c| - 1]
      ensures FillOk(f) && Filled(f, nvm.bytes, nvm.back, |f.c|)
    {
      hide ChunkPlace, FileOff, Copied, Patch, Touched, Inv, MemOk, FillOk, Filled, Linked;
      MemSizes(nvm.M());
      ChunkShape(f.off, |buf|, start, offset, ub, gone, ck);
      FillStart(f, ck, offset, ub, gone);
      var page, u := CopyFirst(nvm, first, ck, offset, buf, ub, pos, f, gone);
      ghost var done := if ck.first != 0 then 1 else 0;
      page, u := CopyMiddle(nvm, page, ck.mid, buf, u, pos, f, done);
      done := done + ck.mid;
      lastPage := CopyLast(nvm, page, ck.last, buf, u, pos, f, done);
    }

    /** Fill in what lies before byte `lo` of the page for file page `fp`. */
    method MergeHead(nvm: Nvm, b: Build, page: int, fp: nat, lo: nat)
      requires nvm.Valid() && 0 <= page < |nvm.next| && lo < PAGE_SIZE
      modifies nvm`bytes
      ensures nvm.Valid()
      ensures nvm.bytes == old(nvm.bytes[page := FillHead(b, nvm.bytes[page], lo, PageOf(nvm.bytes, index, fp))])
    {
      hide Inv;
      if fp in index && 0 <= index[fp] < |nvm.bytes| {
        var part := nvm.bytes[index[fp]];
        nvm.bytes := nvm.bytes[page := part[..lo] + nvm.bytes[page][lo..]];
      } else if b == Repaired {
        nvm.bytes := nvm.bytes[page := Zeros()[..lo] + nvm.bytes[page][lo..]];
      } else {
        SplitJoin(nvm.bytes[page], lo);
      }
    }

    /** Fill in what lies from byte `hi` of the page for file page `fp` on. */
    method MergeTail(nvm: Nvm, b: Build, page: int, fp: nat, hi: nat)
      requires nvm.Valid() && 0 <= page < |nvm.next| && hi <= PAGE_SIZE
      modifies nvm`bytes
      ensures nvm.Valid()
      ensures nvm.bytes == old(nvm.bytes[page := FillTail(b, true, nvm.bytes[page], hi, PageOf(nvm.bytes, index, fp))])
    {
      hide Inv;
      if fp in index && 0 <= index[fp] < |nvm.bytes| {
        var part := nvm.bytes[index[fp]];
        nvm.bytes := nvm.bytes[page := nvm.bytes[page][..hi] + part[hi..]];
      } else if b == Repaired {
        nvm.bytes := nvm.bytes[page := nvm.bytes[page][..hi] + Zeros()[hi..]];
      } else {
        SplitJoin(nvm.bytes[page], hi);
      }
    }

    /** The first and last page of a chunk are completed from the pages the index
        gave before the write (src/nvmio.c:313-331).  The repaired build also fills
        in a page without an old one, and the tail of a one-page chunk. */
    method FillSides(nvm: Nvm, b: Build, first: int, lastPage: int, ck: Chunk, start: nat, offset: nat,
                     ghost f: Fill, ghost ub: nat, ghost gone: nat)
      requires nvm.Valid() && FillOk(f) && f.next == nvm.next && Filled(f, nvm.bytes, nvm.back, |f.c|)
      requires |f.c| == ck.alloc && f.start == start && first == f.c[0] && lastPage == f.c[|f.c| - 1]
      requires ChunkPlace(ck, f.off, |f.buf|, start, offset, ub, gone)
      requires forall fp | fp in index :: index[fp] !in f.c
      modifies nvm`bytes
      ensures nvm.Valid()
      ensures Imaged(b, f, index, nvm.bytes)
    {
      hide Inv, FillOk, Filled, ChunkPlace, FileOff, Copied, PageOf, FillHead, FillTail, Linked, Touched;
      PlaceFacts(ck, f.off, |f.buf|, start, offset, ub, gone);
      FillPage(f, 0);
      FillPage(f, |f.c| - 1);
      FilledAll(f, nvm.bytes, nvm.back);
      ghost var b1 := nvm.bytes;
      SamePageOf(f, b1, index, start);
      if ck.first != 0 {
        MergeHead(nvm, b, first, start, offset);
      }
      ghost var b2 := nvm.bytes;
      SamePageOf(f, b2, index, start + ck.alloc - 1);
      if ck.last != 0 {
        MergeTail(nvm, b, lastPage, start + ck.alloc - 1, ck.last);
      } else if ck.alloc == 1 && b == Repaired {
        MergeTail(nvm, b, lastPage, start, offset + ck.first);
      }
      SidesComplete(b, f, ck, offset, ub, gone, index, b1, b2, nvm.bytes);
    }

    /** The last copy: the beginning of the chunk's last page. */
    method CopyLast(nvm: Nvm, first: int, last: nat, buf: seq<bv8>, u: nat, pos: Pos, ghost f: Fill, ghost done: nat)
      returns (page: int)
      requires nvm.Valid() && FillOk(f) && f.next == nvm.next && f.pos == pos && f.buf == buf && f.c != []
      requires done + (if last != 0 then 1 else 0) == |f.c|
      requires first == f.c[if done < |f.c| then done else |f.c| - 1]
      requires last != 0 ==> f.off + u == FileOff(f.start + done) && u + last == |buf| && last < PAGE_SIZE
      requires Filled(f, nvm.bytes, nvm.back, done)
      modifies nvm`bytes, nvm`back
      ensures nvm.Valid() && page == f.c[|f.c| - 1]
      ensures Filled(f, nvm.bytes, nvm.back, |f.c|)
    {
      hide FileOff, Copied, Patch, Touched, Inv, MemOk, FillOk, Filled, Linked;
      page := first;
      if last != 0 {
        FillPage(f, done);
        CopiedLast(f.off, buf, f.start + done, u, last, f.bytes0[page]);
        page := CopyPage(nvm, page, 0, buf[u..u + last], pos, f, done);
      }
    }

    // ----------------------------------------------------------------- indexing

    /** `invalidate_old_log_entry`: mark file page `fp` in the entry at `pos`, which is
        entry `(k, s)` of the log. */
    method InvalidateOldLogEntry(nvm: Nvm, pos: Pos, fp: nat, ghost k: nat, ghost s: nat, ghost at: nat)
      requires nvm.Valid() && LogOk(nvm.M(), ino, log, 0)
      requires k < |log| && s < |log[k].ents| && pos == Pos(log[k].id, s)
      requires at < |log[k].ents[s].pages| && FirstPage(log[k].ents[s].rec) + at == fp && at !in log[k].ents[s].dead
      modifies nvm`hdr, nvm`slot, this`log
      ensures nvm.Valid() && LogOk(nvm.M(), ino, log, 0)
      ensures log == MarkLog(old(log), k, s, at)
      ensures OnlySlots(old(nvm.M()), nvm.M(), Ids(log)) && Ids(log) == old(Ids(log))
    {
      hide Inv, PageOk, Linked, Mark, LogOk;
      ghost var m := nvm.M();
      MemSizes(m);
      StoredEntry(m, ino, log, k, s);
      LogIds(m, ino, log, 0);
      var i := MarkAt(nvm, pos, fp);
      MarkIds(log, k, s, i);
      MarkSlot(m, nvm.M(), ino, log, k, s, i);
      log := MarkLog(log, k, s, i);
    }

    /** What `invalidate_old_log_entry` does to the slot at `pos` and the header of its
        page, whatever is there. */
    method MarkAt(nvm: Nvm, pos: Pos, fp: nat) returns (i: nat)
      requires nvm.Valid() && 0 <= pos.page < |nvm.slot| && pos.slot < SLOTS
      requires MemOk(nvm.M()) && FirstPage(nvm.slot[pos.page][pos.slot]) <= fp
      modifies nvm`hdr, nvm`slot
      ensures nvm.Valid() && i == fp - old(FirstPage(nvm.slot[pos.page][pos.slot]))
      ensures var e := old(nvm.slot[pos.page][pos.slot]);
        && nvm.slot == old(nvm.slot)[pos.page := old(nvm.slot)[pos.page][pos.slot :=
             e.(bitmap := Mark(e.bitmap, i), invalidPages := e.invalidPages + 1)]]
        && nvm.hdr == old(nvm.hdr)[pos.page := Invalidated(old(nvm.hdr)[pos.page], e.numPages == e.invalidPages + 1)]
    {
      hide Inv, Mark;
      var entry := nvm.slot[pos.page][pos.slot];
      i := fp - entry.startOff / PAGE_SIZE;
      entry := entry.(bitmap := Mark(entry.bitmap, i), invalidPages := entry.invalidPages + 1);
      nvm.slot := nvm.slot[pos.page := nvm.slot[pos.page][pos.slot := entry]];
      var node := nvm.hdr[pos.page];
      node := node.(invalidPages := node.invalidPages + 1);
      if entry.numPages == entry.invalidPages {
        node := node.(invalidCnt := node.invalidCnt + 1);
      }
      nvm.hdr := nvm.hdr[pos.page := node];
    }

    /** One step of the index update: file page `fp` is on page `q` from now on, and the
        entry that held it before is told so.  Page `q` is position `j` of entry `(a, t)`. */
    method IndexPage(nvm: Nvm, fp: nat, q: int, ghost r: Replay, ghost cur: nat, ghost a: nat, ghost t: nat, ghost j: nat)
      requires nvm.Valid() && ReplayOk(r, nvm.M(), ino, log, index, cur) && NewAt(r, log, cur, a, t, j)
      requires fp == r.first + cur && q == r.newPages[cur]
      modifies nvm`hdr, nvm`slot, this`log, this`index
      ensures nvm.Valid() && ReplayOk(r, nvm.M(), ino, log, index, cur + 1)
      ensures SameShape(old(log), log)
      ensures OnlySlots(old(nvm.M()), nvm.M(), Ids(log)) && Ids(log) == old(Ids(log))
    {
      hide Inv, MemOk, LogOk, ReplayOk, SameShape, Pend, OnlySlots;
      if fp in index {
        OverwritePage(nvm, fp, r, cur, a, t, j);
      } else {
        SameShapeSelf(log);
        OnlySlotsSelf(nvm.M(), Ids(log));
        ReplayNew(r, nvm.M(), ino, log, index, cur, a, t, j);
      }
      index := index[fp := q];
    }

    /** The part of `IndexPage` for a file page that has a page already. */
    method OverwritePage(nvm: Nvm, fp: nat, ghost r: Replay, ghost cur: nat, ghost a: nat, ghost t: nat, ghost j: nat)
      requires nvm.Valid() && ReplayOk(r, nvm.M(), ino, log, index, cur) && NewAt(r, log, cur, a, t, j)
      requires fp == r.first + cur && fp in index
      modifies nvm`hdr, nvm`slot, this`log
      ensures nvm.Valid() && ReplayOk(r, nvm.M(), ino, log, index[fp := r.newPages[cur]], cur + 1)
      ensures SameShape(old(log), log)
      ensures OnlySlots(old(nvm.M()), nvm.M(), Ids(log)) && Ids(log) == old(Ids(log))
    {
      hide Inv, MemOk, LogOk, ReplayOk, PriorAt, MarkLog, SameShape, Ids, Pend, OnlySlots, FirstPage;
      ghost var m := nvm.M();
      ReplayLog(r, m, ino, log, index, cur);
      var prior := index[fp];
      ghost var k, s, i := ReplayFinds(r, m, ino, log, index, cur);
      PriorFacts(r, log, index, cur, k, s, i);
      InvalidateOldLogEntry(nvm, nvm.back[prior], fp, k, s, i);
      ReplayOver(r, m, nvm.M(), ino, old(log), index, cur, a, t, j, k, s, i);
    }

    /** Index all pages of the new entry at `pos`, which is entry `(k, s)` of the log. */
    method IndexEntry(nvm: Nvm, pos: Pos, ghost r: Replay, ghost cur: nat, ghost k: nat, ghost s: nat)
      requires nvm.Valid() && ReplayOk(r, nvm.M(), ino, log, index, cur)
      requires k < |log| && s < |log[k].ents| && pos == Pos(log[k].id, s)
      requires EntryAt(r, log[k].ents[s], cur)
      modifies nvm`hdr, nvm`slot, this`log, this`index
      ensures nvm.Valid() && ReplayOk(r, nvm.M(), ino, log, index, cur + |old(log)[k].ents[s].pages|)
      ensures SameShape(old(log), log)
      ensures OnlySlots(old(nvm.M()), nvm.M(), Ids(log)) && Ids(log) == old(Ids(log))
    {
      hide Inv, MemOk, LogOk, ReplayOk, SameShape, Ids, Pend, OnlySlots, FirstPage, NewAt, EntryAt, Linked;
      ghost var pages := log[k].ents[s].pages;
      ReplayLog(r, nvm.M(), ino, log, index, cur);
      StoredEntry(nvm.M(), ino, log, k, s);
      SameShapeSelf(log);
      OnlySlotsSelf(nvm.M(), Ids(log));
      var entry := nvm.slot[pos.page][pos.slot];
      var fp := FirstPage(entry);
      var q := entry.data;
      var i := 0;
      while i < entry.numPages
        invariant 0 <= i <= |pages| && (i < |pages| ==> q == pages[i])
        invariant nvm.Valid() && nvm.next == old(nvm.next) && ReplayOk(r, nvm.M(), ino, log, index, cur + i)
        invariant SameShape(old(log), log)
        invariant OnlySlots(old(nvm.M()), nvm.M(), Ids(log)) && Ids(log) == old(Ids(log))
      {
        ghost var m, l := nvm.M(), log;
        NextNew(r, old(log), l, cur, k, s, i);
        IndexPage(nvm, fp + i, q, r, cur + i, k, s, i);
        StepAlong(nvm.next, pages, i);
        q := nvm.next[q];
        i := i + 1;
        ShapeTrans(old(log), l, log);
        OnlySlotsTrans(old(nvm.M()), m, nvm.M(), Ids(log));
      }
    }

    /** The call `update_radixtree(inode, old_log_tail)`, which has no body in the
        sources: replay the entries from `oldTail` on into the index. */
    method UpdateIndex(nvm: Nvm, oldTail: Pos, ghost r: Replay, ghost k0: nat)
      requires nvm.Valid() && ReplayOk(r, nvm.M(), ino, log, index, 0) && log != [] && logTail == EndPos(log)
      requires WalkAt(r, log, oldTail, k0, 0)
      modifies nvm`hdr, nvm`slot, this`log, this`index
      ensures nvm.Valid() && ReplayOk(r, nvm.M(), ino, log, index, |r.newPages|)
      ensures SameShape(old(log), log)
      ensures OnlySlots(old(nvm.M()), nvm.M(), Ids(log)) && Ids(log) == old(Ids(log))
    {
      hide Inv, MemOk, LogOk, ReplayOk, SameShape, Ids, Pend, OnlySlots, EntryAt, WalkAt, EndPos;
      ghost var k: nat, cur: nat := k0, 0;
      ReplayLog(r, nvm.M(), ino, log, index, cur);
      WalkBounds(r, nvm.M(), ino, log, oldTail, k0, cur);
      SameShapeSelf(log);
      OnlySlotsSelf(nvm.M(), Ids(log));
      var pos := oldTail;
      while pos != logTail
        invariant nvm.Valid() && nvm.next == old(nvm.next) && ReplayOk(r, nvm.M(), ino, log, index, cur)
        invariant log != [] && logTail == EndPos(log) && WalkAt(r, log, pos, k, cur)
        invariant SameShape(old(log), log)
        invariant OnlySlots(old(nvm.M()), nvm.M(), Ids(log)) && Ids(log) == old(Ids(log))
        invariant k <= |old(log)| && pos.slot <= SLOTS
        decreases |old(log)| - k, SLOTS - pos.slot
      {
        ghost var m, l := nvm.M(), log;
        ReplayLog(r, m, ino, log, index, cur);
        if pos.slot == SLOTS {
          WalkPage(r, m, ino, log, pos, k, cur);
          ShapeSize(old(log), log);
          pos := Pos(nvm.next[pos.page], 0);
          k := k + 1;
          WalkBounds(r, m, ino, log, pos, k, cur);
        } else {
          WalkEntry(r, m, ino, log, pos, k, cur);
          ShapeSize(old(log), log);
          IndexEntry(nvm, pos, r, cur, k, pos.slot);
          WalkOn(r, l, log, pos, k, cur);
          ShapeEnd(l, log);
          cur := cur + |l[k].ents[pos.slot].pages|;
          pos := Pos(pos.page, pos.slot + 1);
          ShapeTrans(old(log), l, log);
          OnlySlotsTrans(old(nvm.M()), m, nvm.M(), Ids(log));
        }
      }
      ReplayLog(r, nvm.M(), ino, log, index, cur);
      WalkEnd(r, nvm.M(), ino, log, pos, k, cur);
    }

    // ------------------------------------------------------------------- writing

    /** The allocations of one iteration of the write loop: `n` data pages and a log
        slot; `ok` is false where one of them finds no pages. */
    method OpenChunk(nvm: Nvm, t: Pos, n: nat)
      returns (ok: bool, first: int, t': Pos, pos: Pos, ghost c: seq<int>, ghost pg: seq<LogPage>)
      requires nvm.Valid() && LogOk(nvm.M(), ino, log, 0) && t == EndPos(log) && 0 < n <= MAX_PAGES
      modifies nvm`next, nvm`hdr, nvm`head, nvm`count, nvm`own, nvm`free, this`log
      ensures !ok ==> nvm.Short(n)
      ensures nvm.Room() + 2 * FILL_MAX >= old(nvm.Room()) && (old(nvm.Room()) >= 2 * FILL_MAX ==> ok)
      ensures nvm.Valid() && LogOk(nvm.M(), ino, log, if ok then 1 else 0)
      ensures HeldKept(old(nvm.M()), nvm.M(), ino)
      ensures !ok ==> log == old(log)
      ensures ok ==> pos == EndPos(log) && pos.slot < SLOTS && t' == Pos(pos.page, pos.slot + 1)
      ensures ok ==> log == old(log) + pg && |c| == n && first == c[0]
      ensures ok ==> Opened(old(nvm.M()), nvm.M(), ino, log, pg, c)
    {
      hide Inv, MemOk, LogOk, Linked, HeldKept, EndPos;
      ghost var m, log0 := nvm.M(), log;
      pg, t', pos := [], t, t;
      ok, first, c := nvm.AllocPages(n, ino);
      ghost var m1 := nvm.M();
      MemSizes(m);
      MemSizes(m1);
      AfterAlloc(m, m1, ino, log);
      if !ok {
        return;
      }
      ok, t', pos := GetLogEntry(nvm, t);
      ghost var m2 := nvm.M();
      MemSizes(m2);
      AfterSlot(m, m1, m2, ino);
      if !ok {
        return;
      }
      pg := log[|log0|..];
      SlotPages(log0, log, pos);
      FreshChain(m, m1, m2, ino, c);
      TailHeld(m2, ino, log, 1);
    }

    /** One iteration of the write loop (src/nvmio.c:242-347); `size` is the file size
        after it. */
    method WriteChunk(nvm: Nvm, b: Build, t: Pos, ck: Chunk, start: nat, offset: nat, ghost off: nat, buf: seq<bv8>, ub: nat,
                      size: nat, ghost gone: nat)
      returns (ok: bool, t': Pos, ghost c: seq<int>, ghost pg: seq<LogPage>, ghost e: Ent)
      requires nvm.Valid() && log != [] && LogOk(nvm.M(), ino, log, 0) && t == EndPos(log)
      requires ChunkPlace(ck, off, |buf|, start, offset, ub, gone) && ck.alloc <= MAX_PAGES
      requires IndexHeld(nvm.M(), index)
      modifies nvm, this`log
      ensures !ok ==> nvm.Short(MAX_PAGES)
      ensures nvm.Room() + 2 * FILL_MAX >= old(nvm.Room()) && (old(nvm.Room()) >= 2 * FILL_MAX ==> ok)
      ensures nvm.Valid() && LogOk(nvm.M(), ino, log, 0)
      ensures HeldKept(old(nvm.M()), nvm.M(), ino)
      ensures !ok ==> log == old(log)
      ensures ok ==> t' == EndPos(log) && log == Append(old(log) + pg, e)
      ensures ok ==> ChunkWrote(b, old(nvm.M()), nvm.M(), ino, old(log) + pg, pg, index, off, buf, start, c)
      ensures ok ==> |c| == ck.alloc && e == Ent(Entry(c[0], size, FileOff(start), FileOff(start) + ck.wrSize, |c|, 0, 0), c, {})
    {
      hide Inv, MemOk, LogOk, ChunkPlace, FileOff, IndexHeld, HeldKept, ChunkWrote, EndPos, Opened, Append;
      ghost var m := nvm.M();
      PlaceFacts(ck, off, |buf|, start, offset, ub, gone);
      var first, pos;
      ok, first, t', pos, c, pg := OpenChunk(nvm, t, ck.alloc);
      e := Ent(Entry(NIL, 0, 0, 0, 0, 0, 0), [], {});
      if ok {
        e := FillChunk(nvm, b, pos, first, ck, start, offset, off, buf, ub, size, gone, m, c, pg);
      }
    }

    /** The rest of the iteration: copy, complete the first and last page, and fill in
        the log entry. */
    method FillChunk(nvm: Nvm, b: Build, pos: Pos, first: int, ck: Chunk, start: nat, offset: nat, ghost off: nat, buf: seq<bv8>, ub: nat,
                     size: nat, ghost gone: nat, ghost m: Mem, ghost c: seq<int>, ghost pg: seq<LogPage>)
      returns (ghost e: Ent)
      requires nvm.Valid() && log != [] && LogOk(nvm.M(), ino, log, 1) && pos == EndPos(log) && pos.slot < SLOTS
      requires ChunkPlace(ck, off, |buf|, start, offset, ub, gone) && ck.alloc <= MAX_PAGES
      requires Opened(m, nvm.M(), ino, log, pg, c) && IndexHeld(m, index)
      requires |c| == ck.alloc && 0 < |c| && first == c[0]
      modifies nvm`bytes, nvm`back, nvm`hdr, nvm`slot, nvm`own, this`log
      ensures nvm.Valid() && LogOk(nvm.M(), ino, log, 0) && HeldKept(m, nvm.M(), ino)
      ensures log == Append(old(log), e) && EndPos(log) == Pos(pos.page, pos.slot + 1)
      ensures ChunkWrote(b, m, nvm.M(), ino, old(log), pg, index, off, buf, start, c)
      ensures e == Ent(Entry(c[0], size, FileOff(start), FileOff(start) + ck.wrSize, |c|, 0, 0), c, {})
    {
      hide Inv, MemOk, LogOk, Linked, ChunkPlace, FileOff, IndexHeld, HeldKept, ChunkWrote, FillOk, Filled, Imaged, EndPos, Opened, Append;
      ghost var m2 := nvm.M();
      MemSizes(m2);
      OpenedFacts(m, m2, ino, log, pg, c);
      ghost var f := Fill(nvm.next, nvm.bytes, nvm.back, c, start, off, buf, pos);
      IndexApart(m, index, c);
      var lastPage := CopyData(nvm, first, ck, start, offset, buf, ub, pos, f, gone);
      FilledAll(f, nvm.bytes, nvm.back);
      FillSides(nvm, b, first, lastPage, ck, start, offset, f, ub, gone);
      ghost var m3, logp := nvm.M(), log;
      AfterCopies(b, m, m2, m3, ino, log, pg, index, f);
      FileOffAligned(start);
      InitLogEntry(nvm, pos, first, size, ck.alloc, FileOff(start), FileOff(start) + ck.wrSize, c);
      e := Ent(Entry(first, size, FileOff(start), FileOff(start) + ck.wrSize, ck.alloc, 0, 0), c, {});
      AfterEntry(b, m, m2, m3, nvm.M(), ino, logp, pg, index, f);
    }

    /** The write loop (src/nvmio.c:236-347).  It ends before the commit point: on every
        way out, also where pages run out, the log up to the published tail and every
        page in use are as they were. */
    method WriteChunks(nvm: Nvm, b: Build, buf: seq<bv8>, off: nat)
      returns (ok: bool, t: Pos, ghost newPages: seq<int>, ghost added: seq<Span>)
      requires nvm.Valid() && Stored(nvm.M(), ino, log, index) && logTail == EndPos(log) && SizeOk(log, iSize)
      requires buf != [] && off + |buf| < U64_SPAN
      modifies nvm, this`log
      ensures !ok ==> nvm.Short(MAX_PAGES)
      ensures nvm.Room() + WriteCost(|buf|, off) >= old(nvm.Room()) && (old(nvm.Room()) >= WriteCost(|buf|, off) ==> ok)
      ensures nvm.Valid() && HeldKept(old(nvm.M()), nvm.M(), ino)
      ensures log != [] && LogOk(nvm.M(), ino, log, 0) && Extends(old(log), log)
      ensures var w := Job(b, off, buf, ino, index, old(nvm.M()), old(log));
        ok ==> Writing(w, nvm.M(), log, newPages, added) && t == EndPos(log)
      ensures ok ==> SizeOk(log, if off + |buf| > iSize then off + |buf| else iSize)
      ensures ok ==> NewRecorded(off, |buf|, iSize, old(log), log)
      ensures ok ==> |Entries(log)| == |Entries(old(log))| + ChunkCount(PageCount(|buf|, off % PAGE_SIZE))
      ensures ok ==> forall fp: nat :: Touched(off, |buf|, fp) <==> off / PAGE_SIZE <= fp < off / PAGE_SIZE + |newPages|
    {
      hide Inv, Stored, Writing, LoopAt, ChunkPlace, ChunkOf, PageCount, LogOk, HeldKept, Extends, SizeOk, Append, EndPos,
           ChunkWrote, IndexHeld, Touched, FileOff, SpanOf, NewRecorded, ChunkCount, WritingAt, Entries, Nvm.Short;
      ghost var w := Job(b, off, buf, ino, index, nvm.M(), log);
      StoredIndexHeld(w.m0, ino, log, index);
      StoredParts(w.m0, ino, log, index);
      WritingAtStart(w, iSize);
      LoopStart(off, |buf|);
      t := logTail;
      newPages, added := [], [];
      var fileSize: nat, offset: nat, start: nat, total: nat := iSize, off % PAGE_SIZE, off / PAGE_SIZE, |buf|;
      var pageNums: nat := PageCount(|buf|, offset);
      var fileOff: nat := off;
      ghost var cost := WriteCost(|buf|, off);
      while pageNums > 0
        invariant nvm.Valid() && WritingAt(w, iSize, nvm.M(), log, newPages, added, ChunkCount(pageNums)) && log != [] && t == EndPos(log)
        invariant 0 <= total <= |buf| && fileOff == off + (|buf| - total)
        invariant LoopAt(off, |buf|, start, offset, |buf| - total, |newPages|, pageNums)
        invariant fileSize == if total < |buf| && fileOff > iSize then fileOff else iSize
        invariant SizeOk(log, fileSize)
        invariant nvm.Room() + cost >= old(nvm.Room()) + 2 * FILL_MAX * ChunkCount(pageNums)
        decreases pageNums
      {
        SoFar(w, iSize, nvm.M(), log, newPages, added, ChunkCount(pageNums));
        LoopPlace(off, |buf|, start, offset, |buf| - total, |newPages|, pageNums);
        ghost var m, log1 := nvm.M(), log;
        var ck := ChunkOf(pageNums, total, offset);
        fileOff := fileOff + ck.wrSize;
        var size := if fileOff > fileSize then fileOff else fileSize;
        IndexStaysHeld(w.m0, m, ino, index);
        ghost var c, pg, e;
        ok, t, c, pg, e := WriteChunk(nvm, b, t, ck, start, offset, off, buf, |buf| - total, size, |newPages|);
        HeldKeptTrans(w.m0, m, nvm.M(), ino);
        if !ok {
          return;
        }
        WritingAtStep(w, iSize, m, nvm.M(), log1, pg, newPages, added, c, e, ck, offset, |buf| - total, size, ChunkCount(pageNums - ck.alloc));
        LoopNext(off, |buf|, start, offset, |buf| - total, |newPages|, pageNums, ck);
        newPages, added := newPages + c, added + [SpanOf(e)];
        fileSize := size;
        pageNums := pageNums - ck.alloc;
        total := total - ck.wrSize;
        start := start + ck.alloc;
        offset := 0;
      }
      ok := true;
      AllWritten(w, iSize, nvm.M(), log, newPages, added, start, offset, |buf| - total);
    }

    /** `nvmio_write`. */
    method NvmioWrite(nvm: Nvm, b: Build, buf: seq<bv8>, off: nat) returns (ok: bool)
      requires nvm.Valid() && Stored(nvm.M(), ino, log, index) && logTail == EndPos(log) && SizeOk(log, iSize)
      requires buf != [] && off + |buf| < U64_SPAN
      modifies nvm, this`log, this`index, this`logTail
      ensures !ok ==> nvm.Short(MAX_PAGES)
      ensures nvm.Room() + WriteCost(|buf|, off) >= old(nvm.Room()) && (old(nvm.Room()) >= WriteCost(|buf|, off) ==> ok)
      ensures nvm.Valid() && HeldKept(old(nvm.M()), nvm.M(), ino)
      ensures !ok ==> index == old(index) && logTail == old(logTail)
      ensures !ok ==> log != [] && LogOk(nvm.M(), ino, log, 0) && Extends(old(log), log)
      ensures ok ==> Stored(nvm.M(), ino, log, index) && logTail == EndPos(log)
      ensures ok ==> log != [] && old(log) != [] && log[0].id == old(log)[0].id
      ensures ok ==> SizeOk(log, if off + |buf| > iSize then off + |buf| else iSize)
      ensures ok ==> NewRecorded(off, |buf|, iSize, old(log), log)
      ensures ok ==> Grown(old(log), log) && |Entries(log)| == |Entries(old(log))| + ChunkCount(PageCount(|buf|, off % PAGE_SIZE))
      ensures ok ==> index.Keys == old(index.Keys) + TouchedPages(off, |buf|)
      ensures ok ==> Wrote(b, off, buf, old(nvm.bytes), old(index), nvm.bytes, index)
    {
      hide NewRecorded, WriteCost, TouchedPages, Entries, ChunkCount, PageCount, SameEntry, Inv, Stored, Writing, LogOk, HeldKept, Extends,
           SizeOk, EndPos, IndexHeld, Touched, Wrote, ReplayOk, WalkAt,
           PagesWritten, Installed, OnlySlots, SameShape, Ids;
      ghost var w := Job(b, off, buf, ino, index, nvm.M(), log);
      StoredIndexHeld(w.m0, ino, log, index);
      var t; ghost var newPages, added;
      ok, t, newPages, added := WriteChunks(nvm, b, buf, off);
      if !ok {
        return;
      }
      ghost var m, log1 := nvm.M(), log;
      ghost var r := Replay(LogSpans(w.log0), index, off / PAGE_SIZE, newPages);
      WritingParts(w, m, log, newPages, added);
      ReplayStart(w, m, log, newPages, added);
      var oldTail := logTail;
      logTail := t;
      UpdateIndex(nvm, oldTail, r, |w.log0| - 1);
      ReplayParts(r, nvm.M(), ino, log, index, |newPages|);
      ShapeEnd(log1, log);
      ExtendsFirst(w.log0, log1);
      ShapeFirst(log1, log);
      RecordedKept(off, |buf|, iSize, w.log0, log1, log);
      ShapeEntries(log1, log);
      ExtendsEntries(w.log0, log1);
      ShapeSizeOk(log1, log, if off + |buf| > iSize then off + |buf| else iSize);
      WriteDone(w, m, nvm.M(), log1, log, index, newPages, added);
      WriteWrote(w, m, nvm.bytes, index, newPages);
      InstalledKeys(w.index, index, off, |buf|, newPages);
      ReplayKeeps(w, m, nvm.M(), log1);
    }

    /** `nvmio_write` of no bytes inside a page, as written: it takes a page `q`, writes
        nothing to it, publishes an entry that gives it to the file page, and moves the
        index there.  The page's entry word is whatever it was. */
    method WriteNothing(nvm: Nvm, off: nat) returns (ok: bool, q: int)
      requires nvm.Valid() && Stored(nvm.M(), ino, log, index) && logTail == EndPos(log) && off % PAGE_SIZE != 0
      modifies nvm`next, nvm`hdr, nvm`slot, nvm`head, nvm`count, nvm`own, nvm`free, this`log, this`logTail, this`index
      ensures nvm.Valid() && HeldKept(old(nvm.M()), nvm.M(), ino)
      ensures old(nvm.Room()) >= 2 * FILL_MAX ==> ok
      ensures !ok ==> nvm.Short(1) && index == old(index)
      ensures ok ==> 0 <= q < |old(nvm.own)| && old(nvm.own)[q].Free? && q !in old(index).Values && index == old(index)[off / PAGE_SIZE := q]
      ensures ok ==> StoredLog(nvm.M(), ino, log, index) && log != [] && logTail == EndPos(log) && SizeOk(log, Max(iSize, off))
      ensures ok ==> old(log) != [] && log[0].id == old(log)[0].id
      ensures ok ==> 0 <= q < |nvm.back| && logTail.slot > 0 && (BacksOk(nvm.back, log) <==> nvm.back[q] == Pos(logTail.page, logTail.slot - 1))
    {
      hide Inv, MemOk, LogOk, Linked, Stored, StoredLog, EndPos, Append, LogSpans, PageCount, ChunkOf, Replays, HeldKept, BacksOk, SizeOk,
           NothingAppended, SameShape, OnlySlots, Ids;
      ghost var m, log0 := nvm.M(), log;
      StoredParts(m, ino, log, index);
      StoredIndexHeld(m, ino, log, index);
      MemSizes(m);
      var pos; ghost var pg;
      ok, q, pos, pg := AppendNothing(nvm, off);
      if !ok {
        return;
      }
      ghost var m1, log1 := nvm.M(), log;
      NothingParts(m, m1, ino, log0, pg, q, off / PAGE_SIZE, Max(iSize, off));
      IndexNothing(nvm, off / PAGE_SIZE, pos, q, m, log0, pg, Max(iSize, off));
      MemSizes(nvm.M());
      ShapeEnd(log1, log);
      ShapeFirst(log1, log);
      AppendFirst(log0, pg, NothingEntry(q, off / PAGE_SIZE, Max(iSize, off)));
      SlotsKept(m, m1, nvm.M(), ino, log1);
    }

    /** Up to the commit. */
    method AppendNothing(nvm: Nvm, off: nat) returns (ok: bool, q: int, pos: Pos, ghost pg: seq<LogPage>)
      requires nvm.Valid() && Stored(nvm.M(), ino, log, index) && logTail == EndPos(log) && off % PAGE_SIZE != 0
      modifies nvm`next, nvm`hdr, nvm`slot, nvm`head, nvm`count, nvm`own, nvm`free, this`log, this`logTail
      ensures nvm.Valid() && HeldKept(old(nvm.M()), nvm.M(), ino)
      ensures old(nvm.Room()) >= 2 * FILL_MAX ==> ok
      ensures !ok ==> nvm.Short(1)
      ensures ok ==> NothingAppended(old(nvm.M()), nvm.M(), ino, old(log), pg, q, off / PAGE_SIZE, Max(iSize, off))
      ensures ok ==> log == Append(old(log) + pg, NothingEntry(q, off / PAGE_SIZE, Max(iSize, off))) && log != [] && old(log) != []
      ensures ok ==> pos == EndPos(old(log) + pg) && logTail == EndPos(log) == Pos(pos.page, pos.slot + 1)
      ensures ok ==> 0 <= q < |old(nvm.own)| && old(nvm.own)[q].Free?
    {
      hide Inv, MemOk, LogOk, Linked, Stored, EndPos, Opened, Append, PageCount, ChunkOf, HeldKept;
      ghost var m, log0 := nvm.M(), log;
      StoredParts(m, ino, log, index);
      ZeroLengthPages(off % PAGE_SIZE);
      ZeroLengthChunk(off % PAGE_SIZE);
      var ck := ChunkOf(PageCount(0, off % PAGE_SIZE), 0, off % PAGE_SIZE);
      var start := off / PAGE_SIZE;
      var fileSize := if off > iSize then off else iSize;
      var first, t; ghost var c;
      ok, first, t, pos, c, pg := OpenChunk(nvm, logTail, ck.alloc);
      q := first;
      if !ok {
        return;
      }
      ghost var m2 := nvm.M();
      MemSizes(m);
      MemSizes(m2);
      OpenedFacts(m, m2, ino, log, pg, c);
      OpenedPage(m, m2, ino, log, pg, c);
      TailHeld(m2, ino, log, 1);
      FileOffAligned(start);
      InitLogEntry(nvm, pos, first, fileSize, ck.alloc, FileOff(start), FileOff(start) + ck.wrSize, c);
      logTail := t;
      MemSizes(nvm.M());
      assert c == [first];
      NothingKept(m, m2, nvm.M(), ino, pos, first);
      NothingIsAppended(m, m2, nvm.M(), ino, log0, pg, first, start, fileSize);
      LogMem(nvm.M(), ino, log, 0);
    }

    /** The replay of that one entry. */
    method IndexNothing(nvm: Nvm, fp: nat, pos: Pos, q: int, ghost m: Mem, ghost log0: seq<LogPage>, ghost pg: seq<LogPage>, ghost fileSize: nat)
      requires nvm.Valid() && Stored(m, ino, log0, index) && NothingAppended(m, nvm.M(), ino, log0, pg, q, fp, fileSize)
      requires log == Append(log0 + pg, NothingEntry(q, fp, fileSize)) && pos == EndPos(log0 + pg) && log != []
      requires logTail == EndPos(log) == Pos(pos.page, pos.slot + 1)
      modifies nvm`hdr, nvm`slot, this`log, this`index
      ensures nvm.Valid() && index == old(index)[fp := q]
      ensures SameShape(old(log), log) && OnlySlots(old(nvm.M()), nvm.M(), Ids(old(log))) && log != []
      ensures StoredLog(nvm.M(), ino, log, index) && SizeOk(log, fileSize)
      ensures 0 <= q < |nvm.back| && (BacksOk(nvm.back, log) <==> nvm.back[q] == pos)
    {
      hide Inv, MemOk, LogOk, Stored, StoredLog, EndPos, Append, LogSpans, BacksOk, SizeOk, NothingAppended, SameShape, OnlySlots, Ids, ReplayOk,
           NewAt, PriorAt, Mark, MarkLog, FirstPage, HeldKept;
      ghost var m1, log1, index0 := nvm.M(), log, index;
      MemSizes(m1);
      NothingParts(m, m1, ino, log0, pg, q, fp, fileSize);
      ghost var r := NothingReplay(log0, index, q, fp);
      ghost var a, t := NothingReplayStart(m, m1, ino, log0, pg, index, q, fp, fileSize);
      ghost var mw := WithWord(m1, q, pos);
      if fp in index {
        ghost var k, s, i := ReplayFinds(r, mw, ino, log, index, 0);
        PriorFacts(r, log, index, 0, k, s, i);
        ReplayLog(r, mw, ino, log, index, 0);
        WithWordLog(m1, ino, log, q, pos);
        InvalidateOldLogEntry(nvm, nvm.back[index[fp]], fp, k, s, i);
        MemSizes(nvm.M());
        WithWordLog(nvm.M(), ino, log, q, pos);
        ReplayOver(r, mw, WithWord(nvm.M(), q, pos), ino, log1, index, 0, a, t, 0, k, s, i);
      } else {
        SameShapeSelf(log);
        OnlySlotsSelf(m1, Ids(log));
        ReplayNew(r, mw, ino, log, index, 0, a, t, 0);
      }
      index := index[fp := q];
      ShapeEnd(log1, log);
      NothingDone(m, m1, nvm.M(), ino, log0, pg, log, index0, index, q, fp, fileSize);
    }

    // ---------------------------------------------------------------- collection

    /** The state of the inode between two operations, but for its file position and the
        entry words of its data pages. */
    ghost predicate LogSound(nvm: Nvm)
      reads this, nvm
    {
      && nvm.Valid() && StoredLog(nvm.M(), ino, log, index) && SizeOk(log, iSize)
      && logTail == EndPos(log) && logHead == log[0].id
    }

    /** The same with the entry words. */
    ghost predicate Sound(nvm: Nvm)
      reads this, nvm
    {
      && nvm.Valid() && Stored(nvm.M(), ino, log, index) && SizeOk(log, iSize)
      && logTail == EndPos(log) && logHead == log[0].id
    }

    /** `start_gc_task` for the inode it picked: collect every log page before the tail
        page that has more dead than live entries or data pages; `ok` is false where
        a fresh log page is not to be had.  As written too it keeps the log and its
        meaning; only the entry words suffer, as soon as anything is moved. */
    method StartGcTask(nvm: Nvm, b: Build) returns (ok: bool)
      requires Sound(nvm)
      modifies nvm`next, nvm`hdr, nvm`slot, nvm`back, nvm`head, nvm`count, nvm`own, nvm`free, this`log, this`logHead, this`logTail
      ensures !ok ==> nvm.Short(1)
      ensures var cost := FILL_MAX * |Moved(old(log)[..|old(log)| - 1], iSize)|;
        nvm.Room() + cost >= old(nvm.Room()) && (old(nvm.Room()) >= cost ==> ok)
      ensures nvm.Valid() && OthersKept(old(nvm.M()), nvm.M(), ino)
      ensures ok ==> LogSound(nvm) && (b == Repaired ==> Sound(nvm))
      ensures b.AsWritten? ==> nvm.back == old(nvm.back)
      ensures ok && b.AsWritten? ==> (BacksOk(nvm.back, log) <==> Moved(old(log)[..|old(log)| - 1], iSize) == [])
      ensures ok ==> Compacted(old(log), log, iSize)
      ensures ok ==> old(log) != [] && LastFreed(nvm.M(), nvm.free, old(log), |old(log)| - 1)
    {
      hide Inv, MemOk, LogOk, Stored, StoredLog, BacksOk, SizeOk, EndPos, OthersKept, Extends, Entries, TaskAt, Place, Linked, Survivors, Moved,
           LastFreed, Walking, Compacted;
      ghost var m0, log0, v: nat := nvm.M(), log, 0;
      StoredIs(m0, ino, log, index);
      StoredMem(m0, ino, log, index);
      var pageHead, prevPage := logHead, 0;
      var pageTail := logTail.page;
      TailPage(log);
      WalkStart(nvm, b, pageHead, prevPage);
      while pageHead != pageTail
        invariant v < |log0| && Walking(nvm, b, m0, old(nvm.Room()), log0, v, pageHead, prevPage)
        invariant pageHead == log0[v].id && pageTail == log0[|log0| - 1].id
        decreases |log0| - v
      {
        MovedGrows(log0, v, iSize);
        ok, pageHead, prevPage := VisitPage(nvm, b, pageHead, prevPage, m0, old(nvm.Room()), log0, v);
        if !ok {
          return;
        }
        v := v + 1;
      }
      TaskTail(m0, ino, log0, v);
      WalkDone(nvm, b, m0, old(nvm.Room()), log0, v, pageHead, prevPage);
      TaskEnd(log0, log, iSize);
      ok := true;
    }

    /** The walk over `log0` has come to page `v`. */
    ghost predicate Walking(nvm: Nvm, b: Build, m0: Mem, room0: nat, log0: seq<LogPage>, v: nat, pageHead: int, prevPage: int)
      reads this, nvm
    {
      && v < |log0| && TaskAt(log0, log, v, iSize)
      && Place(log0, v) < |log| && pageHead == log[Place(log0, v)].id == log0[v].id
      && (Place(log0, v) > 0 ==> prevPage == log[Place(log0, v) - 1].id)
      && LogSound(nvm) && OthersKept(m0, nvm.M(), ino)
      && BacksOk(m0.back, log0) && (b == Repaired ==> BacksOk(nvm.back, log))
      && (b.AsWritten? ==> nvm.back == m0.back && (BacksOk(nvm.back, log) <==> Moved(log0[..v], iSize) == []))
      && nvm.Room() + FILL_MAX * |Moved(log0[..v], iSize)| >= room0
      && LastFreed(nvm.M(), nvm.free, log0, v)
    }

    lemma WalkStart(nvm: Nvm, b: Build, pageHead: int, prevPage: int)
      requires Sound(nvm) && pageHead == logHead
      ensures log != [] && Walking(nvm, b, nvm.M(), nvm.Room(), log, 0, pageHead, prevPage) && pageHead == log[0].id
    {
      hide Inv, MemOk, LogOk, Stored, StoredLog, BacksOk, SizeOk, EndPos, OthersKept, Extends, Entries, TaskAt, Survivors, Moved, LastFreed;
      NoneFreed(nvm.M(), nvm.free, log);
      StoredIs(nvm.M(), ino, log, index);
      StoredMem(nvm.M(), ino, log, index);
      OthersKeptSelf(nvm.M(), ino);
      TaskStart(log, iSize);
      NothingMoved(log, iSize);
    }

    lemma WalkDone(nvm: Nvm, b: Build, m0: Mem, room0: nat, log0: seq<LogPage>, v: nat, pageHead: int, prevPage: int)
      requires Walking(nvm, b, m0, room0, log0, v, pageHead, prevPage)
      ensures v < |log0| && TaskAt(log0, log, v, iSize) && LogSound(nvm) && OthersKept(m0, nvm.M(), ino)
      ensures b == Repaired ==> Sound(nvm)
      ensures b.AsWritten? ==> nvm.back == m0.back && (BacksOk(nvm.back, log) <==> Moved(log0[..v], iSize) == [])
      ensures nvm.Room() + FILL_MAX * |Moved(log0[..v], iSize)| >= room0
      ensures LastFreed(nvm.M(), nvm.free, log0, v)
    {
      hide Inv, MemOk, LogOk, Stored, StoredLog, BacksOk, SizeOk, EndPos, OthersKept, TaskAt, Moved, LastFreed;
      StoredIs(nvm.M(), ino, log, index);
    }

    /** One round of the walk (src/gc.c:155-171). */
    method VisitPage(nvm: Nvm, b: Build, pageHead: int, prevPage: int, ghost m0: Mem, ghost room0: nat, ghost log0: seq<LogPage>, ghost v: nat)
      returns (ok: bool, pageHead': int, prevPage': int)
      requires v < |log0| - 1 && Walking(nvm, b, m0, room0, log0, v, pageHead, prevPage)
      modifies nvm`next, nvm`hdr, nvm`slot, nvm`back, nvm`head, nvm`count, nvm`own, nvm`free, this`log, this`logHead, this`logTail
      ensures !ok ==> nvm.Short(1)
      ensures nvm.Room() + FILL_MAX * |Moved(log0[..v + 1], iSize)| >= room0 && (room0 >= FILL_MAX * |Moved(log0[..v + 1], iSize)| ==> ok)
      ensures nvm.Valid() && OthersKept(m0, nvm.M(), ino) && (b.AsWritten? ==> nvm.back == m0.back)
      ensures ok ==> Walking(nvm, b, m0, room0, log0, v + 1, pageHead', prevPage') && pageHead' == log0[v + 1].id
    {
      hide Inv, MemOk, LogOk, StoredLog, BacksOk, SizeOk, EndPos, OthersKept, Extends, Entries, TaskAt, Place, Linked, Survivors, Moved,
           BlockRuns, LastFreed, FreedPage, Picked;
      ghost var k := Place(log0, v);
      TaskPage(log0, log, v, iSize);
      StoredMem(nvm.M(), ino, log, index);
      WalkedPage(nvm.M(), ino, log, k);
      PickedIff(nvm.M(), ino, log, k);
      MovedNext(log0, v, iSize);
      MovedGrows(log0, v, iSize);
      pageHead' := nvm.next[pageHead];
      if Collectable(nvm.hdr[pageHead]) {
        ghost var m, logm := nvm.M(), log;
        if b == Repaired {
          PageBacks(nvm.back, log, k);
        } else {
          PageBacks(nvm.back, log0, v);
        }
        prevPage' := prevPage;
        ok := CollectPage(nvm, b, pageHead, prevPage, logm, k);
        OthersKeptTrans(m0, m, nvm.M(), ino);
        if !ok {
          return;
        }
        TaskCollect(log0, logm, log, v, iSize);
        FreedCollect(nvm.M(), nvm.free, log0, v);
      } else {
        TaskKeep(log0, log, v, iSize);
        FreedKeep(nvm.M(), nvm.free, log0, v);
        prevPage' := pageHead;
        ok := true;
      }
      TaskPage(log0, log, v + 1, iSize);
    }

    /** Unlink log page `page`, which is page `k` of the log, and collect it
        (src/gc.c:158-166). */
    method CollectPage(nvm: Nvm, b: Build, page: int, prevPage: int, ghost log0: seq<LogPage>, ghost k: nat) returns (ok: bool)
      requires k < |log0| - 1 && page == log0[k].id && Collectable(CountersOf(log0[k].ents)) && (k > 0 ==> prevPage == log0[k - 1].id)
      requires log == log0 && LogSound(nvm) && (b == Repaired ==> BacksOk(nvm.back, log))
      requires forall s | 0 <= s < |log0[k].ents| :: BackOk(nvm.back, Pos(log0[k].id, s), log0[k].ents[s])
      modifies nvm`next, nvm`hdr, nvm`slot, nvm`back, nvm`head, nvm`count, nvm`own, nvm`free, this`log, this`logHead, this`logTail
      ensures !ok ==> nvm.Short(1)
      ensures nvm.Room() + FILL_MAX * |BlockRuns(log0[k].ents, iSize)| >= old(nvm.Room()) && (old(nvm.Room()) >= FILL_MAX * |BlockRuns(log0[k].ents, iSize)| ==> ok)
      ensures nvm.Valid() && OthersKept(old(nvm.M()), nvm.M(), ino)
      ensures ok ==> LogSound(nvm) && (b == Repaired ==> BacksOk(nvm.back, log))
      ensures b.AsWritten? ==> nvm.back == old(nvm.back)
      ensures ok && b.AsWritten? ==> (BacksOk(nvm.back, log) <==> BacksOk(nvm.back, log0) && BlockRuns(log0[k].ents, iSize) == [])
      ensures ok ==> Extends(Drop(log0, k), log)
      ensures ok ==> Entries(log) == Entries(Drop(log0, k)) + BlockRuns(log0[k].ents, iSize)
      ensures ok && k > 0 ==> k - 1 < |log| && log[k - 1].id == log0[k - 1].id
      ensures ok ==> FreedPage(nvm.M(), nvm.free, log0[k])
    {
      hide Inv, MemOk, LogOk, StoredLog, BacksOk, SizeOk, EndPos, OthersKept, Extends, Entries, Collectable, Linked, Drop, GcBetween, GcMeans,
           Collected, BlockRuns, NoLeak, RetireOne, BackOk, FreedPage;
      ghost var m, blk := nvm.M(), log0[k];
      StoredMem(m, ino, log, index);
      HeadIsFirst(m, ino, log, k);
      MemSizes(m);
      var after := nvm.next[page];
      if page == logHead {
        logHead := after;
      } else {
        nvm.next := nvm.next[prevPage := after];
      }
      nvm.next := nvm.next[page := NIL];
      nvm.own := Retire(nvm.own, ino, page);
      RetiredHeld(m.own, ino, page);
      HolderChanges(Pool(m.next, nvm.head, nvm.count), m.own, nvm.free, NonePushed(), nvm.next, nvm.own);
      SizesMem(m, nvm.M());
      CollectStart(b, m, nvm.M(), ino, log0, index, k, iSize);
      UnlinkOthers(m, nvm.M(), ino, log0, k);
      ghost var m1 := nvm.M();
      log := Drop(log0, k);
      ok := GcLogBlock(nvm, b, page, blk);
      OthersKeptTrans(m, m1, nvm.M(), ino);
      if ok {
        CollectEnd(b, m, nvm.M(), ino, log0, log, index, k, iSize);
        FirstStays(log0, log, k);
      }
    }

    /** The inner loops of `gc_log_block`: walk to the end of the run of positions from
        `j` that are all marked or all not. */
    method FindRunEnd(nvm: Nvm, entry: Entry, data: int, j: nat, d: bool, ghost dead: set<nat>, ghost rest: seq<int>) returns (j': nat, last: int)
      requires nvm.Valid() && Linked(nvm.next, rest)
      requires j < entry.numPages && |rest| == entry.numPages - j && data == rest[0]
      requires entry.numPages <= MAX_PAGES && Represents(entry.bitmap, dead) && (j in dead <==> d)
      ensures j < j' == RunEnd(dead, entry.numPages, j, d)
      ensures last == rest[j' - j - 1]
    {
      hide Inv, MemOk, Linked, RunEnd, Marked;
      var tail := data;
      last := data;
      j' := j;
      while j' < entry.numPages && InvalidPage(entry, j') == d
        invariant j <= j' <= entry.numPages
        invariant tail == rest[if j' < entry.numPages then j' - j else |rest| - 1]
        invariant j' > j ==> last == rest[j' - j - 1]
        invariant RunEnd(dead, entry.numPages, j, d) == RunEnd(dead, entry.numPages, j', d)
      {
        last := tail;
        if j' < entry.numPages - 1 {
          StepAlong(nvm.next, rest, j' - j);
          tail := nvm.next[tail];
        }
        RunEndStep(dead, entry.numPages, j', d);
        j' := j' + 1;
      }
      RunEndStop(dead, entry.numPages, j', d);
    }

    /** Cut the run off the chain. */
    method CutRun(nvm: Nvm, entry: Entry, data: int, j: nat, d: bool, ghost dead: set<nat>, ghost i: nat, ghost blk: LogPage, ghost rest: seq<int>, ghost fc: seq<int>)
      returns (j': nat, last: int, data': int)
      requires nvm.Valid() && GcAt(nvm.M(), ino, log, blk, i, rest, fc)
      requires j < entry.numPages && |rest| == entry.numPages - j && data == rest[0]
      requires entry.numPages <= MAX_PAGES && Represents(entry.bitmap, dead) && (j in dead <==> d)
      modifies nvm`next
      ensures nvm.Valid() && OthersKept(old(nvm.M()), nvm.M(), ino)
      ensures j < j' == RunEnd(dead, entry.numPages, j, d)
      ensures last == rest[j' - j - 1] && data' == First(rest[j' - j..])
      ensures GcCut(nvm.M(), ino, log, blk, i, rest[..j' - j], rest[j' - j..], fc)
    {
      hide Inv, MemOk, GcAt, GcCut, OthersKept, Linked, RunEnd, First;
      ghost var m := nvm.M();
      GcAtMem(m, ino, log, blk, i, rest, fc);
      GcAtLinked(m, ino, log, blk, i, rest, fc);
      MemSizes(m);
      j', last := FindRunEnd(nvm, entry, data, j, d, dead, rest);
      RunEndBound(dead, entry.numPages, j, d);
      data' := nvm.next[last];
      nvm.next := nvm.next[last := NIL];
      GcCutStep(m, nvm.M(), ino, log, blk, i, rest, j' - j, fc);
      HolderChanges(Pool(m.next, nvm.head, nvm.count), m.own, nvm.free, NonePushed(), nvm.next, nvm.own);
    }

    /** The repair of the moved pages' entry words: the pages of `c` name the entry at
        `pos`. */
    method SetBacks(nvm: Nvm, first: int, n: nat, pos: Pos, ghost c: seq<int>)
      requires nvm.Valid() && Linked(nvm.next, c) && |c| == n && n > 0 && first == c[0]
      modifies nvm`back
      ensures nvm.Valid()
      ensures forall p | p in c :: 0 <= p < |nvm.back| && nvm.back[p] == pos
      ensures forall p | 0 <= p < |nvm.back| && p !in c :: nvm.back[p] == old(nvm.back[p])
    {
      hide Inv;
      var page := first;
      var x := 0;
      while x < n
        invariant 0 <= x <= n && page == (if x < n then c[x] else NIL)
        invariant nvm.Valid() && nvm.next == old(nvm.next)
        invariant forall y | 0 <= y < x :: nvm.back[c[y]] == pos
        invariant forall p | 0 <= p < |nvm.back| && p !in c :: nvm.back[p] == old(nvm.back[p])
      {
        nvm.back := nvm.back[page := pos];
        StepAlong(nvm.next, c, x);
        page := nvm.next[page];
        x := x + 1;
      }
    }

    /** Append the live run `e.pages` as a new entry (src/gc.c:72-81). */
    method AppendRun(nvm: Nvm, b: Build, t: Pos, first: int, n: nat, start: nat, end: nat,
                     ghost i: nat, ghost blk: LogPage, ghost rest: seq<int>, ghost fc: seq<int>,
                     ghost log0: seq<LogPage>, ghost e: Ent, ghost runs: seq<Ent>)
      returns (ok: bool, t': Pos)
      requires nvm.Valid() && GcCut(nvm.M(), ino, log, blk, i, e.pages, rest, fc) && log != [] && t == EndPos(log)
      requires e.rec == Entry(first, iSize, start, end, n, 0, 0) && e.dead == {} && |e.pages| == n && 0 < n <= MAX_PAGES && first == e.pages[0]
      requires start % PAGE_SIZE == 0
      requires GcMeans(b, nvm.back, index, log0, log, runs, iSize) && MarksOk(e, index, {})
      requires b.AsWritten? ==> 0 <= first < |nvm.back| && nvm.back[first].page == blk.id
      modifies nvm`next, nvm`hdr, nvm`slot, nvm`back, nvm`head, nvm`count, nvm`own, nvm`free, this`log
      ensures !ok ==> nvm.Short(1)
      ensures nvm.Room() + FILL_MAX >= old(nvm.Room()) && (old(nvm.Room()) >= FILL_MAX ==> ok)
      ensures nvm.Valid() && OthersKept(old(nvm.M()), nvm.M(), ino)
      ensures b.AsWritten? ==> nvm.back == old(nvm.back)
      ensures ok ==> GcAt(nvm.M(), ino, log, blk, i, rest, fc) && t' == EndPos(log)
      ensures ok ==> GcMeans(b, nvm.back, index, log0, log, runs + [e], iSize)
    {
      hide Inv, MemOk, LogOk, GcAt, GcCut, OthersKept, Linked, EndPos, GcMeans, MarksOk, SlotOpened, RunAppended, Append, BackOk;
      ghost var m, logm, run := nvm.M(), log, e.pages;
      MemSizes(m);
      GcCutParts(m, ino, log, blk, i, run, rest, fc);
      var pos; ghost var pg;
      ok, t', pos, pg := OpenRun(nvm, t);
      ghost var m1 := nvm.M();
      SlotOthers(m, m1, ino, pg);
      if !ok {
        return;
      }
      RunStays(m, m1, ino, pg, run);
      LoosenRun(nvm, run);
      InitLogEntry(nvm, pos, first, iSize, n, start, end, run);
      ghost var m3 := nvm.M();
      if b == Repaired {
        SetBacks(nvm, first, n, pos, run);
      }
      ghost var m4 := nvm.M();
      MemSizes(m1);
      MemSizes(m4);
      LogBack(m3, m4, ino, log);
      RunIsAppended(m, m1, m4, ino, logm, pg, e, pos);
      GcAppendStep(m, m4, ino, logm, pg, e, blk, i, rest, fc);
      AppendedBacks(b, m, m4, ino, logm, pg, e, blk, pos);
      GcMeansStep(b, m, m4.back, ino, index, log0, logm, pg, e, runs, iSize);
    }

    /** Splice the dead run `run`, from page `first` to page `last`, into the free chain
        (src/gc.c:98-105). */
    method FreeRun(nvm: Nvm, freeHead: int, first: int, last: int,
                   ghost i: nat, ghost blk: LogPage, ghost run: seq<int>, ghost rest: seq<int>, ghost fc: seq<int>)
      returns (freeHead': int)
      requires nvm.Valid() && GcCut(nvm.M(), ino, log, blk, i, run, rest, fc)
      requires run != [] && first == run[0] && last == run[|run| - 1] && freeHead == First(fc)
      modifies nvm`next, nvm`own
      ensures nvm.Valid() && OthersKept(old(nvm.M()), nvm.M(), ino)
      ensures GcAt(nvm.M(), ino, log, blk, i, rest, SpliceAfterHead(fc, run))
      ensures freeHead' == First(SpliceAfterHead(fc, run))
    {
      hide Inv, MemOk, GcAt, GcCut, OthersKept, Linked;
      ghost var m := nvm.M();
      GcCutParts(m, ino, log, blk, i, run, rest, fc);
      GcCutFree(m, ino, log, blk, i, run, rest, fc);
      MemSizes(m);
      if freeHead == NIL {
        freeHead' := first;
      } else {
        freeHead' := freeHead;
        var after := nvm.next[freeHead];
        nvm.next := nvm.next[last := after];
        nvm.next := nvm.next[freeHead := first];
      }
      nvm.own := Grant(nvm.own, run, Held(Use(ino, Loose)));
      HolderChanges(Pool(m.next, nvm.head, nvm.count), m.own, nvm.free, NonePushed(), nvm.next, nvm.own);
      SizesMem(m, nvm.M());
      GcFreeStep(m, nvm.M(), ino, log, blk, i, run, rest, fc);
    }

    /** A live run of the entry: cut it off and append it (src/gc.c:54-82). */
    method CollectLive(nvm: Nvm, b: Build, t: Pos, entry: Entry, data: int, j: nat,
                       ghost i: nat, ghost blk: LogPage, ghost fc: seq<int>, ghost log0: seq<LogPage>, ghost runs: seq<Ent>)
      returns (ok: bool, t': Pos, j': nat, data': int, ghost runs': seq<Ent>)
      requires i < |blk.ents| && entry == blk.ents[i].rec && entry.numPages == |blk.ents[i].pages| <= MAX_PAGES && Represents(entry.bitmap, blk.ents[i].dead)
      requires j < entry.numPages && j !in blk.ents[i].dead && data == blk.ents[i].pages[j]
      requires nvm.Valid() && GcAt(nvm.M(), ino, log, blk, i, blk.ents[i].pages[j..], fc) && log != [] && t == EndPos(log)
      requires GcMeans(b, nvm.back, index, log0, log, runs, iSize) && MarksOk(blk.ents[i], index, {})
      requires b.AsWritten? ==> BackOk(nvm.back, Pos(blk.id, i), blk.ents[i])
      modifies nvm`next, nvm`hdr, nvm`slot, nvm`back, nvm`head, nvm`count, nvm`own, nvm`free, this`log
      ensures !ok ==> nvm.Short(1)
      ensures nvm.Room() + FILL_MAX >= old(nvm.Room()) && (old(nvm.Room()) >= FILL_MAX ==> ok)
      ensures nvm.Valid() && OthersKept(old(nvm.M()), nvm.M(), ino)
      ensures b.AsWritten? ==> nvm.back == old(nvm.back)
      ensures j < j' == RunEnd(blk.ents[i].dead, entry.numPages, j, false)
      ensures runs' == runs + [Piece(blk.ents[i], iSize, j, j')]
      ensures ok ==> GcAt(nvm.M(), ino, log, blk, i, blk.ents[i].pages[j'..], fc) && t' == EndPos(log)
      ensures ok ==> data' == First(blk.ents[i].pages[j'..])
      ensures ok ==> GcMeans(b, nvm.back, index, log0, log, runs', iSize)
    {
      hide Inv, MemOk, GcAt, GcCut, OthersKept, EndPos, GcMeans, MarksOk, BackOk, RunEnd, First, Piece;
      ghost var e, m := blk.ents[i], nvm.M();
      var last;
      j', last, data' := CutRun(nvm, entry, data, j, false, e.dead, i, blk, e.pages[j..], fc);
      ghost var m1 := nvm.M();
      RunEndBound(blk.ents[i].dead, entry.numPages, j, false);
      Reslice(e.pages, j, j');
      var base := entry.startOff / PAGE_SIZE * PAGE_SIZE;
      var start := base + j * PAGE_SIZE;
      var end := if j' == entry.numPages then entry.endOff else base + j' * PAGE_SIZE;
      RunIsPiece(e, iSize, j, j', start, end);
      RunEndLive(blk.ents[i].dead, entry.numPages, j);
      PieceMarks(e, iSize, j, j', index);
      if b.AsWritten? {
        BackAt(nvm.back, Pos(blk.id, i), e, j);
      }
      runs' := runs + [Piece(e, iSize, j, j')];
      ok, t' := AppendRun(nvm, b, t, data, j' - j, start, end, i, blk, e.pages[j'..], fc, log0, Piece(e, iSize, j, j'), runs);
      OthersKeptTrans(m, m1, nvm.M(), ino);
    }

    /** A dead run of the entry: cut it off and put it on the free chain
        (src/gc.c:84-106). */
    method CollectDead(nvm: Nvm, entry: Entry, data: int, j: nat, freeHead: int, freeNums: nat,
                       ghost i: nat, ghost blk: LogPage, ghost fc: seq<int>)
      returns (j': nat, data': int, freeHead': int, freeNums': nat, ghost fc': seq<int>)
      requires i < |blk.ents| && entry == blk.ents[i].rec && entry.numPages == |blk.ents[i].pages| <= MAX_PAGES && Represents(entry.bitmap, blk.ents[i].dead)
      requires j < entry.numPages && j in blk.ents[i].dead && data == blk.ents[i].pages[j]
      requires nvm.Valid() && GcAt(nvm.M(), ino, log, blk, i, blk.ents[i].pages[j..], fc)
      requires freeHead == First(fc) && freeNums == |fc|
      modifies nvm`next, nvm`own
      ensures nvm.Valid() && OthersKept(old(nvm.M()), nvm.M(), ino)
      ensures j < j' == RunEnd(blk.ents[i].dead, entry.numPages, j, true) <= entry.numPages
      ensures fc' == SpliceAfterHead(fc, blk.ents[i].pages[j..j']) && freeHead' == First(fc') && freeNums' == |fc'|
      ensures GcAt(nvm.M(), ino, log, blk, i, blk.ents[i].pages[j'..], fc') && data' == First(blk.ents[i].pages[j'..])
    {
      hide Inv, MemOk, GcAt, GcCut, OthersKept, RunEnd, First, SpliceAfterHead;
      ghost var e, m := blk.ents[i], nvm.M();
      var last;
      j', last, data' := CutRun(nvm, entry, data, j, true, e.dead, i, blk, e.pages[j..], fc);
      ghost var m1 := nvm.M();
      RunEndBound(blk.ents[i].dead, entry.numPages, j, true);
      Reslice(e.pages, j, j');
      freeHead' := FreeRun(nvm, freeHead, data, last, i, blk, e.pages[j..j'], e.pages[j'..], fc);
      fc' := SpliceAfterHead(fc, e.pages[j..j']);
      SpliceMembers(fc, e.pages[j..j']);
      freeNums' := freeNums + (j' - j);
      OthersKeptTrans(m, m1, nvm.M(), ino);
    }

    /** The body of the entry loop of `gc_log_block`: split entry `i` of the collected
        page into its maximal live and dead runs. */
    method GcEntry(nvm: Nvm, b: Build, t: Pos, id: int, i: nat, freeHead: int, freeNums: nat,
                   ghost blk: LogPage, ghost fc: seq<int>, ghost log0: seq<LogPage>, ghost runs: seq<Ent>)
      returns (ok: bool, t': Pos, freeHead': int, freeNums': nat, ghost fc': seq<int>, ghost runs': seq<Ent>)
      requires nvm.Valid() && GcBetween(nvm.M(), ino, log, blk, i, fc) && i < |blk.ents| && log != [] && t == EndPos(log)
      requires id == blk.id && freeHead == First(fc) && freeNums == |fc|
      requires GcMeans(b, nvm.back, index, log0, log, runs, iSize) && MarksOk(blk.ents[i], index, {})
      requires b.AsWritten? ==> BackOk(nvm.back, Pos(blk.id, i), blk.ents[i])
      modifies nvm`next, nvm`hdr, nvm`slot, nvm`back, nvm`head, nvm`count, nvm`own, nvm`free, this`log
      ensures !ok ==> nvm.Short(1)
      ensures nvm.Room() + FILL_MAX * |LiveRuns(blk.ents[i], iSize, 0)| >= old(nvm.Room()) && (old(nvm.Room()) >= FILL_MAX * |LiveRuns(blk.ents[i], iSize, 0)| ==> ok)
      ensures nvm.Valid() && OthersKept(old(nvm.M()), nvm.M(), ino)
      ensures b.AsWritten? ==> nvm.back == old(nvm.back)
      ensures fc' == Freed(fc, blk.ents[i], 0) && runs' == runs + LiveRuns(blk.ents[i], iSize, 0)
      ensures ok ==> GcBetween(nvm.M(), ino, log, blk, i + 1, fc') && log != [] && t' == EndPos(log)
      ensures ok ==> freeHead' == First(fc') && freeNums' == |fc'|
      ensures ok ==> GcMeans(b, nvm.back, index, log0, log, runs', iSize)
    {
      hide Inv, MemOk, GcBetween, GcAt, OthersKept, EndPos, GcMeans, MarksOk, BackOk, RunEnd, First, Piece, LiveRuns, Freed, FirstPage, InvalidPage, Represents;
      ghost var m, e := nvm.M(), blk.ents[i];
      GcNext(m, ino, log, blk, i, fc);
      OthersKeptSelf(m, ino);
      FirstOf(e.pages, 0);
      t', freeHead', freeNums', ok := t, freeHead, freeNums, true;
      var entry := nvm.slot[id][i];
      var data, j: nat := entry.data, 0;
      ghost var now, rs := fc, runs;
      fc', runs' := Freed(fc, e, 0), runs + LiveRuns(e, iSize, 0);
      while j < entry.numPages
        invariant 0 <= j <= entry.numPages && data == First(e.pages[j..])
        invariant nvm.Valid() && OthersKept(m, nvm.M(), ino) && (b.AsWritten? ==> nvm.back == m.back)
        invariant GcAt(nvm.M(), ino, log, blk, i, e.pages[j..], now) && log != [] && t' == EndPos(log)
        invariant freeHead' == First(now) && freeNums' == |now|
        invariant GcMeans(b, nvm.back, index, log0, log, rs, iSize)
        invariant |rs| >= |runs| && nvm.Room() + FILL_MAX * (|rs| - |runs|) >= old(nvm.Room())
        invariant rs + LiveRuns(e, iSize, j) == runs' && Freed(now, e, j) == fc'
      {
        InvalidIffDead(e, j);
        if !InvalidPage(entry, j) {
          ghost var m1, j1 := nvm.M(), j;
          FirstOf(e.pages, j);
          LiveRunsStep(now, e, iSize, j, rs);
          ok, t', j, data, rs := CollectLive(nvm, b, t', entry, data, j, i, blk, now, log0, rs);
          RunEndBound(e.dead, entry.numPages, j1, false);
          OthersKeptTrans(m, m1, nvm.M(), ino);
          if !ok {
            return;
          }
          GcAtLog(nvm.M(), ino, log, blk, i, e.pages[j..], now);
        }
        if j < entry.numPages {
          InvalidIffDead(e, j);
        }
        if j < entry.numPages && InvalidPage(entry, j) {
          ghost var m1 := nvm.M();
          FirstOf(e.pages, j);
          FreedStep(now, e, iSize, j);
          j, data, freeHead', freeNums', now := CollectDead(nvm, entry, data, j, freeHead', freeNums', i, blk, now);
          OthersKeptTrans(m, m1, nvm.M(), ino);
        }
      }
      RunsEnd(now, e, iSize, rs);
      assert e.pages[j..] == [];
      GcEntryDone(nvm.M(), ino, log, blk, i, now);
    }

    /** `gc_log_block`: collect the unlinked log page `id`. */
    method GcLogBlock(nvm: Nvm, b: Build, id: int, ghost blk: LogPage) returns (ok: bool)
      requires nvm.Valid() && GcBetween(nvm.M(), ino, log, blk, 0, []) && log != [] && logTail == EndPos(log)
      requires GcMeans(b, nvm.back, index, log, log, [], iSize)
      requires id == blk.id && Collected(nvm.hdr, nvm.back, index, blk)
      modifies nvm`next, nvm`hdr, nvm`slot, nvm`back, nvm`head, nvm`count, nvm`own, nvm`free, this`log, this`logTail
      ensures !ok ==> nvm.Short(1)
      ensures nvm.Room() + FILL_MAX * |BlockRuns(blk.ents, iSize)| >= old(nvm.Room()) && (old(nvm.Room()) >= FILL_MAX * |BlockRuns(blk.ents, iSize)| ==> ok)
      ensures nvm.Valid() && OthersKept(old(nvm.M()), nvm.M(), ino)
      ensures ok ==> log != [] && LogOk(nvm.M(), ino, log, 0) && NoLeak(nvm.own, ino, log, {}) && logTail == EndPos(log)
      ensures ok ==> GcMeans(b, nvm.back, index, old(log), log, BlockRuns(blk.ents, iSize), iSize)
      ensures ok ==> forall p | p in [id] + BlockFreed([], blk.ents) :: 0 <= p < |nvm.own| && nvm.own[p].Free?
      ensures ok ==> FreedPage(nvm.M(), nvm.free, blk)
      ensures b.AsWritten? ==> nvm.back == old(nvm.back)
      ensures ok && b.AsWritten? ==> WordsNameFreed(nvm.M(), index, blk)
      ensures ok && b.AsWritten? && 0 <= id < |old(nvm.hdr)| ==>
                (BacksOk(nvm.back, log) <==>
                 BacksOk(nvm.back, old(log)) && old(nvm.hdr)[id].invalidPages == old(nvm.hdr)[id].pagesCnt)
    {
      hide Inv, MemOk, LogOk, NoLeak, GcBetween, OthersKept, EndPos, GcMeans, MarksOk, BackOk, First, LiveRuns, Freed, Collected, WordsNameFreed, FreedPage,
           BlockRuns, BlockFreed;
      ghost var m, log0, fc: seq<int>, runs: seq<Ent> := nvm.M(), log, [], [];
      CollectedFacts(m, nvm.hdr, nvm.back, ino, log, index, blk);
      OthersKeptSelf(m, ino);
      RunsStart(blk.ents);
      var numEntries := nvm.hdr[id].objCnt;
      var t, freeHead, freeNums: nat := logTail, NIL, 0;
      FirstNil();
      var i: nat := 0;
      while i < numEntries
        invariant 0 <= i <= numEntries == |blk.ents|
        invariant nvm.Valid() && OthersKept(m, nvm.M(), ino) && (b.AsWritten? ==> nvm.back == m.back)
        invariant GcBetween(nvm.M(), ino, log, blk, i, fc) && log != [] && t == EndPos(log)
        invariant freeHead == First(fc) && freeNums == |fc|
        invariant GcMeans(b, nvm.back, index, log0, log, runs, iSize)
        invariant nvm.Room() + FILL_MAX * |runs| >= old(nvm.Room())
        invariant runs + BlockRuns(blk.ents[i..], iSize) == BlockRuns(blk.ents, iSize)
        invariant BlockFreed(fc, blk.ents[i..]) == BlockFreed([], blk.ents)
      {
        ghost var m1 := nvm.M();
        RunsStep(fc, blk.ents, iSize, i, runs);
        ok, t, freeHead, freeNums, fc, runs := GcEntry(nvm, b, t, id, i, freeHead, freeNums, blk, fc, log0, runs);
        OthersKeptTrans(m, m1, nvm.M(), ino);
        if !ok {
          return;
        }
        i := i + 1;
      }
      RunsDone(fc, blk.ents, iSize, runs);
      GcWords(b, nvm.back, index, log0, log, blk.ents, iSize);
      Release(nvm, id, freeHead, freeNums, blk, fc, m);
      if b.AsWritten? {
        WordsStay(nvm.M(), m.hdr, index, blk);
      }
      logTail := t;
      ok := true;
    }

    // ------------------------------------------------------------------ the calls

    /** The state of the inode between two calls. */
    ghost predicate Ready(nvm: Nvm)
      reads this, nvm
    {
      Sound(nvm) && ZeroTail(nvm.bytes, index, iSize) && iSize < U64_SPAN && fileOff < U64_SPAN
    }

    /** The file the inode stands for. */
    ghost function View(nvm: Nvm): File
      reads this, nvm
    {
      File(FileBytes(nvm.bytes, index, iSize), fileOff, index.Keys)
    }

    /** `init_atfs_inode`.  As written, the counters of the first log page are whatever
        its last use left in the header, and the new inode is in order only if that is
        zero. */
    method InitInode(nvm: Nvm, b: Build, cpu: nat) returns (ok: bool)
      requires nvm.Valid() && cpu < CPUS && forall p | 0 <= p < |nvm.own| && nvm.own[p].Held? :: nvm.own[p].holder.ino != ino
      modifies nvm`next, nvm`hdr, nvm`head, nvm`count, nvm`own, nvm`free, this
      ensures |old(nvm.free)| == LISTS && (old(nvm.free)[cpu + 1] != [] ==> ok)
      ensures nvm.Room() + FILL_MAX >= old(nvm.Room())
      ensures !ok ==> nvm.Short(1) && old(nvm.Short(1))
      ensures nvm.Valid() && HeldKept(old(nvm.M()), nvm.M(), ino)
      ensures |old(nvm.free)| == LISTS && (ok ==> 0 <= FirstFree(old(nvm.free), cpu) < |old(nvm.hdr)|)
      ensures ok ==> View(nvm) == File([], 0, {}) && Entries(log) == []
      ensures ok ==> (Ready(nvm) <==> b == Repaired || old(nvm.hdr)[FirstFree(old(nvm.free), cpu)] == Counters(0, 0, 0, 0))
    {
      hide Inv, Linked, MemOk, LogOk, Stored, SizeOk, ZeroTail, HeldKept, LogSpans;
      var first;
      ok, first := FirstLogPage(nvm, b, cpu);
      if ok {
        iSize, fileOff, logHead, logTail, index, log := 0, 0, first, Pos(first, 0), map[], [LogPage(first, [])];
        FirstPageStored(nvm.M(), ino, first);
      }
    }

    method FirstLogPage(nvm: Nvm, b: Build, cpu: nat) returns (ok: bool, first: int)
      requires nvm.Valid() && cpu < CPUS && forall p | 0 <= p < |nvm.own| && nvm.own[p].Held? :: nvm.own[p].holder.ino != ino
      modifies nvm`next, nvm`hdr, nvm`head, nvm`count, nvm`own, nvm`free
      ensures |old(nvm.free)| == LISTS && (old(nvm.free)[cpu + 1] != [] ==> ok)
      ensures nvm.Room() + FILL_MAX >= old(nvm.Room())
      ensures !ok ==> nvm.Short(1) && old(nvm.Short(1))
      ensures nvm.Valid() && HeldKept(old(nvm.M()), nvm.M(), ino)
      ensures ok ==> 0 <= first < |nvm.own| == |nvm.next| == |nvm.hdr| == |old(nvm.hdr)|
      ensures |old(nvm.free)| == LISTS && (ok ==> first == FirstFree(old(nvm.free), cpu))
      ensures ok ==> nvm.own[first] == Held(Use(ino, LogRole)) && nvm.next[first] == NIL
      ensures ok ==> nvm.hdr[first] == if b == Repaired then Counters(0, 0, 0, 0) else old(nvm.hdr)[first]
      ensures ok ==> forall q | 0 <= q < |nvm.own| && q != first && nvm.own[q].Held? :: nvm.own[q].holder.ino != ino
    {
      hide Inv, Linked, MemOk, HeldKept;
      ghost var m := nvm.M();
      CountsOk(nvm.Lists(), nvm.own, nvm.free, cpu + 1);
      ghost var c;
      ok, first, c := nvm.AllocOn(cpu, 1, ino);
      ghost var m1 := nvm.M();
      MemSizes(m);
      MemSizes(m1);
      if ok {
        OnePage(m1.next, c);
        assert nvm.own[first].Held?;
        nvm.own := nvm.own[first := Held(Use(ino, LogRole))];
        if b == Repaired {
          nvm.hdr := nvm.hdr[first := Counters(0, 0, 0, 0)];
        }
        HolderChanges(Pool(m1.next, nvm.head, nvm.count), m1.own, nvm.free, NonePushed(), nvm.next, nvm.own);
        SizesHdr(m1, nvm.M());
      }
      AllocKept(m, nvm.M(), ino);
    }

    /** `nvmio_read`. */
    method NvmioRead(nvm: Nvm, cnt: nat, off: nat) returns (r: Reply)
      requires off < U64_SPAN && ZeroTail(nvm.bytes, index, iSize)
      ensures r == ReadAt(FileBytes(nvm.bytes, index, iSize), off, cnt)
    {
      hide Word, ByteAt, ReadPlace, PageOrZeros;
      if Word(off + cnt) > iSize {
        return Number(-1);
      }
      var buf: seq<bv8> := [];
      var offset: nat, start: nat, total: nat := off % PAGE_SIZE, off / PAGE_SIZE * PAGE_SIZE, cnt;
      ReadFrom(off, cnt);
      while total > 0
        invariant 0 <= total <= cnt && |buf| == cnt - total
        invariant ReadPlace(off, cnt, |buf|, start, offset)
        invariant forall i | 0 <= i < |buf| :: buf[i] == ByteAt(nvm.bytes, index, Word(off + i))
      {
        ReadBounds(off, cnt, |buf|, start, offset);
        var page := PageOrZeros(nvm.bytes, index, start / PAGE_SIZE);
        var rdSize := RoundSize(total, offset);
        ReadOn(off, cnt, |buf|, start, offset);
        var part := page[offset..offset + rdSize];
        forall i | 0 <= i < rdSize
          ensures part[i] == ByteAt(nvm.bytes, index, Word(off + (|buf| + i)))
        {
          ReadByte(nvm.bytes, index, off, cnt, |buf|, start, offset, i);
          assert off + |buf| + i == off + (|buf| + i);
        }
        buf := buf + part;
        total := total - rdSize;
        start := Word(start + PAGE_SIZE);
        offset := 0;
      }
      r := Bytes(buf);
      ReadDone(nvm.bytes, index, iSize, off, cnt, buf);
    }

    method UpdateInodeOffset(cnt: nat)
      modifies this`fileOff
      ensures fileOff == Word(old(fileOff) + cnt)
    {
      fileOff := Word(fileOff + cnt);
    }

    /** `update_inode_size`, which goes by the file position `at`. */
    method UpdateInodeSize(at: nat, cnt: nat)
      modifies this`iSize
      ensures iSize == if Word(at + cnt) > old(iSize) then Word(at + cnt) else old(iSize)
    {
      if Word(at + cnt) > iSize {
        iSize := Word(at + cnt);
      }
    }

    /** The locked part of `atfsread`.  The position moves on even if the read fails. */
    method AtfsRead(nvm: Nvm, cnt: nat) returns (r: Reply)
      requires Ready(nvm) && cnt < U64_SPAN
      modifies this`fileOff
      ensures Ready(nvm) && View(nvm) == old(After(View(nvm), Read(cnt)))
      ensures r == old(ReplyOf(View(nvm), Read(cnt)))
    {
      hide Inv, MemOk, Stored, SizeOk, EndPos, Word, ZeroTail;
      r := NvmioRead(nvm, cnt, fileOff);
      WordFits(fileOff + cnt);
      UpdateInodeOffset(cnt);
    }

    /** The locked part of `atfspread`. */
    method AtfsPread(nvm: Nvm, cnt: nat, off: nat) returns (r: Reply)
      requires Ready(nvm) && cnt < U64_SPAN && off < U64_SPAN
      ensures View(nvm) == After(View(nvm), Pread(cnt, off)) && r == ReplyOf(View(nvm), Pread(cnt, off))
    {
      hide Inv, MemOk, Stored, SizeOk, EndPos, Word, ZeroTail;
      r := NvmioRead(nvm, cnt, off);
    }

    /** The locked part of `atfswrite`.  If pages run out the file is what it was.  The
        repaired build returns from a write of no bytes before it does anything. */
    method AtfsWrite(nvm: Nvm, b: Build, buf: seq<bv8>) returns (ok: bool, r: Reply)
      requires Ready(nvm) && Fits(b, View(nvm), Write(buf))
      modifies nvm, this
      ensures nvm.Valid() && HeldKept(old(nvm.M()), nvm.M(), ino)
      ensures !ok ==> nvm.Short(MAX_PAGES) && View(nvm) == old(View(nvm))
      ensures nvm.Room() + WriteCost(|buf|, old(fileOff)) >= old(nvm.Room()) && (old(nvm.Room()) >= WriteCost(|buf|, old(fileOff)) ==> ok)
      ensures ok && buf != [] ==> Wrote(b, old(fileOff), buf, old(nvm.bytes), old(index), nvm.bytes, index)
      ensures ok && buf != [] ==> NewRecorded(old(fileOff), |buf|, old(iSize), old(log), log) && Grown(old(log), log)
      ensures ok && buf != [] ==> |Entries(log)| == |Entries(old(log))| + ChunkCount(PageCount(|buf|, old(fileOff) % PAGE_SIZE))
      ensures ok && old(Cautious(b, View(nvm), Write(buf))) ==> Ready(nvm) && View(nvm) == old(After(View(nvm), Write(buf)))
      ensures r == old(ReplyOf(View(nvm), Write(buf)))
    {
      hide Inv, MemOk, Stored, SizeOk, EndPos, Word, ZeroTail, Splice, HeldKept, Wrote, FileBytes, TouchedPages,
           CleanWrite, Spliced, WriteCost, NewRecorded, Grown, Entries, ChunkCount, PageCount;
      ghost var m, index0, size0, off := nvm.M(), index, iSize, fileOff;
      NoCost(fileOff);
      r := Number(|buf|);
      if buf == [] {
        HeldKeptSelf(m, ino);
        return true, r;
      }
      StoredIndexHeld(m, ino, log, index);
      ok := NvmioWrite(nvm, b, buf, fileOff);
      if !ok {
        SameFile(m, nvm.M(), ino, index, iSize);
        return;
      }
      CautiousSplices(b, off, buf, size0, m.bytes, index0, nvm.bytes, index);
      WordFits(fileOff + |buf|);
      UpdateInodeOffset(|buf|);
      UpdateInodeSize(fileOff, 0);
    }

    /** The locked part of `atfspwrite`. */
    method AtfsPwrite(nvm: Nvm, b: Build, buf: seq<bv8>, off: nat) returns (ok: bool, r: Reply)
      requires Ready(nvm) && Fits(b, View(nvm), Pwrite(buf, off))
      modifies nvm, this
      ensures nvm.Valid() && HeldKept(old(nvm.M()), nvm.M(), ino)
      ensures !ok ==> nvm.Short(MAX_PAGES) && View(nvm) == old(View(nvm))
      ensures nvm.Room() + WriteCost(|buf|, off) >= old(nvm.Room()) && (old(nvm.Room()) >= WriteCost(|buf|, off) ==> ok)
      ensures ok && buf != [] ==> Wrote(b, off, buf, old(nvm.bytes), old(index), nvm.bytes, index)
      ensures ok && buf != [] ==> iSize == PwriteSize(b, old(iSize), fileOff, off, |buf|) && fileOff == old(fileOff)
      ensures ok && old(Cautious(b, View(nvm), Pwrite(buf, off))) ==> Ready(nvm) && View(nvm) == old(After(View(nvm), Pwrite(buf, off)))
      ensures r == old(ReplyOf(View(nvm), Pwrite(buf, off)))
    {
      hide Inv, MemOk, Stored, SizeOk, EndPos, Word, ZeroTail, Splice, HeldKept, Wrote, FileBytes, TouchedPages,
           CleanWrite, Spliced, WriteCost, NewRecorded, Grown, Entries, ChunkCount, PageCount;
      ghost var m, index0, size0 := nvm.M(), index, iSize;
      NoCost(off);
      r := Number(|buf|);
      if buf == [] {
        HeldKeptSelf(m, ino);
        return true, r;
      }
      StoredIndexHeld(m, ino, log, index);
      ok := NvmioWrite(nvm, b, buf, off);
      if !ok {
        SameFile(m, nvm.M(), ino, index, iSize);
        return;
      }
      CautiousSplices(b, off, buf, size0, m.bytes, index0, nvm.bytes, index);
      WordFits(off + |buf|);
      UpdateInodeSize(if b == Repaired then off else fileOff, |buf|);
    }

    /** The locked part of `atfswrite` for no bytes at a position inside a page, as
        written.  It grows the file up to the position. */
    method AtfsWriteNothing(nvm: Nvm) returns (ok: bool, ghost q: int)
      requires Ready(nvm) && fileOff % PAGE_SIZE != 0
      modifies nvm`next, nvm`hdr, nvm`slot, nvm`head, nvm`count, nvm`own, nvm`free, this
      ensures nvm.Valid() && HeldKept(old(nvm.M()), nvm.M(), ino)
      ensures old(nvm.Room()) >= 2 * FILL_MAX ==> ok
      ensures !ok ==> nvm.Short(1) && View(nvm) == old(View(nvm))
      ensures ok ==> LogSound(nvm) && 0 <= q < |old(nvm.own)| && old(nvm.own)[q].Free? && q !in old(index).Values
      ensures ok ==> View(nvm) == AfterNothing(nvm.bytes, old(index), old(iSize), old(fileOff), old(fileOff) / PAGE_SIZE, q)
    {
      hide Inv, MemOk, Stored, StoredLog, BacksOk, SizeOk, EndPos, Word, ZeroTail, HeldKept, FileBytes;
      WordFits(fileOff);
      var page;
      ok, page := WriteNothing(nvm, fileOff);
      q := page;
      if ok {
        UpdateInodeOffset(0);
        UpdateInodeSize(fileOff, 0);
      }
    }

    /** And of `atfspwrite`, where the size goes by the file position. */
    method AtfsPwriteNothing(nvm: Nvm, off: nat) returns (ok: bool, ghost q: int)
      requires Ready(nvm) && off % PAGE_SIZE != 0 && off < U64_SPAN
      modifies nvm`next, nvm`hdr, nvm`slot, nvm`head, nvm`count, nvm`own, nvm`free, this
      ensures nvm.Valid() && HeldKept(old(nvm.M()), nvm.M(), ino)
      ensures old(nvm.Room()) >= 2 * FILL_MAX ==> ok
      ensures !ok ==> nvm.Short(1) && View(nvm) == old(View(nvm))
      ensures ok ==> StoredLog(nvm.M(), ino, log, index) && 0 <= q < |old(nvm.own)| && old(nvm.own)[q].Free? && q !in old(index).Values
      ensures ok ==> View(nvm) == AfterNothing(nvm.bytes, old(index), old(iSize), old(fileOff), off / PAGE_SIZE, q)
    {
      hide Inv, MemOk, Stored, StoredLog, BacksOk, SizeOk, EndPos, Word, ZeroTail, HeldKept, FileBytes;
      WordFits(fileOff);
      var page;
      ok, page := WriteNothing(nvm, off);
      q := page;
      if ok {
        UpdateInodeSize(fileOff, 0);
      }
    }

    /** The locked part of `atfslseek`. */
    method AtfsLseek(nvm: Nvm, offset: int, whence: int) returns (r: Reply)
      requires Ready(nvm) && -U64_SPAN / 2 <= offset < U64_SPAN / 2
      modifies this`fileOff
      ensures Ready(nvm) && View(nvm) == old(After(View(nvm), Seek(offset, whence)))
      ensures r == old(ReplyOf(View(nvm), Seek(offset, whence)))
    {
      hide Inv, MemOk, Stored, SizeOk, EndPos, Word, ZeroTail;
      if whence == SEEK_SET {
        WordFits(offset);
        fileOff := Word(offset);
      } else if whence == SEEK_CUR {
        WordFits(fileOff + offset);
        fileOff := Word(fileOff + offset);
      } else if whence == SEEK_END {
        WordFits(iSize + offset);
        fileOff := iSize;
        fileOff := Word(fileOff + offset);
      } else {
        return Number(EINVAL);
      }
      r := Number(Signed(fileOff));
    }

    /** Collection leaves the file alone and compacts the log. */
    method Collect(nvm: Nvm) returns (ok: bool)
      requires Ready(nvm)
      modifies nvm, this
      ensures nvm.Valid() && OthersKept(old(nvm.M()), nvm.M(), ino)
      ensures View(nvm) == old(View(nvm))
      ensures ok ==> Compacted(old(log), log, |old(View(nvm)).data|)
      ensures if ok then Ready(nvm) else nvm.Short(1)
      ensures var cost := FILL_MAX * |old(View(nvm)).pages|; nvm.Room() + cost >= old(nvm.Room()) && (old(nvm.Room()) >= cost ==> ok)
    {
      hide Inv, MemOk, Stored, StoredLog, BacksOk, SizeOk, EndPos, ZeroTail, OthersKept, Extends, Entries, Survivors, Moved, LastFreed, Compacted;
      StoredIs(nvm.M(), ino, log, index);
      MovedBound(nvm.M(), ino, log, index, iSize);
      ok := StartGcTask(nvm, Repaired);
    }

    /** Any of the calls; `b` is the build of the writes. */
    method Perform(nvm: Nvm, b: Build, op: Op) returns (ok: bool, r: Reply)
      requires Ready(nvm) && Admits(b, View(nvm), op)
      modifies nvm, this
      ensures nvm.Valid() && OthersKept(old(nvm.M()), nvm.M(), ino)
      ensures if ok then Ready(nvm) && View(nvm) == old(After(View(nvm), op)) else nvm.Short(MAX_PAGES) && View(nvm) == old(View(nvm))
      ensures nvm.Room() + old(Cost(View(nvm), op)) >= old(nvm.Room()) && (old(nvm.Room()) >= old(Cost(View(nvm), op)) ==> ok)
      ensures r == old(ReplyOf(View(nvm), op))
      ensures op.Write? || op.Pwrite? || log == old(log)
    {
      hide Inv, MemOk, Stored, SizeOk, EndPos, ZeroTail, OthersKept, HeldKept, Splice, Word, CleanWrite, PwriteRight, WriteCost,
           Written, After, ReplyOf, FileBytes, Wrote;
      ghost var m := nvm.M();
      OthersKeptSelf(m, ino);
      ok := true;
      match op
      case Write(buf) =>
        ok, r := AtfsWrite(nvm, b, buf);
        HeldKeptOthers(m, nvm.M(), ino);
      case Read(cnt) =>
        r := AtfsRead(nvm, cnt);
      case Seek(offset, whence) =>
        r := AtfsLseek(nvm, offset, whence);
      case Pwrite(buf, off) =>
        ok, r := AtfsPwrite(nvm, b, buf, off);
        HeldKeptOthers(m, nvm.M(), ino);
      case Pread(cnt, off) =>
        r := AtfsPread(nvm, cnt, off);
    }

    /** The end of `gc_log_block`: the log page and the free chain go back
        (src/gc.c:110-113). */
    method Release(nvm: Nvm, id: int, freeHead: int, freeNums: nat, ghost blk: LogPage, ghost fc: seq<int>, ghost m0: Mem)
      requires nvm.Valid() && GcBetween(nvm.M(), ino, log, blk, |blk.ents|, fc) && id == blk.id
      requires fc != [] && freeHead == First(fc) && freeNums == |fc| == CountersOf(blk.ents).invalidPages && OthersKept(m0, nvm.M(), ino)
      modifies nvm`next, nvm`head, nvm`count, nvm`own, nvm`free
      ensures nvm.Valid() && log != [] && LogOk(nvm.M(), ino, log, 0) && NoLeak(nvm.own, ino, log, {})
      ensures OthersKept(m0, nvm.M(), ino) && nvm.Room() >= old(nvm.Room())
      ensures forall p | p in [id] + fc :: 0 <= p < |nvm.own| && nvm.own[p].Free?
      ensures FreedPage(nvm.M(), nvm.free, blk) && 0 <= id < |nvm.own| && nvm.own[id].Free?
    {
      hide Inv, MemOk, LogOk, NoLeak, GcBetween, OthersKept, FreeChain, Linked, PushedLists, Shallow;
      ghost var m := nvm.M();
      GcDoneParts(m, ino, log, blk, fc);
      MemSizes(m);
      ghost var l1 := nvm.ReleasePages(id, 1, [id]);
      ghost var m1 := nvm.M();
      MemSizes(m1);
      FirstRelease(m0, m, m1, ino, log, blk, fc);
      ghost var l2 := nvm.ReleasePages(freeHead, freeNums, fc);
      ReleasedShallow(old(nvm.free), l1, id, l2, fc);
      MemSizes(nvm.M());
      SecondRelease(m0, m1, nvm.M(), ino, log, fc);
    }

    /** `get_log_entry` as the collector sees it. */
    method OpenRun(nvm: Nvm, t: Pos) returns (ok: bool, t': Pos, pos: Pos, ghost pg: seq<LogPage>)
      requires nvm.Valid() && log != [] && LogOk(nvm.M(), ino, log, 0) && t == EndPos(log)
      modifies nvm`next, nvm`hdr, nvm`head, nvm`count, nvm`own, nvm`free, this`log
      ensures !ok ==> nvm.Short(1)
      ensures nvm.Room() + FILL_MAX >= old(nvm.Room()) && (old(nvm.Room()) >= FILL_MAX ==> ok)
      ensures nvm.Valid() && SlotOpened(old(nvm.M()), nvm.M(), ino, pg) && log == old(log) + pg && log != []
      ensures ok ==> LogOk(nvm.M(), ino, log, 1) && pos == EndPos(log) && pos.slot < SLOTS && t' == Pos(pos.page, pos.slot + 1)
      ensures ok ==> 0 <= pos.page < |nvm.own| && nvm.own[pos.page] == Held(Use(ino, LogRole))
    {
      hide Inv, MemOk, LogOk, EndPos, SlotOpened;
      ghost var m, logm := nvm.M(), log;
      MemSizes(m);
      ok, t', pos := GetLogEntry(nvm, t);
      MemSizes(nvm.M());
      SlotPages(logm, log, pos);
      pg := log[|logm|..];
      SlotIsOpened(m, nvm.M(), ino, pg, pos);
      if ok {
        TailHeld(nvm.M(), ino, log, 1);
      }
    }

    /** The run to be appended leaves the collected entry. */
    ghost method LoosenRun(nvm: Nvm, run: seq<int>)
      requires nvm.Valid() && LogOk(nvm.M(), ino, log, 1) && Linked(nvm.next, run)
      requires forall p | p in run :: 0 <= p < |nvm.own| && IsPending(nvm.own[p], ino)
      modifies nvm`own
      ensures nvm.Valid() && LogOk(nvm.M(), ino, log, 1)
      ensures nvm.own == Grant(old(nvm.own), run, Held(Use(ino, Loose)))
    {
      hide Inv, LogOk, Linked;
      var m := nvm.M();
      nvm.own := Grant(nvm.own, run, Held(Use(ino, Loose)));
      HolderChanges(Pool(m.next, nvm.head, nvm.count), m.own, nvm.free, NonePushed(), nvm.next, nvm.own);
      RunLoose(m, ino, log, run, nvm.own);
    }
  }

  lemma ExtendsFirst(log0: seq<LogPage>, log: seq<LogPage>)
    requires Extends(log0, log)
    ensures log[0].id == log0[0].id
  {
    if |log0| > 1 {
      assert log[0] == log[..|log0| - 1][0];
    }
  }

  lemma ShapeFirst(log: seq<LogPage>, log': seq<LogPage>)
    requires SameShape(log, log') && log != []
    ensures log' != [] && log'[0].id == log[0].id
  {
  }

  lemma NothingParts(m: Mem, m1: Mem, ino: nat, log: seq<LogPage>, pg: seq<LogPage>, q: int, fp: nat, fileSize: nat)
    requires NothingAppended(m, m1, ino, log, pg, q, fp, fileSize)
    ensures MemOk(m) && |m1.next| == |m.next| && 0 <= q < |m.own| && log != []
    ensures LogOk(m1, ino, Append(log + pg, NothingEntry(q, fp, fileSize)), 0)
  {
  }

  lemma NothingIsAppended(m: Mem, m2: Mem, m1: Mem, ino: nat, log: seq<LogPage>, pg: seq<LogPage>, q: int, fp: nat, fileSize: nat)
    requires Opened(m, m2, ino, log + pg, pg, [q]) && log != [] && MemOk(m1)
    requires HeldKept(m, m1, ino) && LogOk(m1, ino, Append(log + pg, NothingEntry(q, fp, fileSize)), 0)
    requires m1.next == m2.next && m1.bytes == m2.bytes && m1.back == m2.back && m2.back == m.back
    requires forall p | 0 <= p < |m1.own| :: m1.own[p] == if p == q then Held(Use(ino, DataRole(EndPos(log + pg)))) else m2.own[p]
    ensures NothingAppended(m, m1, ino, log, pg, q, fp, fileSize)
  {
    hide LogOk, Append, EndPos, HeldKept;
    assert [q][0] == q;
  }

  lemma AppendFirst(log: seq<LogPage>, pg: seq<LogPage>, e: Ent)
    requires log != []
    ensures Append(log + pg, e) != [] && Append(log + pg, e)[0].id == log[0].id
  {
  }

  lemma SlotsKept(m0: Mem, m: Mem, m': Mem, ino: nat, log: seq<LogPage>)
    requires HeldKept(m0, m, ino) && LogOk(m, ino, log, 0) && MemOk(m') && OnlySlots(m, m', Ids(log))
    ensures HeldKept(m0, m', ino)
  {
    ReplayKeeps(Job(Repaired, 0, [], ino, map[], m0, []), m, m', log);
  }

  lemma OpenedPage(m: Mem, m2: Mem, ino: nat, logp: seq<LogPage>, pg: seq<LogPage>, c: seq<int>)
    requires Opened(m, m2, ino, logp, pg, c)
    ensures |pg| <= 1 && (pg != [] ==> pg[0].ents == [])
  {
  }

  lemma NoCost(off: nat)
    ensures WriteCost(0, off) == 0
  {
  }

  lemma HeldKeptSelf(m: Mem, ino: nat)
    requires MemOk(m)
    ensures HeldKept(m, m, ino)
  {
  }

  /** A repaired write, or a clean one as written, splices. */
  lemma CautiousSplices(b: Build, off: nat, buf: seq<bv8>, size: nat, bytes: seq<Page>, index: map<nat, int>,
                        bytes': seq<Page>, index': map<nat, int>)
    requires buf != [] && Wrote(b, off, buf, bytes, index, bytes', index') && ZeroTail(bytes, index, size)
    requires forall fp | fp in index :: 0 <= index[fp] < |bytes|
    ensures b == Repaired || CleanWrite(off, |buf|, index.Keys) ==>
              var size' := Max(size, off + |buf|);
              && FileBytes(bytes', index', size') == Splice(FileBytes(bytes, index, size), off, buf)
              && ZeroTail(bytes', index', size')
  {
    hide Wrote, ZeroTail, FileBytes, Splice, CleanWrite;
    if b == Repaired {
      WriteSplices(off, buf, size, bytes, index, bytes', index');
    } else if CleanWrite(off, |buf|, index.Keys) {
      AsWrittenClean(b.wild, off, buf, size, bytes, index, bytes', index');
    }
  }

  lemma InstalledKeys(index0: map<nat, int>, index: map<nat, int>, off: nat, cnt: nat, newPages: seq<int>)
    requires 0 < cnt && Installed(index0, index, off / PAGE_SIZE, newPages, |newPages|)
    requires forall fp: nat :: Touched(off, cnt, fp) <==> off / PAGE_SIZE <= fp < off / PAGE_SIZE + |newPages|
    ensures index.Keys == index0.Keys + TouchedPages(off, cnt)
  {
    hide Touched;
    forall fp: nat
      ensures fp in index <==> fp in index0 || Touched(off, cnt, fp)
    {
      assert Lookup(index, fp) == if off / PAGE_SIZE <= fp < off / PAGE_SIZE + |newPages| then Some(newPages[fp - off / PAGE_SIZE]) else Lookup(index0, fp);
    }
  }

  /** Pages in use keep their bytes, so the index gives the same file. */
  lemma SameFile(m: Mem, m': Mem, ino: nat, index: map<nat, int>, size: nat)
    requires HeldKept(m, m', ino) && IndexHeld(m, index)
    ensures FileBytes(m'.bytes, index, size) == FileBytes(m.bytes, index, size)
  {
    forall a: nat
      ensures ByteAt(m'.bytes, index, a) == ByteAt(m.bytes, index, a)
    {
      assert PageOf(m'.bytes, index, a / PAGE_SIZE) == PageOf(m.bytes, index, a / PAGE_SIZE);
    }
  }

  lemma AllocKept(m: Mem, m': Mem, ino: nat)
    requires MemOk(m) && MemOk(m') && |m'.next| == |m.next| && m'.back == m.back && m'.bytes == m.bytes && m'.slot == m.slot
    requires forall p | 0 <= p < |m.own| && m.own[p].Held? :: m'.own[p] == m.own[p] && m'.next[p] == m.next[p] && m'.hdr[p] == m.hdr[p]
    requires forall p | 0 <= p < |m.own| && m.own[p].Free? && m'.own[p].Held? :: m'.own[p].holder.ino == ino
    ensures HeldKept(m, m', ino)
  {
  }

  lemma FirstPageStored(m: Mem, ino: nat, p: int)
    requires MemOk(m) && 0 <= p < |m.own| && m.own[p] == Held(Use(ino, LogRole)) && m.next[p] == NIL
    requires forall q | 0 <= q < |m.own| && q != p && m.own[q].Held? :: m.own[q].holder.ino != ino
    ensures var log := [LogPage(p, [])];
      Stored(m, ino, log, map[]) <==> m.hdr[p] == Counters(0, 0, 0, 0)
    ensures ZeroTail(m.bytes, map[], 0) && SizeOk([LogPage(p, [])], 0)
  {
    var log := [LogPage(p, [])];
    assert log[..0] == [];
    assert EntSpans([]) == [] && LogSpans(log) == [];
    assert Ids(log) == [p];
    assert PageOk(m, ino, Last(log), 0) <==> m.hdr[p] == Counters(0, 0, 0, 0);
    assert Ids(log)[0] == p;
  }

  lemma ReadBounds(off: nat, cnt: nat, done: nat, start: nat, offset: nat)
    requires ReadPlace(off, cnt, done, start, offset)
    ensures offset < PAGE_SIZE
  {
  }

  lemma ReadDone(bytes: seq<Page>, index: map<nat, int>, size: nat, off: nat, cnt: nat, buf: seq<bv8>)
    requires ZeroTail(bytes, index, size) && Word(off + cnt) <= size && |buf| == cnt
    requires forall i | 0 <= i < cnt :: buf[i] == ByteAt(bytes, index, Word(off + i))
    ensures Bytes(buf) == ReadAt(FileBytes(bytes, index, size), off, cnt)
  {
    hide Word, ByteAt;
    var r := ReadAt(FileBytes(bytes, index, size), off, cnt);
    var data := FileBytes(bytes, index, size);
    forall i | 0 <= i < cnt ensures buf[i] == At(data, Word(off + i)) {
    }
    assert forall i | 0 <= i < cnt :: r.data[i] == buf[i];
    assert buf == r.data;
  }

  lemma TailPage(log: seq<LogPage>)
    requires log != []
    ensures EndPos(log).page == log[|log| - 1].id
  {
  }

  /** The page the walk looks at. */
  /** The test the walk makes on the header of a log page. */
  lemma PickedIff(m: Mem, ino: nat, log: seq<LogPage>, k: nat)
    requires LogOk(m, ino, log, 0) && k < |log|
    ensures Collectable(CountersOf(log[k].ents)) <==> Picked(log[k])
  {
    forall s | 0 <= s < |log[k].ents|
      ensures forall i | i in log[k].ents[s].dead :: i < |log[k].ents[s].pages|
    {
      EntryInLog(m, ino, log, 0, k, s);
    }
    CollectableIff(log[k].ents);
  }

  lemma WalkedPage(m: Mem, ino: nat, log: seq<LogPage>, k: nat)
    requires LogOk(m, ino, log, 0) && k < |log|
    ensures MemOk(m) && 0 <= log[k].id < |m.hdr| == |m.next| && m.hdr[log[k].id] == CountersOf(log[k].ents)
    ensures k + 1 < |log| ==> m.next[log[k].id] == log[k + 1].id
  {
    hide PageOk;
    LogIds(m, ino, log, 0);
    PageHeader(m, ino, log[k]);
    CountersCount(log[k].ents);
    assert Ids(log)[k] == log[k].id;
    if k + 1 < |log| {
      assert Ids(log)[k + 1] == log[k + 1].id;
    }
  }

  lemma TaskTail(m: Mem, ino: nat, log: seq<LogPage>, v: nat)
    requires LogOk(m, ino, log, 0) && v < |log| && log[v].id == log[|log| - 1].id
    ensures v == |log| - 1
  {
    hide PageOk, Linked;
    LogIds(m, ino, log, 0);
  }

  /** `page_head == log_head` tells the first page from the others. */
  lemma HeadIsFirst(m: Mem, ino: nat, log: seq<LogPage>, k: nat)
    requires LogOk(m, ino, log, 0) && k < |log|
    ensures log[k].id == log[0].id <==> k == 0
    ensures forall i | 0 <= i < |log| :: 0 <= log[i].id < |m.own| && 0 <= log[i].id < |m.next| && m.own[log[i].id] == Held(Use(ino, LogRole))
    ensures k + 1 < |log| ==> m.next[log[k].id] == log[k + 1].id
  {
    hide PageOk, Linked;
    LogIds(m, ino, log, 0);
    WalkedPage(m, ino, log, k);
  }

  lemma FirstStays(log0: seq<LogPage>, log: seq<LogPage>, k: nat)
    requires k < |log0| - 1 && Extends(Drop(log0, k), log)
    ensures log[0].id == (if k == 0 then log0[1] else log0[0]).id
    ensures k > 0 ==> k - 1 < |log| && log[k - 1].id == log0[k - 1].id
  {
    var d := Drop(log0, k);
    assert d[0] == if k == 0 then log0[1] else log0[0];
    assert forall i | 0 <= i < |d| - 1 :: log[i] == log[..|d| - 1][i] == d[..|d| - 1][i] == d[i];
    if k > 0 {
      assert d[k - 1] == log0[k - 1];
    }
  }

  lemma FirstNil()
    ensures First([]) == NIL
  {
  }

  lemma CollectedFacts(m: Mem, hdr: seq<Counters>, back: seq<Pos>, ino: nat, log: seq<LogPage>, index: map<nat, int>, blk: LogPage)
    requires GcBetween(m, ino, log, blk, 0, []) && m.hdr == hdr && Collected(hdr, back, index, blk)
    ensures MemOk(m) && 0 <= blk.id < |hdr| && hdr[blk.id].objCnt == |blk.ents|
    ensures forall s | 0 <= s < |blk.ents| :: MarksOk(blk.ents[s], index, {}) && BackOk(back, Pos(blk.id, s), blk.ents[s])
    ensures DeadInRange(blk.ents) && hdr[blk.id] == CountersOf(blk.ents) && CountersOf(blk.ents).invalidPages > 0
  {
    var h := hdr[blk.id];
    var c := CountersOf(blk.ents);
    CountersCount(blk.ents);
    forall s | 0 <= s < |blk.ents|
      ensures 0 < |blk.ents[s].pages| && forall i | i in blk.ents[s].dead :: i < |blk.ents[s].pages|
    {
      assert EntAs(m, ino, Pending(Pos(blk.id, s)), m.slot[blk.id][s], blk.ents[s]);
    }
    CollectableHasInvalid(blk.ents);
  }

  /** As written, entry words that were right are right after the collection exactly if
      the header counted every data page of the page as overwritten. */
  lemma GcWords(b: Build, back: seq<Pos>, index: map<nat, int>, log0: seq<LogPage>, log: seq<LogPage>, ents: seq<Ent>, size: nat)
    requires GcMeans(b, back, index, log0, log, BlockRuns(ents, size), size) && DeadInRange(ents)
    ensures b.AsWritten? ==> (BacksOk(back, log) <==> BacksOk(back, log0) && CountersOf(ents).invalidPages == CountersOf(ents).pagesCnt)
  {
    NothingMoves(ents, size);
  }

  lemma RunsStart(ents: seq<Ent>)
    ensures ents[0..] == ents
    ensures forall size: nat :: [] + BlockRuns(ents, size) == BlockRuns(ents, size)
  {
  }

  lemma RunsStep(fc: seq<int>, ents: seq<Ent>, size: nat, i: nat, runs: seq<Ent>)
    requires i < |ents|
    ensures runs + BlockRuns(ents[i..], size) == runs + LiveRuns(ents[i], size, 0) + BlockRuns(ents[i + 1..], size)
    ensures BlockFreed(fc, ents[i..]) == BlockFreed(Freed(fc, ents[i], 0), ents[i + 1..])
  {
    hide LiveRuns, Freed;
    assert ents[i..][1..] == ents[i + 1..];
  }

  /** All entries done: the free chain has the length the header promised. */
  lemma RunsDone(fc: seq<int>, ents: seq<Ent>, size: nat, runs: seq<Ent>)
    requires runs + BlockRuns(ents[|ents|..], size) == BlockRuns(ents, size)
    requires BlockFreed(fc, ents[|ents|..]) == BlockFreed([], ents)
    requires DeadInRange(ents)
    ensures runs == BlockRuns(ents, size) && fc == BlockFreed([], ents) && |fc| == CountersOf(ents).invalidPages
  {
    BlockFreedLength([], ents);
  }

  lemma SizesHdr(m: Mem, m': Mem)
    requires MemOk(m) && |m'.own| == |m'.next| == |m'.hdr| == |m.next| && m'.back == m.back && m'.bytes == m.bytes && m'.slot == m.slot
    ensures MemOk(m')
  {
  }

  lemma SizesMem(m: Mem, m': Mem)
    requires MemOk(m) && |m'.own| == |m'.next| == |m.next| && m'.hdr == m.hdr && m'.back == m.back && m'.bytes == m.bytes && m'.slot == m.slot
    ensures MemOk(m')
  {
  }

  lemma GcCutFree(m: Mem, ino: nat, log: seq<LogPage>, blk: LogPage, i: nat, run: seq<int>, rest: seq<int>, fc: seq<int>)
    requires GcCut(m, ino, log, blk, i, run, rest, fc)
    ensures fc != [] ==> 0 <= fc[0] < |m.own| && m.own[fc[0]].Held?
  {
  }

  lemma GcAtLog(m: Mem, ino: nat, log: seq<LogPage>, blk: LogPage, i: nat, rest: seq<int>, fc: seq<int>)
    requires GcAt(m, ino, log, blk, i, rest, fc)
    ensures log != []
  {
  }

  lemma OthersKeptSelf(m: Mem, ino: nat)
    requires MemOk(m)
    ensures OthersKept(m, m, ino)
  {
  }

  lemma Reslice(pages: seq<int>, j: nat, k: nat)
    requires j < k <= |pages|
    ensures pages[j..][..k - j] == pages[j..k] && pages[j..][k - j..] == pages[k..]
    ensures pages[j..k] != [] && pages[j..k][0] == pages[j] && pages[j..][k - j - 1] == pages[j..k][k - j - 1]
  {
  }

  lemma FirstOf(pages: seq<int>, j: nat)
    requires j <= |pages|
    ensures j < |pages| ==> First(pages[j..]) == pages[j] && pages[j..][0] == pages[j]
    ensures pages[0..] == pages
  {
  }

  lemma RunIsPiece(e: Ent, size: nat, j: nat, k: nat, start: nat, end: nat)
    requires j < k <= |e.pages|
    requires start == e.rec.startOff / PAGE_SIZE * PAGE_SIZE + j * PAGE_SIZE
    requires end == if k == |e.pages| then e.rec.endOff else e.rec.startOff / PAGE_SIZE * PAGE_SIZE + k * PAGE_SIZE
    ensures Piece(e, size, j, k) == Ent(Entry(e.pages[j], size, start, end, k - j, 0, 0), e.pages[j..k], {})
    ensures start % PAGE_SIZE == 0
  {
    FileOffAligned(e.rec.startOff / PAGE_SIZE + j);
  }

  lemma RunEndLive(dead: set<nat>, n: nat, j: nat)
    requires j <= n
    ensures forall x | j <= x < RunEnd(dead, n, j, false) :: x !in dead
  {
  }

  lemma LiveRunsStep(fc: seq<int>, e: Ent, size: nat, j: nat, rs: seq<Ent>)
    requires j < |e.pages| && j !in e.dead
    ensures var k := RunEnd(e.dead, |e.pages|, j, false);
      j < k <= |e.pages| && rs + LiveRuns(e, size, j) == rs + [Piece(e, size, j, k)] + LiveRuns(e, size, k) && Freed(fc, e, j) == Freed(fc, e, k)
  {
  }

  lemma FreedStep(fc: seq<int>, e: Ent, size: nat, j: nat)
    requires j < |e.pages| && j in e.dead
    ensures var k := RunEnd(e.dead, |e.pages|, j, true);
      j < k <= |e.pages| && LiveRuns(e, size, j) == LiveRuns(e, size, k) && Freed(fc, e, j) == Freed(SpliceAfterHead(fc, e.pages[j..k]), e, k)
  {
  }

  lemma RunsEnd(fc: seq<int>, e: Ent, size: nat, rs: seq<Ent>)
    ensures rs + LiveRuns(e, size, |e.pages|) == rs && Freed(fc, e, |e.pages|) == fc
  {
  }

  lemma GcAtLinked(m: Mem, ino: nat, log: seq<LogPage>, blk: LogPage, i: nat, rest: seq<int>, fc: seq<int>)
    requires GcAt(m, ino, log, blk, i, rest, fc)
    ensures Linked(m.next, rest)
  {
  }

  lemma RunEndStep(dead: set<nat>, n: nat, j: nat, d: bool)
    requires j < n && (j in dead) == d
    ensures RunEnd(dead, n, j, d) == RunEnd(dead, n, j + 1, d)
  {
  }

  lemma RunEndBound(dead: set<nat>, n: nat, j: nat, d: bool)
    requires j <= n
    ensures j <= RunEnd(dead, n, j, d) <= n
  {
  }

  lemma RunEndStop(dead: set<nat>, n: nat, j: nat, d: bool)
    requires j <= n && (j < n ==> (j in dead) != d)
    ensures RunEnd(dead, n, j, d) == j
  {
  }

  lemma SlotIsOpened(m: Mem, m1: Mem, ino: nat, pg: seq<LogPage>, pos: Pos)
    requires MemOk(m) && MemOk(m1) && |m1.next| == |m.next|
    requires m1.back == m.back && m1.bytes == m.bytes && m1.slot == m.slot
    requires pg == [] || (pg == [LogPage(pos.page, [])] && 0 <= pos.page < |m.own| && m.own[pos.page].Free?
                          && m1.own[pos.page] == Held(Use(ino, LogRole)))
    requires forall p | 0 <= p < |m1.own| && m.own[p].Held? :: m1.own[p] == m.own[p]
    requires forall p | 0 <= p < |m1.own| && m.own[p].Held? && m1.own[p] != Held(Use(ino, LogRole)) ::
               m1.next[p] == m.next[p] && m1.hdr[p] == m.hdr[p]
    requires forall p | 0 <= p < |m1.own| && m.own[p].Free? :: m1.own[p].Free? || (pg != [] && p == pos.page)
    ensures SlotOpened(m, m1, ino, pg)
  {
  }

  lemma LogBack(m: Mem, m': Mem, ino: nat, log: seq<LogPage>)
    requires LogOk(m, ino, log, 0) && MemOk(m') && m' == m.(back := m'.back)
    ensures LogOk(m', ino, log, 0)
  {
    LogFrame(m, m', ino, log, 0);
  }

  lemma AppendedBacks(b: Build, m: Mem, m4: Mem, ino: nat, log: seq<LogPage>, pg: seq<LogPage>, e: Ent, blk: LogPage, pos: Pos)
    requires MemOk(m) && MemOk(m4) && |m4.next| == |m.next| && log != [] && e.pages != []
    requires 0 <= blk.id < |m.own| && m.own[blk.id] == Held(Use(ino, Loose))
    requires RunAppended(m, m4, ino, log, pg, e) && pos == EndPos(log + pg) && 0 <= pos.page < |m4.own|
    requires m4.own[pos.page] == Held(Use(ino, LogRole))
    requires forall p | p in e.pages :: 0 <= p < |m.own| && IsPending(m.own[p], ino)
    requires b == Repaired ==> (forall p | p in e.pages :: m4.back[p] == pos)
                               && (forall p | 0 <= p < |m4.back| && p !in e.pages :: m4.back[p] == m.back[p])
    requires b.AsWritten? ==> m4.back == m.back && 0 <= e.pages[0] < |m.back| && m.back[e.pages[0]].page == blk.id
    ensures |m4.back| == |m.back| == |m.own| && |pg| <= 1 && (pg != [] ==> pg[0].ents == [])
    ensures b == Repaired ==> BackOk(m4.back, EndPos(log + pg), e) && forall p | 0 <= p < |m.own| && Mine(m.own[p], ino) :: m4.back[p] == m.back[p]
    ensures b.AsWritten? ==> 0 <= e.pages[0] < |m4.back| && m4.back[e.pages[0]] != EndPos(log + pg)
  {
    hide EndPos;
    assert forall x | 0 <= x < |e.pages| :: e.pages[x] in e.pages;
    assert blk.id !in e.pages;
  }

  lemma PageBacks(back: seq<Pos>, log: seq<LogPage>, k: nat)
    requires BacksOk(back, log) && k < |log|
    ensures forall s | 0 <= s < |log[k].ents| :: BackOk(back, Pos(log[k].id, s), log[k].ents[s])
  {
  }

  lemma NothingMoved(log: seq<LogPage>, size: nat)
    ensures Moved(log[..0], size) == []
  {
  }

  lemma StoredIs(m: Mem, ino: nat, log: seq<LogPage>, index: map<nat, int>)
    ensures Stored(m, ino, log, index) <==> StoredLog(m, ino, log, index) && BacksOk(m.back, log)
  {
  }

  lemma StoredParts(m: Mem, ino: nat, log: seq<LogPage>, index: map<nat, int>)
    requires Stored(m, ino, log, index)
    ensures log != [] && LogOk(m, ino, log, 0) && MemOk(m)
  {
  }

  lemma WritingParts(w: Job, m: Mem, log: seq<LogPage>, newPages: seq<int>, added: seq<Span>)
    requires Writing(w, m, log, newPages, added)
    ensures log != [] && LogOk(m, w.ino, log, 0) && HeldKept(w.m0, m, w.ino) && Extends(w.log0, log) && MemOk(m)
    ensures PagesWritten(w, m, newPages) && w.log0 != []
  {
  }

  /** At the start of an iteration of the write loop. */
  lemma SoFar(w: Job, size: nat, m: Mem, log: seq<LogPage>, newPages: seq<int>, added: seq<Span>, left: nat)
    requires WritingAt(w, size, m, log, newPages, added, left)
    ensures log != [] && LogOk(m, w.ino, log, 0) && HeldKept(w.m0, m, w.ino) && Extends(w.log0, log) && MemOk(m)
    ensures PagesWritten(w, m, newPages)
  {
    WritingAtParts(w, size, m, log, newPages, added, left);
    WritingParts(w, m, log, newPages, added);
  }

  /** And when no pages are left. */
  lemma AllWritten(w: Job, size: nat, m: Mem, log: seq<LogPage>, newPages: seq<int>, added: seq<Span>, start: nat, offset: nat, ub: nat)
    requires w.buf != [] && WritingAt(w, size, m, log, newPages, added, ChunkCount(0))
    requires LoopAt(w.off, |w.buf|, start, offset, ub, |newPages|, 0)
    ensures ub == |w.buf| && log != [] && LogOk(m, w.ino, log, 0) && HeldKept(w.m0, m, w.ino) && Extends(w.log0, log)
    ensures Writing(w, m, log, newPages, added) && NewRecorded(w.off, |w.buf|, size, w.log0, log) && ChunkCount(0) == 0
    ensures |Entries(log)| == |Entries(w.log0)| + ChunkCount(PageCount(|w.buf|, w.off % PAGE_SIZE))
    ensures forall fp: nat :: Touched(w.off, |w.buf|, fp) <==> w.off / PAGE_SIZE <= fp < w.off / PAGE_SIZE + |newPages|
  {
    hide LogOk, HeldKept, Extends, Writing, NewRecorded, LoopAt, Touched, Entries, PageCount;
    WritingAtParts(w, size, m, log, newPages, added, ChunkCount(0));
    NoChunks();
    WritingParts(w, m, log, newPages, added);
    LoopEnd(w.off, |w.buf|, start, offset, ub, |newPages|);
  }

  lemma ReplayParts(r: Replay, m: Mem, ino: nat, log: seq<LogPage>, index: map<nat, int>, cur: nat)
    requires ReplayOk(r, m, ino, log, index, cur)
    ensures MemOk(m) && Installed(r.index0, index, r.first, r.newPages, cur)
  {
  }

  lemma IndexStaysHeld(m0: Mem, m: Mem, ino: nat, index: map<nat, int>)
    requires IndexHeld(m0, index) && HeldKept(m0, m, ino)
    ensures IndexHeld(m, index)
  {
  }

  lemma WalkBounds(r: Replay, m: Mem, ino: nat, log: seq<LogPage>, pos: Pos, k: nat, cur: nat)
    requires LogOk(m, ino, log, 0) && WalkAt(r, log, pos, k, cur)
    ensures k < |log| && pos.slot <= SLOTS
  {
    LogIds(m, ino, log, 0);
  }

  lemma ShapeSize(log: seq<LogPage>, log': seq<LogPage>)
    requires SameShape(log, log')
    ensures |log'| == |log|
  {
  }

  lemma ShapeEnd(log: seq<LogPage>, log': seq<LogPage>)
    requires SameShape(log, log') && log != []
    ensures log' != [] && EndPos(log') == EndPos(log)
  {
  }

  lemma StoredEntry(m: Mem, ino: nat, log: seq<LogPage>, k: nat, s: nat)
    requires LogOk(m, ino, log, 0) && k < |log| && s < |log[k].ents|
    ensures 0 <= log[k].id < |m.slot| && s < |m.slot[log[k].id]| && m.slot[log[k].id][s] == log[k].ents[s].rec
    ensures var e := log[k].ents[s]; e.rec.numPages == |e.pages| && e.pages != [] && e.rec.data == e.pages[0] && Linked(m.next, e.pages)
    ensures forall i | 0 <= i < |log[k].ents[s].pages| :: 0 <= log[k].ents[s].pages[i] < |m.next|
  {
    EntryInLog(m, ino, log, 0, k, s);
  }

  lemma NextNew(r: Replay, log0: seq<LogPage>, log: seq<LogPage>, cur: nat, k: nat, s: nat, i: nat)
    requires SameShape(log0, log) && k < |log0| && s < |log0[k].ents| && i < |log0[k].ents[s].pages|
    requires EntryAt(r, log0[k].ents[s], cur)
    ensures NewAt(r, log, cur + i, k, s, i) && r.newPages[cur + i] == log0[k].ents[s].pages[i]
    ensures FirstPage(log0[k].ents[s].rec) + i == r.first + cur + i
  {
    assert log0[k].ents[s].pages[i] == r.newPages[cur..cur + |log0[k].ents[s].pages|][i];
  }

  lemma OnlySlotsSelf(m: Mem, ids: seq<int>)
    ensures OnlySlots(m, m, ids)
  {
  }

  lemma MemSizes(m: Mem)
    requires MemOk(m)
    ensures |m.own| == |m.hdr| == |m.back| == |m.bytes| == |m.slot| == |m.next|
  {
  }

  lemma SameShapeSelf(log: seq<LogPage>)
    ensures SameShape(log, log)
  {
  }

  lemma LastRoom(m: Mem, ino: nat, log: seq<LogPage>, extra: nat)
    requires LogOk(m, ino, log, extra)
    ensures log != [] && |Last(log).ents| + extra <= SLOTS
  {
  }

  lemma TailAboveFreeSpace(p: nat, slot: nat)
    ensures FREE_SPACE <= EntryOff(p, slot)
  {
  }

  lemma OnePage(next: seq<int>, c: seq<int>)
    requires Linked(next, c) && |c| == 1
    ensures 0 <= c[0] < |next| && next[c[0]] == NIL
  {
  }
}
