/** What one iteration of the write loop does to the region, put together from the
    effects of its calls. */
module WriteSteps {
  import opened Chains
  import opened PageLists
  import opened Layout
  import opened LogModel
  import opened Region
  import opened WriteModel
  import opened Chunks
  import opened LogStore
  import opened LogMeaning

  /** The index gives pages that are in use. */
  ghost predicate IndexHeld(m: Mem, index: map<nat, int>) {
    forall fp | fp in index :: 0 <= index[fp] < |m.own| && m.own[index[fp]].Held?
  }

  /** Pages in use keep their holder, their bytes and their entry; those of other
      inodes keep everything, and no page becomes another inode's. */
  ghost predicate HeldKept(m: Mem, m': Mem, ino: nat) {
    && MemOk(m) && MemOk(m') && |m'.next| == |m.next|
    && (forall p | 0 <= p < |m.own| && m.own[p].Held? ::
          m'.own[p] == m.own[p] && m'.bytes[p] == m.bytes[p] && m'.back[p] == m.back[p])
    && (forall p | 0 <= p < |m.own| && m.own[p].Held? && m.own[p].holder.ino != ino ::
          m'.next[p] == m.next[p] && m'.hdr[p] == m.hdr[p] && m'.slot[p] == m.slot[p])
    && (forall p | 0 <= p < |m.own| && m'.own[p].Held? && m'.own[p].holder.ino != ino :: m.own[p] == m'.own[p])
  }

  lemma HeldKeptTrans(a: Mem, b: Mem, c: Mem, ino: nat)
    requires HeldKept(a, b, ino) && HeldKept(b, c, ino)
    ensures HeldKept(a, c, ino)
  {
  }

  /** One chunk is on the region: `logp` is the log with its possibly fresh last page
      `pg`, on which the entry goes; `c` is the chain. */
  ghost predicate ChunkWrote(b: Build, m: Mem, m': Mem, ino: nat, logp: seq<LogPage>, pg: seq<LogPage>, index: map<nat, int>,
                             off: nat, buf: seq<bv8>, start: nat, c: seq<int>) {
    && MemOk(m) && MemOk(m') && |m'.next| == |m.next|
    && c != [] && NoDup(c) && logp != [] && buf != []
    && |pg| <= 1
    && (pg != [] ==> pg[0].ents == [] && 0 <= pg[0].id < |m.own| && m.own[pg[0].id].Free?
                     && m'.own[pg[0].id] == Held(Use(ino, LogRole)))
    && (forall fp | start <= fp < start + |c| :: Touched(off, |buf|, fp))
    && (forall i | 0 <= i < |c| ::
          && 0 <= c[i] < |m.own| && m.own[c[i]].Free?
          && m'.own[c[i]] == Held(Use(ino, DataRole(EndPos(logp)))) && m'.back[c[i]] == EndPos(logp)
          && m'.bytes[c[i]] == Image(b, off, buf, start + i, PageOf(m.bytes, index, start + i), m.bytes[c[i]]))
    && (forall p | 0 <= p < |m.own| && m.own[p].Free? && m'.own[p].Held? :: p in c || (pg != [] && p == pg[0].id))
    && (forall p | 0 <= p < |m.own| && p !in c :: m'.bytes[p] == m.bytes[p])
  }

  lemma AfterAlloc(m: Mem, m': Mem, ino: nat, log: seq<LogPage>)
    requires LogOk(m, ino, log, 0) && MemOk(m')
    requires m'.hdr == m.hdr && m'.back == m.back && m'.bytes == m.bytes && m'.slot == m.slot
    requires forall p | 0 <= p < |m.own| && m.own[p].Held? :: m'.own[p] == m.own[p] && m'.next[p] == m.next[p]
    requires forall p | 0 <= p < |m.own| && m.own[p].Free? && m'.own[p].Held? :: m'.own[p].holder.ino == ino
    ensures LogOk(m', ino, log, 0) && HeldKept(m, m', ino)
  {
    LogFrame(m, m', ino, log, 0);
  }

  lemma AfterSlot(m: Mem, m1: Mem, m2: Mem, ino: nat)
    requires HeldKept(m, m1, ino) && MemOk(m2)
    requires m2.back == m1.back && m2.bytes == m1.bytes && m2.slot == m1.slot
    requires forall p | 0 <= p < |m1.own| && m1.own[p].Held? :: m2.own[p] == m1.own[p]
    requires forall p | 0 <= p < |m1.own| && m1.own[p].Held? && m2.own[p] != Held(Use(ino, LogRole)) ::
               m2.next[p] == m1.next[p] && m2.hdr[p] == m1.hdr[p]
    requires forall p | 0 <= p < |m1.own| && m1.own[p].Free? && m2.own[p].Held? :: m2.own[p].holder.ino == ino
    ensures HeldKept(m, m2, ino)
  {
  }

  lemma SlotPages(log0: seq<LogPage>, log: seq<LogPage>, pos: Pos)
    requires log0 != [] && (log == log0 || log == log0 + [LogPage(pos.page, [])])
    ensures |log0| <= |log| && log == log0 + log[|log0|..]
    ensures log[|log0|..] == [] || log[|log0|..] == [LogPage(pos.page, [])]
    ensures log[|log0|..] == [] <==> log == log0
  {
  }

  /** A chain just allocated is not touched by handing out a slot. */
  lemma FreshChain(m: Mem, m1: Mem, m2: Mem, ino: nat, c: seq<int>)
    requires MemOk(m) && MemOk(m1) && MemOk(m2) && |m.next| == |m1.next| == |m2.next|
    requires Linked(m1.next, c)
    requires forall i | 0 <= i < |c| :: m.own[c[i]].Free? && m1.own[c[i]] == Held(Use(ino, Loose))
    requires forall p | 0 <= p < |m1.own| && m1.own[p].Held? :: m2.own[p] == m1.own[p]
    requires forall p | 0 <= p < |m1.own| && m1.own[p].Held? && m2.own[p] != Held(Use(ino, LogRole)) :: m2.next[p] == m1.next[p]
    ensures Linked(m2.next, c) && NoDup(c)
    ensures forall i | 0 <= i < |c| :: 0 <= c[i] < |m.own| && m.own[c[i]].Free? && m2.own[c[i]] == Held(Use(ino, Loose))
  {
    LinkedNoDup(m1.next, c);
    LinkedFrame(m1.next, m2.next, c);
  }

  lemma TailHeld(m: Mem, ino: nat, log: seq<LogPage>, extra: nat)
    requires LogOk(m, ino, log, extra)
    ensures 0 <= EndPos(log).page < |m.own| && m.own[EndPos(log).page] == Held(Use(ino, LogRole))
  {
  }

  lemma IndexApart(m: Mem, index: map<nat, int>, c: seq<int>)
    requires IndexHeld(m, index) && MemOk(m)
    requires forall i | 0 <= i < |c| :: 0 <= c[i] < |m.own| && m.own[c[i]].Free?
    ensures forall fp | fp in index :: index[fp] !in c
  {
  }

  lemma FileOffAligned(fp: nat)
    ensures FileOff(fp) % PAGE_SIZE == 0 && FileOff(fp) / PAGE_SIZE == fp
  {
  }

  /** Pages and slot for a chunk are there: `logp` is the log with its possibly fresh
      last page `pg`, `c` the chain. */
  ghost predicate Opened(m: Mem, m2: Mem, ino: nat, logp: seq<LogPage>, pg: seq<LogPage>, c: seq<int>) {
    && MemOk(m) && MemOk(m2) && |m2.next| == |m.next| && HeldKept(m, m2, ino)
    && m2.bytes == m.bytes && logp != [] && c != [] && Linked(m2.next, c) && NoDup(c)
    && |pg| <= 1
    && (pg != [] ==> pg[0].ents == [] && 0 <= pg[0].id < |m.own| && m.own[pg[0].id].Free?
                     && m2.own[pg[0].id] == Held(Use(ino, LogRole)))
    && (forall i | 0 <= i < |c| :: 0 <= c[i] < |m.own| && m.own[c[i]].Free? && m2.own[c[i]] == Held(Use(ino, Loose)))
    && (forall p | 0 <= p < |m.own| && m.own[p].Free? && m2.own[p].Held? :: p in c || (pg != [] && p == pg[0].id))
    && 0 <= EndPos(logp).page < |m2.own| && m2.own[EndPos(logp).page] == Held(Use(ino, LogRole))
  }

  lemma OpenedFacts(m: Mem, m2: Mem, ino: nat, logp: seq<LogPage>, pg: seq<LogPage>, c: seq<int>)
    requires Opened(m, m2, ino, logp, pg, c)
    ensures m2.bytes == m.bytes && logp != [] && c != [] && Linked(m2.next, c) && MemOk(m) && MemOk(m2) && |m2.next| == |m.next|
    ensures forall i | 0 <= i < |c| :: 0 <= c[i] < |m.own| && m.own[c[i]].Free? && m2.own[c[i]] == Held(Use(ino, Loose))
  {
  }

  /** The copies change bytes and entry words of the chunk's own pages. */
  lemma AfterCopies(b: Build, m: Mem, m2: Mem, m3: Mem, ino: nat, logp: seq<LogPage>, pg: seq<LogPage>, index: map<nat, int>, f: Fill)
    requires Opened(m, m2, ino, logp, pg, f.c) && LogOk(m2, ino, logp, 1) && MemOk(m3)
    requires FillOk(f) && f.bytes0 == m2.bytes && f.back0 == m2.back
    requires m3 == m2.(bytes := m3.bytes, back := m3.back)
    requires Imaged(b, f, index, m3.bytes) && forall p | 0 <= p < |m3.back| && p !in f.c :: m3.back[p] == m2.back[p]
    ensures LogOk(m3, ino, logp, 1) && HeldKept(m, m3, ino)
  {
    hide Image, PageOf, Touched;
    LogFrame(m2, m3, ino, logp, 1);
  }

  /** Everything together. */
  lemma AfterEntry(b: Build, m: Mem, m2: Mem, m3: Mem, m4: Mem, ino: nat, logp: seq<LogPage>, pg: seq<LogPage>,
                   index: map<nat, int>, f: Fill)
    requires Opened(m, m2, ino, logp, pg, f.c) && HeldKept(m, m3, ino) && MemOk(m4)
    requires FillOk(f) && f.bytes0 == m2.bytes && f.pos == EndPos(logp)
    requires m3 == m2.(bytes := m3.bytes, back := m3.back)
    requires forall i | 0 <= i < |f.c| :: m3.back[f.c[i]] == f.pos
    requires Imaged(b, f, index, m3.bytes)
    requires m4.next == m3.next && m4.back == m3.back && m4.bytes == m3.bytes
    requires forall p | 0 <= p < |m4.own| :: m4.own[p] == if p in f.c then Held(Use(ino, DataRole(f.pos))) else m3.own[p]
    requires forall p | 0 <= p < |m4.own| && p != f.pos.page :: m4.hdr[p] == m3.hdr[p] && m4.slot[p] == m3.slot[p]
    ensures HeldKept(m, m4, ino)
    ensures ChunkWrote(b, m, m4, ino, logp, pg, index, f.off, f.buf, f.start, f.c)
  {
    hide Image, PageOf, Touched, Linked;
  }

  // ---------------------------------------------------------- the log after a chunk

  /** Entry `(k, s)` of the appended log is an old one in its old place, or the new
      one. */
  lemma AppendCases(log: seq<LogPage>, pg: seq<LogPage>, e: Ent, k: nat, s: nat)
    requires log != [] && |pg| <= 1 && (pg != [] ==> pg[0].ents == [])
    requires var log' := Append(log + pg, e); k < |log'| && s < |log'[k].ents|
    ensures var log' := Append(log + pg, e);
      || (k < |log| && s < |log[k].ents| && log'[k].id == log[k].id && log'[k].ents[s] == log[k].ents[s])
      || (Pos(log'[k].id, s) == EndPos(log + pg) && log'[k].ents[s] == e)
  {
  }

  lemma AppendOld(log: seq<LogPage>, pg: seq<LogPage>, e: Ent, k: nat, s: nat)
    requires log != [] && |pg| <= 1 && (pg != [] ==> pg[0].ents == [])
    requires k < |log| && s < |log[k].ents|
    ensures var log' := Append(log + pg, e);
      k < |log'| && s < |log'[k].ents| && log'[k].id == log[k].id && log'[k].ents[s] == log[k].ents[s]
  {
  }

  lemma AppendNew(log: seq<LogPage>, pg: seq<LogPage>, e: Ent)
    requires log != []
    ensures var log', k := Append(log + pg, e), |log| + |pg| - 1;
      var s := |Last(log + pg).ents|;
      k < |log'| && s < |log'[k].ents| && log'[k].ents[s] == e && Pos(log'[k].id, s) == EndPos(log + pg)
  {
  }

  /** The data pages of a stored log are in use. */
  lemma DataHeld(m: Mem, ino: nat, log: seq<LogPage>, k: nat, s: nat)
    requires LogOk(m, ino, log, 0) && k < |log| && s < |log[k].ents|
    ensures forall i | 0 <= i < |log[k].ents[s].pages| ::
              0 <= log[k].ents[s].pages[i] < |m.own| && m.own[log[k].ents[s].pages[i]].Held? && Mine(m.own[log[k].ents[s].pages[i]], ino)
  {
    EntryInLog(m, ino, log, 0, k, s);
  }

  lemma AppendBacks(m: Mem, back': seq<Pos>, ino: nat, log: seq<LogPage>, pg: seq<LogPage>, e: Ent)
    requires LogOk(m, ino, log, 0) && log != [] && BacksOk(m.back, log) && |pg| <= 1 && (pg != [] ==> pg[0].ents == [])
    requires |back'| == |m.back| == |m.own|
    requires forall p | 0 <= p < |m.own| && Mine(m.own[p], ino) :: back'[p] == m.back[p]
    requires BackOk(back', EndPos(log + pg), e)
    ensures BacksOk(back', Append(log + pg, e))
  {
    hide LogOk, Append, EndPos;
    var log' := Append(log + pg, e);
    forall k, s | 0 <= k < |log'| && 0 <= s < |log'[k].ents|
      ensures BackOk(back', Pos(log'[k].id, s), log'[k].ents[s])
    {
      AppendCases(log, pg, e, k, s);
      if k < |log| && s < |log[k].ents| && log'[k].id == log[k].id && log'[k].ents[s] == log[k].ents[s] {
        DataHeld(m, ino, log, k, s);
        assert BackOk(m.back, Pos(log[k].id, s), log[k].ents[s]);
      }
    }
  }

  lemma AppendMarks(m: Mem, ino: nat, log: seq<LogPage>, pg: seq<LogPage>, e: Ent, index: map<nat, int>, pend: set<int>, pend': set<int>)
    requires LogOk(m, ino, log, 0) && log != [] && MarksAll(log, index, pend) && |pg| <= 1 && (pg != [] ==> pg[0].ents == [])
    requires e.dead == {} && forall i | 0 <= i < |e.pages| :: e.pages[i] in pend'
    requires pend <= pend' && forall p | p in pend' && p !in pend :: 0 <= p < |m.own| && m.own[p].Free?
    ensures MarksAll(Append(log + pg, e), index, pend')
  {
    hide LogOk, Append, EndPos;
    var log' := Append(log + pg, e);
    forall k, s | 0 <= k < |log'| && 0 <= s < |log'[k].ents|
      ensures MarksOk(log'[k].ents[s], index, pend')
    {
      AppendCases(log, pg, e, k, s);
      if k < |log| && s < |log[k].ents| && log'[k].ents[s] == log[k].ents[s] {
        DataHeld(m, ino, log, k, s);
        assert MarksOk(log[k].ents[s], index, pend);
      }
    }
  }

  lemma AppendIds(log: seq<LogPage>, pg: seq<LogPage>, e: Ent)
    requires log != []
    ensures forall p | p in Ids(log) :: p in Ids(Append(log + pg, e))
    ensures forall k | 0 <= k < |pg| :: pg[k].id in Ids(Append(log + pg, e))
  {
    var log' := Append(log + pg, e);
    forall p | p in Ids(log) ensures p in Ids(log') {
      var k :| 0 <= k < |log| && Ids(log)[k] == p;
      assert Ids(log')[k] == p;
    }
    forall k | 0 <= k < |pg| ensures pg[k].id in Ids(log') {
      assert Ids(log')[|log| + k] == pg[k].id;
    }
  }

  lemma AppendInEntry(log: seq<LogPage>, pg: seq<LogPage>, e: Ent, p: int, pos: Pos)
    requires log != [] && |pg| <= 1 && (pg != [] ==> pg[0].ents == [])
    ensures InEntry(log, p, pos) ==> InEntry(Append(log + pg, e), p, pos)
    ensures p in e.pages && pos == EndPos(log + pg) ==> InEntry(Append(log + pg, e), p, pos)
  {
    hide Append, EndPos;
    if InEntry(log, p, pos) {
      var k, s :| 0 <= k < |log| && 0 <= s < |log[k].ents| && pos == Pos(log[k].id, s) && p in log[k].ents[s].pages;
      AppendOld(log, pg, e, k, s);
    }
    AppendNew(log, pg, e);
  }

  lemma AppendNoLeak(own: seq<Owner<Use>>, own': seq<Owner<Use>>, ino: nat, log: seq<LogPage>, pg: seq<LogPage>, e: Ent, loose: set<int>)
    requires log != [] && |pg| <= 1 && (pg != [] ==> pg[0].ents == []) && NoLeak(own, ino, log, loose) && |own'| == |own|
    requires forall p | 0 <= p < |own| && own[p].Held? :: own'[p] == own[p]
    requires forall p | 0 <= p < |own| && own[p].Free? && own'[p].Held? ::
               || (p in e.pages && own'[p] == Held(Use(ino, DataRole(EndPos(log + pg)))))
               || (pg != [] && p == pg[0].id && own'[p] == Held(Use(ino, LogRole)))
    ensures NoLeak(own', ino, Append(log + pg, e), loose)
  {
    hide Append, EndPos, InEntry, Ids;
    AppendIds(log, pg, e);
    var log' := Append(log + pg, e);
    forall p | 0 <= p < |own'| && own'[p].Held? && own'[p].holder.ino == ino
      ensures Accounted(own'[p].holder.role, p, log', loose)
    {
      if own'[p].holder.role.DataRole? {
        AppendInEntry(log, pg, e, p, own'[p].holder.role.pos);
      }
    }
  }

  lemma AppendExtends(log0: seq<LogPage>, log: seq<LogPage>, pg: seq<LogPage>, e: Ent)
    requires Extends(log0, log)
    ensures Extends(log0, Append(log + pg, e))
  {
  }

  lemma AppendedSpans(log: seq<LogPage>, pg: seq<LogPage>, e: Ent)
    requires log != [] && |pg| <= 1 && (pg != [] ==> pg[0].ents == [])
    ensures LogSpans(Append(log + pg, e)) == LogSpans(log) + [SpanOf(e)]
  {
    if pg == [] {
      assert log + pg == log;
    } else {
      assert pg == [LogPage(pg[0].id, [])];
      NewPageSpans(log, pg[0].id);
    }
    AppendSpans(log + pg, e);
  }

  lemma AppendedEntries(log: seq<LogPage>, pg: seq<LogPage>, e: Ent)
    requires log != [] && |pg| <= 1 && (pg != [] ==> pg[0].ents == [])
    ensures Entries(Append(log + pg, e)) == Entries(log) + [e]
  {
    hide Entries;
    var logp := log + pg;
    var n := |logp| - 1;
    if pg == [] {
      assert logp == log;
    } else {
      assert logp == log + [pg[0]];
      EntriesLast(log, pg[0]);
      assert Entries(log) + [] == Entries(log);
    }
    assert logp == logp[..n] + [Last(logp)] && Append(logp, e) == logp[..n] + [LogPage(Last(logp).id, Last(logp).ents + [e])];
    EntriesLast(logp[..n], Last(logp));
    EntriesLast(logp[..n], LogPage(Last(logp).id, Last(logp).ents + [e]));
    assert Entries(logp[..n]) + (Last(logp).ents + [e]) == Entries(logp[..n]) + Last(logp).ents + [e];
  }

  // ------------------------------------------------------------- the write in progress

  /** A write of `buf` at `off` to inode `ino`, whose index, region and log were `index`,
      `m0` and `log0` when it began. */
  datatype Job = Job(b: Build, off: nat, buf: seq<bv8>, ino: nat, index: map<nat, int>, m0: Mem, log0: seq<LogPage>)

  /** The pages written so far, `newPages`, are fresh and hold the images of the file
      pages from the first one on. */
  ghost predicate PagesWritten(w: Job, m: Mem, newPages: seq<int>) {
    && MemOk(w.m0) && MemOk(m) && |m.next| == |w.m0.next| && w.buf != [] && NoDup(newPages)
    && (forall fp | w.off / PAGE_SIZE <= fp < w.off / PAGE_SIZE + |newPages| :: Touched(w.off, |w.buf|, fp))
    && (forall i | 0 <= i < |newPages| ::
          && 0 <= newPages[i] < |m.own| && w.m0.own[newPages[i]].Free? && m.own[newPages[i]].Held?
          && m.bytes[newPages[i]] == Image(w.b, w.off, w.buf, w.off / PAGE_SIZE + i,
                                           PageOf(w.m0.bytes, w.index, w.off / PAGE_SIZE + i), w.m0.bytes[newPages[i]]))
    && (forall p | 0 <= p < |m.own| && p !in newPages :: m.bytes[p] == w.m0.bytes[p])
  }

  /** The state between two iterations of the write loop, before the commit point. */
  ghost predicate Writing(w: Job, m: Mem, log: seq<LogPage>, newPages: seq<int>, added: seq<Span>) {
    && LogOk(m, w.ino, log, 0) && log != [] && BacksOk(m.back, log)
    && Extends(w.log0, log) && LogSpans(log) == LogSpans(w.log0) + added
    && Tiles(added, w.off / PAGE_SIZE, newPages)
    && MarksAll(log, w.index, Pend(newPages, 0)) && NoLeak(m.own, w.ino, log, {})
    && HeldKept(w.m0, m, w.ino)
    && PagesWritten(w, m, newPages)
  }

  lemma PagesGrow(w: Job, m: Mem, m': Mem, logp: seq<LogPage>, pg: seq<LogPage>, newPages: seq<int>, c: seq<int>)
    requires PagesWritten(w, m, newPages) && HeldKept(w.m0, m, w.ino) && HeldKept(m, m', w.ino) && IndexHeld(w.m0, w.index)
    requires ChunkWrote(w.b, m, m', w.ino, logp, pg, w.index, w.off, w.buf, w.off / PAGE_SIZE + |newPages|, c)
    ensures PagesWritten(w, m', newPages + c)
  {
    hide Image, Touched;
    var all, first := newPages + c, w.off / PAGE_SIZE;
    forall i | 0 <= i < |all|
      ensures 0 <= all[i] < |m'.own| && w.m0.own[all[i]].Free? && m'.own[all[i]].Held?
      ensures Touched(w.off, |w.buf|, first + i)
      ensures m'.bytes[all[i]] == Image(w.b, w.off, w.buf, first + i, PageOf(w.m0.bytes, w.index, first + i), w.m0.bytes[all[i]])
    {
      if i >= |newPages| {
        var j := i - |newPages|;
        assert all[i] == c[j] && m.own[c[j]].Free?;
        assert PageOf(m.bytes, w.index, first + i) == PageOf(w.m0.bytes, w.index, first + i);
        assert c[j] !in newPages;
      }
    }
    forall p | 0 <= p < |m'.own| && p !in all ensures m'.bytes[p] == w.m0.bytes[p] {
      assert p !in c && p !in newPages;
    }
    forall i, j | 0 <= i < j < |all| ensures all[i] != all[j] {
      if i < |newPages| <= j {
        assert all[j] == c[j - |newPages|];
      }
    }
  }

  lemma PendGrow(newPages: seq<int>, c: seq<int>)
    ensures Pend(newPages, 0) <= Pend(newPages + c, 0)
    ensures forall p :: p in Pend(newPages + c, 0) <==> p in Pend(newPages, 0) || p in c
  {
    assert newPages[0..] == newPages && (newPages + c)[0..] == newPages + c;
  }

  lemma ChunkFacts(b: Build, m: Mem, m': Mem, ino: nat, logp: seq<LogPage>, pg: seq<LogPage>, index: map<nat, int>,
                   off: nat, buf: seq<bv8>, start: nat, c: seq<int>, e: Ent)
    requires ChunkWrote(b, m, m', ino, logp, pg, index, off, buf, start, c) && HeldKept(m, m', ino) && e.pages == c
    ensures |pg| <= 1 && (pg != [] ==> pg[0].ents == []) && logp != []
    ensures |m'.back| == |m.back| == |m.own| == |m'.own|
    ensures forall p | 0 <= p < |m.own| && m.own[p].Held? :: m'.back[p] == m.back[p] && m'.own[p] == m.own[p]
    ensures BackOk(m'.back, EndPos(logp), e)
    ensures forall i | 0 <= i < |c| :: 0 <= c[i] < |m.own| && m.own[c[i]].Free?
    ensures forall p | 0 <= p < |m.own| && m.own[p].Free? && m'.own[p].Held? ::
              || (p in e.pages && m'.own[p] == Held(Use(ino, DataRole(EndPos(logp)))))
              || (pg != [] && p == pg[0].id && m'.own[p] == Held(Use(ino, LogRole)))
  {
    hide Image, Touched, PageOf, EndPos;
  }

  /** One iteration keeps the write going. */
  lemma WritingStep(w: Job, m: Mem, m': Mem, log: seq<LogPage>, pg: seq<LogPage>, newPages: seq<int>, added: seq<Span>, c: seq<int>, e: Ent)
    requires Writing(w, m, log, newPages, added) && IndexHeld(w.m0, w.index)
    requires var start := w.off / PAGE_SIZE + |newPages|;
      ChunkWrote(w.b, m, m', w.ino, log + pg, pg, w.index, w.off, w.buf, start, c) && SpanOf(e) == Span(start, c)
    requires HeldKept(m, m', w.ino) && e.dead == {} && LogOk(m', w.ino, Append(log + pg, e), 0)
    ensures Writing(w, m', Append(log + pg, e), newPages + c, added + [SpanOf(e)])
  {
    hide LogOk, BacksOk, BackOk, Extends, LogSpans, Tiles, MarksAll, NoLeak, Append, EndPos, ChunkWrote, PagesWritten, HeldKept, IndexHeld;
    var start := w.off / PAGE_SIZE + |newPages|;
    assert e.pages == c;
    ChunkFacts(w.b, m, m', w.ino, log + pg, pg, w.index, w.off, w.buf, start, c, e);
    AppendBacks(m, m'.back, w.ino, log, pg, e);
    AppendExtends(w.log0, log, pg, e);
    AppendedSpans(log, pg, e);
    assert LogSpans(w.log0) + added + [SpanOf(e)] == LogSpans(w.log0) + (added + [SpanOf(e)]);
    TilesPush(added, w.off / PAGE_SIZE, newPages, SpanOf(e));
    PendGrow(newPages, c);
    AppendMarks(m, w.ino, log, pg, e, w.index, Pend(newPages, 0), Pend(newPages + c, 0));
    AppendNoLeak(m.own, m'.own, w.ino, log, pg, e, {});
    HeldKeptTrans(w.m0, m, m', w.ino);
    PagesGrow(w, m, m', log + pg, pg, newPages, c);
  }

  // ------------------------------------------------------- before and after a write

  /** The region holds the log of inode `ino`, the index is its replay, the bitmaps say
      which positions were overwritten, and no page the inode holds is unaccounted
      for. */
  ghost predicate StoredLog(m: Mem, ino: nat, log: seq<LogPage>, index: map<nat, int>) {
    && log != [] && LogOk(m, ino, log, 0)
    && Replays(LogSpans(log), index) && MarksAll(log, index, {})
    && NoLeak(m.own, ino, log, {})
  }

  /** And every data page names its entry. */
  ghost predicate Stored(m: Mem, ino: nat, log: seq<LogPage>, index: map<nat, int>) {
    StoredLog(m, ino, log, index) && BacksOk(m.back, log)
  }

  /** In a stored log a bit is set if and only if a later entry covers that file page.
      Writes and collections both keep it, as they keep `Stored`. */
  lemma BitIffLaterWrite(m: Mem, ino: nat, log: seq<LogPage>, index: map<nat, int>, k: nat, s: nat, i: nat)
    requires Stored(m, ino, log, index) && k < |log| && s < |log[k].ents| && i < |log[k].ents[s].pages|
    ensures i in log[k].ents[s].dead <==>
            exists k', s' :: k <= k' < |log| && 0 <= s' < |log[k'].ents| && (k' > k || s' > s)
                             && In(SpanOf(log[k'].ents[s']), FirstPage(log[k].ents[s].rec) + i)
  {
    hide LogOk, BacksOk, NoLeak, Cover, LogSpans;
    var l, e := LogSpans(log), log[k].ents[s];
    var n, fp := Flat(log, k) + s, FirstPage(e.rec) + i;
    SpanAt(log, k, s);
    forall x, j | n < x < |l| && 0 <= j < |l[x].pages|
      ensures l[x].pages[j] != l[n].pages[i]
    {
      var k', s' := EntryOf(log, x);
      if l[x].pages[j] == l[n].pages[i] {
        PageUnique(m, ino, log, 0, k, s, i, k', s', j);
      }
    }
    MovedOnIffCovered(l, index, n, i);
    assert MarksOk(e, index, {});
    if x :| n < x < |l| && In(l[x], fp) {
      var k', s' := EntryOf(log, x);
      if k' < k {
        FlatMono(log, k', k);
      }
    }
    forall k', s' | k <= k' < |log| && 0 <= s' < |log[k'].ents| && (k' > k || s' > s) && In(SpanOf(log[k'].ents[s']), fp)
      ensures n < Flat(log, k') + s' < |l| && In(l[Flat(log, k') + s'], fp)
    {
      SpanAt(log, k', s');
      if k' > k {
        FlatMono(log, k, k');
      }
    }
  }

  /** The last entry records the file size. */
  ghost predicate SizeOk(log: seq<LogPage>, size: nat) {
    log != [] && (Last(log).ents != [] ==> Last(log).ents[|Last(log).ents| - 1].rec.fileSize == size)
  }

  lemma StoredIndexHeld(m: Mem, ino: nat, log: seq<LogPage>, index: map<nat, int>)
    requires Stored(m, ino, log, index)
    ensures IndexHeld(m, index)
    ensures forall fp | fp in index :: 0 <= index[fp] < |m.bytes|
  {
    hide LogOk, BacksOk, LogSpans, MarksAll, NoLeak, Cover, FirstPage;
    StoredSizes(m, ino, log, index);
    forall fp | fp in index
      ensures 0 <= index[fp] < |m.own| && m.own[index[fp]].Held?
    {
      assert Cover(LogSpans(log), fp) == Lookup(index, fp);
      var k, s, i := IndexedEntry(log, LogSpans(log), index, fp);
      DataHeld(m, ino, log, k, s);
    }
  }

  lemma StoredSizes(m: Mem, ino: nat, log: seq<LogPage>, index: map<nat, int>)
    requires Stored(m, ino, log, index)
    ensures |m.own| == |m.bytes| == |m.next|
  {
  }

  lemma WritingStart(w: Job)
    requires Stored(w.m0, w.ino, w.log0, w.index) && w.buf != []
    ensures Writing(w, w.m0, w.log0, [], [])
  {
    hide LogOk, LogSpans, BacksOk, MarksOk, NoLeak, Replays;
    assert Pend([], 0) == {};
    StoredMem(w.m0, w.ino, w.log0, w.index);
    assert LogSpans(w.log0) + [] == LogSpans(w.log0);
  }

  lemma StoredMem(m: Mem, ino: nat, log: seq<LogPage>, index: map<nat, int>)
    requires StoredLog(m, ino, log, index)
    ensures MemOk(m) && log != [] && LogOk(m, ino, log, 0)
  {
  }

  /** The commit point: the new entries are all there and only they are to be
      replayed. */
  lemma ReplayStart(w: Job, m: Mem, log: seq<LogPage>, newPages: seq<int>, added: seq<Span>)
    requires Writing(w, m, log, newPages, added) && Stored(w.m0, w.ino, w.log0, w.index)
    ensures var r := Replay(LogSpans(w.log0), w.index, w.off / PAGE_SIZE, newPages);
      && w.log0 != [] && ReplayOk(r, m, w.ino, log, w.index, 0)
      && WalkAt(r, log, EndPos(w.log0), |w.log0| - 1, 0)
  {
    hide LogOk, BacksOk, Tiles, MarksAll, NoLeak, LogSpans, Replays, HeldKept, PagesWritten, Extends, NoDup, WalkAt, Pend, EndPos;
    var r := Replay(LogSpans(w.log0), w.index, w.off / PAGE_SIZE, newPages);
    StoredIndexHeld(w.m0, w.ino, w.log0, w.index);
    NewPagesApart(w, m, newPages);
    NothingInstalled(w.index, r.first, newPages);
    CommitWalk(r, w.log0, log, added);
  }

  lemma NothingInstalled(index: map<nat, int>, first: nat, newPages: seq<int>)
    ensures Installed(index, index, first, newPages, 0)
  {
  }

  /** The old tail is where the new entries begin. */
  lemma CommitWalk(r: Replay, log0: seq<LogPage>, log: seq<LogPage>, added: seq<Span>)
    requires Extends(log0, log) && r.before == LogSpans(log0) && LogSpans(log) == r.before + added
    requires Tiles(added, r.first, r.newPages)
    ensures WalkAt(r, log, EndPos(log0), |log0| - 1, 0)
  {
    hide Tiles, LogSpans;
    var k := |log0| - 1;
    FlatNext(log0, k);
    FlatAll(log0);
    assert log[..k] == log0[..k];
    assert LogSpans(log)[|r.before|..] == added;
  }

  lemma NewPagesApart(w: Job, m: Mem, newPages: seq<int>)
    requires PagesWritten(w, m, newPages) && IndexHeld(w.m0, w.index)
    ensures forall fp | fp in w.index :: w.index[fp] !in newPages
    ensures NoDup(newPages)
  {
    hide Image, PageOf, Touched;
  }

  /** The entries `log` has beyond those of `log0` record a write. */
  ghost predicate NewRecorded(off: nat, cnt: nat, size: nat, log0: seq<LogPage>, log: seq<LogPage>) {
    forall n | |Entries(log0)| <= n < |Entries(log)| :: Recorded(off, cnt, size, Entries(log)[n])
  }

  lemma RecordedStep(off: nat, cnt: nat, size: nat, log0: seq<LogPage>, log: seq<LogPage>, pg: seq<LogPage>, e: Ent)
    requires NewRecorded(off, cnt, size, log0, log) && Recorded(off, cnt, size, e)
    requires log != [] && |pg| <= 1 && (pg != [] ==> pg[0].ents == [])
    ensures NewRecorded(off, cnt, size, log0, Append(log + pg, e)) && |Entries(Append(log + pg, e))| == |Entries(log)| + 1
  {
    hide Entries, Append, Recorded;
    AppendedEntries(log, pg, e);
  }

  lemma RecordedKept(off: nat, cnt: nat, size: nat, log0: seq<LogPage>, log: seq<LogPage>, log': seq<LogPage>)
    requires NewRecorded(off, cnt, size, log0, log) && SameShape(log, log')
    ensures NewRecorded(off, cnt, size, log0, log')
  {
    hide Entries, SameShape;
    ShapeEntries(log, log');
  }

  /** A write in progress to a file of `size` bytes, with `left` iterations to go. */
  ghost predicate WritingAt(w: Job, size: nat, m: Mem, log: seq<LogPage>, newPages: seq<int>, added: seq<Span>, left: nat) {
    && Writing(w, m, log, newPages, added) && NewRecorded(w.off, |w.buf|, size, w.log0, log)
    && |Entries(log)| + left == |Entries(w.log0)| + ChunkCount(PageCount(|w.buf|, w.off % PAGE_SIZE))
  }

  lemma WritingAtStart(w: Job, size: nat)
    requires Stored(w.m0, w.ino, w.log0, w.index) && w.buf != []
    ensures WritingAt(w, size, w.m0, w.log0, [], [], ChunkCount(PageCount(|w.buf|, w.off % PAGE_SIZE)))
  {
    hide Writing, Stored;
    WritingStart(w);
  }

  lemma WritingAtParts(w: Job, size: nat, m: Mem, log: seq<LogPage>, newPages: seq<int>, added: seq<Span>, left: nat)
    requires WritingAt(w, size, m, log, newPages, added, left)
    ensures Writing(w, m, log, newPages, added) && NewRecorded(w.off, |w.buf|, size, w.log0, log)
    ensures |Entries(log)| + left == |Entries(w.log0)| + ChunkCount(PageCount(|w.buf|, w.off % PAGE_SIZE))
  {
  }

  lemma NoChunks()
    ensures ChunkCount(0) == 0
  {
  }

  lemma SpanOfChunk(e: Ent, start: nat, c: seq<int>)
    requires e.rec.startOff == FileOff(start) && e.pages == c
    ensures SpanOf(e) == Span(start, c)
  {
    FileOffAligned(start);
  }

  /** One iteration: its entry is appended, and records what it should. */
  lemma WritingAtStep(w: Job, size: nat, m: Mem, m': Mem, log: seq<LogPage>, pg: seq<LogPage>, newPages: seq<int>, added: seq<Span>,
                      c: seq<int>, e: Ent, ck: Chunk, offset: nat, ub: nat, fileSize: nat, left: nat)
    requires WritingAt(w, size, m, log, newPages, added, left + 1) && IndexHeld(w.m0, w.index)
    requires var start := w.off / PAGE_SIZE + |newPages|;
      && ChunkPlace(ck, w.off, |w.buf|, start, offset, ub, |newPages|)
      && ChunkWrote(w.b, m, m', w.ino, log + pg, pg, w.index, w.off, w.buf, start, c)
      && |c| == ck.alloc && |c| > 0
      && e == Ent(Entry(c[0], fileSize, FileOff(start), FileOff(start) + ck.wrSize, |c|, 0, 0), c, {})
    requires HeldKept(m, m', w.ino) && LogOk(m', w.ino, Append(log + pg, e), 0)
    requires fileSize == if w.off + ub + ck.wrSize > size then w.off + ub + ck.wrSize else size
    ensures WritingAt(w, size, m', Append(log + pg, e), newPages + c, added + [SpanOf(e)], left)
    ensures Append(log + pg, e) != [] && SizeOk(Append(log + pg, e), fileSize)
  {
    hide Writing, NewRecorded, ChunkPlace, ChunkWrote, HeldKept, LogOk, IndexHeld, Append, Entries, SpanOf, FileOff, Recorded, SizeOk;
    var start := w.off / PAGE_SIZE + |newPages|;
    WritingLog(w, m, log, newPages, added);
    SpanOfChunk(e, start, c);
    WritingStep(w, m, m', log, pg, newPages, added, c, e);
    AppendSizeOk(log + pg, e);
    LogMem(m', w.ino, Append(log + pg, e), 0);
    ChunkRecorded(ck, w.off, |w.buf|, start, offset, ub, |newPages|, size, fileSize, e);
    ChunkLogs(w.b, m, m', w.ino, log + pg, pg, w.index, w.off, w.buf, start, c);
    RecordedStep(w.off, |w.buf|, size, w.log0, log, pg, e);
  }

  lemma LogMem(m: Mem, ino: nat, log: seq<LogPage>, extra: nat)
    requires LogOk(m, ino, log, extra)
    ensures MemOk(m) && log != []
  {
  }

  lemma WritingLog(w: Job, m: Mem, log: seq<LogPage>, newPages: seq<int>, added: seq<Span>)
    requires Writing(w, m, log, newPages, added)
    ensures log != []
  {
  }

  lemma ChunkLogs(b: Build, m: Mem, m': Mem, ino: nat, logp: seq<LogPage>, pg: seq<LogPage>, index: map<nat, int>,
                  off: nat, buf: seq<bv8>, start: nat, c: seq<int>)
    requires ChunkWrote(b, m, m', ino, logp, pg, index, off, buf, start, c)
    ensures |pg| <= 1 && (pg != [] ==> pg[0].ents == [])
  {
  }

  /** What a walk from the log's head to tail `n`, `slot` reaches. */
  function UpTo(log: seq<LogPage>, n: nat, slot: nat): seq<LogPage>
    requires n < |log| && slot <= |log[n].ents|
  {
    log[..n] + [LogPage(log[n].id, log[n].ents[..slot])]
  }

  /** As long as pages in use are kept and the log is only extended, the walk from the
      log's head to the published tail finds the old log, entry for entry, and its
      replay gives the old file: the index is the old one and every page it names
      holds its old bytes.  `extra` slots may be handed out and not filled in yet. */
  lemma BeforeCommit(m0: Mem, m: Mem, ino: nat, log0: seq<LogPage>, log: seq<LogPage>, extra: nat, index: map<nat, int>, a: nat)
    requires Stored(m0, ino, log0, index) && HeldKept(m0, m, ino) && LogOk(m, ino, log, extra) && Extends(log0, log)
    ensures log0 != [] && |log0| <= |log|
    ensures EndPos(log0).page == log[|log0| - 1].id && EndPos(log0).slot <= |log[|log0| - 1].ents|
    ensures UpTo(log, |log0| - 1, EndPos(log0).slot) == log0
    ensures Replays(LogSpans(UpTo(log, |log0| - 1, EndPos(log0).slot)), index)
    ensures ByteAt(m.bytes, index, a) == ByteAt(m0.bytes, index, a)
  {
    hide LogOk, BacksOk, MarksAll, NoLeak, LogSpans, Replays;
    StoredIndexHeld(m0, ino, log0, index);
    UpToOld(log0, log);
  }

  /** That covers the states between the iterations of the write loop and those inside one
      that began in state `m`: once the data pages are there (`AfterAlloc`), once a slot is handed out, on a page of its own `pg` or not
      (`Opened`), and once the pages are filled (`AfterCopies`). */
  lemma InsideChunk(w: Job, m: Mem, m': Mem, log: seq<LogPage>, pg: seq<LogPage>, newPages: seq<int>, added: seq<Span>, extra: nat)
    requires Writing(w, m, log, newPages, added) && |pg| <= 1 && (pg != [] ==> pg[0].ents == [])
    requires HeldKept(m, m', w.ino) && LogOk(m', w.ino, log + pg, extra)
    ensures HeldKept(w.m0, m', w.ino) && Extends(w.log0, log + pg)
  {
    hide LogOk, BacksOk, Tiles, MarksAll, NoLeak, LogSpans, PagesWritten;
    HeldKeptTrans(w.m0, m, m', w.ino);
  }

  lemma UpToOld(log0: seq<LogPage>, log: seq<LogPage>)
    requires Extends(log0, log)
    ensures UpTo(log, |log0| - 1, |Last(log0).ents|) == log0
  {
    var n := |log0| - 1;
    assert log[n].ents[..|Last(log0).ents|] == Last(log0).ents;
    assert log0 == log0[..n] + [LogPage(log[n].id, Last(log0).ents)];
  }

  lemma ShapeNoLeak(own: seq<Owner<Use>>, ino: nat, log: seq<LogPage>, log': seq<LogPage>, loose: set<int>)
    requires NoLeak(own, ino, log, loose) && SameShape(log, log') && Ids(log') == Ids(log)
    ensures NoLeak(own, ino, log', loose)
  {
    hide Ids;
    forall p, pos | InEntry(log, p, pos)
      ensures InEntry(log', p, pos)
    {
      var k, s :| 0 <= k < |log| && 0 <= s < |log[k].ents| && pos == Pos(log[k].id, s) && p in log[k].ents[s].pages;
      assert 0 <= k < |log'| && 0 <= s < |log'[k].ents| && pos == Pos(log'[k].id, s) && p in log'[k].ents[s].pages;
    }
  }

  lemma ShapeSizeOk(log: seq<LogPage>, log': seq<LogPage>, size: nat)
    requires SizeOk(log, size) && SameShape(log, log')
    ensures SizeOk(log', size)
  {
  }

  lemma AppendSizeOk(log: seq<LogPage>, e: Ent)
    requires log != []
    ensures SizeOk(Append(log, e), e.rec.fileSize)
  {
  }

  /** After the replay the inode is stored again, with the write in the file. */
  lemma WriteDone(w: Job, m: Mem, m': Mem, log: seq<LogPage>, log': seq<LogPage>, index': map<nat, int>,
                  newPages: seq<int>, added: seq<Span>)
    requires Writing(w, m, log, newPages, added) && Stored(w.m0, w.ino, w.log0, w.index)
    requires ReplayOk(Replay(LogSpans(w.log0), w.index, w.off / PAGE_SIZE, newPages), m', w.ino, log', index', |newPages|)
    requires SameShape(log, log') && OnlySlots(m, m', Ids(log)) && Ids(log') == Ids(log) && log' != []
    ensures Stored(m', w.ino, log', index')
  {
    hide LogOk, BacksOk, Tiles, NoLeak, LogSpans, Replays, HeldKept, PagesWritten, SameShape, Ids, MarksOk, Extends;
    ShapeSpans(log, log');
    InstalledReplays(LogSpans(w.log0), added, w.index, index', w.off / PAGE_SIZE, newPages);
    assert Pend(newPages, |newPages|) == {};
    ShapeNoLeak(m.own, w.ino, log, log', {});
  }

  lemma WriteWrote(w: Job, m: Mem, bytes': seq<Page>, index': map<nat, int>, newPages: seq<int>)
    requires PagesWritten(w, m, newPages) && IndexHeld(w.m0, w.index) && bytes' == m.bytes
    requires Installed(w.index, index', w.off / PAGE_SIZE, newPages, |newPages|)
    requires w.buf != []
    requires forall fp: nat :: Touched(w.off, |w.buf|, fp) <==> w.off / PAGE_SIZE <= fp < w.off / PAGE_SIZE + |newPages|
    ensures Wrote(w.b, w.off, w.buf, w.m0.bytes, w.index, bytes', index')
  {
    hide Image, Touched;
    var first := w.off / PAGE_SIZE;
    forall fp: nat | Touched(w.off, |w.buf|, fp)
      ensures fp in index' && 0 <= index'[fp] < |bytes'|
      ensures bytes'[index'[fp]] == Image(w.b, w.off, w.buf, fp, PageOf(w.m0.bytes, w.index, fp), w.m0.bytes[index'[fp]])
    {
      assert Lookup(index', fp) == Some(newPages[fp - first]);
    }
    forall fp: nat | !Touched(w.off, |w.buf|, fp)
      ensures PageOf(bytes', index', fp) == PageOf(w.m0.bytes, w.index, fp)
    {
      assert Lookup(index', fp) == Lookup(w.index, fp);
    }
  }

  /** Pages in use keep everything but counters and marks in the inode's own log. */
  lemma ReplayKeeps(w: Job, m: Mem, m': Mem, log: seq<LogPage>)
    requires HeldKept(w.m0, m, w.ino) && LogOk(m, w.ino, log, 0) && MemOk(m') && OnlySlots(m, m', Ids(log))
    ensures HeldKept(w.m0, m', w.ino)
  {
    hide PageOk;
    LogIds(m, w.ino, log, 0);
    forall p | p in Ids(log) ensures 0 <= p < |m.own| && m.own[p] == Held(Use(w.ino, LogRole)) {
    }
  }
}
