/** A write of no bytes inside a page, as written: the region and the log on the way. */
module EmptyWrites {
  import opened PageLists
  import opened Layout
  import opened LogModel
  import opened Region
  import opened WriteModel
  import opened FileSpec
  import opened LogStore
  import opened LogMeaning
  import opened WriteSteps

  /** The entry of the one page `q` that file page `fp` gets. */
  function NothingEntry(q: int, fp: nat, fileSize: nat): Ent {
    Ent(Entry(q, fileSize, FileOff(fp), FileOff(fp), 1, 0, 0), [q], {})
  }

  /** The entry is on the log: `m` was the region before, `m1` is it now.  Nothing has
      been written to `q` and its entry word is not set. */
  ghost predicate NothingAppended(m: Mem, m1: Mem, ino: nat, log: seq<LogPage>, pg: seq<LogPage>, q: int, fp: nat, fileSize: nat) {
    && MemOk(m) && MemOk(m1) && |m1.next| == |m.next| && log != [] && |pg| <= 1 && (pg != [] ==> pg[0].ents == [])
    && 0 <= q < |m.own| && m.own[q].Free? && m1.bytes == m.bytes && m1.back == m.back
    && LogOk(m1, ino, Append(log + pg, NothingEntry(q, fp, fileSize)), 0)
    && HeldKept(m, m1, ino)
    && (forall p | 0 <= p < |m.own| && m.own[p].Free? && m1.own[p].Held? ::
          || (p == q && m1.own[p] == Held(Use(ino, DataRole(EndPos(log + pg)))))
          || (pg != [] && p == pg[0].id && m1.own[p] == Held(Use(ino, LogRole))))
  }

  /** The region with the entry word of `q` set, of which the replay lemmas speak. */
  function WithWord(m: Mem, q: int, pos: Pos): Mem
    requires MemOk(m) && 0 <= q < |m.own|
  {
    m.(back := m.back[q := pos])
  }

  lemma WithWordLog(m: Mem, ino: nat, log: seq<LogPage>, q: int, pos: Pos)
    requires MemOk(m) && 0 <= q < |m.own|
    ensures LogOk(m, ino, log, 0) <==> LogOk(WithWord(m, q, pos), ino, log, 0)
  {
    var m' := WithWord(m, q, pos);
    if LogOk(m, ino, log, 0) {
      LogFrame(m, m', ino, log, 0);
    }
    if LogOk(m', ino, log, 0) {
      LogFrame(m', m, ino, log, 0);
    }
  }

  function NothingReplay(log: seq<LogPage>, index: map<nat, int>, q: int, fp: nat): Replay {
    Replay(LogSpans(log), index, fp, [q])
  }

  /** The replay is about to begin. */
  lemma NothingReplayStart(m: Mem, m1: Mem, ino: nat, log: seq<LogPage>, pg: seq<LogPage>, index: map<nat, int>, q: int, fp: nat, fileSize: nat)
    returns (a: nat, t: nat)
    requires Stored(m, ino, log, index) && NothingAppended(m, m1, ino, log, pg, q, fp, fileSize)
    ensures var log', mw := Append(log + pg, NothingEntry(q, fp, fileSize)), WithWord(m1, q, EndPos(log + pg));
      && ReplayOk(NothingReplay(log, index, q, fp), mw, ino, log', index, 0)
      && NewAt(NothingReplay(log, index, q, fp), log', 0, a, t, 0)
    ensures fp in index ==> index[fp] != q
  {
    hide Stored, StoredLog, LogOk, Append, LogSpans, HeldKept, BacksOk, BackOk, MarksAll, Replays, EndPos;
    var e, pos := NothingEntry(q, fp, fileSize), EndPos(log + pg);
    var log', mw := Append(log + pg, e), WithWord(m1, q, pos);
    StoredPieces(m, ino, log, index);
    StoredIndexHeld(m, ino, log, index);
    WithWordLog(m1, ino, log', q, pos);
    OneBack(mw.back, pos, e, q);
    AppendBacks(m, mw.back, ino, log, pg, e);
    PendOne(q);
    AppendMarks(m, ino, log, pg, e, index, {}, Pend([q], 0));
    AppendedSpans(log, pg, e);
    NothingInstalled(index, fp, [q]);
    AppendNew(log, pg, e);
    a, t := |log| + |pg| - 1, |Last(log + pg).ents|;
    FileOffAligned(fp);
  }

  lemma StoredPieces(m: Mem, ino: nat, log: seq<LogPage>, index: map<nat, int>)
    requires Stored(m, ino, log, index)
    ensures log != [] && LogOk(m, ino, log, 0) && BacksOk(m.back, log) && MarksAll(log, index, {}) && Replays(LogSpans(log), index)
    ensures NoLeak(m.own, ino, log, {})
  {
  }

  lemma OneBack(back: seq<Pos>, pos: Pos, e: Ent, q: int)
    requires e.pages == [q] && 0 <= q < |back| && back[q] == pos
    ensures BackOk(back, pos, e)
  {
  }

  lemma PendOne(q: int)
    ensures Pend([q], 0) == {q} && Pend([q], 1) == {}
  {
    assert [q][0..] == [q] && [q][1..] == [];
  }

  /** Once the index has moved on, the log is stored but for the entry word of `q`. */
  lemma NothingDone(m: Mem, m1: Mem, m': Mem, ino: nat, log: seq<LogPage>, pg: seq<LogPage>, log': seq<LogPage>,
                    index: map<nat, int>, index': map<nat, int>, q: int, fp: nat, fileSize: nat)
    requires Stored(m, ino, log, index) && NothingAppended(m, m1, ino, log, pg, q, fp, fileSize) && MemOk(m') && |m'.own| == |m.own|
    requires var log1 := Append(log + pg, NothingEntry(q, fp, fileSize));
      SameShape(log1, log') && OnlySlots(m1, m', Ids(log1)) && Ids(log') == Ids(log1) && log' != []
    requires index' == index[fp := q]
    requires ReplayOk(NothingReplay(log, index, q, fp), WithWord(m', q, EndPos(log + pg)), ino, log', index', 1)
    ensures StoredLog(m', ino, log', index') && SizeOk(log', fileSize)
    ensures BacksOk(m'.back, log') <==> m'.back[q] == EndPos(log + pg)
  {
    hide Stored, StoredLog, LogOk, Append, LogSpans, HeldKept, BacksOk, BackOk, MarksAll, Replays, SameShape, Ids, NoLeak, SizeOk, EndPos;
    var e, pos := NothingEntry(q, fp, fileSize), EndPos(log + pg);
    var log1 := Append(log + pg, e);
    StoredPieces(m, ino, log, index);
    WithWordLog(m', ino, log', q, pos);
    PendOne(q);
    HeldStays(m, m1, ino);
    AppendNoLeak(m.own, m1.own, ino, log, pg, e, {});
    ShapeNoLeak(m1.own, ino, log1, log', {});
    AppendedSpans(log, pg, e);
    SpanOfChunk(e, fp, [q]);
    ShapeSpans(log1, log');
    CoverPush(LogSpans(log), index, fp, q);
    AppendSizeOk(log + pg, e);
    ShapeSizeOk(log1, log', fileSize);
    StoredIf(m', ino, log', index');
    NothingWord(m', log, pg, log', e, q);
  }

  lemma HeldStays(m: Mem, m': Mem, ino: nat)
    requires HeldKept(m, m', ino)
    ensures forall p | 0 <= p < |m.own| && m.own[p].Held? :: m'.own[p] == m.own[p]
  {
  }

  lemma StoredIf(m: Mem, ino: nat, log: seq<LogPage>, index: map<nat, int>)
    requires log != [] && LogOk(m, ino, log, 0) && MarksAll(log, index, {}) && Replays(LogSpans(log), index) && NoLeak(m.own, ino, log, {})
    ensures StoredLog(m, ino, log, index)
  {
  }

  lemma CoverPush(l: seq<Span>, index: map<nat, int>, fp: nat, q: int)
    requires Replays(l, index)
    ensures Replays(l + [Span(fp, [q])], index[fp := q])
  {
    var l' := l + [Span(fp, [q])];
    assert l'[..|l|] == l;
    forall x: nat
      ensures Cover(l', x) == Lookup(index[fp := q], x)
    {
      assert Cover(l, x) == Lookup(index, x);
    }
  }

  /** The entry words are right exactly if the one that was not set happens to be. */
  lemma NothingWord(m: Mem, log: seq<LogPage>, pg: seq<LogPage>, log': seq<LogPage>, e: Ent, q: int)
    requires MemOk(m) && 0 <= q < |m.own| && log != [] && e.pages == [q]
    requires SameShape(Append(log + pg, e), log') && BacksOk(m.back[q := EndPos(log + pg)], log')
    ensures BacksOk(m.back, log') <==> m.back[q] == EndPos(log + pg)
  {
    hide Append, EndPos;
    var pos := EndPos(log + pg);
    AppendNew(log, pg, e);
    if m.back[q] == pos {
      assert m.back[q := pos] == m.back;
    } else {
      var k, s := |log| + |pg| - 1, |Last(log + pg).ents|;
      assert log'[k].ents[s].pages == [q] && Pos(log'[k].id, s) == pos;
      assert log'[k].ents[s].pages[0] == q;
      assert !BackOk(m.back, Pos(log'[k].id, s), log'[k].ents[s]);
    }
  }

  /** Pages in use are kept: the log page that takes the entry is the inode's own, and the
      data page was free. */
  lemma NothingKept(m: Mem, m2: Mem, m1: Mem, ino: nat, pos: Pos, q: int)
    requires HeldKept(m, m2, ino) && MemOk(m1) && |m1.next| == |m2.next| && 0 <= q < |m.own| && m.own[q].Free?
    requires 0 <= pos.page < |m2.own| && m2.own[pos.page] == Held(Use(ino, LogRole))
    requires m1.next == m2.next && m1.bytes == m2.bytes && m1.back == m2.back
    requires forall p | 0 <= p < |m1.own| :: m1.own[p] == if p == q then Held(Use(ino, DataRole(pos))) else m2.own[p]
    requires forall p | 0 <= p < |m1.own| && p != pos.page :: m1.hdr[p] == m2.hdr[p] && m1.slot[p] == m2.slot[p]
    ensures HeldKept(m, m1, ino)
  {
  }
}
