/** When the region holds a given log, and how each store the file layer makes
    changes that log. */
module LogStore {
  import opened Chains
  import opened PageLists
  import opened Layout
  import opened Bitmap
  import opened LogModel
  import opened Region

  /** Record `rec` is entry `e`, whose chain of data pages is held in role `role`. */
  ghost predicate EntAs(m: Mem, ino: nat, role: Role, rec: Entry, e: Ent)
    requires MemOk(m)
  {
    && rec == e.rec
    && 0 < |e.pages| <= MAX_PAGES
    && rec.numPages == |e.pages| && rec.data == e.pages[0]
    && Linked(m.next, e.pages)
    && (forall i | 0 <= i < |e.pages| :: m.own[e.pages[i]] == Held(Use(ino, role)))
    && rec.startOff % PAGE_SIZE == 0
    && rec.invalidPages == |e.dead| && Represents(rec.bitmap, e.dead)
    && (forall i | i in e.dead :: i < |e.pages|)
  }

  /** The slot at `pos` holds entry `e` with its chain of data pages. */
  ghost predicate EntOk(m: Mem, ino: nat, pos: Pos, rec: Entry, e: Ent)
    requires MemOk(m)
  {
    EntAs(m, ino, DataRole(pos), rec, e)
  }

  /** `extra` slots are handed out but not filled in yet. */
  ghost predicate PageOk(m: Mem, ino: nat, pg: LogPage, extra: nat)
    requires MemOk(m)
  {
    && 0 <= pg.id < |m.next|
    && m.own[pg.id] == Held(Use(ino, LogRole))
    && |pg.ents| + extra <= SLOTS
    && m.hdr[pg.id] == CountersOf(pg.ents).(objCnt := |pg.ents| + extra)
    && (forall s | 0 <= s < |pg.ents| :: EntOk(m, ino, Pos(pg.id, s), m.slot[pg.id][s], pg.ents[s]))
  }

  function Ids(log: seq<LogPage>): (r: seq<int>)
    ensures |r| == |log| && forall k | 0 <= k < |r| :: r[k] == log[k].id
  {
    seq(|log|, k requires 0 <= k < |log| => log[k].id)
  }

  function Last(log: seq<LogPage>): LogPage
    requires log != []
  {
    log[|log| - 1]
  }

  /** The region holds the log `log` of inode `ino`: log pages chained in order, all
      but the last full, counters right. */
  ghost predicate LogOk(m: Mem, ino: nat, log: seq<LogPage>, extra: nat) {
    && MemOk(m)
    && log != [] && Linked(m.next, Ids(log))
    && (forall k | 0 <= k < |log| - 1 :: PageOk(m, ino, log[k], 0) && |log[k].ents| == SLOTS)
    && PageOk(m, ino, Last(log), extra)
    && (|log| > 1 ==> |Last(log).ents| + extra > 0)
  }

  predicate Mine(o: Owner<Use>, ino: nat) {
    o.Held? && o.holder.ino == ino && (o.holder.role.LogRole? || o.holder.role.DataRole?)
  }

  // ------------------------------------------------------------------- frames

  /** At most the counters and slots of the pages `ids` differ. */
  ghost predicate OnlySlots(m: Mem, m': Mem, ids: seq<int>) {
    && m'.next == m.next && m'.bytes == m.bytes && m'.back == m.back && m'.own == m.own
    && |m'.hdr| == |m.hdr| && |m'.slot| == |m.slot|
    && (forall p | 0 <= p < |m.hdr| && p !in ids :: m'.hdr[p] == m.hdr[p])
    && (forall p | 0 <= p < |m.slot| && p !in ids :: m'.slot[p] == m.slot[p])
  }

  lemma OnlySlotsTrans(a: Mem, b: Mem, c: Mem, ids: seq<int>)
    requires OnlySlots(a, b, ids) && OnlySlots(b, c, ids)
    ensures OnlySlots(a, c, ids)
  {
  }

  lemma EntFrame(m: Mem, m': Mem, ino: nat, pos: Pos, rec: Entry, e: Ent)
    requires MemOk(m) && MemOk(m') && |m'.next| == |m.next|
    requires EntOk(m, ino, pos, rec, e)
    requires forall p | 0 <= p < |m.own| && m.own[p] == Held(Use(ino, DataRole(pos))) ::
               m'.own[p] == m.own[p] && m'.next[p] == m.next[p]
    ensures EntOk(m', ino, pos, rec, e)
  {
    LinkedFrame(m.next, m'.next, e.pages);
  }

  lemma PageFrame(m: Mem, m': Mem, ino: nat, pg: LogPage, extra: nat)
    requires MemOk(m) && MemOk(m') && |m'.next| == |m.next|
    requires PageOk(m, ino, pg, extra)
    requires m'.own[pg.id] == m.own[pg.id] && m'.hdr[pg.id] == m.hdr[pg.id] && m'.slot[pg.id] == m.slot[pg.id]
    requires forall p, s | 0 <= p < |m.own| && 0 <= s < |pg.ents| && m.own[p] == Held(Use(ino, DataRole(Pos(pg.id, s)))) ::
               m'.own[p] == m.own[p] && m'.next[p] == m.next[p]
    ensures PageOk(m', ino, pg, extra)
  {
    hide EntOk;
    forall s | 0 <= s < |pg.ents|
      ensures EntOk(m', ino, Pos(pg.id, s), m'.slot[pg.id][s], pg.ents[s])
    {
      EntFrame(m, m', ino, Pos(pg.id, s), m.slot[pg.id][s], pg.ents[s]);
    }
  }

  /** A log is unaffected by what happens to pages that are not its own. */
  lemma LogFrame(m: Mem, m': Mem, ino: nat, log: seq<LogPage>, extra: nat)
    requires LogOk(m, ino, log, extra) && MemOk(m') && |m'.next| == |m.next|
    requires forall p | 0 <= p < |m.own| && Mine(m.own[p], ino) ::
               m'.own[p] == m.own[p] && m'.next[p] == m.next[p] && m'.hdr[p] == m.hdr[p] && m'.slot[p] == m.slot[p]
    ensures LogOk(m', ino, log, extra)
  {
    hide PageOk;
    LogIds(m, ino, log, extra);
    forall k | 0 <= k < |log|
      ensures PageOk(m', ino, log[k], if k == |log| - 1 then extra else 0)
    {
      PageFrame(m, m', ino, log[k], if k == |log| - 1 then extra else 0);
    }
    LinkedFrame(m.next, m'.next, Ids(log));
  }

  /** Log pages are distinct pages held for the log. */
  lemma LogIds(m: Mem, ino: nat, log: seq<LogPage>, extra: nat)
    requires LogOk(m, ino, log, extra)
    ensures forall k | 0 <= k < |log| :: 0 <= log[k].id < |m.own| && m.own[log[k].id] == Held(Use(ino, LogRole))
    ensures forall j, k | 0 <= j < k < |log| :: log[j].id != log[k].id
    ensures forall k | 0 <= k < |log| :: PageOk(m, ino, log[k], if k == |log| - 1 then extra else 0)
  {
    LinkedNoDup(m.next, Ids(log));
    forall j, k | 0 <= j < k < |log| ensures log[j].id != log[k].id {
      assert Ids(log)[j] != Ids(log)[k];
    }
  }

  // ------------------------------------------------------------------- append

  /** The tail: the first free slot of the last page. */
  function EndPos(log: seq<LogPage>): Pos
    requires log != []
  {
    Pos(Last(log).id, |Last(log).ents|)
  }

  /** Handing out the next slot of the last page. */
  lemma OpenSlot(m: Mem, m': Mem, ino: nat, log: seq<LogPage>)
    requires LogOk(m, ino, log, 0) && |Last(log).ents| < SLOTS
    requires var id := Last(log).id; m' == m.(hdr := m.hdr[id := m.hdr[id].(objCnt := m.hdr[id].objCnt + 1)])
    ensures LogOk(m', ino, log, 1)
  {
    hide EntOk;
    LogIds(m, ino, log, 0);
    forall k | 0 <= k < |log| - 1
      ensures PageOk(m', ino, log[k], 0)
    {
      PageFrame(m, m', ino, log[k], 0);
    }
    forall s | 0 <= s < |Last(log).ents|
      ensures EntOk(m', ino, Pos(Last(log).id, s), m'.slot[Last(log).id][s], Last(log).ents[s])
    {
      EntFrame(m, m', ino, Pos(Last(log).id, s), m.slot[Last(log).id][s], Last(log).ents[s]);
    }
  }

  /** Chaining a fresh page to a full log and handing out its first slot. */
  lemma OpenPage(m: Mem, m': Mem, ino: nat, log: seq<LogPage>, p: nat)
    requires LogOk(m, ino, log, 0) && |Last(log).ents| == SLOTS
    requires p < |m.next| && m.own[p] == Held(Use(ino, Loose)) && m.next[p] == NIL
    requires m' == m.(next := m.next[Last(log).id := p], hdr := m.hdr[p := Counters(1, 0, 0, 0)],
                      own := m.own[p := Held(Use(ino, LogRole))])
    ensures LogOk(m', ino, log + [LogPage(p, [])], 1)
  {
    hide PageOk;
    LogIds(m, ino, log, 0);
    var log' := log + [LogPage(p, [])];
    forall k | 0 <= k < |log|
      ensures PageOk(m', ino, log'[k], 0) && |log'[k].ents| == SLOTS
    {
      PageFrame(m, m', ino, log[k], 0);
    }
    EmptyPageOk(m', ino, p);
    var ids := Ids(log);
    assert ids[|ids| - 1] == Last(log).id;
    LinkedJoin(m.next, ids, [p], m'.next);
    assert Ids(log') == ids + [p];
  }

  lemma EmptyPageOk(m: Mem, ino: nat, p: nat)
    requires MemOk(m) && p < |m.next| && m.own[p] == Held(Use(ino, LogRole)) && m.hdr[p] == Counters(1, 0, 0, 0)
    ensures PageOk(m, ino, LogPage(p, []), 1)
  {
  }

  /** The log with `e` as its newest entry. */
  function Append(log: seq<LogPage>, e: Ent): seq<LogPage>
    requires log != []
  {
    log[|log| - 1 := LogPage(Last(log).id, Last(log).ents + [e])]
  }

  /** Filling in the slot handed out, for the fresh chain `e.pages`. */
  lemma FillSlot(m: Mem, m': Mem, ino: nat, log: seq<LogPage>, e: Ent)
    requires LogOk(m, ino, log, 1)
    requires 0 < |e.pages| <= MAX_PAGES && Linked(m.next, e.pages)
    requires forall i | 0 <= i < |e.pages| :: m.own[e.pages[i]] == Held(Use(ino, Loose))
    requires e.rec.numPages == |e.pages| && e.rec.data == e.pages[0] && e.rec.startOff % PAGE_SIZE == 0
    requires e.rec.invalidPages == 0 && e.rec.bitmap == 0 && e.dead == {}
    requires var pos := EndPos(log);
      && pos.slot < SLOTS
      && m' == m.(slot := m.slot[pos.page := m.slot[pos.page][pos.slot := e.rec]],
                  hdr := m.hdr[pos.page := m.hdr[pos.page].(pagesCnt := m.hdr[pos.page].pagesCnt + |e.pages|)],
                  own := Grant(m.own, e.pages, Held(Use(ino, DataRole(pos)))))
    ensures LogOk(m', ino, Append(log, e), 0)
  {
    hide PageOk, EntOk;
    LogIds(m, ino, log, 1);
    var log' := Append(log, e);
    forall k | 0 <= k < |log| - 1
      ensures PageOk(m', ino, log'[k], 0) && |log'[k].ents| == SLOTS
    {
      PageFrame(m, m', ino, log[k], 0);
    }
    FillLast(m, m', ino, Last(log), e);
    assert Ids(log') == Ids(log);
  }

  lemma FillLast(m: Mem, m': Mem, ino: nat, pg: LogPage, e: Ent)
    requires MemOk(m) && PageOk(m, ino, pg, 1)
    requires 0 < |e.pages| <= MAX_PAGES && Linked(m.next, e.pages)
    requires forall i | 0 <= i < |e.pages| :: m.own[e.pages[i]] == Held(Use(ino, Loose))
    requires e.rec.numPages == |e.pages| && e.rec.data == e.pages[0] && e.rec.startOff % PAGE_SIZE == 0
    requires e.rec.invalidPages == 0 && e.rec.bitmap == 0 && e.dead == {}
    requires m' == m.(slot := m.slot[pg.id := m.slot[pg.id][|pg.ents| := e.rec]],
                      hdr := m.hdr[pg.id := m.hdr[pg.id].(pagesCnt := m.hdr[pg.id].pagesCnt + |e.pages|)],
                      own := Grant(m.own, e.pages, Held(Use(ino, DataRole(Pos(pg.id, |pg.ents|))))))
    ensures PageOk(m', ino, LogPage(pg.id, pg.ents + [e]), 0)
  {
    hide EntOk;
    var n := |pg.ents|;
    var pg' := LogPage(pg.id, pg.ents + [e]);
    assert pg'.ents[..n] == pg.ents;
    forall s | 0 <= s < n
      ensures EntOk(m', ino, Pos(pg.id, s), m'.slot[pg.id][s], pg'.ents[s])
    {
      EntFrame(m, m', ino, Pos(pg.id, s), m.slot[pg.id][s], pg.ents[s]);
    }
    NewEntOk(m', ino, Pos(pg.id, n), e);
  }

  lemma NewEntOk(m: Mem, ino: nat, pos: Pos, e: Ent)
    requires MemOk(m) && 0 < |e.pages| <= MAX_PAGES && Linked(m.next, e.pages)
    requires forall i | 0 <= i < |e.pages| :: m.own[e.pages[i]] == Held(Use(ino, DataRole(pos)))
    requires e.rec.numPages == |e.pages| && e.rec.data == e.pages[0] && e.rec.startOff % PAGE_SIZE == 0
    requires e.rec.invalidPages == 0 && e.rec.bitmap == 0 && e.dead == {}
    ensures EntOk(m, ino, pos, e.rec, e)
  {
    ClearMarksNothing();
  }

  // --------------------------------------------------------------- invalidate

  /** The entry with position `i` marked. */
  function MarkEnt(e: Ent, i: nat): Ent {
    e.(rec := e.rec.(bitmap := Mark(e.rec.bitmap, i), invalidPages := e.rec.invalidPages + 1), dead := e.dead + {i})
  }

  /** The log with position `i` of entry `(k, s)` marked. */
  function MarkLog(log: seq<LogPage>, k: nat, s: nat, i: nat): seq<LogPage>
    requires k < |log| && s < |log[k].ents|
  {
    log[k := LogPage(log[k].id, log[k].ents[s := MarkEnt(log[k].ents[s], i)])]
  }

  lemma MarkIds(log: seq<LogPage>, k: nat, s: nat, i: nat)
    requires k < |log| && s < |log[k].ents|
    ensures Ids(MarkLog(log, k, s, i)) == Ids(log)
    ensures log[k].id in Ids(log)
  {
    assert Ids(log)[k] == log[k].id;
  }

  lemma MarkSlot(m: Mem, m': Mem, ino: nat, log: seq<LogPage>, k: nat, s: nat, i: nat)
    requires LogOk(m, ino, log, 0) && k < |log| && s < |log[k].ents|
    requires i < |log[k].ents[s].pages| && i !in log[k].ents[s].dead
    requires var id, e := log[k].id, MarkEnt(log[k].ents[s], i);
      && 0 <= id < |m.slot| && s < SLOTS
      && m' == m.(slot := m.slot[id := m.slot[id][s := e.rec]],
                  hdr := m.hdr[id := Invalidated(m.hdr[id], e.rec.numPages == e.rec.invalidPages)])
    ensures LogOk(m', ino, MarkLog(log, k, s, i), 0)
  {
    hide PageOk, EntOk;
    LogIds(m, ino, log, 0);
    var log' := MarkLog(log, k, s, i);
    forall j | 0 <= j < |log| && j != k
      ensures PageOk(m', ino, log'[j], 0)
    {
      PageFrame(m, m', ino, log[j], 0);
    }
    MarkPage(m, m', ino, log[k], s, i);
    assert Ids(log') == Ids(log);
  }

  lemma MarkPage(m: Mem, m': Mem, ino: nat, pg: LogPage, s: nat, i: nat)
    requires MemOk(m) && PageOk(m, ino, pg, 0) && s < |pg.ents|
    requires i < |pg.ents[s].pages| && i !in pg.ents[s].dead
    requires var e := MarkEnt(pg.ents[s], i);
      && m' == m.(slot := m.slot[pg.id := m.slot[pg.id][s := e.rec]],
                  hdr := m.hdr[pg.id := Invalidated(m.hdr[pg.id], e.rec.numPages == e.rec.invalidPages)])
    ensures PageOk(m', ino, LogPage(pg.id, pg.ents[s := MarkEnt(pg.ents[s], i)]), 0)
  {
    hide EntOk;
    var e := MarkEnt(pg.ents[s], i);
    var pg' := LogPage(pg.id, pg.ents[s := e]);
    forall t | 0 <= t < |pg.ents|
      ensures EntOk(m', ino, Pos(pg.id, t), m'.slot[pg.id][t], pg'.ents[t])
    {
      if t == s {
        MarkEntOk(m, m', ino, Pos(pg.id, s), m.slot[pg.id][s], pg.ents[s], i);
      } else {
        EntFrame(m, m', ino, Pos(pg.id, t), m.slot[pg.id][t], pg.ents[t]);
      }
    }
    MarkEntOk(m, m', ino, Pos(pg.id, s), m.slot[pg.id][s], pg.ents[s], i);
    CountersInvalidate(pg.ents, s, e);
  }

  lemma MarkEntOk(m: Mem, m': Mem, ino: nat, pos: Pos, rec: Entry, e: Ent, i: nat)
    requires MemOk(m) && MemOk(m') && m'.next == m.next && m'.own == m.own
    requires EntOk(m, ino, pos, rec, e) && i < |e.pages| && i !in e.dead
    ensures EntOk(m', ino, pos, MarkEnt(e, i).rec, MarkEnt(e, i))
    ensures |e.dead| + 1 == |MarkEnt(e, i).dead| <= |e.pages|
    ensures MarkEnt(e, i).rec.numPages == |e.pages| && MarkEnt(e, i).rec.invalidPages == |MarkEnt(e, i).dead|
  {
    var all := Range(0, |e.pages|);
    assert e.dead + {i} <= all;
    MarkAdds(e.rec.bitmap, e.dead, i);
    SubsetSize(e.dead + {i}, all);
  }

  // ------------------------------------------------------------------- unlink

  function RetireOne(o: Owner<Use>, p: int, ino: nat, id: int): Owner<Use> {
    if p == id then Held(Use(ino, Loose))
    else if o.Held? && o.holder.ino == ino && o.holder.role.DataRole? && o.holder.role.pos.page == id
    then Held(Use(ino, Pending(o.holder.role.pos)))
    else o
  }

  /** The data pages of log page `id` become `Pending`, the page itself `Loose`. */
  function Retire(own: seq<Owner<Use>>, ino: nat, id: int): (r: seq<Owner<Use>>)
    ensures |r| == |own| && forall p | 0 <= p < |own| :: r[p] == RetireOne(own[p], p, ino, id)
  {
    seq(|own|, p requires 0 <= p < |own| => RetireOne(own[p], p, ino, id))
  }

  lemma EntRetires(m: Mem, m': Mem, ino: nat, id: int, pos: Pos, rec: Entry, e: Ent)
    requires MemOk(m) && MemOk(m') && |m'.next| == |m.next| && EntOk(m, ino, pos, rec, e)
    requires m'.own == Retire(m.own, ino, id) && 0 <= id < |m.own| && m.own[id] == Held(Use(ino, LogRole))
    requires forall p | 0 <= p < |m.own| && m.own[p] == Held(Use(ino, DataRole(pos))) :: m'.next[p] == m.next[p]
    ensures pos.page == id ==> EntAs(m', ino, Pending(pos), rec, e)
    ensures pos.page != id ==> EntOk(m', ino, pos, rec, e)
  {
    LinkedFrame(m.next, m'.next, e.pages);
  }

  lemma PageRetires(m: Mem, m': Mem, ino: nat, id: int, pg: LogPage, extra: nat)
    requires MemOk(m) && MemOk(m') && |m'.next| == |m.next| && PageOk(m, ino, pg, extra)
    requires m'.own == Retire(m.own, ino, id) && 0 <= id < |m.own| && m.own[id] == Held(Use(ino, LogRole))
    requires m'.hdr == m.hdr && m'.slot == m.slot
    requires forall p | 0 <= p < |m.own| && m.own[p].Held? && m.own[p].holder.role.DataRole? :: m'.next[p] == m.next[p]
    ensures pg.id != id ==> PageOk(m', ino, pg, extra)
    ensures pg.id == id ==> forall s | 0 <= s < |pg.ents| :: EntAs(m', ino, Pending(Pos(id, s)), m'.slot[id][s], pg.ents[s])
  {
    hide EntOk, EntAs;
    forall s | 0 <= s < |pg.ents|
      ensures pg.id == id ==> EntAs(m', ino, Pending(Pos(id, s)), m'.slot[id][s], pg.ents[s])
      ensures pg.id != id ==> EntOk(m', ino, Pos(pg.id, s), m'.slot[pg.id][s], pg.ents[s])
    {
      EntRetires(m, m', ino, id, Pos(pg.id, s), m.slot[pg.id][s], pg.ents[s]);
    }
  }

  /** The log without its page `k`. */
  function Drop(log: seq<LogPage>, k: nat): seq<LogPage>
    requires k < |log|
  {
    log[..k] + log[k + 1..]
  }

  /** `start_gc_task`'s unlinking (src/gc.c:158-166): `next` with page `k` taken out. */
  function UnlinkAt(next: seq<int>, ids: seq<int>, k: nat): seq<int>
    requires k < |ids| && forall i | 0 <= i < |ids| :: 0 <= ids[i] < |next|
  {
    (if k == 0 then next else next[ids[k - 1] := next[ids[k]]])[ids[k] := NIL]
  }

  lemma UnlinkLinks(next: seq<int>, ids: seq<int>, k: nat)
    requires Linked(next, ids) && k < |ids|
    ensures Linked(UnlinkAt(next, ids, k), ids[..k] + ids[k + 1..])
    ensures UnlinkAt(next, ids, k)[ids[k]] == NIL
    ensures k == 0 ==> next[ids[0]] == First(ids[1..])
  {
    LinkedNoDup(next, ids);
    var u, next' := ids[..k] + ids[k + 1..], UnlinkAt(next, ids, k);
    assert forall i | 0 <= i < |u| :: u[i] == ids[if i < k then i else i + 1];
    forall i, j | 0 <= i < j < |u| && j == i + 1
      ensures next'[u[i]] == u[j]
    {
      if i == k - 1 {
        assert next[ids[k]] == ids[k + 1];
      } else {
        var x := if i < k then i else i + 1;
        assert next[ids[x]] == ids[x + 1];
      }
    }
    if k + 1 < |ids| {
      assert next[ids[k]] == ids[k + 1];
    }
  }

  lemma Unlink(m: Mem, m': Mem, ino: nat, log: seq<LogPage>, k: nat)
    requires LogOk(m, ino, log, 0) && k < |log| - 1 && MemOk(m')
    requires forall i | 0 <= i < |log| :: 0 <= log[i].id < |m.next|
    requires m' == m.(next := UnlinkAt(m.next, Ids(log), k), own := Retire(m.own, ino, log[k].id))
    ensures LogOk(m', ino, Drop(log, k), 0)
    ensures |log[k].ents| == SLOTS && m.hdr[log[k].id] == CountersOf(log[k].ents).(objCnt := SLOTS)
    ensures m'.own[log[k].id] == Held(Use(ino, Loose)) && m'.next[log[k].id] == NIL
    ensures forall s | 0 <= s < SLOTS :: EntAs(m', ino, Pending(Pos(log[k].id, s)), m'.slot[log[k].id][s], log[k].ents[s])
  {
    hide PageOk, EntAs, RetireOne, UnlinkAt, Linked, Drop, EntOk;
    LogIds(m, ino, log, 0);
    UnlinkLinks(m.next, Ids(log), k);
    UnlinkTouches(m, ino, log, k);
    DropIds(log, k);
    DropPages(m, m', ino, log, k);
    PageRetires(m, m', ino, log[k].id, log[k], 0);
    PageHeader(m, ino, log[k]);
    RetiredPage(m.own, ino, log[k].id);
  }

  /** The other pages of the log do not notice the unlinking. */
  lemma DropPages(m: Mem, m': Mem, ino: nat, log: seq<LogPage>, k: nat)
    requires LogOk(m, ino, log, 0) && k < |log| - 1 && MemOk(m') && |m'.next| == |m.next|
    requires 0 <= log[k].id < |m.own| && m.own[log[k].id] == Held(Use(ino, LogRole))
    requires m'.own == Retire(m.own, ino, log[k].id) && m'.hdr == m.hdr && m'.slot == m.slot
    requires forall p | 0 <= p < |m.own| && m.own[p].Held? && m.own[p].holder.role.DataRole? :: m'.next[p] == m.next[p]
    ensures var d := Drop(log, k);
      && |d| == |log| - 1 && d != [] && PageOk(m', ino, Last(d), 0) && (|d| > 1 ==> |Last(d).ents| > 0)
      && forall j | 0 <= j < |d| - 1 :: PageOk(m', ino, d[j], 0) && |d[j].ents| == SLOTS
  {
    hide PageOk, Linked, Retire;
    LogIds(m, ino, log, 0);
    var d := Drop(log, k);
    forall j | 0 <= j < |d|
      ensures d[j] == log[if j < k then j else j + 1] && PageOk(m', ino, d[j], 0)
    {
      PageRetires(m, m', ino, log[k].id, log[if j < k then j else j + 1], 0);
    }
  }

  lemma DropIds(log: seq<LogPage>, k: nat)
    requires k < |log|
    ensures Ids(Drop(log, k)) == Ids(log)[..k] + Ids(log)[k + 1..]
  {
  }

  lemma RetiredPage(own: seq<Owner<Use>>, ino: nat, id: int)
    requires 0 <= id < |own|
    ensures Retire(own, ino, id)[id] == Held(Use(ino, Loose))
  {
  }

  lemma RetiredHeld(own: seq<Owner<Use>>, ino: nat, id: int)
    requires 0 <= id < |own| && own[id].Held?
    ensures forall p | 0 <= p < |own| && own[p].Free? :: Retire(own, ino, id)[p] == own[p]
    ensures forall p | 0 <= p < |own| && own[p].Held? :: Retire(own, ino, id)[p].Held?
  {
  }

  lemma UnlinkTouches(m: Mem, ino: nat, log: seq<LogPage>, k: nat)
    requires MemOk(m) && k < |log|
    requires forall i | 0 <= i < |log| :: 0 <= log[i].id < |m.next| && m.own[log[i].id] == Held(Use(ino, LogRole))
    ensures forall p | 0 <= p < |m.own| && m.own[p] != Held(Use(ino, LogRole)) :: UnlinkAt(m.next, Ids(log), k)[p] == m.next[p]
  {
    if k > 0 {
      assert Ids(log)[k - 1] == log[k - 1].id;
    }
  }

  lemma PageHeader(m: Mem, ino: nat, pg: LogPage)
    requires MemOk(m) && PageOk(m, ino, pg, 0)
    ensures m.hdr[pg.id] == CountersOf(pg.ents).(objCnt := |pg.ents|)
  {
  }
}
